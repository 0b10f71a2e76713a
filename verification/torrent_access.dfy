/** Who is served what, over whole runs: every answer of the torrent service read from
  * the log of requests alone. `last` below is a torrent's last word in the log: who
  * added it last, from what, and as which torrent.
  */
module TorrentAccess {
  import opened Wrappers
  import opened TorrentLibrary

  type Arrival = (UserID, Option<Source>, Handle)

  ghost function Last(acts: seq<Act>, id: TorrentID): Option<Arrival> {
    LastArrival(EMPTY, Log(EMPTY, acts), id)
  }

  /** Whoever added a torrent last reads it, and whoever a room shows it to, and
    * nobody else. Nobody is kept from a torrent that is not there. */
  lemma ReadersAreOwnerAndRoom(acts: seq<Act>, visibility: Option<Visibility>, user: UserID, id: TorrentID)
    ensures var last := Last(acts, id);
      CanRead(Run(EMPTY, acts), visibility, user, id)
      <==> last.None? || last.value.0 == user || (visibility.Some? && id in visibility.value(user))
  {
    LibraryFollowsTheLog(acts, id);
  }

  lemma LibraryOfTheLog(acts: seq<Act>, id: TorrentID, user: UserID)
    ensures var lib, last := Run(EMPTY, acts), Last(acts, id);
      && (id in lib.torrents <==> last.Some?) && (last.Some? ==> lib.torrents[id] == last.value.2)
      && (id in lib.owners <==> last.Some?) && (last.Some? ==> lib.owners[id] == last.value.0)
      && Choice(lib, id, user) == LastChoice(EMPTY, Log(EMPTY, acts), id, user)
  {
    LibraryFollowsTheLog(acts, id);
    ChoicesFollowTheLog(EMPTY, acts, id, user);
  }

  /** Every answer, from the log: a stream and subtitles are for whoever was the
    * torrent's last adder when the permission was checked, after `k` requests, or is
    * shown it by the room, and serve the torrent of the last word when it is looked up. */
  lemma StreamsFollowTheLog(acts: seq<Act>, k: nat, id: TorrentID, user: UserID, index: int,
                            visibility: Option<Visibility>)
    requires k <= |acts|
    ensures var lib := Run(EMPTY, acts);
      var allowed := CanRead(Run(EMPTY, acts[..k]), visibility, user, id);
      var checked, last := Last(acts[..k], id), Last(acts, id);
      var choice := LastChoice(EMPTY, Log(EMPTY, acts), id, user);
      var entitled :=
        checked.None? || checked.value.0 == user || (visibility.Some? && id in visibility.value(user));
      && OutcomeOf(lib, Serve(id, user, allowed)) == (
           if !entitled || last.None? then Refused(NotFound)
           else if choice.None? then Refused(NotSelected)
           else if choice.value < last.value.2.fileCount then Streaming(last.value.2, choice.value)
           else Refused(InvalidInput))
      && OutcomeOf(lib, Subtitles(id, user, index, allowed)) == (
           if !entitled || last.None? then Refused(NotFound)
           else if 0 <= index < last.value.2.fileCount then Streaming(last.value.2, index)
           else Refused(InvalidInput))
  {
    hide Last, Run, Log, LastChoice, CanRead;
    ReadersAreOwnerAndRoom(acts[..k], visibility, user, id);
    LibraryOfTheLog(acts, id, user);
  }

  /** A selection is refused in this order, and otherwise becomes the participant's
    * last choice and nobody else's; a torrent without files takes any index that is
    * not negative. A removal is the last adder's alone. */
  lemma ChangesFollowTheLog(acts: seq<Act>, k: nat, id: TorrentID, user: UserID, index: int, accepts: bool,
                            visibility: Option<Visibility>)
    requires k <= |acts|
    ensures var lib := Run(EMPTY, acts);
      var allowed := CanRead(Run(EMPTY, acts[..k]), visibility, user, id);
      var checked, last := Last(acts[..k], id), Last(acts, id);
      var entitled :=
        checked.None? || checked.value.0 == user || (visibility.Some? && id in visibility.value(user));
      && OutcomeOf(lib, Select(id, user, index, allowed, accepts)) == (
           if !entitled then Refused(Forbidden)
           else if last.None? then Refused(NotFound)
           else if index < 0 || 0 < last.value.2.fileCount <= index then Refused(InvalidInput)
           else if accepts then Done
           else Refused(BackendFailed))
      && OutcomeOf(lib, Remove(id, user)) == (
           if last.None? then Refused(NotFound)
           else if last.value.0 == user then Done
           else Refused(Forbidden))
  {
    hide Last, Run, Log, CanRead;
    ReadersAreOwnerAndRoom(acts[..k], visibility, user, id);
    LibraryOfTheLog(acts, id, user);
  }

  /** What somebody else added is served to a user only if the room shows it to them. */
  lemma StrangersNeedTheRoom(acts: seq<Act>, k: nat, id: TorrentID, user: UserID, index: int,
                             visibility: Option<Visibility>)
    requires k <= |acts| && Last(acts[..k], id).Some? && Last(acts[..k], id).value.0 != user
    requires var lib, allowed := Run(EMPTY, acts), CanRead(Run(EMPTY, acts[..k]), visibility, user, id);
      || OutcomeOf(lib, Serve(id, user, allowed)).Streaming?
      || OutcomeOf(lib, Subtitles(id, user, index, allowed)).Streaming?
      || OutcomeOf(lib, Select(id, user, index, allowed, true)) == Done
    ensures visibility.Some? && id in visibility.value(user)
  {
    hide Last, Run, Log, LastChoice, CanRead, OutcomeOf;
    StreamsFollowTheLog(acts, k, id, user, index, visibility);
    ChangesFollowTheLog(acts, k, id, user, index, true, visibility);
  }

  /** Nobody adds or removes the torrent, and the user does not choose again in it. */
  ghost predicate LeftAlone(acts: seq<Act>, id: TorrentID, user: UserID) {
    forall act | act in acts ::
      && !(act.Insert? && act.handle.id == id)
      && !(act.Remove? && act.id == id)
      && !(act.Select? && act.id == id && act.user == user)
  }

  lemma {:induction false} LeftAloneStays(lib: Library, acts: seq<Act>, id: TorrentID, user: UserID)
    requires LeftAlone(acts, id, user)
    ensures var after := Run(lib, acts);
      && Choice(after, id, user) == Choice(lib, id, user)
      && (id in after.torrents <==> id in lib.torrents)
      && (id in lib.torrents ==> after.torrents[id] == lib.torrents[id])
      && (id in after.owners <==> id in lib.owners)
      && (id in lib.owners ==> after.owners[id] == lib.owners[id])
  {
    hide OutcomeOf;
    if acts != [] {
      var n := |acts| - 1;
      assert acts[n] in acts && forall act | act in acts[..n] :: act in acts;
      LeftAloneStays(lib, acts[..n], id, user);
      StepMovesChoice(Run(lib, acts[..n]), acts[n], id, user);
    }
  }

  /** A guest to whom the room shows a torrent, and who selects a file it has, is
    * served that file, then and for as long as the torrent stays and the guest does not
    * choose another. */
  lemma GuestIsServed(acts: seq<Act>, later: seq<Act>, id: TorrentID, guest: UserID, index: int,
                      visibility: Option<Visibility>)
    requires visibility.Some? && id in visibility.value(guest) && LeftAlone(later, id, guest)
    requires Last(acts, id).Some? && 0 <= index < Last(acts, id).value.2.fileCount
    ensures var lib := Run(EMPTY, acts);
      var selects := Select(id, guest, index, CanRead(lib, visibility, guest, id), true);
      var then_ := Run(Step(lib, selects), later);
      && OutcomeOf(lib, selects) == Done
      && OutcomeOf(then_, Serve(id, guest, CanRead(then_, visibility, guest, id)))
         == Streaming(Last(acts, id).value.2, index)
  {
    hide Last, Run, Log, LastChoice;
    var lib := Run(EMPTY, acts);
    LibraryOfTheLog(acts, id, guest);
    var selects := Select(id, guest, index, CanRead(lib, visibility, guest, id), true);
    StepMovesChoice(lib, selects, id, guest);
    LeftAloneStays(Step(lib, selects), later, id, guest);
  }

  /** Showing a user more never takes an answer away from them. */
  lemma ShowingMoreTakesNothingAway(lib: Library, now: Library, v: Option<Visibility>, w: Option<Visibility>,
                                    user: UserID, id: TorrentID, index: int, accepts: bool)
    requires v.Some? ==> w.Some? && v.value(user) <= w.value(user)
    ensures var less, more := CanRead(lib, v, user, id), CanRead(lib, w, user, id);
      && (less ==> more)
      && (OutcomeOf(now, Serve(id, user, less)) in {OutcomeOf(now, Serve(id, user, more)), Refused(NotFound)})
      && (OutcomeOf(now, Subtitles(id, user, index, less))
          in {OutcomeOf(now, Subtitles(id, user, index, more)), Refused(NotFound)})
      && (OutcomeOf(now, Select(id, user, index, less, accepts))
          in {OutcomeOf(now, Select(id, user, index, more, accepts)), Refused(Forbidden)})
  {
  }

  /** A torrent nobody is known to have added, as an old registry may restore it, is
    * everybody's to read and anybody's to remove, until somebody adds it. */
  lemma UnownedIsEverybodys(start: Library, acts: seq<Act>, id: TorrentID, user: UserID, index: int,
                            visibility: Option<Visibility>)
    requires id in start.torrents && id !in start.owners && LeftAlone(acts, id, user)
    ensures var lib := Run(start, acts);
      && OutcomeOf(lib, Remove(id, user)) == Done
      && (0 <= index < start.torrents[id].fileCount ==>
            OutcomeOf(lib, Subtitles(id, user, index, CanRead(lib, visibility, user, id)))
            == Streaming(start.torrents[id], index))
  {
    hide Run;
    LeftAloneStays(start, acts, id, user);
  }
}
