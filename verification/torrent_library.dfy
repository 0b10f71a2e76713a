/** The torrent service as values: which torrents are live, who added each and
  * from what, and which file each participant chose. A run is a sequence of critical
  * sections. A stream, subtitles and a selection have two: the permission is checked
  * first, and the torrent looked up later, with the verdict of that check in hand.
  */
module TorrentLibrary {
  import opened FiniteSums
  import opened Wrappers

  type TorrentID = string
  type UserID = string
  /** The torrents a participant's room lets them read. */
  type Visibility = UserID -> set<TorrentID>

  const MAX_TORRENTS := 100
  const MAX_TORRENT_FILE_SIZE := 1024 * 1024

  /** What a torrent was added from: a magnet link, or the bytes of a file. */
  datatype Source = Source(magnetURI: string, torrent: seq<bv8>)

  datatype Handle = Handle(id: TorrentID, fileCount: nat)

  datatype Refusal = InvalidInput | Unavailable | BackendFailed | NotFound | Forbidden | NotSelected

  datatype Outcome = Done | Refused(why: Refusal) | Streaming(handle: Handle, index: int)

  datatype Library = Library(
    torrents: map<TorrentID, Handle>,
    selected: map<TorrentID, map<UserID, int>>,
    owners: map<TorrentID, UserID>,
    sources: map<TorrentID, Source>)

  const EMPTY := Library(map[], map[], map[], map[])

  /** A torrent nobody owns is readable by anyone; otherwise by its owner and by
    * whoever a room shows it to. */
  predicate CanRead(lib: Library, visibility: Option<Visibility>, user: UserID, id: TorrentID) {
    || id !in lib.owners
    || lib.owners[id] == user
    || (visibility.Some? && id in visibility.value(user))
  }

  function Choice(lib: Library, id: TorrentID, user: UserID): Option<int> {
    if id in lib.selected && user in lib.selected[id] then Some(lib.selected[id][user]) else None
  }

  /** An index passes against a torrent without files, whatever it is, unless it
    * is negative. */
  predicate IndexAccepted(index: int, maxIndex: int) {
    index >= 0 && !(maxIndex >= 0 && index > maxIndex)
  }

  // ---------- the critical sections ----------

  /** `Insert` is the second half of adding a torrent, once the backend answered.
    * `allowed` is what the permission check said at some earlier moment; `accepts`
    * says whether the backend could narrow its priorities to the file. */
  datatype Act =
    | Insert(user: UserID, source: Source, handle: Handle)
    | Remove(id: TorrentID, user: UserID)
    | Select(id: TorrentID, user: UserID, index: int, allowed: bool, accepts: bool)
    | Serve(id: TorrentID, user: UserID, allowed: bool)
    | Subtitles(id: TorrentID, user: UserID, index: int, allowed: bool)

  function OutcomeOf(lib: Library, act: Act): Outcome {
    match act
    case Insert(_, _, _) => Done
    case Remove(id, user) =>
      if id !in lib.torrents then Refused(NotFound)
      else if id in lib.owners && lib.owners[id] != user then Refused(Forbidden)
      else Done
    case Select(id, user, index, allowed, accepts) =>
      if !allowed then Refused(Forbidden)
      else if id !in lib.torrents then Refused(NotFound)
      else if !IndexAccepted(index, lib.torrents[id].fileCount - 1) then Refused(InvalidInput)
      else if !accepts then Refused(BackendFailed)
      else Done
    case Serve(id, user, allowed) =>
      if !allowed || id !in lib.torrents then Refused(NotFound)
      else if id !in lib.selected || user !in lib.selected[id] then Refused(NotSelected)
      else if lib.selected[id][user] >= lib.torrents[id].fileCount then Refused(InvalidInput)
      else Streaming(lib.torrents[id], lib.selected[id][user])
    case Subtitles(id, user, index, allowed) =>
      if !allowed || id !in lib.torrents then Refused(NotFound)
      else if index < 0 || index >= lib.torrents[id].fileCount then Refused(InvalidInput)
      else Streaming(lib.torrents[id], index)
  }

  function Step(lib: Library, act: Act): Library {
    if OutcomeOf(lib, act) != Done then lib else
    match act
    case Insert(user, source, handle) =>
      lib.(torrents := lib.torrents[handle.id := handle],
           owners := lib.owners[handle.id := user],
           sources := lib.sources[handle.id := source])
    case Remove(id, _) =>
      Library(lib.torrents - {id}, lib.selected - {id}, lib.owners - {id}, lib.sources - {id})
    case Select(id, user, index, _, _) =>
      var choices := if id in lib.selected then lib.selected[id] else map[];
      lib.(selected := lib.selected[id := choices[user := index]])
    case _ => lib
  }

  function Run(lib: Library, acts: seq<Act>): Library {
    if acts == [] then lib else Step(Run(lib, acts[..|acts| - 1]), acts[|acts| - 1])
  }

  // ---------- what a run looks like from outside ----------

  datatype Entry = Entry(act: Act, outcome: Outcome)

  /** Every request of a run with the answer it got. */
  function Log(lib: Library, acts: seq<Act>): (log: seq<Entry>)
    ensures |log| == |acts|
  {
    if acts == [] then [] else
      var init := acts[..|acts| - 1];
      Log(lib, init) + [Entry(acts[|acts| - 1], OutcomeOf(Run(lib, init), acts[|acts| - 1]))]
  }

  /** A torrent's last word in the log: the last time it was added or removed. */
  function LastArrival(start: Library, log: seq<Entry>, id: TorrentID): Option<(UserID, Option<Source>, Handle)> {
    if log == [] then
      if id !in start.torrents || id !in start.owners then None
      else Some((start.owners[id], if id in start.sources then Some(start.sources[id]) else None, start.torrents[id]))
    else
      var e := log[|log| - 1];
      if e.act.Insert? && e.act.handle.id == id then Some((e.act.user, Some(e.act.source), e.act.handle))
      else if e.act.Remove? && e.act.id == id && e.outcome == Done then None
      else LastArrival(start, log[..|log| - 1], id)
  }

  /** The last file `user` successfully chose in torrent `id` and that no removal
    * of the torrent has wiped since. Read from the log alone. */
  function LastChoice(start: Library, log: seq<Entry>, id: TorrentID, user: UserID): Option<int> {
    if log == [] then Choice(start, id, user)
    else
      var e := log[|log| - 1];
      if e.act.Select? && e.act.id == id && e.act.user == user && e.outcome == Done then Some(e.act.index)
      else if e.act.Remove? && e.act.id == id && e.outcome == Done then None
      else LastChoice(start, log[..|log| - 1], id, user)
  }

  // ---------- whole runs ----------

  /** Selections and sources never outlive their torrents, and no selection is
    * negative. */
  ghost predicate Tidy(lib: Library) {
    && lib.selected.Keys <= lib.torrents.Keys
    && lib.sources.Keys <= lib.torrents.Keys
    && (forall id, user | id in lib.selected && user in lib.selected[id] :: lib.selected[id][user] >= 0)
    && (forall id | id in lib.torrents :: lib.torrents[id].id == id)
  }

  lemma {:induction false} StaysTidy(start: Library, acts: seq<Act>)
    requires Tidy(start)
    ensures Tidy(Run(start, acts))
  {
    if acts != [] { StaysTidy(start, acts[..|acts| - 1]); }
  }

  lemma StepMovesChoice(lib: Library, act: Act, id: TorrentID, user: UserID)
    ensures Choice(Step(lib, act), id, user)
         == if act.Select? && act.id == id && act.user == user && OutcomeOf(lib, act) == Done then Some(act.index)
            else if act.Remove? && act.id == id && OutcomeOf(lib, act) == Done then None
            else Choice(lib, id, user)
  {
    hide OutcomeOf;
  }

  lemma {:induction false} ChoicesFollowTheLog(start: Library, acts: seq<Act>, id: TorrentID, user: UserID)
    ensures Choice(Run(start, acts), id, user) == LastChoice(start, Log(start, acts), id, user)
  {
    if acts != [] {
      var init := acts[..|acts| - 1];
      ChoicesFollowTheLog(start, init, id, user);
      StepMovesChoice(Run(start, init), acts[|acts| - 1], id, user);
      hide Step, OutcomeOf, Choice;
      assert Log(start, acts)[..|acts| - 1] == Log(start, init);
    }
  }

  /** Between the check and the lookup a permission is lost only by an add: somebody
    * else's, of the same torrent. */
  lemma {:induction false} OnlyAnAddShutsOut(lib: Library, acts: seq<Act>, id: TorrentID, user: UserID,
                                             visibility: Option<Visibility>) returns (j: nat)
    requires CanRead(lib, visibility, user, id) && !CanRead(Run(lib, acts), visibility, user, id)
    ensures j < |acts| && acts[j].Insert? && acts[j].handle.id == id && acts[j].user != user
  {
    var n := |acts| - 1;
    if CanRead(Run(lib, acts[..n]), visibility, user, id) {
      j := n;
    } else {
      j := OnlyAnAddShutsOut(lib, acts[..n], id, user, visibility);
    }
  }

  lemma {:induction false} RunSplits(lib: Library, acts: seq<Act>, k: nat)
    requires k <= |acts|
    ensures Run(lib, acts) == Run(Run(lib, acts[..k]), acts[k..])
    decreases |acts| - k
  {
    if k == |acts| {
      assert acts[..k] == acts;
    } else {
      var n := |acts| - 1;
      RunSplits(lib, acts[..n], k);
      assert acts[..n][..k] == acts[..k] && acts[k..][..|acts[k..]| - 1] == acts[..n][k..];
    }
  }

  /** A verdict reached after `k` acts and used after all of them: whoever it lets in
    * may still read by then, unless somebody else added the torrent in between. */
  lemma StaleVerdictNeedsAnAdd(start: Library, acts: seq<Act>, k: nat, id: TorrentID, user: UserID,
                               visibility: Option<Visibility>)
    requires k <= |acts| && CanRead(Run(start, acts[..k]), visibility, user, id)
    ensures CanRead(Run(start, acts), visibility, user, id)
            || exists j | k <= j < |acts| :: acts[j].Insert? && acts[j].handle.id == id && acts[j].user != user
  {
    RunSplits(start, acts, k);
    if !CanRead(Run(start, acts), visibility, user, id) {
      var j := OnlyAnAddShutsOut(Run(start, acts[..k]), acts[k..], id, user, visibility);
      assert acts[k..][j] == acts[k + j];
    }
  }

  /** Streaming serves the caller's own last choice, and nobody else's. The permission
    * is checked after `k` acts and the torrent looked up after all of them: the answer
    * is decided by that check, the live handle, and the log of the participant's own
    * selections and of the torrent's removals. A stranger is served only if the torrent
    * was added between the check and the lookup. */
  lemma StreamingServesTheLastChoice(start: Library, acts: seq<Act>, k: nat, id: TorrentID, user: UserID,
                                     visibility: Option<Visibility>)
    requires Tidy(start) && k <= |acts|
    ensures var lib := Run(start, acts);
            var allowed := CanRead(Run(start, acts[..k]), visibility, user, id);
            var answer := OutcomeOf(lib, Serve(id, user, allowed));
            var choice := LastChoice(start, Log(start, acts), id, user);
            && Tidy(lib)
            && answer == (
                 if id !in lib.torrents || !allowed then Refused(NotFound)
                 else if choice.None? then Refused(NotSelected)
                 else if choice.value >= lib.torrents[id].fileCount then Refused(InvalidInput)
                 else Streaming(lib.torrents[id], choice.value))
            && (answer.Streaming? ==> 0 <= answer.index < answer.handle.fileCount && answer.handle.id == id)
            && (answer.Streaming? ==>
                  || CanRead(lib, visibility, user, id)
                  || exists j | k <= j < |acts| :: acts[j].Insert? && acts[j].handle.id == id && acts[j].user != user)
  {
    hide Run, Log, LastChoice;
    StaysTidy(start, acts);
    ChoicesFollowTheLog(start, acts, id, user);
    if CanRead(Run(start, acts[..k]), visibility, user, id) {
      StaleVerdictNeedsAnAdd(start, acts, k, id, user, visibility);
    }
  }

  /** It happens: the check finds nobody's torrent, the owner adds it, and the lookup
    * serves the stranger. */
  lemma StrangerIsServed(lib: Library, owner: UserID, stranger: UserID, source: Source, handle: Handle, index: int)
    requires handle.id !in lib.owners && owner != stranger && 0 <= index < handle.fileCount
    ensures var after := Step(lib, Insert(owner, source, handle));
            var allowed := CanRead(lib, None, stranger, handle.id);
            && allowed && !CanRead(after, None, stranger, handle.id)
            && OutcomeOf(after, Subtitles(handle.id, stranger, index, allowed)) == Streaming(handle, index)
            && OutcomeOf(after, Select(handle.id, stranger, index, allowed, true)) == Done
            && OutcomeOf(Step(after, Select(handle.id, stranger, index, allowed, true)),
                         Serve(handle.id, stranger, allowed)) == Streaming(handle, index)
  {
  }

  /** Started empty, the service holds exactly the torrents whose last word in the
    * log was an arrival, each with the owner, the source and the handle of that
    * arrival. */
  lemma {:induction false} LibraryFollowsTheLog(acts: seq<Act>, id: TorrentID)
    ensures var lib, last := Run(EMPTY, acts), LastArrival(EMPTY, Log(EMPTY, acts), id);
            if last.None? then id !in lib.torrents && id !in lib.owners && id !in lib.sources
            else && id in lib.torrents && lib.torrents[id] == last.value.2
                 && id in lib.owners && lib.owners[id] == last.value.0
                 && id in lib.sources && Some(lib.sources[id]) == last.value.1
  {
    if acts != [] {
      var init := acts[..|acts| - 1];
      LibraryFollowsTheLog(init, id);
      assert Log(EMPTY, acts)[..|acts| - 1] == Log(EMPTY, init);
    }
  }

  /** The run without its selections. */
  function WithoutSelections(acts: seq<Act>): seq<Act> {
    if acts == [] then []
    else
      var init := WithoutSelections(acts[..|acts| - 1]);
      if acts[|acts| - 1].Select? then init else init + [acts[|acts| - 1]]
  }

  lemma {:induction false} SelectionsOnlySelect(start: Library, acts: seq<Act>)
    ensures var with_, without := Run(start, acts), Run(start, WithoutSelections(acts));
            with_.torrents == without.torrents && with_.owners == without.owners && with_.sources == without.sources
  {
    if acts != [] {
      var init, last := acts[..|acts| - 1], acts[|acts| - 1];
      SelectionsOnlySelect(start, init);
      if !last.Select? {
        var shorter := WithoutSelections(init);
        assert (shorter + [last])[..|shorter + [last]| - 1] == shorter;
        SameMove(Run(start, init), Run(start, shorter), last);
      }
    }
  }

  lemma SameMove(a: Library, b: Library, act: Act)
    requires a.torrents == b.torrents && a.owners == b.owners && a.sources == b.sources && !act.Select?
    ensures var a', b' := Step(a, act), Step(b, act);
            a'.torrents == b'.torrents && a'.owners == b'.owners && a'.sources == b'.sources
    ensures !act.Serve? ==> OutcomeOf(a, act) == OutcomeOf(b, act)
  {
  }

  /** Subtitles need no selection: nobody's selections in a run, the reader's own
    * included, change what the check says or what the reader is then served. What is
    * served is an existing file of that torrent, to whoever the check let in. */
  lemma SubtitlesIgnoreSelections(start: Library, acts: seq<Act>, k: nat, id: TorrentID, user: UserID, index: int,
                                  visibility: Option<Visibility>)
    requires Tidy(start) && k <= |acts|
    ensures var lib := Run(start, acts);
            var allowed := CanRead(Run(start, acts[..k]), visibility, user, id);
            var answer := OutcomeOf(lib, Subtitles(id, user, index, allowed));
            && allowed == CanRead(Run(start, WithoutSelections(acts[..k])), visibility, user, id)
            && answer == OutcomeOf(Run(start, WithoutSelections(acts)), Subtitles(id, user, index, allowed))
            && (answer.Streaming? ==>
                  answer.handle.id == id && answer.index == index && 0 <= index < answer.handle.fileCount)
            && (answer.Streaming? <==> id in lib.torrents && allowed && 0 <= index < lib.torrents[id].fileCount)
            && (answer.Streaming? ==>
                  || CanRead(lib, visibility, user, id)
                  || exists j | k <= j < |acts| :: acts[j].Insert? && acts[j].handle.id == id && acts[j].user != user)
  {
    hide Run, WithoutSelections, Step;
    StaysTidy(start, acts);
    SelectionsOnlySelect(start, acts);
    SelectionsOnlySelect(start, acts[..k]);
    if CanRead(Run(start, acts[..k]), visibility, user, id) {
      StaleVerdictNeedsAnAdd(start, acts, k, id, user, visibility);
    }
  }

  /** Nobody but the owner ever takes a torrent away: between two points of a run
    * where an owned torrent is there and then is not, its owner of the moment
    * asked for the removal. */
  lemma {:induction false} OnlyOwnersRemove(start: Library, acts: seq<Act>, id: TorrentID) returns (k: nat)
    requires id in start.torrents && id in start.owners
    requires id !in Run(start, acts).torrents
    ensures k < |acts|
    ensures var before := Run(start, acts[..k]);
            id in before.owners && acts[k] == Remove(id, before.owners[id])
  {
    var init := acts[..|acts| - 1];
    if id in Run(start, init).torrents {
      k := |acts| - 1;
      OwnedStaysOwned(start, init, id);
    } else {
      k := OnlyOwnersRemove(start, init, id);
      assert acts[..k] == init[..k];
    }
  }

  /** An act that gives the torrent another owner, or takes it away. */
  predicate TakesOver(lib: Library, act: Act, id: TorrentID)
    requires id in lib.owners
  {
    || (act.Insert? && act.handle.id == id && act.user != lib.owners[id])
    || (act.Remove? && act.id == id && OutcomeOf(lib, act) == Done)
  }

  /** The owner is the same at every moment of the run. */
  ghost predicate OwnsThroughout(start: Library, acts: seq<Act>, id: TorrentID, owner: UserID) {
    && id in Run(start, acts).owners && Run(start, acts).owners[id] == owner
    && (acts != [] ==> OwnsThroughout(start, acts[..|acts| - 1], id, owner))
  }

  ghost predicate NeverTakenOver(start: Library, acts: seq<Act>, id: TorrentID) {
    acts != [] ==>
      var init := acts[..|acts| - 1];
      && NeverTakenOver(start, init, id)
      && (id in Run(start, init).owners ==> !TakesOver(Run(start, init), acts[|acts| - 1], id))
  }

  /** The first to add a torrent stays its owner exactly as long as nobody else adds it
    * and it is not removed. */
  lemma {:induction false} OwnerStaysExactly(start: Library, acts: seq<Act>, id: TorrentID)
    requires id in start.owners
    ensures OwnsThroughout(start, acts, id, start.owners[id]) <==> NeverTakenOver(start, acts, id)
  {
    if acts != [] {
      var init := acts[..|acts| - 1];
      OwnerStaysExactly(start, init, id);
      hide OutcomeOf;
    }
  }

  /** So anybody who adds an owned torrent again can then remove it. */
  lemma AddedAgainIsTakenOver(lib: Library, user: UserID, source: Source, handle: Handle)
    ensures var after := Step(lib, Insert(user, source, handle));
            && after.owners[handle.id] == user
            && OutcomeOf(after, Remove(handle.id, user)) == Done
            && handle.id !in Step(after, Remove(handle.id, user)).torrents
  {
  }

  lemma {:induction false} OwnedStaysOwned(start: Library, acts: seq<Act>, id: TorrentID)
    requires id in start.torrents && id in start.owners
    requires id in Run(start, acts).torrents
    ensures id in Run(start, acts).owners
  {
    if acts != [] {
      var init := acts[..|acts| - 1];
      if id in Run(start, init).torrents { OwnedStaysOwned(start, init, id); }
    }
  }

  // ---------- the limit on torrents ----------

  /** An add checks the limit first and lands later, once the backend has the
    * metadata. `inFlight` adds have passed the check and not landed; `peak` is
    * the most there ever were. */
  datatype Busy = Busy(lib: Library, inFlight: nat, peak: nat)

  datatype Turn = CheckLimit | Abandon | Land(user: UserID, source: Source, handle: Handle) | Meanwhile(act: Act)

  predicate MayTurn(b: Busy, t: Turn) {
    match t
    case CheckLimit => |b.lib.torrents| < MAX_TORRENTS
    case Abandon => b.inFlight > 0
    case Land(_, _, _) => b.inFlight > 0
    case Meanwhile(act) => !act.Insert?
  }

  function Turned(b: Busy, t: Turn): Busy
    requires MayTurn(b, t)
  {
    match t
    case CheckLimit => Busy(b.lib, b.inFlight + 1, if b.inFlight + 1 > b.peak then b.inFlight + 1 else b.peak)
    case Abandon => b.(inFlight := b.inFlight - 1)
    case Land(user, source, handle) => b.(lib := Step(b.lib, Insert(user, source, handle)), inFlight := b.inFlight - 1)
    case Meanwhile(act) => b.(lib := Step(b.lib, act))
  }

  predicate MayRun(b: Busy, turns: seq<Turn>)
    decreases |turns|
  {
    turns != [] ==> MayTurn(b, turns[0]) && MayRun(Turned(b, turns[0]), turns[1..])
  }

  function Ran(b: Busy, turns: seq<Turn>): Busy
    requires MayRun(b, turns)
    decreases |turns|
  {
    if turns == [] then b else Ran(Turned(b, turns[0]), turns[1..])
  }

  predicate WithinBound(b: Busy) {
    && b.inFlight <= b.peak
    && (b.peak == 0 ==> b.lib.torrents == map[])
    && (b.peak > 0 ==> |b.lib.torrents| + b.inFlight <= MAX_TORRENTS - 1 + b.peak)
  }

  lemma TurnKeepsTheBound(b: Busy, t: Turn)
    requires WithinBound(b) && MayTurn(b, t)
    ensures WithinBound(Turned(b, t))
  {
    if t.Land? {
      var m, id := b.lib.torrents, t.handle.id;
      assert m[id := t.handle].Keys == m.Keys + {id};
      assert |m[id := t.handle].Keys| <= |m.Keys| + 1;
    } else if t.Meanwhile? && t.act.Remove? {
      assert (b.lib.torrents - {t.act.id}).Keys <= b.lib.torrents.Keys;
      SubsetIsNoLarger((b.lib.torrents - {t.act.id}).Keys, b.lib.torrents.Keys);
    }
  }

  /** However adds interleave, the library outgrows the limit by less than the
    * number of adds that were ever in flight together. */
  lemma {:induction false} LimitHoldsUpToFlights(b: Busy, turns: seq<Turn>)
    requires WithinBound(b) && MayRun(b, turns)
    ensures var after := Ran(b, turns);
            WithinBound(after) && (after.peak <= 1 ==> |after.lib.torrents| <= MAX_TORRENTS)
    decreases |turns|
  {
    if turns != [] {
      TurnKeepsTheBound(b, turns[0]);
      LimitHoldsUpToFlights(Turned(b, turns[0]), turns[1..]);
    }
  }

  /** The bound is met: adds that all pass the check before any lands all land. */
  lemma {:induction false} FlightsAllLand(b: Busy, handles: seq<Handle>) returns (turns: seq<Turn>)
    requires b.inFlight == |handles|
    requires forall i, j | 0 <= i < j < |handles| :: handles[i].id != handles[j].id
    requires forall h | h in handles :: h.id !in b.lib.torrents
    ensures MayRun(b, turns)
    ensures |Ran(b, turns).lib.torrents| == |b.lib.torrents| + |handles|
    decreases |handles|
  {
    if handles == [] {
      turns := [];
    } else {
      var t := Land("", Source("", []), handles[0]);
      var next := Turned(b, t);
      assert next.lib.torrents.Keys == b.lib.torrents.Keys + {handles[0].id};
      var rest := FlightsAllLand(next, handles[1..]);
      turns := [t] + rest;
      assert turns[1..] == rest;
    }
  }

  lemma {:induction false} ChecksAllPass(b: Busy, n: nat) returns (turns: seq<Turn>)
    requires |b.lib.torrents| < MAX_TORRENTS
    ensures MayRun(b, turns)
    ensures var after := Ran(b, turns); after.lib == b.lib && after.inFlight == b.inFlight + n
    decreases n
  {
    if n == 0 {
      turns := [];
    } else {
      var rest := ChecksAllPass(Turned(b, CheckLimit), n - 1);
      turns := [CheckLimit] + rest;
      assert turns[1..] == rest;
    }
  }

  lemma {:induction false} RunsInARow(b: Busy, first: seq<Turn>, second: seq<Turn>)
    requires MayRun(b, first) && MayRun(Ran(b, first), second)
    ensures MayRun(b, first + second) && Ran(b, first + second) == Ran(Ran(b, first), second)
    decreases |first|
  {
    if first == [] {
      assert first + second == second;
    } else {
      RunsInARow(Turned(b, first[0]), first[1..], second);
      assert (first + second)[1..] == first[1..] + second;
    }
  }

  /** With one slot left, any number of adds checked together all get in. */
  lemma LimitCanBeOutrun(b: Busy, handles: seq<Handle>) returns (turns: seq<Turn>)
    requires b.inFlight == 0 && |b.lib.torrents| == MAX_TORRENTS - 1
    requires forall i, j | 0 <= i < j < |handles| :: handles[i].id != handles[j].id
    requires forall h | h in handles :: h.id !in b.lib.torrents
    ensures MayRun(b, turns)
    ensures |Ran(b, turns).lib.torrents| == MAX_TORRENTS - 1 + |handles|
  {
    var checks := ChecksAllPass(b, |handles|);
    var lands := FlightsAllLand(Ran(b, checks), handles);
    RunsInARow(b, checks, lands);
    turns := checks + lands;
  }
}
