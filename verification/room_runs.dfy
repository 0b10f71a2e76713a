/** Whole runs of one room: any sequence of messages from anybody, mixed with the
  * commands of the local participant.
  */
module RoomRuns {
  import opened Wrappers
  import opened PeerOrder
  import opened Protocol
  import opened RoomModel

  datatype Event =
    | Heard(from: PeerID, msg: Message)
    | PlayPressed
    | PausePressed
    | SeekPressed(seconds: real)
    | StallNoticed(buffering: bool)
    | FilmChosen(magnet: Magnet)

  ghost function Act(r: RoomState, e: Event): Outcome {
    match e
    case Heard(from, msg) => Step(r, from, msg)
    case PlayPressed => Outcome(r.(paused := false, pausedKnown := true), [Sent(Pause(false))])
    case PausePressed => Outcome(r.(paused := true, pausedKnown := true), [Sent(Pause(true))])
    case SeekPressed(seconds) => Outcome(r, [Sent(Position(seconds))])
    case StallNoticed(buffering) => Outcome(r, [Sent(Buffering(buffering))])
    case FilmChosen(magnet) => Outcome(r.(magnet := Some(magnet)), [Sent(Film(magnet))])
  }

  /** The state after a run and everything it sent and showed, in order. */
  ghost function Run(r: RoomState, events: seq<Event>): Outcome
    decreases |events|
  {
    if events == [] then Outcome(r, [])
    else
      var first := Act(r, events[0]);
      var rest := Run(first.room, events[1..]);
      Outcome(rest.room, first.effects + rest.effects)
  }

  lemma {:induction false} RunSplits(r: RoomState, a: seq<Event>, b: seq<Event>)
    ensures Run(r, a + b).room == Run(Run(r, a).room, b).room
    ensures Run(r, a + b).effects == Run(r, a).effects + Run(Run(r, a).room, b).effects
    decreases |a|
  {
    hide Act;
    if a == [] {
      assert a + b == b;
    } else {
      assert (a + b)[1..] == a[1..] + b;
      RunSplits(Act(r, a[0]).room, a[1..], b);
    }
  }

  lemma RunExtends(r: RoomState, events: seq<Event>, i: nat)
    requires i < |events|
    ensures Run(r, events[..i + 1]).room == Act(Run(r, events[..i]).room, events[i]).room
    ensures Run(r, events[..i + 1]).effects
        == Run(r, events[..i]).effects + Act(Run(r, events[..i]).room, events[i]).effects
  {
    hide Act;
    assert events[..i + 1] == events[..i] + [events[i]];
    RunSplits(r, events[..i], [events[i]]);
    var s := Run(r, events[..i]).room;
    assert [events[i]][1..] == [];
    assert Run(s, [events[i]]).room == Act(s, events[i]).room;
    assert Run(s, [events[i]]).effects == Act(s, events[i]).effects;
  }

  // ---------- refusal is final ----------

  predicate Refuses(e: Event) {
    e.Heard? && e.msg.Hello? && SpokenVersion(e.msg.version) > PROTOCOL_VERSION
  }

  lemma RefusalStep(r: RoomState, e: Event)
    ensures Act(r, e).room.refused.Keys == r.refused.Keys + if Refuses(e) then {e.from} else {}
  {
    hide Step;
    if e.Heard? { StepRefuses(r, e.from, e.msg); }
  }

  ghost predicate OnceRefused(id: PeerID, events: seq<Event>) {
    exists e | e in events :: Refuses(e) && e.from == id
  }

  lemma OnceRefusedSplits(id: PeerID, events: seq<Event>)
    requires events != []
    ensures OnceRefused(id, events) <==> (Refuses(events[0]) && events[0].from == id) || OnceRefused(id, events[1..])
  {
    assert events == [events[0]] + events[1..];
  }

  /** Who is refused after a run: exactly those who were, and those who greeted
    * with a version this build does not know. Nobody is ever let back in. */
  lemma {:induction false} RefusedExactly(r: RoomState, events: seq<Event>)
    ensures forall id :: id in Run(r, events).room.refused <==> id in r.refused || OnceRefused(id, events)
    decreases |events|
  {
    hide Act;
    if events != [] {
      RefusalStep(r, events[0]);
      RefusedExactly(Act(r, events[0]).room, events[1..]);
      forall id ensures id in Run(r, events).room.refused <==> id in r.refused || OnceRefused(id, events) {
        OnceRefusedSplits(id, events);
      }
    }
  }

  /** Equal but for the versions recorded for the refused peers in `who`. */
  ghost predicate AlikeBut(who: set<PeerID>, a: RoomState, b: RoomState) {
    && who <= a.refused.Keys
    && a.refused.Keys == b.refused.Keys
    && (forall id | id in a.refused && id !in who :: a.refused[id] == b.refused[id])
    && b == a.(refused := b.refused)
  }

  /** The run with everything the given peers say left out. */
  function Erase(who: set<PeerID>, events: seq<Event>): seq<Event> {
    if events == [] then []
    else if events[0].Heard? && events[0].from in who then Erase(who, events[1..])
    else [events[0]] + Erase(who, events[1..])
  }

  lemma RefusedAreInert(who: set<PeerID>, a: RoomState, b: RoomState, e: Event)
    requires AlikeBut(who, a, b) && e.Heard? && e.from in who
    ensures Act(a, e).effects == [] && AlikeBut(who, Act(a, e).room, b)
  {
  }

  lemma GreetingsSeeTheSame(who: set<PeerID>, a: RoomState, b: RoomState, from: PeerID, m: Message)
    requires AlikeBut(who, a, b) && from !in who && m.Hello?
    ensures var x, y := OnHello(a, from, m), OnHello(b, from, m);
      x.effects == y.effects && AlikeBut(who, x.room, y.room)
  {
  }

  lemma DeparturesSeeTheSame(who: set<PeerID>, a: RoomState, b: RoomState, from: PeerID)
    requires AlikeBut(who, a, b)
    ensures var x, y := OnBye(a, from), OnBye(b, from); x.effects == y.effects && AlikeBut(who, x.room, y.room)
  {
    assert View(a.(peers := a.peers - {from})) == View(b.(peers := b.peers - {from}));
  }

  lemma AnnouncementsSeeTheSame(who: set<PeerID>, a: RoomState, b: RoomState, from: PeerID, host: PeerID)
    requires AlikeBut(who, a, b)
    ensures var x, y := OnHost(a, from, host), OnHost(b, from, host);
      x.effects == y.effects && AlikeBut(who, x.room, y.room)
  {
    assert View(a) == View(b);
  }

  lemma BooksSeeTheSame(who: set<PeerID>, a: RoomState, b: RoomState, book: seq<PeerAddr>)
    requires AlikeBut(who, a, b)
    ensures var x, y := OnPeers(a, book), OnPeers(b, book); x.effects == y.effects && AlikeBut(who, x.room, y.room)
  {
    FreshOfIgnoresRefused(a, b, book);
  }

  lemma ChatterSeesTheSame(who: set<PeerID>, a: RoomState, b: RoomState, from: PeerID, m: Message)
    requires AlikeBut(who, a, b) && from !in who && (m.Film? || m.Pause? || m.Position? || m.Buffering?)
    ensures var x, y := Step(a, from, m), Step(b, from, m); x.effects == y.effects && AlikeBut(who, x.room, y.room)
  {
    hide OnHello, OnBye, OnHost, OnPeers;
  }

  lemma OthersSeeTheSame(who: set<PeerID>, a: RoomState, b: RoomState, e: Event)
    requires AlikeBut(who, a, b) && !(e.Heard? && e.from in who)
    ensures Act(a, e).effects == Act(b, e).effects && AlikeBut(who, Act(a, e).room, Act(b, e).room)
  {
    hide OnHello, OnBye, OnHost, OnPeers, OnFilm, OnBuffering;
    if e.Heard? {
      if e.msg.Hello? {
        GreetingsSeeTheSame(who, a, b, e.from, e.msg);
      } else if e.msg.Bye? {
        DeparturesSeeTheSame(who, a, b, e.from);
      } else if e.msg.Host? {
        AnnouncementsSeeTheSame(who, a, b, e.from, e.msg.hostID);
      } else if e.msg.Peers? {
        BooksSeeTheSame(who, a, b, e.msg.book);
      } else {
        ChatterSeesTheSame(who, a, b, e.from, e.msg);
      }
    }
  }

  lemma {:induction false} FreshOfIgnoresRefused(a: RoomState, b: RoomState, book: seq<PeerAddr>)
    requires a.selfID == b.selfID && a.peers == b.peers
    ensures FreshOf(a, book) == FreshOf(b, book)
  {
    if book != [] { FreshOfIgnoresRefused(a, b, book[..|book| - 1]); }
  }

  lemma {:induction false} ErasureFrom(who: set<PeerID>, a: RoomState, b: RoomState, events: seq<Event>)
    requires AlikeBut(who, a, b)
    ensures Run(a, events).effects == Run(b, Erase(who, events)).effects
    ensures AlikeBut(who, Run(a, events).room, Run(b, Erase(who, events)).room)
    decreases |events|
  {
    hide Act;
    if events != [] {
      var e, rest := events[0], events[1..];
      if e.Heard? && e.from in who {
        RefusedAreInert(who, a, b, e);
        ErasureFrom(who, Act(a, e).room, b, rest);
      } else {
        OthersSeeTheSame(who, a, b, e);
        ErasureFrom(who, Act(a, e).room, Act(b, e).room, rest);
        assert Erase(who, events)[1..] == Erase(who, rest);
      }
    }
  }

  /** Non-interference: once peers are refused, a room that goes on hearing them
    * sends, shows and remembers exactly what it would if they had fallen silent;
    * only the version recorded for them may differ. */
  lemma RefusalIsNonInterference(r: RoomState, before: seq<Event>, after: seq<Event>, who: set<PeerID>)
    requires who <= Run(r, before).room.refused.Keys
    ensures var heard, silent := Run(r, before + after), Run(r, before + Erase(who, after));
      heard.effects == silent.effects && AlikeBut(who, heard.room, silent.room)
  {
    hide Act;
    var mid := Run(r, before).room;
    RunSplits(r, before, after);
    RunSplits(r, before, Erase(who, after));
    ErasureFrom(who, mid, mid, after);
  }

  // ---------- the play state is the last command that counted ----------

  /** The event is a play or pause of the local participant, or a pause from the
    * host of that moment, who must not have been refused. */
  predicate Commands(r: RoomState, e: Event) {
    match e
    case PlayPressed => true
    case PausePressed => true
    case Heard(from, Pause(_)) => from != "" && from == r.hostPeer && from !in r.refused
    case _ => false
  }

  predicate CommandedPause(e: Event) {
    e.PausePressed? || (e.Heard? && e.msg.Pause? && e.msg.paused)
  }

  /** The last command of a run that counted, read from the end backwards. */
  ghost function LastCommand(r: RoomState, events: seq<Event>): Option<bool> {
    if events == [] then None
    else
      var n := |events| - 1;
      if Commands(Run(r, events[..n]).room, events[n]) then Some(CommandedPause(events[n]))
      else LastCommand(r, events[..n])
  }

  /** The play state a room remembers is the last command that counted; a room
    * that heard none remembers what it knew before. */
  lemma {:induction false} PlayStateIsTheLastCommand(r: RoomState, events: seq<Event>)
    ensures var end, last := Run(r, events).room, LastCommand(r, events);
      if last.Some? then end.pausedKnown && end.paused == last.value
      else end.pausedKnown == r.pausedKnown && end.paused == r.paused
  {
    hide Act;
    if events != [] {
      var n := |events| - 1;
      PlayStateIsTheLastCommand(r, events[..n]);
      RunExtends(r, events, n);
      assert events[..n + 1] == events;
      OnlyCommandsMovePlayState(Run(r, events[..n]).room, events[n]);
    }
  }

  lemma OnlyCommandsMovePlayState(r: RoomState, e: Event)
    ensures var s := Act(r, e).room;
      if Commands(r, e) then s.pausedKnown && s.paused == CommandedPause(e)
      else s.pausedKnown == r.pausedKnown && s.paused == r.paused
  {
  }

  /** The seek targets shown to the player, in order. */
  function SeeksShown(effects: seq<Effect>): seq<real> {
    if effects == [] then []
    else (if effects[0].SeekShown? then [effects[0].seconds] else []) + SeeksShown(effects[1..])
  }

  lemma {:induction false} SeeksShownSplits(a: seq<Effect>, b: seq<Effect>)
    ensures SeeksShown(a + b) == SeeksShown(a) + SeeksShown(b)
  {
    if a == [] {
      assert a + b == b;
    } else {
      assert (a + b)[0] == a[0] && (a + b)[1..] == a[1..] + b;
      SeeksShownSplits(a[1..], b);
      var first := if a[0].SeekShown? then [a[0].seconds] else [];
      assert first + (SeeksShown(a[1..]) + SeeksShown(b)) == (first + SeeksShown(a[1..])) + SeeksShown(b);
    }
  }

  predicate LeadsSeek(r: RoomState, e: Event) {
    e.Heard? && e.msg.Position? && e.from != "" && e.from == r.hostPeer && e.from !in r.refused
  }

  /** The seek targets sent by the host of the moment, in order. */
  ghost function SeeksLed(r: RoomState, events: seq<Event>): seq<real> {
    if events == [] then []
    else
      var n := |events| - 1;
      SeeksLed(r, events[..n])
      + (if LeadsSeek(Run(r, events[..n]).room, events[n]) then [events[n].msg.seconds] else [])
  }

  lemma {:induction false} NoneShown(effects: seq<Effect>)
    requires forall e | e in effects :: !e.SeekShown?
    ensures SeeksShown(effects) == []
  {
    if effects != [] {
      assert effects[0] in effects && forall e | e in effects[1..] :: e in effects;
      NoneShown(effects[1..]);
    }
  }

  lemma GreetingsShowNoSeek(r: RoomState, from: PeerID, m: Message)
    requires m.Hello?
    ensures forall e | e in OnHello(r, from, m).effects :: !e.SeekShown?
  {
    hide AddressBook;
  }

  lemma ActShowsLedSeek(r: RoomState, e: Event)
    ensures SeeksShown(Act(r, e).effects) == if LeadsSeek(r, e) then [e.msg.seconds] else []
  {
    hide OnHello, OnHost;
    var effects := Act(r, e).effects;
    if LeadsSeek(r, e) {
      assert effects == [SeekShown(e.msg.seconds)] && effects[1..] == [];
    } else {
      if e.Heard? && e.msg.Hello? { GreetingsShowNoSeek(r, e.from, e.msg); }
      if e.Heard? && e.msg.Host? { AnnouncementsShowNoSeek(r, e.from, e.msg.hostID); }
      NoneShown(effects);
    }
  }

  lemma AnnouncementsShowNoSeek(r: RoomState, from: PeerID, host: PeerID)
    ensures forall e | e in OnHost(r, from, host).effects :: !e.SeekShown?
  {
  }

  /** Seeks are relayed exactly for the host of the moment, in order. */
  lemma {:induction false} SeeksRelayedExactly(r: RoomState, events: seq<Event>)
    ensures SeeksShown(Run(r, events).effects) == SeeksLed(r, events)
  {
    hide Act;
    if events != [] {
      var n := |events| - 1;
      SeeksRelayedExactly(r, events[..n]);
      RunExtends(r, events, n);
      assert events[..n + 1] == events;
      var s := Run(r, events[..n]).room;
      SeeksShownSplits(Run(r, events[..n]).effects, Act(s, events[n]).effects);
      ActShowsLedSeek(s, events[n]);
    }
  }

  // ---------- the two role flags ----------

  /** Nobody hears itself: transports do not loop messages back. */
  predicate FromOthers(r: RoomState, events: seq<Event>) {
    forall e | e in events && e.Heard? :: e.from != r.selfID && e.from != ""
  }

  predicate Agree(r: RoomState) {
    r.isHost <==> r.hostPeer == r.selfID
  }

  /** An admitted greeting that claims the role reaches a room that holds it. */
  predicate Disputes(r: RoomState, e: Event) {
    && e.Heard? && e.msg.Hello? && e.msg.claimsHost && r.isHost
    && SpokenVersion(e.msg.version) <= PROTOCOL_VERSION && e.from !in r.refused
  }

  lemma FollowingSelfStep(r: RoomState, e: Event)
    requires r.selfID != "" && (r.hostPeer == r.selfID ==> r.isHost)
    requires e.Heard? ==> e.from != r.selfID && e.from != ""
    ensures var s := Act(r, e).room; s.selfID == r.selfID && (s.hostPeer == s.selfID ==> s.isHost)
  {
    hide Step;
    if e.Heard? { StepMovesRole(r, e.from, e.msg); }
  }

  /** A room that follows itself holds the role, in every run. */
  lemma {:induction false} FollowingSelfIsHosting(r: RoomState, events: seq<Event>)
    requires r.selfID != "" && (r.hostPeer == r.selfID ==> r.isHost) && FromOthers(r, events)
    ensures var end := Run(r, events).room; end.selfID == r.selfID && (end.hostPeer == end.selfID ==> end.isHost)
    decreases |events|
  {
    hide Act;
    if events != [] {
      var s := Act(r, events[0]).room;
      assert events[0] in events;
      assert forall e | e in events[1..] :: e in events;
      FollowingSelfStep(r, events[0]);
      FollowingSelfIsHosting(s, events[1..]);
    }
  }

  lemma AgreementStep(r: RoomState, e: Event)
    requires r.selfID != "" && Agree(r) && FromOthers(r, [e])
    ensures Act(r, e).room.selfID == r.selfID
    ensures Agree(Act(r, e).room) <==> !Disputes(r, e)
  {
    hide Step;
    if e.Heard? { StepMovesRole(r, e.from, e.msg); }
    assert e in [e];
  }

  ghost predicate AlwaysAgree(r: RoomState, events: seq<Event>) {
    && Agree(Run(r, events).room)
    && (events != [] ==> AlwaysAgree(r, events[..|events| - 1]))
  }

  ghost predicate Undisputed(r: RoomState, events: seq<Event>) {
    events != [] ==>
      var n := |events| - 1;
      Undisputed(r, events[..n]) && !Disputes(Run(r, events[..n]).room, events[n])
  }

  /** The flags agree at every moment of a run exactly when no host-claiming
    * greeting is admitted while the room holds the role. */
  lemma {:induction false} FlagsAgreeExactlyUndisputed(r: RoomState, events: seq<Event>)
    requires r.selfID != "" && Agree(r) && FromOthers(r, events)
    ensures AlwaysAgree(r, events) <==> Undisputed(r, events)
  {
    hide Act;
    if events != [] {
      var n := |events| - 1;
      assert forall e | e in events[..n] :: e in events;
      FlagsAgreeExactlyUndisputed(r, events[..n]);
      RunExtends(r, events, n);
      assert events[..n + 1] == events;
      KeepsSelf(r, events[..n]);
      var s := Run(r, events[..n]).room;
      assert events[n] in events;
      if Agree(s) { AgreementStep(s, events[n]); }
    }
  }

  lemma ActKeepsSelf(r: RoomState, e: Event)
    ensures Act(r, e).room.selfID == r.selfID
  {
    hide Step;
    if e.Heard? { StepMovesRole(r, e.from, e.msg); }
  }

  lemma {:induction false} KeepsSelf(r: RoomState, events: seq<Event>)
    ensures Run(r, events).room.selfID == r.selfID
    decreases |events|
  {
    hide Act;
    if events != [] {
      ActKeepsSelf(r, events[0]);
      KeepsSelf(Act(r, events[0]).room, events[1..]);
    }
  }

  /** The role can split: a room that holds it follows whoever greets it as host. */
  lemma ClaimSplitsTheFlags(self: PeerID, from: PeerID, addrs: seq<string>)
    requires self != "" && from != "" && from != self
    ensures var events := [Heard(from, NewHello(from, "", "", true, addrs))];
      var end := Run(NewRoom(self, true), events).room;
      && Agree(NewRoom(self, true)) && FromOthers(NewRoom(self, true), events)
      && end.isHost && end.hostPeer == from && !Agree(end)
  {
    hide Answer;
    var events := [Heard(from, NewHello(from, "", "", true, addrs))];
    RunExtends(NewRoom(self, true), events, 0);
    assert events[..1] == events && events[..0] == [];
  }

  // ---------- a host that was refused ----------

  /** The room follows a peer it has refused. */
  predicate FollowsRefused(r: RoomState) {
    r.hostPeer != "" && r.hostPeer in r.refused
  }

  /** Somebody admitted claims the role in a greeting, or the least peer in view
    * announces itself. */
  ghost predicate Displaces(r: RoomState, e: Event) {
    && e.Heard? && e.from !in r.refused
    && ((Admits(r, e.from, e.msg) && e.msg.claimsHost) || (e.msg == Host(e.from) && e.from == TakeoverWinner(r)))
  }

  /** Nothing a refused host says counts, its departure included. */
  lemma RefusedHostIsUnheard(r: RoomState, m: Message)
    requires FollowsRefused(r) && !m.Hello?
    ensures Act(r, Heard(r.hostPeer, m)) == Outcome(r, [])
  {
  }

  lemma RefusedHostStep(r: RoomState, e: Event)
    requires FollowsRefused(r)
    ensures r.hostPeer in Act(r, e).room.refused
    ensures Act(r, e).room.hostPeer == r.hostPeer <==> !Displaces(r, e)
  {
    hide Step, TakeoverWinner;
    RefusalStep(r, e);
    if e.Heard? { StepMovesRole(r, e.from, e.msg); }
  }

  /** The room follows `host` at every moment of the run. */
  ghost predicate FollowsThroughout(r: RoomState, host: PeerID, events: seq<Event>) {
    && Run(r, events).room.hostPeer == host
    && (events != [] ==> FollowsThroughout(r, host, events[..|events| - 1]))
  }

  ghost predicate NeverDisplaced(r: RoomState, events: seq<Event>) {
    events != [] ==>
      var n := |events| - 1;
      NeverDisplaced(r, events[..n]) && !Displaces(Run(r, events[..n]).room, events[n])
  }

  /** The last play or pause of the local participant. */
  function LastPress(events: seq<Event>): Option<bool> {
    if events == [] then None
    else
      var e := events[|events| - 1];
      if e.PlayPressed? || e.PausePressed? then Some(e.PausePressed?) else LastPress(events[..|events| - 1])
  }

  lemma RefusedStaysRefused(r: RoomState, events: seq<Event>)
    ensures r.refused.Keys <= Run(r, events).room.refused.Keys
  {
    RefusedExactly(r, events);
  }

  /** A room whose host is refused keeps following it exactly until somebody
    * admitted greets as host or the least peer in view announces itself. As long as
    * it does, only the local participant moves the play state, and no seek is shown. */
  lemma {:induction false} RefusedHostStays(r: RoomState, events: seq<Event>)
    requires FollowsRefused(r)
    ensures FollowsThroughout(r, r.hostPeer, events) <==> NeverDisplaced(r, events)
    ensures NeverDisplaced(r, events) ==>
      var end := Run(r, events).room;
      && LastCommand(r, events) == LastPress(events)
      && (if LastPress(events).Some? then end.pausedKnown && end.paused == LastPress(events).value
          else end.pausedKnown == r.pausedKnown && end.paused == r.paused)
      && SeeksShown(Run(r, events).effects) == []
  {
    hide Act, Displaces;
    PlayStateIsTheLastCommand(r, events);
    SeeksRelayedExactly(r, events);
    if events != [] {
      var n := |events| - 1;
      RefusedHostStays(r, events[..n]);
      RunExtends(r, events, n);
      assert events[..n + 1] == events;
      RefusedStaysRefused(r, events[..n]);
      SeeksRelayedExactly(r, events[..n]);
      var s := Run(r, events[..n]).room;
      if NeverDisplaced(r, events[..n]) { RefusedHostStep(s, events[n]); }
    }
  }

  /** It can happen: the least peer in view announces itself and is obeyed at once. */
  lemma RefusedHostIsDisplaced(r: RoomState, w: PeerID, paused: bool)
    requires FollowsRefused(r) && w !in r.refused && w == TakeoverWinner(r) && w != ""
    ensures var end := Run(r, [Heard(w, Host(w)), Heard(w, Pause(paused))]).room;
      end.hostPeer == w && end.pausedKnown && end.paused == paused
  {
    hide TakeoverWinner;
    var events := [Heard(w, Host(w)), Heard(w, Pause(paused))];
    RunExtends(r, events, 1);
    RunExtends(r, events, 0);
    assert events[..2] == events && events[..1] == [events[0]] && events[..0] == [];
  }
}
