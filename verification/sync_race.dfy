/** Stopping and releasing the room, step by step. A sync reads the flags, asks the
  * room, marks the stop, asks the player and notes whose pause it is, each under a
  * lock of its own or none; and it is begun both by the loop around the player and
  * by the room's messages. So syncs can overlap, and anything can happen in between.
  */
module SyncRace {
  import opened Wrappers
  import opened PeerOrder
  import opened Protocol
  import opened RoomModel
  import opened Playback

  type Thread = nat

  /** How far a sync has come: it has read the flags; it knows that this window
    * hosts; it is about to mark what it decided; it has marked a stop and is about to
    * ask the player, to note whose pause it is, to pause; or it has marked a release
    * and is about to give up the pause, to resume. */
  datatype Phase =
    | HasRead(stopped: bool, owned: bool, ownStall: bool)
    | Hosts(stopped: bool, owned: bool, ownStall: bool)
    | Decided(waiting: bool, owned: bool)
    | Stopping
    | Asked(paused: bool)
    | Pausing
    | Releasing
    | Resuming

  datatype State = State(desk: Desk, userPaused: bool, syncs: map<Thread, Phase>)

  datatype Event =
    | Begin(thread: Thread)
    | Go(thread: Thread, link: Link)
    | Hear(from: PeerID, msg: Message)
    | OwnStall(stalled: bool)
    | Press(paused: bool)
    | Mirror(paused: bool)

  predicate Enabled(s: State, e: Event) {
    match e
    case Begin(t) => t !in s.syncs
    case Go(t, _) => t in s.syncs
    case _ => true
  }

  predicate Stalls(r: RoomState) {
    exists id :: id in r.peers && r.peers[id].buffering
  }

  /** The next step of a sync, and where it leaves the sync; `None` when it is over. */
  function Next(d: Desk, p: Phase, link: Link): (Desk, Option<Phase>) {
    match p
    case HasRead(stopped, owned, ownStall) =>
      (d, if d.room.isHost then Some(Hosts(stopped, owned, ownStall)) else None)
    case Hosts(stopped, owned, ownStall) =>
      var waiting := Stalls(d.room) || ownStall;
      (d, if waiting == stopped then None else Some(Decided(waiting, owned)))
    case Decided(waiting, owned) =>
      (d.(roomStopped := waiting), if waiting then Some(Stopping) else if owned then Some(Releasing) else None)
    case Stopping =>
      (d, if link.Answering? then Some(Asked(d.playerPaused)) else None)
    case Asked(paused) =>
      (d.(pausedForBuffering := !paused), if paused then None else Some(Pausing))
    case Pausing =>
      (if link.Answering? then d.(playerPaused := true) else d, None)
    case Releasing =>
      if link.Missing? then (d, None) else (d.(pausedForBuffering := false), Some(Resuming))
    case Resuming =>
      (if link.Answering? then d.(playerPaused := false) else d, None)
  }

  function At(syncs: map<Thread, Phase>, t: Thread, p: Option<Phase>): map<Thread, Phase> {
    if p.Some? then syncs[t := p.value] else syncs - {t}
  }

  function Gone(s: State, t: Thread, link: Link): State
    requires t in s.syncs
  {
    var (d, p) := Next(s.desk, s.syncs[t], link);
    State(d, s.userPaused, At(s.syncs, t, p))
  }

  /** Between the steps: a message reaches the room, the own stall changes, the user
    * presses, the loop tells the room what the player does. */
  ghost function After(s: State, e: Event): State
    requires Enabled(s, e)
  {
    match e
    case Begin(t) =>
      s.(syncs := s.syncs[t := HasRead(s.desk.roomStopped, s.desk.pausedForBuffering, s.desk.myStalled)])
    case Go(t, link) => Gone(s, t, link)
    case Hear(from, msg) => s.(desk := s.desk.(room := Step(s.desk.room, from, msg).room))
    case OwnStall(stalled) => s.(desk := s.desk.(myStalled := stalled))
    case Press(paused) => s.(desk := s.desk.(playerPaused := paused), userPaused := paused)
    case Mirror(paused) => s.(desk := s.desk.(room := s.desk.room.(paused := paused, pausedKnown := true)))
  }

  ghost predicate Possible(s: State, run: seq<Event>)
    decreases |run|
  {
    run != [] ==> Enabled(s, run[0]) && Possible(After(s, run[0]), run[1..])
  }

  ghost function Run(s: State, run: seq<Event>): State
    requires Possible(s, run)
    decreases |run|
  {
    if run == [] then s else Run(After(s, run[0]), run[1..])
  }

  lemma {:induction false} RunsOn(s: State, run: seq<Event>, e: Event)
    requires Possible(s, run) && Enabled(Run(s, run), e)
    ensures Possible(s, run + [e]) && Run(s, run + [e]) == After(Run(s, run), e)
    decreases |run|
  {
    hide After, Enabled;
    if run == [] {
      assert (run + [e])[0] == e && (run + [e])[1..] == [];
      assert Possible(After(s, e), []);
    } else {
      assert (run + [e])[0] == run[0] && (run + [e])[1..] == run[1..] + [e];
      RunsOn(After(s, run[0]), run[1..], e);
    }
  }

  // ---------- a sync that runs alone ----------

  function Rank(p: Phase): nat {
    match p
    case HasRead(_, _, _) => 6
    case Hosts(_, _, _) => 5
    case Decided(_, _) => 4
    case Stopping => 3
    case Asked(_) => 2
    case Releasing => 2
    case Pausing => 1
    case Resuming => 1
  }

  /** One sync goes on to its end, and nothing else happens. */
  function Alone(s: State, t: Thread, link: Link): State
    decreases if t in s.syncs then 1 + Rank(s.syncs[t]) else 0
  {
    if t in s.syncs then Alone(Gone(s, t, link), t, link) else s
  }

  /** The end of a sync that leaves the desk as given. */
  function Ended(s: State, t: Thread, d: Desk): State {
    State(d, s.userPaused, s.syncs - {t})
  }

  function Settle(d: Desk, waiting: bool, owned: bool, link: Link): Desk {
    var marked := d.(roomStopped := waiting);
    if waiting then StopPlayer(marked, link) else if owned then ReleasePlayer(marked, link) else marked
  }

  lemma AloneGoes(s: State, t: Thread, link: Link)
    requires t in s.syncs
    ensures Alone(s, t, link) == Alone(Gone(s, t, link), t, link)
  {
    hide Next;
  }

  lemma AloneEnds(s: State, t: Thread, link: Link)
    requires t in s.syncs && Next(s.desk, s.syncs[t], link).1.None?
    ensures Alone(s, t, link) == Ended(s, t, Next(s.desk, s.syncs[t], link).0)
  {
    hide Next;
    AloneGoes(s, t, link);
  }

  /** Two states of one sync: what the others do is the same, and so is the end. */
  lemma SameEnd(s: State, t: Thread, p: Phase, d: Desk)
    ensures Ended(s.(desk := d, syncs := s.syncs[t := p]), t, d) == Ended(s, t, d)
    ensures s.syncs[t := p] - {t} == s.syncs - {t}
  {
  }

  lemma StopEnds(s: State, t: Thread, link: Link)
    requires t in s.syncs && s.syncs[t] == Stopping
    ensures Alone(s, t, link) == Ended(s, t, StopPlayer(s.desk, link))
  {
    hide Alone;
    if link.Answering? {
      AloneGoes(s, t, link);
      var asked := Gone(s, t, link);
      SameEnd(s, t, Asked(s.desk.playerPaused), s.desk);
      if s.desk.playerPaused {
        AloneEnds(asked, t, link);
      } else {
        AloneGoes(asked, t, link);
        AloneEnds(Gone(asked, t, link), t, link);
        SameEnd(asked, t, Pausing, asked.desk);
      }
    } else {
      AloneEnds(s, t, link);
    }
  }

  lemma ReleaseEnds(s: State, t: Thread, link: Link)
    requires t in s.syncs && s.syncs[t] == Releasing
    ensures Alone(s, t, link) == Ended(s, t, ReleasePlayer(s.desk, link))
  {
    hide Alone;
    if link.Missing? {
      AloneEnds(s, t, link);
    } else {
      AloneGoes(s, t, link);
      AloneEnds(Gone(s, t, link), t, link);
      SameEnd(s, t, Resuming, s.desk);
    }
  }

  /** From its decision on, a sync left alone marks it and carries it out. */
  lemma DecisionEnds(s: State, t: Thread, link: Link)
    requires t in s.syncs && s.syncs[t].Decided?
    ensures Alone(s, t, link) == Ended(s, t, Settle(s.desk, s.syncs[t].waiting, s.syncs[t].owned, link))
  {
    hide Alone, StopPlayer, ReleasePlayer;
    var marked := Gone(s, t, link);
    if s.syncs[t].waiting {
      AloneGoes(s, t, link);
      StopEnds(marked, t, link);
      SameEnd(s, t, Stopping, s.desk);
    } else if s.syncs[t].owned {
      AloneGoes(s, t, link);
      ReleaseEnds(marked, t, link);
      SameEnd(s, t, Releasing, s.desk);
    } else {
      AloneEnds(s, t, link);
    }
  }

  /** From its reading on, a sync left alone does what it read and what the room says
    * now. */
  lemma ReadingEnds(s: State, t: Thread, link: Link)
    requires t in s.syncs && s.syncs[t].HasRead?
    ensures var p := s.syncs[t]; var waiting := Stalls(s.desk.room) || p.ownStall;
      Alone(s, t, link)
      == Ended(s, t, if !s.desk.room.isHost || waiting == p.stopped then s.desk
                     else Settle(s.desk, waiting, p.owned, link))
  {
    hide Alone, Settle, Stalls;
    var p := s.syncs[t];
    if s.desk.room.isHost {
      AloneGoes(s, t, link);
      var hosting := Gone(s, t, link);
      SameEnd(s, t, Hosts(p.stopped, p.owned, p.ownStall), s.desk);
      var waiting := Stalls(s.desk.room) || p.ownStall;
      if waiting == p.stopped {
        AloneEnds(hosting, t, link);
      } else {
        AloneGoes(hosting, t, link);
        DecisionEnds(Gone(hosting, t, link), t, link);
        SameEnd(hosting, t, Decided(waiting, p.owned), s.desk);
      }
    } else {
      AloneEnds(s, t, link);
    }
  }

  /** A sync that runs alone is the one step the rest of the model takes it for. */
  lemma AloneIsSynced(s: State, t: Thread, link: Link)
    requires t !in s.syncs
    ensures Alone(After(s, Begin(t)), t, link) == s.(desk := Synced(s.desk, link))
  {
    var begun := After(s, Begin(t));
    ReadingEnds(begun, t, link);
    WaitingIsStalling(s.desk);
    hide Alone, Stalls, Waiting;
    assert begun.syncs - {t} == s.syncs;
  }

  lemma WaitingIsStalling(d: Desk)
    ensures Waiting(d) <==> Stalls(d.room) || d.myStalled
  {
  }

  lemma RankFalls(d: Desk, p: Phase, link: Link)
    ensures var next := Next(d, p, link).1; next.Some? ==> Rank(next.value) < Rank(p)
  {
  }

  /** And it is a run. */
  lemma {:induction false} AloneIsARun(s: State, before: seq<Event>, t: Thread, link: Link) returns (run: seq<Event>)
    requires Possible(s, before)
    ensures Possible(s, run) && Run(s, run) == Alone(Run(s, before), t, link)
    decreases var mid := Run(s, before); if t in mid.syncs then 1 + Rank(mid.syncs[t]) else 0
  {
    hide Possible, Run, Next;
    if t in Run(s, before).syncs {
      RankFalls(Run(s, before).desk, Run(s, before).syncs[t], link);
      RunsOn(s, before, Go(t, link));
      run := AloneIsARun(s, before + [Go(t, link)], t, link);
    } else {
      run := before;
    }
  }

  // ---------- syncs that do not overlap ----------

  /** No sync begins before the last one is over, the player answers, and the user
    * presses only while no sync is under way and the room is not stopped. */
  predicate Orderly(s: State, e: Event) {
    match e
    case Begin(_) => s.syncs == map[]
    case Go(_, link) => link.Answering?
    case Hear(from, _) => from != s.desk.room.selfID
    case Press(_) => s.syncs == map[] && !s.desk.roomStopped
    case _ => true
  }

  ghost predicate Serial(s: State, run: seq<Event>)
    decreases |run|
  {
    && Hosting(s.desk)
    && (run != [] ==> Enabled(s, run[0]) && Orderly(s, run[0]) && Serial(After(s, run[0]), run[1..]))
  }

  /** What holds in the middle of a sync. */
  predicate Midway(d: Desk, userPaused: bool, p: Phase) {
    match p
    case HasRead(stopped, owned, _) =>
      Bracketed(Scene(d, userPaused)) && stopped == d.roomStopped && owned == d.pausedForBuffering
    case Hosts(stopped, owned, _) =>
      Bracketed(Scene(d, userPaused)) && stopped == d.roomStopped && owned == d.pausedForBuffering
    case Decided(waiting, owned) =>
      Bracketed(Scene(d, userPaused)) && waiting != d.roomStopped && owned == d.pausedForBuffering
    case Stopping => d.roomStopped && d.playerPaused == userPaused && !d.pausedForBuffering
    case Asked(paused) => d.roomStopped && d.playerPaused == userPaused == paused && !d.pausedForBuffering
    case Pausing => d.roomStopped && !d.playerPaused && !userPaused && d.pausedForBuffering
    case Releasing => !d.roomStopped && d.playerPaused && !userPaused && d.pausedForBuffering
    case Resuming => !d.roomStopped && d.playerPaused && !userPaused && !d.pausedForBuffering
  }

  ghost predicate Inv(s: State) {
    && (forall t, u | t in s.syncs && u in s.syncs :: t == u)
    && (forall t | t in s.syncs :: Midway(s.desk, s.userPaused, s.syncs[t]))
    && (s.syncs == map[] ==> Bracketed(Scene(s.desk, s.userPaused)))
  }

  lemma OnlyOne(s: State, t: Thread)
    requires Inv(s) && t in s.syncs
    ensures s.syncs == map[t := s.syncs[t]] && s.syncs - {t} == map[]
    ensures forall p :: s.syncs[t := p] == map[t := p]
  {
  }

  lemma GoStaysMidway(d: Desk, userPaused: bool, p: Phase)
    requires Midway(d, userPaused, p) && d.room.isHost
    ensures var (d', p') := Next(d, p, Answering);
      if p'.Some? then Midway(d', userPaused, p'.value) else Bracketed(Scene(d', userPaused))
  {
    hide Stalls;
  }

  lemma GoKeepsInv(s: State, t: Thread)
    requires Inv(s) && t in s.syncs && s.desk.room.isHost
    ensures Inv(Gone(s, t, Answering))
  {
    hide Next, Midway, Bracketed;
    OnlyOne(s, t);
    GoStaysMidway(s.desk, s.userPaused, s.syncs[t]);
  }

  lemma StepKeepsInv(s: State, e: Event)
    requires Inv(s) && Hosting(s.desk) && Enabled(s, e) && Orderly(s, e)
    ensures Inv(After(s, e))
  {
    hide Step, Gone;
    if e.Go? { GoKeepsInv(s, e.thread); }
  }

  /** In every run in which no sync begins between another's reading and its last
    * write: whenever no sync is under way the player is paused exactly when the user
    * paused it or the room is stopped, and the pause is owned exactly when the room is
    * stopped and the user had not paused. Messages and stalls may come at any moment,
    * between the steps of a sync as well. */
  lemma {:induction false} SerialSyncsRestoreTheChoice(s: State, run: seq<Event>)
    requires Inv(s) && Serial(s, run)
    ensures Possible(s, run) && Inv(Run(s, run))
    ensures Run(s, run).syncs == map[] ==> Bracketed(Scene(Run(s, run).desk, Run(s, run).userPaused))
    decreases |run|
  {
    hide After, Enabled, Orderly, Bracketed, Midway;
    if run != [] {
      assert Hosting(s.desk);
      StepKeepsInv(s, run[0]);
      SerialSyncsRestoreTheChoice(After(s, run[0]), run[1..]);
    }
  }

  // ---------- the stop matches the waiting ----------

  /** No sync begins, and who is stalled and who hosts stays as it is. */
  ghost predicate Steady(s: State, e: Event)
    requires Enabled(s, e)
  {
    var d, d' := s.desk, After(s, e).desk;
    !e.Begin? && (Stalls(d'.room) <==> Stalls(d.room)) && d'.myStalled == d.myStalled && d'.room.isHost == d.room.isHost
  }

  ghost predicate SteadyRun(s: State, run: seq<Event>)
    decreases |run|
  {
    run != [] ==> Enabled(s, run[0]) && Steady(s, run[0]) && SteadyRun(After(s, run[0]), run[1..])
  }

  /** The one sync under way is on its way to the right mark, or has made it. */
  predicate OnCourse(d: Desk, p: Phase) {
    var waiting := Stalls(d.room) || d.myStalled;
    match p
    case HasRead(stopped, _, ownStall) => stopped == d.roomStopped && ownStall == d.myStalled
    case Hosts(stopped, _, ownStall) => stopped == d.roomStopped && ownStall == d.myStalled
    case Decided(w, _) => w == waiting
    case _ => d.roomStopped == waiting
  }

  ghost predicate Tracks(s: State, t: Thread) {
    && s.desk.room.isHost && s.syncs.Keys <= {t}
    && if t in s.syncs then OnCourse(s.desk, s.syncs[t])
       else s.desk.roomStopped == (Stalls(s.desk.room) || s.desk.myStalled)
  }

  lemma NextStaysOnCourse(d: Desk, p: Phase, link: Link)
    requires OnCourse(d, p) && d.room.isHost
    ensures var (d', p') := Next(d, p, link);
      && d'.room == d.room && d'.myStalled == d.myStalled
      && if p'.Some? then OnCourse(d', p'.value) else d'.roomStopped == (Stalls(d.room) || d.myStalled)
  {
    hide Stalls;
  }

  lemma GoStaysOnCourse(s: State, t: Thread, link: Link)
    requires Tracks(s, t) && t in s.syncs
    ensures Tracks(Gone(s, t, link), t)
  {
    NextStaysOnCourse(s.desk, s.syncs[t], link);
    hide Stalls, Next, OnCourse;
  }

  lemma SteadyStaysOnCourse(s: State, e: Event, t: Thread)
    requires Tracks(s, t) && Enabled(s, e) && Steady(s, e)
    ensures Tracks(After(s, e), t)
  {
    hide Step, Stalls, Gone;
    if e.Go? { GoStaysOnCourse(s, e.thread, e.link); }
  }

  lemma {:induction false} StaysOnCourse(s: State, run: seq<Event>, t: Thread)
    requires Tracks(s, t) && SteadyRun(s, run)
    ensures Possible(s, run) && Tracks(Run(s, run), t)
    decreases |run|
  {
    hide After, Enabled, Steady, Tracks;
    if run != [] {
      SteadyStaysOnCourse(s, run[0], t);
      StaysOnCourse(After(s, run[0]), run[1..], t);
    }
  }

  /** A host's sync that no other one overlaps, and during which nobody's stall
    * changes, ends with the room stopped exactly when somebody waits; whether or not
    * the player answers, and whatever the user presses meanwhile. */
  lemma SteadySyncMatches(s: State, t: Thread, run: seq<Event>)
    requires s.syncs == map[] && s.desk.room.isHost && SteadyRun(After(s, Begin(t)), run)
    ensures Possible(After(s, Begin(t)), run)
    ensures var end := Run(After(s, Begin(t)), run); end.syncs == map[] ==> end.desk.roomStopped == Waiting(end.desk)
  {
    StaysOnCourse(After(s, Begin(t)), run, t);
  }

  // ---------- syncs that overlap ----------

  /** Two syncs that both saw the room running: one stops it and owns the pause, the
    * other finds the player paused and disowns it. Both are over, and the release
    * that follows leaves the player paused although the user never paused it. */
  lemma TwoStopsDisownThePause(s: State) returns (run: seq<Event>)
    requires Hosting(s.desk) && Bracketed(Scene(s.desk, s.userPaused)) && s.syncs == map[]
    requires Waiting(s.desk) && !s.desk.roomStopped && !s.userPaused
    ensures Possible(s, run)
    ensures var end := Run(s, run);
      && end == s.(desk := s.desk.(roomStopped := true, playerPaused := true, pausedForBuffering := false))
      && !Bracketed(Scene(end.desk, end.userPaused))
    ensures forall room: RoomState, own: bool | !Waiting(s.desk.(room := room, myStalled := own)) && room.isHost ::
              var released := Synced(Run(s, run).desk.(room := room, myStalled := own), Answering);
              !released.roomStopped && released.playerPaused && !s.userPaused
  {
    hide Possible, Run, Stalls, Waiting;
    assert Waiting(s.desk) <==> Stalls(s.desk.room) || s.desk.myStalled by { WaitingIsStalling(s.desk); }
    assert Possible(s, []) && Run(s, []) == s by { NothingRun(s); }
    RunsOn(s, [], Begin(0));
    var s1 := After(s, Begin(0));
    RunsOn(s, [] + [Begin(0)], Begin(1));
    var s2 := After(s1, Begin(1));
    var first := AloneIsARun(s, [] + [Begin(0)] + [Begin(1)], 0, Answering);
    FirstStops(s, s2);
    run := AloneIsARun(s, first, 1, Answering);
    SecondDisowns(s, Alone(s2, 0, Answering));
    forall room: RoomState, own: bool | !Waiting(s.desk.(room := room, myStalled := own)) && room.isHost
      ensures !Waiting(Run(s, run).desk.(room := room, myStalled := own))
    {
      WaitingIsStalling(s.desk.(room := room, myStalled := own));
      WaitingIsStalling(Run(s, run).desk.(room := room, myStalled := own));
    }
  }

  lemma NothingRun(s: State)
    ensures Possible(s, []) && Run(s, []) == s
  {
  }

  lemma FirstStops(s: State, both: State)
    requires s.desk.room.isHost && s.syncs == map[]
    requires !s.desk.playerPaused && !s.desk.roomStopped && !s.desk.pausedForBuffering
    requires Stalls(s.desk.room) || s.desk.myStalled
    requires both == After(After(s, Begin(0)), Begin(1))
    ensures Alone(both, 0, Answering)
         == s.(desk := s.desk.(roomStopped := true, playerPaused := true, pausedForBuffering := true),
               syncs := map[1 := HasRead(false, false, s.desk.myStalled)])
  {
    ReadingEnds(both, 0, Answering);
    hide Stalls, Alone;
    assert both.syncs - {0} == map[1 := HasRead(false, false, s.desk.myStalled)];
  }

  lemma SecondDisowns(s: State, stopped: State)
    requires s.desk.room.isHost && s.syncs == map[] && (Stalls(s.desk.room) || s.desk.myStalled)
    requires stopped == s.(desk := s.desk.(roomStopped := true, playerPaused := true, pausedForBuffering := true),
                           syncs := map[1 := HasRead(false, false, s.desk.myStalled)])
    ensures Alone(stopped, 1, Answering)
         == s.(desk := s.desk.(roomStopped := true, playerPaused := true, pausedForBuffering := false))
  {
    ReadingEnds(stopped, 1, Answering);
    hide Stalls, Alone;
    assert stopped.syncs - {1} == map[];
  }

  /** A release that has decided and not yet marked, overtaken by the report of the
    * own stall: the report's sync still sees the room stopped and leaves it so, and
    * then the release goes through. Both are over, somebody waits, and the room runs. */
  lemma ReleaseOvertakesAReport(s: State) returns (run: seq<Event>)
    requires Hosting(s.desk) && Bracketed(Scene(s.desk, s.userPaused)) && s.syncs == map[]
    requires !Waiting(s.desk) && s.desk.roomStopped && !s.userPaused
    ensures Possible(s, run)
    ensures var end := Run(s, run);
      && end == s.(desk := s.desk.(roomStopped := false, playerPaused := false,
                                   pausedForBuffering := false, myStalled := true))
      && Waiting(end.desk) && !end.desk.roomStopped
  {
    hide Possible, Run, Stalls, Waiting;
    assert !Stalls(s.desk.room) && !s.desk.myStalled by { WaitingIsStalling(s.desk); }
    NothingRun(s);
    var s1 := After(s, Begin(0));
    RunsOn(s, [], Begin(0));
    var r1 := [] + [Begin(0)];
    RunsOn(s, r1, Go(0, Answering));
    var s2 := Gone(s1, 0, Answering);
    var r2 := r1 + [Go(0, Answering)];
    RunsOn(s, r2, Go(0, Answering));
    var s3 := Gone(s2, 0, Answering);
    var r3 := r2 + [Go(0, Answering)];
    RunsOn(s, r3, OwnStall(true));
    var s4 := After(s3, OwnStall(true));
    var r4 := r3 + [OwnStall(true)];
    RunsOn(s, r4, Begin(1));
    var s5 := After(s4, Begin(1));
    var reported := AloneIsARun(s, r4 + [Begin(1)], 1, Answering);
    ReportSeesAStop(s, s5);
    run := AloneIsARun(s, reported, 0, Answering);
    ReleaseGoesThrough(s, Alone(s5, 1, Answering));
    WaitingIsStalling(Run(s, run).desk);
  }

  lemma ReportSeesAStop(s: State, reporting: State)
    requires s.syncs == map[] && s.desk.room.isHost
    requires s.desk.roomStopped && !Stalls(s.desk.room) && s.desk.pausedForBuffering
    requires reporting == s.(desk := s.desk.(myStalled := true),
                             syncs := map[0 := Decided(false, true), 1 := HasRead(true, true, true)])
    ensures Alone(reporting, 1, Answering)
         == s.(desk := s.desk.(myStalled := true), syncs := map[0 := Decided(false, true)])
  {
    ReadingEnds(reporting, 1, Answering);
    hide Stalls, Alone;
    assert reporting.syncs - {1} == map[0 := Decided(false, true)];
  }

  lemma ReleaseGoesThrough(s: State, decided: State)
    requires s.syncs == map[]
    requires decided == s.(desk := s.desk.(myStalled := true), syncs := map[0 := Decided(false, true)])
    ensures Alone(decided, 0, Answering)
         == s.(desk := s.desk.(roomStopped := false, playerPaused := false,
                               pausedForBuffering := false, myStalled := true))
  {
    DecisionEnds(decided, 0, Answering);
    hide Alone;
    assert decided.syncs - {0} == map[];
  }

  /** A press between a stop's question to the player and its note: the stop owns a
    * pause the user made, and the release takes it away. */
  lemma PressDuringAStop(s: State, t: Thread)
    requires s.syncs == map[t := Asked(false)] && s.desk.roomStopped && s.desk.room.isHost
    ensures var end := Alone(After(s, Press(true)), t, Answering);
      && end.userPaused && end.desk.roomStopped && end.desk.pausedForBuffering && end.syncs == map[]
      && !Bracketed(Scene(end.desk, end.userPaused))
      && (forall room: RoomState, own: bool | room.isHost && !Waiting(end.desk.(room := room, myStalled := own)) ::
            !Synced(end.desk.(room := room, myStalled := own), Answering).playerPaused)
  {
    var pressed := After(s, Press(true));
    AloneGoes(pressed, t, Answering);
    AloneEnds(Gone(pressed, t, Answering), t, Answering);
    hide Waiting, Alone;
  }
}
