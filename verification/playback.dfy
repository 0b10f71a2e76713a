/** What one window does with its player and its room: the host stops the room for
  * whoever runs out of data and releases it again, mirrors its player into the
  * room, and repeats its position; a follower obeys the host's pauses and comes
  * back to the room's play state.
  */
module Playback {
  import opened Wrappers
  import opened PeerOrder
  import opened Protocol
  import opened RoomModel
  import opened RoomDriver

  const MAX_SEEK_DRIFT := 2.0
  const HEARTBEAT_EVERY := 10

  /** A host's tick broadcasts the position on a jump or on a heartbeat; a first
    * sample only adopts. */
  predicate HostSeekDue(lastPosition: real, position: real, tick: nat) {
    if lastPosition == 0.0 then false
    else if position - lastPosition > MAX_SEEK_DRIFT || lastPosition - position > MAX_SEEK_DRIFT then true
    else tick % HEARTBEAT_EVERY == 0
  }

  /** What the window gets from its player at one moment: there is none, it does not
    * say whether it is paused and takes no command, or it answers and obeys. */
  datatype Link = Missing | Silent | Answering

  /** The window's part of the state, with the room it drives. */
  datatype Desk = Desk(
    room: RoomState,
    playerPaused: bool,
    myStalled: bool,
    roomStopped: bool,
    pausedForBuffering: bool,
    lastPaused: Option<bool>,
    lastStalled: Option<bool>,
    lastPosition: real,
    tick: nat)

  predicate Waiting(d: Desk) {
    d.myStalled || exists id :: id in d.room.peers && d.room.peers[id].buffering
  }

  /** Stops the room for the one who is behind, or releases it. */
  function Synced(d: Desk, link: Link): Desk {
    if !d.room.isHost || Waiting(d) == d.roomStopped then d
    else if Waiting(d) then StopPlayer(d.(roomStopped := true), link)
    else if d.pausedForBuffering then ReleasePlayer(d.(roomStopped := false), link)
    else d.(roomStopped := false)
  }

  /** Only a player that answers is stopped; a pause the user made is not owned. */
  function StopPlayer(d: Desk, link: Link): Desk {
    if link.Answering? then d.(pausedForBuffering := !d.playerPaused, playerPaused := true) else d
  }

  function ReleasePlayer(d: Desk, link: Link): Desk {
    match link
    case Missing => d
    case Silent => d.(pausedForBuffering := false)
    case Answering => d.(pausedForBuffering := false, playerPaused := false)
  }

  /** A stall reading: news are reported to the room and may stop it. */
  function StallRead(d: Desk, stalled: Option<bool>, link: Link): Desk {
    if stalled.None? || d.lastStalled == stalled then d
    else Synced(d.(lastStalled := stalled, myStalled := stalled.value), link)
  }

  /** The rest of a tick; `paused` is what the player said when the tick began. */
  function Mirrored(d: Desk, paused: Option<bool>, position: Option<real>): Desk {
    if !d.room.isHost then
      var d' := d.(lastPaused := paused, tick := d.tick + 1,
                   lastPosition := if position.Some? then position.value else d.lastPosition);
      if d'.tick % HEARTBEAT_EVERY == 0 && paused.Some? && d.room.pausedKnown && d.room.paused != paused.value
      then d'.(playerPaused := d.room.paused) else d'
    else
      var d' := if paused.None? || d.lastPaused == paused then d
                else d.(lastPaused := paused, room := d.room.(paused := paused.value, pausedKnown := true));
      if position.None? then d' else d'.(tick := d.tick + 1, lastPosition := position.value)
  }

  function MirrorSends(d: Desk, paused: Option<bool>, position: Option<real>): seq<Effect> {
    if !d.room.isHost then []
    else
      (if paused.None? || d.lastPaused == paused then [] else [Sent(Pause(paused.value))])
      + if position.Some? && HostSeekDue(d.lastPosition, position.value, d.tick + 1)
          then [Sent(Position(position.value))] else []
  }

  function Reading(d: Desk, link: Link): Option<bool> {
    if link.Answering? then Some(d.playerPaused) else None
  }

  /** A tick. Without a player what the loop remembers starts over. */
  function Ticked(d: Desk, position: Option<real>, stalled: Option<bool>, link: Link): Desk {
    if link.Missing? then d.(lastPaused := None, lastStalled := None, lastPosition := 0.0, tick := 0)
    else Mirrored(StallRead(d, stalled, link), Reading(d, link), position)
  }

  function TickSends(d: Desk, position: Option<real>, stalled: Option<bool>, link: Link): seq<Effect> {
    if link.Missing? then [] else
      (if stalled.None? || d.lastStalled == stalled then [] else [Sent(Buffering(stalled.value))])
      + MirrorSends(StallRead(d, stalled, link), Reading(d, link), position)
  }

  /** A message is handled. A report of anybody's stall may stop or release; a pause
    * of the host that is followed drives the player. */
  ghost function Heard(d: Desk, from: PeerID, m: Message, link: Link): Desk {
    var d' := d.(room := Step(d.room, from, m).room);
    if m.Buffering? && from !in d.room.refused then Synced(d', link)
    else if m.Pause? && from !in d.room.refused && ShouldFollow(from, d.room.hostPeer) && link.Answering?
    then d'.(playerPaused := m.paused)
    else d'
  }

  class Window {
    const room: Room
    var playerPaused: bool
    var myStalled: bool
    var roomStopped: bool
    var pausedForBuffering: bool
    var lastPaused: Option<bool>
    var lastStalled: Option<bool>
    var lastPosition: real
    var tick: nat

    ghost function State(): Desk
      reads this, room
    {
      Desk(room.State(), playerPaused, myStalled, roomStopped, pausedForBuffering, lastPaused, lastStalled,
          lastPosition, tick)
    }

    constructor (room: Room, playerPaused: bool)
      ensures this.room == room
      ensures State() == Desk(room.State(), playerPaused, false, false, false, None, None, 0.0, 0)
    {
      this.room := room;
      this.playerPaused := playerPaused;
      myStalled, roomStopped, pausedForBuffering := false, false, false;
      lastPaused, lastStalled, lastPosition, tick := None, None, 0.0, 0;
    }

    method SyncTheRoomStop(link: Link)
      modifies this
      ensures State() == Synced(old(State()), link)
    {
      var stopped, owned, ownStall := roomStopped, pausedForBuffering, myStalled;
      if !room.isHost {
        return;
      }
      var someone := room.AnyoneBuffering();
      var waiting := someone || ownStall;
      if waiting == stopped {
        return;
      }
      roomStopped := waiting;
      if waiting {
        PauseTheRoom(link);
        return;
      }
      if owned {
        ResumeTheRoom(link);
      }
    }

    /** A pause the user made is not ours to take away later. */
    method PauseTheRoom(link: Link)
      modifies this
      ensures State() == StopPlayer(old(State()), link)
    {
      if link == Missing {
        return;
      }
      if link == Silent {
        return;
      }
      if playerPaused {
        pausedForBuffering := false;
        return;
      }
      pausedForBuffering := true;
      playerPaused := true;
    }

    method ResumeTheRoom(link: Link)
      modifies this
      ensures State() == ReleasePlayer(old(State()), link)
    {
      if link == Missing {
        return;
      }
      pausedForBuffering := false;
      if link == Answering {
        playerPaused := false;
      }
    }

    /** The room hears a message and calls back: a stall report syncs the stop, and a
      * pause to be followed drives the player. */
    method OnMessage(from: PeerID, m: Message, link: Link)
      modifies this, room
      ensures State() == Heard(old(State()), from, m, link)
    {
      hide Synced, Step;
      var admitted := from !in room.refused;
      var obeyed := admitted && ShouldFollow(from, room.hostPeer);
      room.Handle(from, m);
      if m.Buffering? && admitted {
        SyncTheRoomStop(link);
      }
      if m.Pause? && obeyed {
        ApplyPause(m.paused, link);
      }
    }

    method ApplyPause(paused: bool, link: Link)
      modifies this`playerPaused
      ensures playerPaused == if link.Answering? then paused else old(playerPaused)
    {
      if link == Missing {
        return;
      }
      if link == Answering {
        playerPaused := paused;
      }
    }

    /** One beat of the loop around the player. */
    method WatchTick(position: Option<real>, stalled: Option<bool>, link: Link)
      modifies this, room
      ensures State() == Ticked(old(State()), position, stalled, link)
      ensures room.emitted == old(room.emitted) + TickSends(old(State()), position, stalled, link)
    {
      if link == Missing {
        lastPaused, lastStalled, lastPosition, tick := None, None, 0.0, 0;
        return;
      }
      RoomTick(position, stalled, link);
    }

    method RoomTick(position: Option<real>, stalled: Option<bool>, link: Link)
      requires link != Missing
      modifies this, room
      ensures State() == Ticked(old(State()), position, stalled, link)
      ensures room.emitted == old(room.emitted) + TickSends(old(State()), position, stalled, link)
    {
      hide Synced, Mirrored, MirrorSends, Waiting, HostSeekDue;
      var paused := if link == Answering then Some(playerPaused) else None;
      if stalled.Some? && lastStalled != stalled {
        lastStalled := stalled;
        myStalled := stalled.value;
        room.Emit(Sent(Buffering(stalled.value)));
        SyncTheRoomStop(link);
      }
      assert State() == StallRead(old(State()), stalled, link) && paused == Reading(old(State()), link);
      hide StallRead, Reading;
      MirrorIntoTheRoom(paused, position);
    }

    method MirrorIntoTheRoom(paused: Option<bool>, position: Option<real>)
      modifies this, room
      ensures State() == Mirrored(old(State()), paused, position)
      ensures room.emitted == old(room.emitted) + MirrorSends(old(State()), paused, position)
    {
      if !room.isHost {
        MirrorTheRoom(paused, position);
        return;
      }
      if paused.Some? && lastPaused != paused {
        lastPaused := paused;
        if paused.value {
          room.PauseRoom();
        } else {
          room.Play();
        }
      }
      MirrorPosition(position);
    }

    /** The follower's half of a tick. */
    method MirrorTheRoom(paused: Option<bool>, position: Option<real>)
      requires !room.isHost
      modifies this
      ensures State() == Mirrored(old(State()), paused, position)
    {
      lastPaused := paused;
      if position.Some? {
        lastPosition := position.value;
      }
      tick := tick + 1;
      if tick % HEARTBEAT_EVERY == 0 {
        ConvergeToRoomState(paused);
      }
    }

    method MirrorPosition(position: Option<real>)
      modifies this`tick, this`lastPosition, room`emitted
      ensures tick == old(tick) + if position.Some? then 1 else 0
      ensures lastPosition == if position.Some? then position.value else old(lastPosition)
      ensures room.emitted == old(room.emitted)
        + if position.Some? && HostSeekDue(old(lastPosition), position.value, tick)
            then [Sent(Position(position.value))] else []
    {
      if position.None? { return; }
      tick := tick + 1;
      if HostSeekDue(lastPosition, position.value, tick) {
        room.Emit(Sent(Position(position.value)));
      }
      lastPosition := position.value;
    }

    /** A follower whose player disagrees with the room is brought back. */
    method ConvergeToRoomState(paused: Option<bool>)
      modifies this`playerPaused
      ensures playerPaused == if paused.Some? && room.pausedKnown && room.paused != paused.value
                              then room.paused else old(playerPaused)
    {
      if paused.None? {
        return;
      }
      if !room.pausedKnown || room.paused == paused.value {
        return;
      }
      playerPaused := room.paused;
    }
  }

  // ---------- stop and release ----------

  datatype Happening =
    | Message(from: PeerID, msg: Protocol.Message, link: Link)
    | Tick(position: Option<real>, stalled: Option<bool>, link: Link)
    | UserPress(paused: bool)

  /** `userPaused` is what the user chose last. */
  datatype Scene = Scene(desk: Desk, userPaused: bool)

  ghost function Next(s: Scene, h: Happening): Scene {
    match h
    case Message(from, msg, link) => s.(desk := Heard(s.desk, from, msg, link))
    case Tick(position, stalled, link) => s.(desk := Ticked(s.desk, position, stalled, link))
    case UserPress(paused) => Scene(s.desk.(playerPaused := paused), paused)
  }

  /** This window hosts, and its room follows it. */
  predicate Hosting(d: Desk) {
    d.room.isHost && d.room.hostPeer == d.room.selfID
  }

  /** The player answers, nobody hears itself, and a press comes only while the room
    * is not stopped. */
  predicate Orderly(s: Scene, h: Happening) {
    && (h.Message? ==> h.from != s.desk.room.selfID && h.link.Answering?)
    && (h.Tick? ==> h.link.Answering?)
    && (h.UserPress? ==> !s.desk.roomStopped)
  }

  /** Throughout the run the window hosts, and everything in it is orderly. */
  ghost predicate Allowed(s: Scene, run: seq<Happening>)
    decreases |run|
  {
    && Hosting(s.desk)
    && (run != [] ==> Orderly(s, run[0]) && Allowed(Next(s, run[0]), run[1..]))
  }

  ghost function End(s: Scene, run: seq<Happening>): Scene
    decreases |run|
  {
    if run == [] then s else End(Next(s, run[0]), run[1..])
  }

  /** The player is paused exactly when the user paused it or the room is stopped,
    * and the window owns the pause exactly when the room is stopped and the user
    * had not paused. */
  predicate Bracketed(s: Scene) {
    && (s.desk.playerPaused <==> s.userPaused || s.desk.roomStopped)
    && (s.desk.pausedForBuffering <==> s.desk.roomStopped && !s.userPaused)
  }

  /** What the room was last told is what the room remembers. */
  predicate Mirrors(d: Desk) {
    d.lastPaused.Some? ==> d.room.pausedKnown && d.room.paused == d.lastPaused.value
  }

  lemma SyncBrackets(s: Scene)
    requires Bracketed(s) && s.desk.room.isHost
    ensures var s' := s.(desk := Synced(s.desk, Answering));
      Bracketed(s') && s'.desk.roomStopped == Waiting(s'.desk) && (Mirrors(s.desk) ==> Mirrors(s'.desk))
  {
  }

  /** A host's sync leaves the bracket sound exactly when the player answers, or
    * there is nothing to do, or the user had paused anyway. */
  lemma SyncKeepsBracketExactly(s: Scene, link: Link)
    requires Bracketed(s) && s.desk.room.isHost
    ensures Bracketed(s.(desk := Synced(s.desk, link)))
            <==> link.Answering? || Waiting(s.desk) == s.desk.roomStopped || s.userPaused
  {
    hide Waiting;
  }

  /** A host that hears others keeps the room's play state. */
  lemma HearingKeepsPlayState(r: RoomState, from: PeerID, m: Protocol.Message)
    requires r.hostPeer == r.selfID && from != r.selfID
    ensures var r' := Step(r, from, m).room; r'.paused == r.paused && r'.pausedKnown == r.pausedKnown
  {
    hide Answer, Believable, TakeoverWinner, FreshOf, Crowned;
  }

  lemma StepBrackets(s: Scene, h: Happening)
    requires Bracketed(s) && Mirrors(s.desk) && Hosting(s.desk) && Orderly(s, h)
    requires Hosting(Next(s, h).desk)
    ensures Bracketed(Next(s, h)) && Mirrors(Next(s, h).desk)
  {
    hide Step, Synced, Waiting;
    match h
    case Message(from, msg, _) =>
      HearingKeepsPlayState(s.desk.room, from, msg);
      if msg.Buffering? && from !in s.desk.room.refused {
        BufferingKeepsRole(s.desk.room, from, msg);
        SyncBrackets(s.(desk := s.desk.(room := Step(s.desk.room, from, msg).room)));
      }
    case Tick(position, stalled, _) => TickBrackets(s, position, stalled);
    case UserPress(_) =>
  }

  lemma TickBrackets(s: Scene, position: Option<real>, stalled: Option<bool>)
    requires Bracketed(s) && Mirrors(s.desk) && Hosting(s.desk)
    ensures var s' := s.(desk := Ticked(s.desk, position, stalled, Answering)); Bracketed(s') && Mirrors(s'.desk)
  {
    hide Synced, Waiting;
    if stalled.Some? && s.desk.lastStalled != stalled {
      var d' := s.desk.(lastStalled := stalled, myStalled := stalled.value);
      SyncBrackets(s.(desk := d'));
      SyncKeepsRoom(d', Answering);
    }
  }

  lemma BufferingKeepsRole(r: RoomState, from: PeerID, m: Protocol.Message)
    requires m.Buffering?
    ensures Step(r, from, m).room.isHost == r.isHost
  {
  }

  lemma SyncKeepsRoom(d: Desk, link: Link)
    ensures Synced(d, link).room == d.room && Synced(d, link).lastPaused == d.lastPaused
  {
  }

  lemma {:induction false} RunBrackets(s: Scene, run: seq<Happening>)
    requires Bracketed(s) && Mirrors(s.desk) && Allowed(s, run)
    ensures Bracketed(End(s, run)) && Mirrors(End(s, run).desk) && Hosting(End(s, run).desk)
    decreases |run|
  {
    hide Next, Bracketed, Mirrors;
    if run != [] {
      assert Hosting(Next(s, run[0]).desk);
      StepBrackets(s, run[0]);
      RunBrackets(Next(s, run[0]), run[1..]);
    }
  }

  /** In every run of a host, whatever the room's members report: the player is
    * paused exactly when the user paused it or the room is stopped. In
    * particular a released room is back where the user left it. */
  lemma ReleaseRestoresTheUsersChoice(s: Scene, run: seq<Happening>)
    requires !s.desk.roomStopped && !s.desk.pausedForBuffering && s.userPaused == s.desk.playerPaused
    requires s.desk.lastPaused.None? && Allowed(s, run)
    ensures var end := End(s, run);
      && Bracketed(end)
      && (!end.desk.roomStopped ==> end.desk.playerPaused == end.userPaused && !end.desk.pausedForBuffering)
  {
    RunBrackets(s, run);
  }

  lemma SyncedWaits(d: Desk, link: Link)
    requires d.room.isHost
    ensures Synced(d, link).roomStopped == Waiting(Synced(d, link))
  {
  }

  lemma MirroringKeepsTheStop(d: Desk, paused: Option<bool>, position: Option<real>)
    ensures var d' := Mirrored(d, paused, position); d'.roomStopped == d.roomStopped && Waiting(d') == Waiting(d)
  {
  }

  /** A stall report that reaches the room, or news of the own stall. */
  predicate Reports(d: Desk, h: Happening) {
    || (h.Message? && h.msg.Buffering? && h.from !in d.room.refused)
    || (h.Tick? && !h.link.Missing? && h.stalled.Some? && h.stalled != d.lastStalled)
  }

  /** Right after a stall report or a change of the own stall, the room is stopped
    * exactly when somebody waits, whether the player answers or not. */
  lemma SyncedAfterEveryReport(s: Scene, h: Happening)
    requires Hosting(s.desk) && Reports(s.desk, h)
    ensures Next(s, h).desk.roomStopped == Waiting(Next(s, h).desk)
  {
    hide Step, Synced, Waiting, Mirrored;
    if h.Message? {
      BufferingKeepsRole(s.desk.room, h.from, h.msg);
      SyncedWaits(s.desk.(room := Step(s.desk.room, h.from, h.msg).room), h.link);
    } else {
      SyncedWaits(s.desk.(lastStalled := h.stalled, myStalled := h.stalled.value), h.link);
      MirroringKeepsTheStop(StallRead(s.desk, h.stalled, h.link), Reading(s.desk, h.link), h.position);
    }
  }

  /** This peer is the only one anybody waits for. */
  predicate OnlyStaller(d: Desk, peer: PeerID) {
    && !d.myStalled && peer in d.room.peers && d.room.peers[peer].buffering
    && forall id | id in d.room.peers && id != peer :: !d.room.peers[id].buffering
  }

  /** A message that takes a peer's stall out of the roster without a report: it
    * leaves, or it is greeted anew. */
  predicate Clears(d: Desk, h: Happening) {
    h.Message? && h.from !in d.room.refused && (h.msg.Bye? || Admits(d.room, h.from, h.msg))
  }

  lemma StallsMoveOnlyWith(r: RoomState, from: PeerID, m: Protocol.Message)
    requires !m.Buffering?
    ensures var r' := Step(r, from, m).room;
      forall id :: (id in r'.peers && r'.peers[id].buffering) <==>
        (id in r.peers && r.peers[id].buffering &&
         !(id == from && from !in r.refused && (m.Bye? || Admits(r, from, m))))
  {
    hide Answer, Believable, TakeoverWinner, FreshOf;
  }

  /** Without a report the stop never moves, and it goes on matching the waiting
    * exactly unless the only staller leaves or greets anew: then the room stays
    * stopped for nobody. */
  lemma StopOutlivesItsCause(s: Scene, h: Happening)
    requires !Reports(s.desk, h)
    ensures Next(s, h).desk.roomStopped == s.desk.roomStopped
    ensures Waiting(Next(s, h).desk) <==> Waiting(s.desk) && !(Clears(s.desk, h) && OnlyStaller(s.desk, h.from))
  {
    hide Step, Admits;
    if h.Message? && !h.msg.Buffering? {
      StallsMoveOnlyWith(s.desk.room, h.from, h.msg);
      WaitingMoves(s.desk, Next(s, h).desk, h);
    } else if h.Message? {
      RefusedReportIsDropped(s.desk.room, h.from, h.msg);
    } else if h.Tick? && !h.link.Missing? {
      MirroringKeepsTheStop(StallRead(s.desk, h.stalled, h.link), Reading(s.desk, h.link), h.position);
    }
  }

  lemma RefusedReportIsDropped(r: RoomState, from: PeerID, m: Protocol.Message)
    requires m.Buffering? && from in r.refused
    ensures Step(r, from, m).room == r
  {
  }

  lemma WaitingMoves(d: Desk, d': Desk, h: Happening)
    requires h.Message? && d'.myStalled == d.myStalled
    requires forall id :: (id in d'.room.peers && d'.room.peers[id].buffering) <==>
      (id in d.room.peers && d.room.peers[id].buffering && !(id == h.from && Clears(d, h)))
    ensures Waiting(d') <==> Waiting(d) && !(Clears(d, h) && OnlyStaller(d, h.from))
  {
    hide Clears;
    if Waiting(d) && !d.myStalled && !(Clears(d, h) && OnlyStaller(d, h.from)) {
      var id :| id in d.room.peers && d.room.peers[id].buffering && !(id == h.from && Clears(d, h));
      assert id in d'.room.peers && d'.room.peers[id].buffering;
    }
  }

  /** However long nothing is reported, the room stays as it was stopped or not. */
  lemma {:induction false} OnlyReportsMoveTheStop(s: Scene, run: seq<Happening>)
    requires Quiet(s, run)
    ensures End(s, run).desk.roomStopped == s.desk.roomStopped
    decreases |run|
  {
    hide Next, Reports;
    if run != [] {
      StopOutlivesItsCause(s, run[0]);
      OnlyReportsMoveTheStop(Next(s, run[0]), run[1..]);
    }
  }

  ghost predicate Quiet(s: Scene, run: seq<Happening>)
    decreases |run|
  {
    run != [] ==> !Reports(s.desk, run[0]) && Quiet(Next(s, run[0]), run[1..])
  }

  /** When the only staller leaves, nobody is waited for any more, and yet the room
    * stays stopped until the next report. */
  lemma LeaverLeavesTheRoomStopped(s: Scene, from: PeerID, link: Link, run: seq<Happening>)
    requires s.desk.roomStopped && OnlyStaller(s.desk, from) && from !in s.desk.room.refused
    requires Quiet(Next(s, Message(from, Bye(from), link)), run)
    ensures var left := Next(s, Message(from, Bye(from), link));
      !Waiting(left.desk) && left.desk.roomStopped && End(left, run).desk.roomStopped
  {
    hide Step, Waiting, Quiet, End, Next, Admits;
    StopOutlivesItsCause(s, Message(from, Bye(from), link));
    OnlyReportsMoveTheStop(Next(s, Message(from, Bye(from), link)), run);
  }

  /** A tick tells the room the play state the player had when the tick began. */
  lemma TickMirrorsThePlayer(s: Scene, run: seq<Happening>, position: Option<real>, stalled: Option<bool>)
    requires s.desk.lastPaused.None? && Bracketed(s) && Allowed(s, run)
    ensures var before := End(s, run).desk; var after := Ticked(before, position, stalled, Answering);
      after.room.pausedKnown && after.room.paused == before.playerPaused
  {
    RunBrackets(s, run);
    var d := End(s, run).desk;
    var d1 := StallRead(d, stalled, Answering);
    hide Waiting;
    assert d1.room == d.room && d1.lastPaused == d.lastPaused;
  }

  /** A press while the room is stopped leaves the bracket sound exactly when it
    * repeats a pause the user had made; a press while it is not stopped always. */
  lemma PressKeepsBracketExactly(s: Scene, paused: bool)
    requires Bracketed(s)
    ensures Bracketed(Next(s, UserPress(paused))) <==> !s.desk.roomStopped || (paused && s.userPaused)
  {
  }

  // ---------- the follower ----------

  /** What a tick or a message does to the player that answers it: a follower's is brought
    * to a play state the room knows, on every tenth tick; and a pause of the host that is
    * followed is obeyed. A player that does not answer is left alone. */
  lemma FollowersPlayerMovesExactly(s: Scene, h: Happening)
    requires !s.desk.room.isHost && !Next(s, h).desk.room.isHost && !h.UserPress?
    ensures var d := s.desk;
      Next(s, h).desk.playerPaused
      == if !h.link.Answering? then d.playerPaused
         else if h.Tick? then
           if d.room.pausedKnown && (d.tick + 1) % 10 == 0 then d.room.paused else d.playerPaused
         else
           if h.msg.Pause? && h.from !in d.room.refused && h.from != "" && h.from == d.room.hostPeer
           then h.msg.paused else d.playerPaused
  {
    hide Step, Synced;
    if h.Message? {
      var d := s.desk.(room := Step(s.desk.room, h.from, h.msg).room);
      SyncKeepsRoom(d, h.link);
      FollowersDoNotSync(d, h.link);
    }
    if h.Tick? && h.stalled.Some? {
      FollowersDoNotSync(s.desk.(lastStalled := h.stalled, myStalled := h.stalled.value), h.link);
    }
  }

  /** Nobody's player moves without answering. */
  lemma SilentPlayersAreLeftAlone(s: Scene, h: Happening)
    requires !h.UserPress? && !h.link.Answering?
    ensures Next(s, h).desk.playerPaused == s.desk.playerPaused
  {
    hide Step, Waiting;
  }

  /** A follower whose room knows a play state. */
  predicate Follows(d: Desk) {
    !d.room.isHost && d.room.pausedKnown
  }

  /** Ticks of a player that answers, with or without news of a stall, and messages of
    * anybody, all of which leave the follower's role and the room's play state as they
    * are. */
  ghost predicate Uneventful(s: Scene, run: seq<Happening>)
    decreases |run|
  {
    && Follows(s.desk)
    && (run != [] ==>
          && !run[0].UserPress? && (run[0].Tick? ==> run[0].link.Answering?)
          && Next(s, run[0]).desk.room.paused == s.desk.room.paused
          && Uneventful(Next(s, run[0]), run[1..]))
  }

  function Ticks(run: seq<Happening>): nat {
    if run == [] then 0 else (if run[0].Tick? then 1 else 0) + Ticks(run[1..])
  }

  /** A tick that is a heartbeat brings the player to the room's play state, and nothing
    * uneventful takes it away from there. */
  lemma UneventfulStep(s: Scene, h: Happening)
    requires Follows(s.desk) && !h.UserPress? && (h.Tick? ==> h.link.Answering?)
    requires Follows(Next(s, h).desk) && Next(s, h).desk.room.paused == s.desk.room.paused
    ensures Next(s, h).desk.tick == s.desk.tick + if h.Tick? then 1 else 0
    ensures s.desk.playerPaused == s.desk.room.paused || (h.Tick? && Next(s, h).desk.tick % HEARTBEAT_EVERY == 0) ==>
              Next(s, h).desk.playerPaused == s.desk.room.paused
  {
    if h.Message? {
      FollowedPauseIsRemembered(s.desk.room, h.from, h.msg);
      FollowersDoNotSync(s.desk.(room := Step(s.desk.room, h.from, h.msg).room), h.link);
      BufferingKeepsRoleOf(s.desk.room, h.from, h.msg);
      hide Step, Synced;
    }
  }

  lemma BufferingKeepsRoleOf(r: RoomState, from: PeerID, m: Protocol.Message)
    ensures m.Buffering? ==> Step(r, from, m).room.isHost == r.isHost
  {
    if m.Buffering? { BufferingKeepsRole(r, from, m); }
  }

  lemma FollowersDoNotSync(d: Desk, link: Link)
    ensures !d.room.isHost ==> Synced(d, link) == d
  {
  }

  lemma FollowedPauseIsRemembered(r: RoomState, from: PeerID, m: Protocol.Message)
    ensures m.Pause? && from !in r.refused && ShouldFollow(from, r.hostPeer) ==>
              Step(r, from, m).room.paused == m.paused
  {
  }

  /** Within ten ticks a follower's player is in the room's play state and stays there,
    * whatever is said and whoever stalls meanwhile, as long as the play state of the
    * room is not moved. */
  lemma FollowerComesBack(s: Scene, run: seq<Happening>)
    requires Uneventful(s, run) && Ticks(run) >= HEARTBEAT_EVERY
    ensures End(s, run).desk.playerPaused == s.desk.room.paused
  {
    hide End, Next, Uneventful, Ticks;
    FollowerComesBackBy(s, run, HEARTBEAT_EVERY - s.desk.tick % HEARTBEAT_EVERY);
  }

  /** Either the player is there already or the next heartbeat is `k` ticks away. */
  lemma {:induction false} FollowerComesBackBy(s: Scene, run: seq<Happening>, k: nat)
    requires Uneventful(s, run)
    requires s.desk.playerPaused == s.desk.room.paused
             || (0 < k <= Ticks(run) && (s.desk.tick + k) % HEARTBEAT_EVERY == 0)
    ensures End(s, run).desk.playerPaused == s.desk.room.paused
    decreases |run|
  {
    hide Next;
    if run != [] {
      UneventfulStep(s, run[0]);
      var s' := Next(s, run[0]);
      if s'.desk.playerPaused == s.desk.room.paused {
        FollowerComesBackBy(s', run[1..], k);
      } else {
        FollowerComesBackBy(s', run[1..], if run[0].Tick? then k - 1 else k);
      }
    }
  }
}
