/** What a window tells the room over whole runs: each change of its player's pause,
  * each change of its stall, once; and how a follower that hears it ends up.
  */
module Mirroring {
  import opened Wrappers
  import opened PeerOrder
  import Protocol
  import opened RoomModel
  import opened Playback

  // ---------- changes ----------

  /** The readings that differ from the one before; a gap forgets that one. */
  function Changes(before: Option<bool>, readings: seq<Option<bool>>): seq<bool>
    decreases |readings|
  {
    if readings == [] then []
    else
      var now := readings[0];
      (if now.Some? && now != before then [now.value] else []) + Changes(now, readings[1..])
  }

  /** After a reading, the last change is that reading, unless it was known before. */
  lemma {:induction false} LastChangeIsTheReading(before: Option<bool>, readings: seq<Option<bool>>)
    requires readings != [] && readings[|readings| - 1].Some?
    ensures var changes, last := Changes(before, readings), readings[|readings| - 1];
      if changes == [] then before == last else Some(changes[|changes| - 1]) == last
    decreases |readings|
  {
    if |readings| == 1 {
      assert Changes(readings[0], readings[1..]) == [];
    } else {
      LastChangeIsTheReading(readings[0], readings[1..]);
    }
  }

  /** Without a gap no change repeats the one before it. */
  lemma {:induction false} ChangesDiffer(before: Option<bool>, readings: seq<Option<bool>>)
    requires None !in readings
    ensures var changes := Changes(before, readings);
      && (forall i | 0 < i < |changes| :: changes[i - 1] != changes[i])
      && (changes != [] ==> before != Some(changes[0]))
    decreases |readings|
  {
    if readings != [] {
      assert readings[0] in readings && forall r | r in readings[1..] :: r in readings;
      ChangesDiffer(readings[0], readings[1..]);
    }
  }

  // ---------- what the ticks of a run send ----------

  function Pauses(effects: seq<Effect>): seq<bool> {
    if effects == [] then []
    else
      (if effects[0].Sent? && effects[0].msg.Pause? then [effects[0].msg.paused] else []) + Pauses(effects[1..])
  }

  function Stalls(effects: seq<Effect>): seq<bool> {
    if effects == [] then []
    else
      (if effects[0].Sent? && effects[0].msg.Buffering? then [effects[0].msg.buffering] else [])
      + Stalls(effects[1..])
  }

  lemma {:induction false} PausesSplit(a: seq<Effect>, b: seq<Effect>)
    ensures Pauses(a + b) == Pauses(a) + Pauses(b)
  {
    if a == [] {
      assert a + b == b;
    } else {
      assert (a + b)[0] == a[0] && (a + b)[1..] == a[1..] + b;
      PausesSplit(a[1..], b);
    }
  }

  lemma {:induction false} StallsSplit(a: seq<Effect>, b: seq<Effect>)
    ensures Stalls(a + b) == Stalls(a) + Stalls(b)
  {
    if a == [] {
      assert a + b == b;
    } else {
      assert (a + b)[0] == a[0] && (a + b)[1..] == a[1..] + b;
      StallsSplit(a[1..], b);
    }
  }

  function Sends(d: Desk, h: Happening): seq<Effect> {
    if h.Tick? then TickSends(d, h.position, h.stalled, h.link) else []
  }

  /** Everything the ticks of a run send, in order. */
  ghost function Told(s: Scene, run: seq<Happening>): seq<Effect>
    decreases |run|
  {
    if run == [] then [] else Sends(s.desk, run[0]) + Told(Next(s, run[0]), run[1..])
  }

  /** What the player said when a tick began; without a player there is a gap. */
  function PauseRead(d: Desk, h: Happening): seq<Option<bool>> {
    if !h.Tick? || h.link.Silent? then []
    else if h.link.Missing? then [None]
    else [Some(d.playerPaused)]
  }

  ghost function PauseReadings(s: Scene, run: seq<Happening>): seq<Option<bool>>
    decreases |run|
  {
    if run == [] then [] else PauseRead(s.desk, run[0]) + PauseReadings(Next(s, run[0]), run[1..])
  }

  /** The stalls read at each tick, with the same gaps. */
  function StallReadings(run: seq<Happening>): seq<Option<bool>> {
    if run == [] then []
    else
      var h := run[0];
      (if !h.Tick? then []
       else if h.link.Missing? then [None]
       else if h.stalled.Some? then [h.stalled]
       else []) + StallReadings(run[1..])
  }

  /** The window hosts at every moment, and nobody hears itself. */
  ghost predicate HostsThroughout(s: Scene, run: seq<Happening>)
    decreases |run|
  {
    && Hosting(s.desk)
    && (run != [] ==>
          && (run[0].Message? ==> run[0].from != s.desk.room.selfID)
          && HostsThroughout(Next(s, run[0]), run[1..]))
  }

  lemma AtMostOne(a: seq<Effect>)
    requires |a| <= 1
    ensures Pauses(a) == if a != [] && a[0].Sent? && a[0].msg.Pause? then [a[0].msg.paused] else []
    ensures Stalls(a) == if a != [] && a[0].Sent? && a[0].msg.Buffering? then [a[0].msg.buffering] else []
  {
    if a != [] {
      assert a[1..] == [];
      assert Pauses([]) == [] && Stalls([]) == [];
    }
  }

  lemma NothingTold()
    ensures Pauses([]) == [] && Stalls([]) == []
  {
  }

  function StallSent(d: Desk, stalled: Option<bool>): seq<Effect> {
    if stalled.None? || d.lastStalled == stalled then [] else [Sent(Protocol.Buffering(stalled.value))]
  }

  function PauseSent(d: Desk, link: Link): seq<Effect> {
    if !d.room.isHost || !link.Answering? || d.lastPaused == Some(d.playerPaused) then []
    else [Sent(Protocol.Pause(d.playerPaused))]
  }

  /** A tick sends the stall, the pause and the position, in this order, and nothing
    * else; a tick of a follower only the stall. */
  lemma TickSendsThree(d: Desk, position: Option<real>, stalled: Option<bool>, link: Link)
    requires !link.Missing?
    ensures var due := d.room.isHost && position.Some? && HostSeekDue(d.lastPosition, position.value, d.tick + 1);
      TickSends(d, position, stalled, link)
      == StallSent(d, stalled) + (PauseSent(d, link) + if due then [Sent(Protocol.Position(position.value))] else [])
  {
    hide Synced, HostSeekDue;
    if stalled.Some? && d.lastStalled != stalled {
      SyncKeepsLoop(d.(lastStalled := stalled, myStalled := stalled.value), link);
    }
  }

  lemma SyncKeepsLoop(d: Desk, link: Link)
    ensures var d' := Synced(d, link);
      && d'.room == d.room && d'.lastPaused == d.lastPaused && d'.lastStalled == d.lastStalled
      && d'.lastPosition == d.lastPosition && d'.tick == d.tick
  {
  }

  /** Of the three only the pause is one. */
  lemma TickTellsPause(d: Desk, position: Option<real>, stalled: Option<bool>, link: Link)
    requires !link.Missing?
    ensures Pauses(TickSends(d, position, stalled, link))
         == if d.room.isHost && link.Answering? && d.lastPaused != Some(d.playerPaused) then [d.playerPaused] else []
  {
    hide TickSends, HostSeekDue, Pauses, Stalls;
    TickSendsThree(d, position, stalled, link);
    var a, b := StallSent(d, stalled), PauseSent(d, link);
    var due := d.room.isHost && position.Some? && HostSeekDue(d.lastPosition, position.value, d.tick + 1);
    var c := if due then [Sent(Protocol.Position(position.value))] else [];
    AtMostOne(a);
    AtMostOne(b);
    AtMostOne(c);
    PausesSplit(a, b + c);
    PausesSplit(b, c);
  }

  /** And only the stall is one. */
  lemma TickTellsStall(d: Desk, position: Option<real>, stalled: Option<bool>, link: Link)
    requires !link.Missing?
    ensures Stalls(TickSends(d, position, stalled, link))
         == if stalled.Some? && stalled != d.lastStalled then [stalled.value] else []
  {
    hide TickSends, HostSeekDue, Pauses, Stalls;
    TickSendsThree(d, position, stalled, link);
    var a, b := StallSent(d, stalled), PauseSent(d, link);
    var due := d.room.isHost && position.Some? && HostSeekDue(d.lastPosition, position.value, d.tick + 1);
    var c := if due then [Sent(Protocol.Position(position.value))] else [];
    AtMostOne(a);
    AtMostOne(b);
    AtMostOne(c);
    StallsSplit(a, b + c);
    StallsSplit(b, c);
  }

  /** A follower's ticks tell its stalls and never a pause or a position. */
  lemma FollowersTellOnlyStalls(d: Desk, position: Option<real>, stalled: Option<bool>, link: Link)
    requires !d.room.isHost && !link.Missing?
    ensures TickSends(d, position, stalled, link)
         == if stalled.Some? && stalled != d.lastStalled then [Sent(Protocol.Buffering(stalled.value))] else []
  {
    hide TickSends;
    TickSendsThree(d, position, stalled, link);
  }

  lemma NoPlayerStartsOver(d: Desk, position: Option<real>, stalled: Option<bool>)
    ensures TickSends(d, position, stalled, Missing) == []
    ensures var d' := Ticked(d, position, stalled, Missing); d'.lastPaused == None && d'.lastStalled == None
  {
  }

  lemma LoopRemembers(d: Desk, position: Option<real>, stalled: Option<bool>, link: Link)
    requires !link.Missing?
    ensures var d' := Ticked(d, position, stalled, link);
      && (d.room.isHost ==> d'.lastPaused == if link.Answering? then Some(d.playerPaused) else d.lastPaused)
      && d'.lastStalled == (if stalled.Some? then stalled else d.lastStalled)
  {
    hide Synced;
    if stalled.Some? && d.lastStalled != stalled {
      SyncKeepsLoop(d.(lastStalled := stalled, myStalled := stalled.value), link);
    }
  }

  lemma MessagesLeaveTheLoop(s: Scene, h: Happening)
    requires !h.Tick?
    ensures Next(s, h).desk.lastPaused == s.desk.lastPaused && Next(s, h).desk.lastStalled == s.desk.lastStalled
  {
    hide Step, Synced;
    if h.Message? { SyncKeepsLoop(s.desk.(room := Step(s.desk.room, h.from, h.msg).room), h.link); }
  }

  // ---------- whole runs ----------

  lemma NoReading(before: Option<bool>, rest: seq<Option<bool>>)
    ensures Changes(before, [] + rest) == [] + Changes(before, rest)
    ensures Changes(before, []) == []
  {
    assert [] + rest == rest;
  }

  lemma OneReading(before: Option<bool>, now: Option<bool>, rest: seq<Option<bool>>)
    ensures Changes(before, [now] + rest)
         == (if now.Some? && now != before then [now.value] else []) + Changes(now, rest)
  {
    assert ([now] + rest)[1..] == rest;
  }

  lemma StepTellsPauses(s: Scene, h: Happening, rest: seq<Option<bool>>)
    requires s.desk.room.isHost
    ensures Changes(s.desk.lastPaused, PauseRead(s.desk, h) + rest)
         == Pauses(Sends(s.desk, h)) + Changes(Next(s, h).desk.lastPaused, rest)
  {
    hide Pauses, Changes, Heard, Mirrored, StallRead, TickSends;
    NothingTold();
    NoReading(s.desk.lastPaused, rest);
    if !h.Tick? {
      MessagesLeaveTheLoop(s, h);
    } else if h.link.Missing? {
      NoPlayerStartsOver(s.desk, h.position, h.stalled);
      OneReading(s.desk.lastPaused, None, rest);
    } else {
      TickTellsPause(s.desk, h.position, h.stalled, h.link);
      LoopRemembers(s.desk, h.position, h.stalled, h.link);
      OneReading(s.desk.lastPaused, Some(s.desk.playerPaused), rest);
    }
  }

  lemma StepTellsStalls(s: Scene, h: Happening, rest: seq<Option<bool>>)
    ensures Changes(s.desk.lastStalled, StallReadings([h]) + rest)
         == Stalls(Sends(s.desk, h)) + Changes(Next(s, h).desk.lastStalled, rest)
  {
    hide Stalls, Changes, Heard, Mirrored, StallRead, TickSends;
    NothingTold();
    NoReading(s.desk.lastStalled, rest);
    OneStall(h);
    if !h.Tick? {
      MessagesLeaveTheLoop(s, h);
    } else if h.link.Missing? {
      NoPlayerStartsOver(s.desk, h.position, h.stalled);
      OneReading(s.desk.lastStalled, None, rest);
    } else {
      TickTellsStall(s.desk, h.position, h.stalled, h.link);
      LoopRemembers(s.desk, h.position, h.stalled, h.link);
      OneReading(s.desk.lastStalled, h.stalled, rest);
    }
  }

  lemma OneStall(h: Happening)
    ensures StallReadings([h])
         == if !h.Tick? then []
            else if h.link.Missing? then [None]
            else if h.stalled.Some? then [h.stalled]
            else []
  {
    assert [h][1..] == [];
    assert StallReadings([]) == [];
  }

  /** In every run of a host, its ticks send a pause or a release exactly when the
    * player answers with another state than the last time, that state each time. */
  lemma {:induction false} TicksTellEveryPause(s: Scene, run: seq<Happening>)
    requires HostsThroughout(s, run)
    ensures Pauses(Told(s, run)) == Changes(s.desk.lastPaused, PauseReadings(s, run))
    decreases |run|
  {
    hide Next, Sends, Changes, Pauses, PauseRead;
    if run == [] {
      NothingTold();
      NoReading(s.desk.lastPaused, []);
    } else {
      var s' := Next(s, run[0]);
      TicksTellEveryPause(s', run[1..]);
      StepTellsPauses(s, run[0], PauseReadings(s', run[1..]));
      PausesSplit(Sends(s.desk, run[0]), Told(s', run[1..]));
    }
  }

  /** And in every run of anybody, they send a stall or its end exactly when the reading
    * is another than the last. */
  lemma {:induction false} TicksTellEveryStall(s: Scene, run: seq<Happening>)
    ensures Stalls(Told(s, run)) == Changes(s.desk.lastStalled, StallReadings(run))
    decreases |run|
  {
    hide Next, Sends, Changes, Stalls;
    if run == [] {
      NothingTold();
      NoReading(s.desk.lastStalled, []);
    } else {
      var s' := Next(s, run[0]);
      TicksTellEveryStall(s', run[1..]);
      StepTellsStalls(s, run[0], StallReadings(run[1..]));
      StallsSplit(Sends(s.desk, run[0]), Told(s', run[1..]));
      OneStall(run[0]);
    }
  }

  lemma {:induction false} PauseReadingsExtend(s: Scene, run: seq<Happening>, h: Happening)
    ensures PauseReadings(s, run + [h]) == PauseReadings(s, run) + PauseRead(End(s, run).desk, h)
    decreases |run|
  {
    hide Next, PauseRead;
    if run == [] {
      assert run + [h] == [h] && [h][1..] == [];
      assert PauseReadings(Next(s, h), []) == [];
    } else {
      assert (run + [h])[0] == run[0] && (run + [h])[1..] == run[1..] + [h];
      PauseReadingsExtend(Next(s, run[0]), run[1..], h);
    }
  }

  lemma {:induction false} StallReadingsExtend(run: seq<Happening>, h: Happening)
    ensures StallReadings(run + [h]) == StallReadings(run) + StallReadings([h])
  {
    if run == [] {
      assert run + [h] == [h];
    } else {
      assert (run + [h])[0] == run[0] && (run + [h])[1..] == run[1..] + [h];
      StallReadingsExtend(run[1..], h);
      OneStall(run[0]);
    }
  }

  lemma {:induction false} NoGaps(s: Scene, run: seq<Happening>)
    requires forall h | h in run && h.Tick? :: !h.link.Missing?
    ensures None !in PauseReadings(s, run) && None !in StallReadings(run)
    decreases |run|
  {
    hide Next;
    if run != [] {
      assert run[0] in run && forall h | h in run[1..] :: h in run;
      NoGaps(Next(s, run[0]), run[1..]);
    }
  }

  /** After every tick at which the player answered, the last word the room was told is
    * the state the player was in when that tick began; and as long as there is a player,
    * the same is never told twice in a row. */
  lemma RoomHearsThePlayer(s: Scene, run: seq<Happening>, position: Option<real>, stalled: Option<bool>)
    requires s.desk.lastPaused.None?
    requires HostsThroughout(s, run + [Tick(position, stalled, Answering)])
    ensures var told := Pauses(Told(s, run + [Tick(position, stalled, Answering)]));
      && told != [] && told[|told| - 1] == End(s, run).desk.playerPaused
      && ((forall h | h in run && h.Tick? :: !h.link.Missing?) ==>
            forall i | 0 < i < |told| :: told[i - 1] != told[i])
  {
    var tick := Tick(position, stalled, Answering);
    hide Pauses, Told, HostsThroughout, End, PauseReadings, Changes;
    TicksTellEveryPause(s, run + [tick]);
    PauseReadingsExtend(s, run, tick);
    LastChangeIsTheReading(s.desk.lastPaused, PauseReadings(s, run + [tick]));
    if forall h | h in run && h.Tick? :: !h.link.Missing? {
      NoGaps(s, run + [tick]);
      ChangesDiffer(s.desk.lastPaused, PauseReadings(s, run + [tick]));
    }
  }

  /** The same for a stall, whoever's it is. */
  lemma RoomHearsTheStall(s: Scene, run: seq<Happening>, position: Option<real>, stalled: bool, link: Link)
    requires s.desk.lastStalled.None? && !link.Missing?
    ensures var told := Stalls(Told(s, run + [Tick(position, Some(stalled), link)]));
      && told != [] && told[|told| - 1] == stalled
      && ((forall h | h in run && h.Tick? :: !h.link.Missing?) ==>
            forall i | 0 < i < |told| :: told[i - 1] != told[i])
  {
    var tick := Tick(position, Some(stalled), link);
    hide Stalls, Told, End, StallReadings, Changes;
    TicksTellEveryStall(s, run + [tick]);
    StallReadingsExtend(run, tick);
    OneStall(tick);
    LastChangeIsTheReading(s.desk.lastStalled, StallReadings(run + [tick]));
    if forall h | h in run && h.Tick? :: !h.link.Missing? {
      NoGaps(s, run + [tick]);
      ChangesDiffer(s.desk.lastStalled, StallReadings(run + [tick]));
    }
  }

  // ---------- positions ----------

  function Positions(effects: seq<Effect>): seq<real> {
    if effects == [] then []
    else
      (if effects[0].Sent? && effects[0].msg.Position? then [effects[0].msg.seconds] else [])
      + Positions(effects[1..])
  }

  lemma {:induction false} PositionsSplit(a: seq<Effect>, b: seq<Effect>)
    ensures Positions(a + b) == Positions(a) + Positions(b)
  {
    if a == [] {
      assert a + b == b;
    } else {
      assert (a + b)[0] == a[0] && (a + b)[1..] == a[1..] + b;
      PositionsSplit(a[1..], b);
    }
  }

  /** A tick as far as positions go: without a player, of a follower, of a host. */
  datatype Beat = NoPlayer | AsFollower(position: Option<real>) | AsHost(position: Option<real>)

  function BeatOf(d: Desk, h: Happening): seq<Beat> {
    if !h.Tick? then []
    else if h.link.Missing? then [NoPlayer]
    else if d.room.isHost then [AsHost(h.position)]
    else [AsFollower(h.position)]
  }

  ghost function Beats(s: Scene, run: seq<Happening>): seq<Beat>
    decreases |run|
  {
    if run == [] then [] else BeatOf(s.desk, run[0]) + Beats(Next(s, run[0]), run[1..])
  }

  /** The rule on beats alone. `last` is the last position that was read since there is a
    * player, zero before; `count` are the beats so far, of which a host's only counts
    * when it reads a position. A host sends a move of more than two seconds, either way,
    * and every tenth beat, but never its first position. */
  function Seeks(last: real, count: nat, beats: seq<Beat>): seq<real>
    decreases |beats|
  {
    if beats == [] then []
    else
      match beats[0]
      case NoPlayer => Seeks(0.0, 0, beats[1..])
      case AsFollower(p) => Seeks(if p.Some? then p.value else last, count + 1, beats[1..])
      case AsHost(None) => Seeks(last, count, beats[1..])
      case AsHost(Some(p)) =>
        (if last != 0.0 && (p - last > 2.0 || last - p > 2.0 || (count + 1) % 10 == 0) then [p] else [])
        + Seeks(p, count + 1, beats[1..])
  }

  lemma OnePosition(a: seq<Effect>)
    requires |a| <= 1
    ensures Positions(a) == if a != [] && a[0].Sent? && a[0].msg.Position? then [a[0].msg.seconds] else []
  {
    if a != [] {
      assert a[1..] == [];
      assert Positions([]) == [];
    }
  }

  lemma TickTellsPosition(d: Desk, position: Option<real>, stalled: Option<bool>, link: Link)
    requires !link.Missing?
    ensures Positions(TickSends(d, position, stalled, link))
         == if d.room.isHost && position.Some? && HostSeekDue(d.lastPosition, position.value, d.tick + 1)
            then [position.value] else []
  {
    hide TickSends, HostSeekDue, Positions;
    TickSendsThree(d, position, stalled, link);
    var a, b := StallSent(d, stalled), PauseSent(d, link);
    var due := d.room.isHost && position.Some? && HostSeekDue(d.lastPosition, position.value, d.tick + 1);
    var c := if due then [Sent(Protocol.Position(position.value))] else [];
    OnePosition(a);
    OnePosition(b);
    OnePosition(c);
    PositionsSplit(a, b + c);
    PositionsSplit(b, c);
  }

  lemma LoopMoves(d: Desk, position: Option<real>, stalled: Option<bool>, link: Link)
    requires !link.Missing?
    ensures var d' := Ticked(d, position, stalled, link);
      && d'.lastPosition == (if position.Some? then position.value else d.lastPosition)
      && d'.tick == (if d.room.isHost && position.None? then d.tick else d.tick + 1)
  {
    hide Synced;
    if stalled.Some? && d.lastStalled != stalled {
      SyncKeepsLoop(d.(lastStalled := stalled, myStalled := stalled.value), link);
    }
  }

  lemma MessagesLeaveTheBeat(s: Scene, h: Happening)
    requires !h.Tick?
    ensures Next(s, h).desk.lastPosition == s.desk.lastPosition && Next(s, h).desk.tick == s.desk.tick
  {
    hide Step, Synced;
    if h.Message? { SyncKeepsLoop(s.desk.(room := Step(s.desk.room, h.from, h.msg).room), h.link); }
  }

  lemma OneBeat(last: real, count: nat, beat: Beat, rest: seq<Beat>)
    ensures Seeks(last, count, [beat] + rest) == Seeks(last, count, [beat] + []) + match beat
      case NoPlayer => Seeks(0.0, 0, rest)
      case AsFollower(p) => Seeks(if p.Some? then p.value else last, count + 1, rest)
      case AsHost(p) => if p.Some? then Seeks(p.value, count + 1, rest) else Seeks(last, count, rest)
  {
    assert ([beat] + rest)[1..] == rest && ([beat] + [])[1..] == [];
  }

  lemma LastBeat(last: real, count: nat, beat: Beat)
    ensures Seeks(last, count, [beat] + [])
         == if beat.AsHost? && beat.position.Some? && HostSeekDue(last, beat.position.value, count + 1)
            then [beat.position.value] else []
  {
    assert ([beat] + [])[1..] == [];
  }

  lemma StepTellsPosition(s: Scene, h: Happening, rest: seq<Beat>)
    ensures var d := Next(s, h).desk;
      Seeks(s.desk.lastPosition, s.desk.tick, BeatOf(s.desk, h) + rest)
      == Positions(Sends(s.desk, h)) + Seeks(d.lastPosition, d.tick, rest)
  {
    hide Positions, Seeks, Heard, Mirrored, StallRead, TickSends, HostSeekDue;
    OnePosition([]);
    if !h.Tick? {
      MessagesLeaveTheBeat(s, h);
      assert [] + rest == rest;
    } else {
      var beat := BeatOf(s.desk, h)[0];
      OneBeat(s.desk.lastPosition, s.desk.tick, beat, rest);
      LastBeat(s.desk.lastPosition, s.desk.tick, beat);
      if h.link.Missing? {
        NoPlayerStartsOver(s.desk, h.position, h.stalled);
      } else {
        TickTellsPosition(s.desk, h.position, h.stalled, h.link);
        LoopMoves(s.desk, h.position, h.stalled, h.link);
      }
    }
  }

  /** In every run of anybody, through changes of role and of the player, the ticks send
    * exactly the positions the rule names, in order: steady playback is silent between
    * the heartbeats. */
  lemma {:induction false} TicksTellEverySeek(s: Scene, run: seq<Happening>)
    ensures Positions(Told(s, run)) == Seeks(s.desk.lastPosition, s.desk.tick, Beats(s, run))
    decreases |run|
  {
    hide Next, Sends, Seeks, Positions, BeatOf;
    if run == [] {
      OnePosition([]);
      NoBeats(s.desk.lastPosition, s.desk.tick);
    } else {
      var s' := Next(s, run[0]);
      TicksTellEverySeek(s', run[1..]);
      StepTellsPosition(s, run[0], Beats(s', run[1..]));
      PositionsSplit(Sends(s.desk, run[0]), Told(s', run[1..]));
    }
  }

  lemma NoBeats(last: real, count: nat)
    ensures Seeks(last, count, []) == []
  {
  }

  // ---------- a new host ----------

  /** A follower remembers its own player too, and after taking the role over tells only
    * what changed since. If its player is not where the room's play state is, the room
    * goes on not knowing, exactly unless the player moved between the last tick as a
    * follower and the first as the host. */
  lemma NewHostAgreesExactly(s: Scene, tick: Happening, takeover: Happening, first: Happening)
    requires !s.desk.room.isHost && tick.Tick? && tick.link.Answering?
    requires takeover.Message? && Next(Next(s, tick), takeover).desk.room.isHost
    requires first.Tick? && first.link.Answering?
    ensures var before := Next(Next(s, tick), takeover);
      var after := Next(before, first).desk.room;
      && Pauses(Sends(before.desk, first))
         == (if before.desk.playerPaused == s.desk.playerPaused then [] else [before.desk.playerPaused])
      && (after.pausedKnown && after.paused == before.desk.playerPaused
          <==> before.desk.playerPaused != s.desk.playerPaused
               || (before.desk.room.pausedKnown && before.desk.room.paused == before.desk.playerPaused))
  {
    hide Heard, Synced, TickSends, Pauses;
    FollowerRemembers(s.desk, tick.position, tick.stalled);
    MessagesLeaveTheLoop(Next(s, tick), takeover);
    var before := Next(Next(s, tick), takeover).desk;
    TickTellsPause(before, first.position, first.stalled, Answering);
    HostTickRemembers(before, first.position, first.stalled);
  }

  lemma FollowerRemembers(d: Desk, position: Option<real>, stalled: Option<bool>)
    requires !d.room.isHost
    ensures Ticked(d, position, stalled, Answering).lastPaused == Some(d.playerPaused)
  {
  }

  lemma HostTickRemembers(d: Desk, position: Option<real>, stalled: Option<bool>)
    requires d.room.isHost
    ensures var r := Ticked(d, position, stalled, Answering).room;
      if d.lastPaused == Some(d.playerPaused) then r == d.room
      else r == d.room.(paused := d.playerPaused, pausedKnown := true)
  {
    hide Synced;
    if stalled.Some? && d.lastStalled != stalled {
      SyncKeepsLoop(d.(lastStalled := stalled, myStalled := stalled.value), Answering);
    }
  }

  // ---------- whoever hears it ----------

  /** At every moment the window follows this host and has not refused it. */
  ghost predicate Loyal(s: Scene, run: seq<Happening>, host: PeerID)
    decreases |run|
  {
    && !s.desk.room.isHost && s.desk.room.hostPeer == host && host !in s.desk.room.refused
    && (run != [] ==> Loyal(Next(s, run[0]), run[1..], host))
  }

  /** The pauses and releases it hears from that host. */
  function HostPauses(run: seq<Happening>, host: PeerID): seq<bool> {
    if run == [] then []
    else
      var h := run[0];
      (if h.Message? && h.from == host && h.msg.Pause? then [h.msg.paused] else []) + HostPauses(run[1..], host)
  }

  lemma OnlyTheHostMovesThePlayState(r: RoomState, from: PeerID, m: Protocol.Message)
    ensures var r' := Step(r, from, m).room;
      if m.Pause? && from !in r.refused && from != "" && from == r.hostPeer
      then r'.pausedKnown && r'.paused == m.paused
      else r'.pausedKnown == r.pausedKnown && r'.paused == r.paused
  {
    hide Answer, Believable, TakeoverWinner, FreshOf, Crowned;
  }

  lemma FollowersTicksKeepTheRoom(d: Desk, position: Option<real>, stalled: Option<bool>, link: Link)
    requires !d.room.isHost
    ensures Ticked(d, position, stalled, link).room == d.room
  {
    hide Synced;
    if stalled.Some? { FollowersDoNotSync(d.(lastStalled := stalled, myStalled := stalled.value), link); }
  }

  lemma LoyalStep(s: Scene, h: Happening, host: PeerID)
    requires host != "" && !s.desk.room.isHost && s.desk.room.hostPeer == host && host !in s.desk.room.refused
    ensures var r, r' := s.desk.room, Next(s, h).desk.room;
      if h.Message? && h.from == host && h.msg.Pause? then r'.pausedKnown && r'.paused == h.msg.paused
      else r'.pausedKnown == r.pausedKnown && r'.paused == r.paused
  {
    hide Step, Synced, Ticked;
    if h.Message? {
      OnlyTheHostMovesThePlayState(s.desk.room, h.from, h.msg);
      SyncKeepsLoop(s.desk.(room := Step(s.desk.room, h.from, h.msg).room), h.link);
    }
    if h.Tick? { FollowersTicksKeepTheRoom(s.desk, h.position, h.stalled, h.link); }
  }

  /** A loyal follower's room holds the last pause or release it heard from its host. */
  lemma {:induction false} LoyalRoomHoldsTheLastWord(s: Scene, run: seq<Happening>, host: PeerID)
    requires host != "" && Loyal(s, run, host)
    ensures var r, heard := End(s, run).desk.room, HostPauses(run, host);
      if heard == [] then r.pausedKnown == s.desk.room.pausedKnown && r.paused == s.desk.room.paused
      else r.pausedKnown && r.paused == heard[|heard| - 1]
    decreases |run|
  {
    hide Next;
    if run != [] {
      LoyalStep(s, run[0], host);
      LoyalRoomHoldsTheLastWord(Next(s, run[0]), run[1..], host);
    }
  }

  /** From the host's player to the follower's: a follower that heard the pauses and
    * releases a host's run told, among whatever else, is ten answered ticks later in the
    * state the host's player was in when it told the last time. */
  lemma FollowerEndsWithTheHost(h: Scene, run: seq<Happening>, position: Option<real>, stalled: Option<bool>,
                                f: Scene, heard: seq<Happening>, later: seq<Happening>)
    requires h.desk.lastPaused.None? && h.desk.room.selfID != ""
    requires HostsThroughout(h, run + [Tick(position, stalled, Answering)])
    requires Loyal(f, heard, h.desk.room.selfID)
    requires HostPauses(heard, h.desk.room.selfID) == Pauses(Told(h, run + [Tick(position, stalled, Answering)]))
    requires Uneventful(End(f, heard), later) && Ticks(later) >= HEARTBEAT_EVERY
    ensures End(End(f, heard), later).desk.playerPaused == End(h, run).desk.playerPaused
  {
    hide Pauses, Told, HostsThroughout, End, HostPauses, Loyal, Uneventful, Ticks;
    RoomHearsThePlayer(h, run, position, stalled);
    LoyalRoomHoldsTheLastWord(f, heard, h.desk.room.selfID);
    FollowerComesBack(End(f, heard), later);
  }
}
