/** Two nodes dial each other in the same second. Each end receives both streams
  * in its own order, closes one of them by a rule it computes alone, and its
  * read loops end when they may. The rest of both nodes' meshes goes on meanwhile.
  */
module DialRace {
  import opened PeerOrder
  import opened Protocol
  import opened RoomModel
  import opened RoomRuns
  import opened MeshStreams

  /** The two nodes, the smaller identifier first, and the stream each opened. */
  datatype Pair = Pair(low: PeerID, high: PeerID, winner: Stream, loser: Stream)

  ghost predicate Dialled(p: Pair) {
    && p.low != p.high && Leq(p.low, p.high)
    && p.winner.initiator == p.low && p.loser.initiator == p.high
  }

  function Other(p: Pair, end: PeerID): PeerID {
    if end == p.low then p.high else p.low
  }

  /** `arrived` and `heard` say which stream was plugged in, and whose greeting
    * was read, at which end. */
  datatype Race = Race(ends: map<PeerID, MeshState>, arrived: set<(PeerID, Stream)>, heard: set<(PeerID, Stream)>)

  datatype Move =
    | Arrive(end: PeerID, s: Stream)
    | Hear(end: PeerID, s: Stream)
    | Exit(end: PeerID, s: Stream)
    | Elsewhere(end: PeerID, mesh: MeshState)

  /** Business with other peers: what concerns this pair stays as it is, and no
    * message of the other end is added. */
  ghost predicate OtherBusiness(m: MeshState, m': MeshState, p: Pair, other: PeerID) {
    && (other in m'.peers <==> other in m.peers) && (other in m.peers ==> m'.peers[other] == m.peers[other])
    && (forall s | s == p.winner || s == p.loser ::
          && (s in m'.closed <==> s in m.closed) && (s in m'.greeted <==> s in m.greeted)
          && ((other, s) in m'.reading <==> (other, s) in m.reading))
    && m.incoming <= m'.incoming
    && forall i | |m.incoming| <= i < |m'.incoming| :: m'.incoming[i].0 != other
  }

  ghost predicate Enabled(r: Race, p: Pair, m: Move) {
    m.end in {p.low, p.high} && m.end in r.ends && Other(p, m.end) in r.ends &&
    var mesh, far := r.ends[m.end], r.ends[Other(p, m.end)];
    match m
    case Arrive(end, s) => s in {p.winner, p.loser} && (end, s) !in r.arrived
    case Hear(end, s) =>
      && s in {p.winner, p.loser} && (Other(p, end), s) in mesh.reading
      && s in far.greeted && s !in mesh.closed && (end, s) !in r.heard
    case Exit(end, s) =>
      && s in {p.winner, p.loser} && (Other(p, end), s) in mesh.reading
      && (s in mesh.closed || s in far.closed)
    case Elsewhere(end, mesh') => OtherBusiness(mesh, mesh', p, Other(p, end))
  }

  ghost function After(r: Race, p: Pair, hello: PeerID -> Message, m: Move): Race
    requires Enabled(r, p, m)
  {
    var mesh, other := r.ends[m.end], Other(p, m.end);
    match m
    case Arrive(end, s) => r.(ends := r.ends[end := Plugged(mesh, other, s)], arrived := r.arrived + {(end, s)})
    case Hear(end, s) => r.(ends := r.ends[end := Delivered(mesh, other, hello(other))], heard := r.heard + {(end, s)})
    case Exit(end, s) => r.(ends := r.ends[end := ReadLoopEnded(mesh, other, s)])
    case Elsewhere(end, mesh') => r.(ends := r.ends[end := mesh'])
  }

  ghost predicate Possible(r: Race, p: Pair, hello: PeerID -> Message, moves: seq<Move>)
    decreases |moves|
  {
    moves != [] ==> Enabled(r, p, moves[0]) && Possible(After(r, p, hello, moves[0]), p, hello, moves[1..])
  }

  ghost function Play(r: Race, p: Pair, hello: PeerID -> Message, moves: seq<Move>): Race
    requires Possible(r, p, hello, moves)
    decreases |moves|
  {
    if moves == [] then r else Play(After(r, p, hello, moves[0]), p, hello, moves[1..])
  }

  // ---------- the invariant ----------

  /** The last greeting or departure of the peer among the messages is a greeting. */
  predicate Present(incoming: seq<(PeerID, Message)>, peer: PeerID) {
    incoming != [] &&
    var last := incoming[|incoming| - 1];
    if last.0 == peer && last.1.Hello? then true
    else if last.0 == peer && last.1.Bye? then false
    else Present(incoming[..|incoming| - 1], peer)
  }

  /** One end of the race. */
  ghost predicate EndOK(m: MeshState, p: Pair, end: PeerID, arrived: set<(PeerID, Stream)>,
                        heard: set<(PeerID, Stream)>) {
    var other := Other(p, end);
    && p.winner !in m.closed
    && (if (end, p.winner) in arrived then
          && other in m.peers && m.peers[other] == p.winner
          && (other, p.winner) in m.reading && p.winner in m.greeted
          && ((other, p.loser) in m.reading ==> p.loser in m.closed)
        else
          && (other in m.peers ==> m.peers[other] == p.loser)
          && ((other, p.loser) in m.reading ==> other in m.peers)
          && (other, p.winner) !in m.reading && p.winner !in m.greeted && (end, p.winner) !in heard)
    && ((end, p.winner) in heard ==> Present(m.incoming, other))
  }

  ghost predicate Inv(r: Race, p: Pair) {
    Dialled(p) && r.ends.Keys == {p.low, p.high}
    && EndOK(r.ends[p.low], p, p.low, r.arrived, r.heard)
    && EndOK(r.ends[p.high], p, p.high, r.arrived, r.heard)
  }

  /** Before either stream exists at either end. */
  ghost predicate Untouched(m: MeshState, p: Pair, other: PeerID) {
    && other !in m.peers && p.winner !in m.closed && p.winner !in m.greeted
    && (other, p.winner) !in m.reading && (other, p.loser) !in m.reading
  }

  ghost predicate Start(r: Race, p: Pair) {
    && Dialled(p) && r.ends.Keys == {p.low, p.high} && r.arrived == {} && r.heard == {}
    && Untouched(r.ends[p.low], p, p.high) && Untouched(r.ends[p.high], p, p.low)
  }

  // ---------- steps ----------

  lemma StrictlySmaller(p: Pair)
    requires Dialled(p)
    ensures !Leq(p.high, p.low) && p.winner != p.loser
  {
    if Leq(p.high, p.low) { LeqAntisymmetric(p.high, p.low); }
  }

  lemma {:induction false} PresentAppends(incoming: seq<(PeerID, Message)>, more: seq<(PeerID, Message)>, peer: PeerID)
    requires Present(incoming, peer)
    requires forall i | 0 <= i < |more| :: more[i].0 != peer
    ensures Present(incoming + more, peer)
    decreases |more|
  {
    if more == [] {
      assert incoming + more == incoming;
    } else {
      var n := |more| - 1;
      PresentAppends(incoming, more[..n], peer);
      assert (incoming + more)[..|incoming + more| - 1] == incoming + more[..n];
    }
  }

  lemma EndStep(r: Race, p: Pair, hello: PeerID -> Message, m: Move)
    requires Inv(r, p) && Enabled(r, p, m) && forall x :: hello(x).Hello?
    ensures var r' := After(r, p, hello, m);
      r'.ends.Keys == r.ends.Keys && EndOK(r'.ends[m.end], p, m.end, r'.arrived, r'.heard)
  {
    StrictlySmaller(p);
    LeqReflexive(p.low);
    LeqReflexive(p.high);
    hide Leq;
    var mesh, other := r.ends[m.end], Other(p, m.end);
    if m.Elsewhere? {
      if (m.end, p.winner) in r.heard {
        var more := m.mesh.incoming[|mesh.incoming|..];
        assert m.mesh.incoming == mesh.incoming + more;
        PresentAppends(mesh.incoming, more, other);
      }
    }
  }

  lemma StepKeepsInv(r: Race, p: Pair, hello: PeerID -> Message, m: Move)
    requires Inv(r, p) && Enabled(r, p, m) && forall x :: hello(x).Hello?
    ensures Inv(After(r, p, hello, m), p)
  {
    EndStep(r, p, hello, m);
    hide Plugged, ReadLoopEnded, Delivered, Present;
    var o := Other(p, m.end);
    assert EndOK(r.ends[o], p, o, r.arrived, r.heard);
    var r' := After(r, p, hello, m);
    assert r'.ends[o] == r.ends[o];
  }

  lemma {:induction false} RunKeepsInv(r: Race, p: Pair, hello: PeerID -> Message, moves: seq<Move>)
    requires Inv(r, p) && Possible(r, p, hello, moves) && forall x :: hello(x).Hello?
    ensures Inv(Play(r, p, hello, moves), p)
    decreases |moves|
  {
    hide Inv, After, Enabled;
    if moves != [] {
      MovesAreEnabled(r, p, hello, moves);
      StepKeepsInv(r, p, hello, moves[0]);
      RunKeepsInv(After(r, p, hello, moves[0]), p, hello, moves[1..]);
    }
  }

  lemma MovesAreEnabled(r: Race, p: Pair, hello: PeerID -> Message, moves: seq<Move>)
    requires Possible(r, p, hello, moves) && moves != []
    ensures Enabled(r, p, moves[0])
  {
  }

  /** In every interleaving of arrivals, closes and read-loop exits at both ends,
    * the stream opened by the smaller identifier is closed by neither, and once
    * an end has it, it is that end's entry and is being read. */
  lemma SmallerInitiatorSurvives(r: Race, p: Pair, hello: PeerID -> Message, moves: seq<Move>)
    requires Start(r, p) && Possible(r, p, hello, moves) && forall x :: hello(x).Hello?
    ensures var end := Play(r, p, hello, moves);
      forall e | e == p.low || e == p.high ::
        && e in end.ends && p.winner !in end.ends[e].closed
        && ((e, p.winner) in end.arrived ==>
              var other := Other(p, e);
              && other in end.ends[e].peers && end.ends[e].peers[other] == p.winner
              && (other, p.winner) in end.ends[e].reading)
  {
    hide Play, Possible, Present;
    assert Inv(r, p);
    RunKeepsInv(r, p, hello, moves);
  }

  /** One of the ends closed the stream of the larger identifier. */
  ghost predicate LoserShut(r: Race, p: Pair) {
    exists e | e in {p.low, p.high} :: e in r.ends && p.loser in r.ends[e].closed
  }

  /** Where it arrived it is closed by somebody, or it is still the entry. */
  ghost predicate LoserOK(r: Race, p: Pair) {
    forall e | e in {p.low, p.high} && e in r.ends && (e, p.loser) in r.arrived ::
      LoserShut(r, p) || ((e, p.winner) !in r.arrived && Other(p, e) in r.ends[e].peers)
  }

  lemma ShutStaysShut(r: Race, p: Pair, hello: PeerID -> Message, m: Move)
    requires Enabled(r, p, m) && LoserShut(r, p)
    ensures LoserShut(After(r, p, hello, m), p)
  {
    var e :| e in {p.low, p.high} && e in r.ends && p.loser in r.ends[e].closed;
    hide Leq;
    var r' := After(r, p, hello, m);
    assert e in r'.ends && p.loser in r'.ends[e].closed;
  }

  lemma StepShutsTheLoser(r: Race, p: Pair, hello: PeerID -> Message, m: Move)
    requires Inv(r, p) && Enabled(r, p, m) && LoserOK(r, p)
    ensures LoserOK(After(r, p, hello, m), p)
  {
    var r', e := After(r, p, hello, m), m.end;
    if LoserShut(r, p) {
      ShutStaysShut(r, p, hello, m);
    } else {
      StrictlySmaller(p);
      LeqReflexive(p.high);
      hide Leq, Present;
      assert e in r'.ends && (LoserShut(r', p) || p.loser !in r'.ends[e].closed);
      assert EndOK(r.ends[e], p, e, r.arrived, r.heard);
    }
  }

  lemma {:induction false} RunShutsTheLoser(r: Race, p: Pair, hello: PeerID -> Message, moves: seq<Move>)
    requires Inv(r, p) && LoserOK(r, p) && Possible(r, p, hello, moves) && forall x :: hello(x).Hello?
    ensures LoserOK(Play(r, p, hello, moves), p) && Inv(Play(r, p, hello, moves), p)
    decreases |moves|
  {
    hide Inv, After, Enabled, LoserOK;
    if moves != [] {
      MovesAreEnabled(r, p, hello, moves);
      StepKeepsInv(r, p, hello, moves[0]);
      StepShutsTheLoser(r, p, hello, moves[0]);
      RunShutsTheLoser(After(r, p, hello, moves[0]), p, hello, moves[1..]);
    }
  }

  /** And the other stream is closed by one of them, as soon as both have arrived at
    * one end. */
  lemma LargerInitiatorIsClosed(r: Race, p: Pair, hello: PeerID -> Message, moves: seq<Move>, e: PeerID)
    requires Start(r, p) && Possible(r, p, hello, moves) && forall x :: hello(x).Hello?
    requires var end := Play(r, p, hello, moves);
      e in {p.low, p.high} && (e, p.winner) in end.arrived && (e, p.loser) in end.arrived
    ensures LoserShut(Play(r, p, hello, moves), p)
  {
    hide Play, Possible, Present, LoserShut;
    assert Inv(r, p) && LoserOK(r, p);
    RunShutsTheLoser(r, p, hello, moves);
    BothEndsExist(Play(r, p, hello, moves), p);
  }

  // ---------- no departure afterwards ----------

  predicate NoBye(incoming: seq<(PeerID, Message)>, peer: PeerID) {
    forall i | 0 <= i < |incoming| :: incoming[i].0 == peer ==> !incoming[i].1.Bye?
  }

  lemma StepAnnouncesNoDeparture(r: Race, p: Pair, hello: PeerID -> Message, m: Move, e: PeerID)
    requires Inv(r, p) && Enabled(r, p, m) && (forall x :: hello(x).Hello?)
    requires e in {p.low, p.high} && (e, p.winner) in r.arrived
    ensures var r' := After(r, p, hello, m);
      && e in r'.ends && (e, p.winner) in r'.arrived
      && r.ends[e].incoming <= r'.ends[e].incoming
      && NoBye(r'.ends[e].incoming[|r.ends[e].incoming|..], Other(p, e))
  {
    StrictlySmaller(p);
    hide Present, Leq;
    assert EndOK(r.ends[e], p, e, r.arrived, r.heard);
    assert EndOK(r.ends[Other(p, e)], p, Other(p, e), r.arrived, r.heard);
  }

  /** Once an end has the surviving stream, nothing that happens afterwards
    * announces the other end's departure there. */
  lemma {:induction false} NoDepartureAfterwards(r: Race, p: Pair, hello: PeerID -> Message, moves: seq<Move>,
                                                 e: PeerID)
    requires Inv(r, p) && Possible(r, p, hello, moves) && (forall x :: hello(x).Hello?)
    requires e in {p.low, p.high} && (e, p.winner) in r.arrived
    ensures var end := Play(r, p, hello, moves);
      && e in end.ends && e in r.ends && (e, p.winner) in end.arrived
      && r.ends[e].incoming <= end.ends[e].incoming
      && NoBye(end.ends[e].incoming[|r.ends[e].incoming|..], Other(p, e))
    decreases |moves|
  {
    hide Inv, After, Enabled, NoBye;
    BothEndsExist(r, p);
    if moves == [] {
      NothingIsNoBye(Other(p, e));
      assert r.ends[e].incoming[|r.ends[e].incoming|..] == [];
    } else {
      MovesAreEnabled(r, p, hello, moves);
      StepKeepsInv(r, p, hello, moves[0]);
      StepAnnouncesNoDeparture(r, p, hello, moves[0], e);
      var r' := After(r, p, hello, moves[0]);
      NoDepartureAfterwards(r', p, hello, moves[1..], e);
      NoByeJoins(r.ends[e].incoming, r'.ends[e].incoming, Play(r, p, hello, moves).ends[e].incoming, Other(p, e));
    }
  }

  lemma BothEndsExist(r: Race, p: Pair)
    requires Inv(r, p)
    ensures p.low in r.ends && p.high in r.ends
  {
  }

  lemma NothingIsNoBye(peer: PeerID)
    ensures NoBye([], peer)
  {
  }

  lemma NoByeJoins(a: seq<(PeerID, Message)>, b: seq<(PeerID, Message)>, c: seq<(PeerID, Message)>, peer: PeerID)
    requires a <= b <= c && NoBye(b[|a|..], peer) && NoBye(c[|b|..], peer)
    ensures NoBye(c[|a|..], peer)
  {
    forall i | 0 <= i < |c[|a|..]| && c[|a|..][i].0 == peer ensures !c[|a|..][i].1.Bye? {
      if |a| + i < |b| {
        assert b[|a|..][i] == c[|a|..][i];
      } else {
        assert c[|b|..][|a| + i - |b|] == c[|a|..][i];
      }
    }
  }

  // ---------- the settled race ----------

  /** The smaller initiator's stream arrived at both ends, the other one wherever it
    * did, and neither end has anything left to read or to end. */
  ghost predicate Over(r: Race, p: Pair) {
    forall e | e in {p.low, p.high} ::
      && (e, p.winner) in r.arrived
      && forall s | s in {p.winner, p.loser} :: !Enabled(r, p, Hear(e, s)) && !Enabled(r, p, Exit(e, s))
  }

  /** When the race is over, both ends hold the same stream, the loser is being
    * read nowhere, and the last thing each room heard of the other end is that
    * it is there. */
  lemma RaceConverges(r: Race, p: Pair, hello: PeerID -> Message, moves: seq<Move>)
    requires Start(r, p) && Possible(r, p, hello, moves) && forall x :: hello(x).Hello?
    requires Over(Play(r, p, hello, moves), p)
    ensures var end := Play(r, p, hello, moves);
      forall e | e in {p.low, p.high} ::
        var other := Other(p, e);
        && e in end.ends && other in end.ends[e].peers && end.ends[e].peers[other] == p.winner
        && (other, p.loser) !in end.ends[e].reading
        && Present(end.ends[e].incoming, other)
  {
    hide Play, Possible, Present;
    assert Inv(r, p);
    RunKeepsInv(r, p, hello, moves);
    var end := Play(r, p, hello, moves);
    StrictlySmaller(p);
    forall e | e in {p.low, p.high}
      ensures e in end.ends && Other(p, e) in end.ends[e].peers && end.ends[e].peers[Other(p, e)] == p.winner
      ensures (Other(p, e), p.loser) !in end.ends[e].reading && Present(end.ends[e].incoming, Other(p, e))
    {
      assert EndOK(end.ends[e], p, e, end.arrived, end.heard);
      assert EndOK(end.ends[Other(p, e)], p, Other(p, e), end.arrived, end.heard);
      assert (e, p.winner) in end.arrived && (Other(p, e), p.winner) in end.arrived;
      assert !Enabled(end, p, Hear(e, p.winner)) && !Enabled(end, p, Exit(e, p.loser));
    }
  }

  // ---------- what the room makes of it ----------

  function AsEvents(incoming: seq<(PeerID, Message)>): seq<Event> {
    seq(|incoming|, i requires 0 <= i < |incoming| => Heard(incoming[i].0, incoming[i].1))
  }

  /** A room that read these messages has the peer in its roster, if it ever
    * admits it: every greeting of the peer names a version the build knows. */
  lemma {:induction false} PresentIsInTheRoster(room: RoomState, incoming: seq<(PeerID, Message)>, peer: PeerID)
    requires Present(incoming, peer) && peer !in room.refused
    requires forall i | 0 <= i < |incoming| && incoming[i].0 == peer && incoming[i].1.Hello? ::
      SpokenVersion(incoming[i].1.version) <= PROTOCOL_VERSION
    ensures peer in Run(room, AsEvents(incoming)).room.peers
  {
    hide Act, Run;
    var n := |incoming| - 1;
    var events := AsEvents(incoming);
    RunExtends(room, events, n);
    assert events[..n + 1] == events && events[..n] == AsEvents(incoming[..n]);
    var mid := Run(room, events[..n]).room;
    assert peer !in mid.refused by {
      RefusedExactly(room, events[..n]);
      assert !OnceRefused(peer, events[..n]);
    }
    var last := incoming[n];
    HearingIsStepping(mid, last.0, last.1);
    StepMovesRole(mid, last.0, last.1);
    if last.0 == peer && last.1.Hello? {
    } else {
      forall i | 0 <= i < |incoming[..n]| && incoming[..n][i].0 == peer && incoming[..n][i].1.Hello?
        ensures SpokenVersion(incoming[..n][i].1.version) <= PROTOCOL_VERSION
      {
        assert incoming[i].0 == peer;
      }
      PresentIsInTheRoster(room, incoming[..n], peer);
    }
  }

  lemma HearingIsStepping(r: RoomState, from: PeerID, m: Message)
    ensures Act(r, Heard(from, m)).room == Step(r, from, m).room
  {
  }
}
