/** One node's streams: which of two streams to the same peer survives, what the
  * end of a stream means, and which hinted peers are dialled.
  */
module MeshStreams {
  import opened PeerOrder
  import opened Protocol

  /** A stream between two nodes, named by the node whose dial opened it. */
  datatype Stream = Stream(initiator: PeerID, serial: nat)

  /** `closed`, `reading` and `greeted` are what this node itself did with its
    * streams; `incoming` is everything handed to the room so far. */
  datatype MeshState = MeshState(
    selfID: PeerID,
    peers: map<PeerID, Stream>,
    dialing: set<PeerID>,
    closed: set<Stream>,
    reading: set<(PeerID, Stream)>,
    greeted: set<Stream>,
    incoming: seq<(PeerID, Message)>)

  /** A connected stream is plugged in: it loses to a stream of the same peer
    * whose initiator is not larger, and replaces any other. */
  function Plugged(m: MeshState, id: PeerID, s: Stream): MeshState {
    if id in m.peers && Leq(m.peers[id].initiator, s.initiator) then
      m.(closed := m.closed + {s})
    else
      m.(peers := m.peers[id := s],
         closed := m.closed + if id in m.peers then {m.peers[id]} else {},
         reading := m.reading + {(id, s)},
         greeted := m.greeted + {s})
  }

  /** The read loop of a stream ends: only the stream that is still the peer's
    * entry announces a departure. */
  function ReadLoopEnded(m: MeshState, id: PeerID, s: Stream): MeshState {
    var m' := m.(reading := m.reading - {(id, s)});
    if id in m.peers && m.peers[id] == s
    then m'.(peers := m.peers - {id}, incoming := m.incoming + [(id, Bye(id))])
    else m'
  }

  function Delivered(m: MeshState, id: PeerID, msg: Message): MeshState {
    m.(incoming := m.incoming + [(id, msg)])
  }

  /** The peers a hint makes this node dial, in book order. */
  function Dials(m: MeshState, book: seq<PeerAddr>, dialable: seq<string> -> bool): seq<PeerID> {
    if book == [] then []
    else
      var init := Dials(m, book[..|book| - 1], dialable);
      var p := book[|book| - 1];
      if dialable(p.addrs) && p.peerID !in m.peers && p.peerID !in m.dialing && p.peerID !in init
      then init + [p.peerID] else init
  }

  /** One flight per peer: nobody connected, in flight or already named in the
    * same hint is dialled, and everybody else with a usable address is. */
  lemma {:induction false} OneFlightPerPeer(m: MeshState, book: seq<PeerAddr>, dialable: seq<string> -> bool)
    ensures Distinct(Dials(m, book, dialable))
    ensures forall id :: id in Dials(m, book, dialable) <==>
              id !in m.peers && id !in m.dialing && exists p | p in book :: p.peerID == id && dialable(p.addrs)
  {
    if book != [] {
      var init, p := book[..|book| - 1], book[|book| - 1];
      OneFlightPerPeer(m, init, dialable);
      assert forall q :: q in book <==> q in init || q == p by { assert book == init + [p]; }
    }
  }

  // ---------- connected and announced ----------

  datatype StreamEvent =
    | Plug(id: PeerID, s: Stream)
    | End(id: PeerID, s: Stream)
    | Read(id: PeerID, msg: Message)

  function Happened(m: MeshState, e: StreamEvent): MeshState {
    match e
    case Plug(id, s) => Plugged(m, id, s)
    case End(id, s) => ReadLoopEnded(m, id, s)
    case Read(id, msg) => Delivered(m, id, msg)
  }

  function Throughout(m: MeshState, events: seq<StreamEvent>): MeshState
    decreases |events|
  {
    if events == [] then m else Throughout(Happened(m, events[0]), events[1..])
  }

  /** How many departures of a peer the room was told. */
  function Departures(incoming: seq<(PeerID, Message)>, id: PeerID): nat {
    if incoming == [] then 0
    else
      var last := incoming[|incoming| - 1];
      Departures(incoming[..|incoming| - 1], id) + if last.0 == id && last.1.Bye? then 1 else 0
  }

  /** How often a stream found its peer unconnected, and how often the peer itself said
    * that it leaves. */
  function Arrivals(m: MeshState, events: seq<StreamEvent>, id: PeerID): nat
    decreases |events|
  {
    if events == [] then 0
    else
      (if events[0].Plug? && events[0].id == id && id !in m.peers then 1 else 0)
      + (if events[0].Read? && events[0].id == id && events[0].msg.Bye? then 1 else 0)
      + Arrivals(Happened(m, events[0]), events[1..], id)
  }

  function Connected(m: MeshState, id: PeerID): nat {
    if id in m.peers then 1 else 0
  }

  lemma DeparturesExtend(incoming: seq<(PeerID, Message)>, from: PeerID, msg: Message, id: PeerID)
    ensures Departures(incoming + [(from, msg)], id)
         == Departures(incoming, id) + if from == id && msg.Bye? then 1 else 0
  {
    assert (incoming + [(from, msg)])[..|incoming|] == incoming;
  }

  /** Every connection ends once: whatever streams come, replace each other and end, in
    * any order, the room is told of a departure exactly as often as a peer that was
    * connected no longer is, besides what the peer says itself. */
  lemma {:induction false} EveryConnectionEndsOnce(m: MeshState, events: seq<StreamEvent>, id: PeerID)
    ensures var end := Throughout(m, events);
      Departures(end.incoming, id) + Connected(end, id)
      == Departures(m.incoming, id) + Connected(m, id) + Arrivals(m, events, id)
    decreases |events|
  {
    hide Departures, Leq;
    if events != [] {
      var e := events[0];
      match e {
        case Plug(_, _) =>
        case End(from, _) => DeparturesExtend(m.incoming, from, Bye(from), id);
        case Read(from, msg) => DeparturesExtend(m.incoming, from, msg, id);
      }
      EveryConnectionEndsOnce(Happened(m, e), events[1..], id);
    }
  }

  /** Every connected peer was greeted and is being read. */
  ghost predicate ConnectedAreRead(m: MeshState) {
    forall id | id in m.peers :: (id, m.peers[id]) in m.reading && m.peers[id] in m.greeted
  }

  lemma {:induction false} ConnectionsAreRead(m: MeshState, events: seq<StreamEvent>)
    requires ConnectedAreRead(m)
    ensures ConnectedAreRead(Throughout(m, events))
    decreases |events|
  {
    hide Leq;
    if events != [] { ConnectionsAreRead(Happened(m, events[0]), events[1..]); }
  }

  /** Whatever is still being read is its peer's connection or was closed here, so that
    * nothing is read on two streams of one peer for long. */
  ghost predicate OthersAreClosed(m: MeshState) {
    forall id, s | (id, s) in m.reading :: s in m.closed || (id in m.peers && m.peers[id] == s)
  }

  lemma {:induction false} OneOpenStreamPerPeer(m: MeshState, events: seq<StreamEvent>)
    requires OthersAreClosed(m)
    ensures OthersAreClosed(Throughout(m, events))
    decreases |events|
  {
    hide Leq;
    if events != [] { OneOpenStreamPerPeer(Happened(m, events[0]), events[1..]); }
  }

  class Mesh {
    const selfID: PeerID
    var peers: map<PeerID, Stream>
    var dialing: set<PeerID>
    var closed: set<Stream>
    var reading: set<(PeerID, Stream)>
    var greeted: set<Stream>
    var incoming: seq<(PeerID, Message)>

    ghost function State(): MeshState
      reads this
    {
      MeshState(selfID, peers, dialing, closed, reading, greeted, incoming)
    }

    constructor (selfID: PeerID)
      ensures State() == MeshState(selfID, map[], {}, {}, {}, {}, [])
    {
      this.selfID := selfID;
      peers, dialing, closed, reading, greeted, incoming := map[], {}, {}, {}, {}, [];
    }

    method AddPeer(id: PeerID, s: Stream)
      modifies this
      ensures State() == Plugged(old(State()), id, s)
    {
      var exists_ := id in peers;
      if exists_ && Leq(peers[id].initiator, s.initiator) {
        closed := closed + {s};
        return;
      }
      if exists_ {
        closed := closed + {peers[id]};
      }
      peers := peers[id := s];
      reading := reading + {(id, s)};
      greeted := greeted + {s};
    }

    method EndReadLoop(id: PeerID, s: Stream)
      modifies this
      ensures State() == ReadLoopEnded(old(State()), id, s)
    {
      reading := reading - {(id, s)};
      var current := id in peers && peers[id] == s;
      if current {
        peers := peers - {id};
      }
      if !current {
        return;
      }
      incoming := incoming + [(id, Bye(id))];
    }

    method Deliver(id: PeerID, msg: Message)
      modifies this`incoming
      ensures State() == Delivered(old(State()), id, msg)
    {
      incoming := incoming + [(id, msg)];
    }

    /** Starts the dials a hint calls for and remembers them as in flight, when nothing
      * else marks a peer meanwhile; DialFlights has the steps. */
    method DialHint(book: seq<PeerAddr>, dialable: seq<string> -> bool) returns (started: seq<PeerID>)
      modifies this`dialing
      ensures started == Dials(old(State()), book, dialable)
      ensures State() == old(State()).(dialing := old(dialing) + set id | id in started)
    {
      started := [];
      for i := 0 to |book|
        invariant started == Dials(old(State()), book[..i], dialable)
        invariant dialing == old(dialing) + set id | id in started
      {
        var p := book[i];
        assert book[..i + 1][..i] == book[..i];
        if !dialable(p.addrs) {
          continue;
        }
        if p.peerID in peers || p.peerID in dialing {
          continue;
        }
        dialing := dialing + {p.peerID};
        started := started + [p.peerID];
      }
      assert book[..|book|] == book;
    }

    /** A flight ends, whether the dial succeeded or not. */
    method Landed(id: PeerID)
      modifies this`dialing
      ensures State() == old(State()).(dialing := old(dialing) - {id})
    {
      dialing := dialing - {id};
    }
  }
}
