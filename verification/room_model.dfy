/** One room as a state machine over values: what each message does to the
  * roster, the host role, the magnet and the play state, and what it makes the
  * room send and show. The class in room_driver.dfy implements it in place.
  */
module RoomModel {
  import opened Wrappers
  import opened PeerOrder
  import opened Protocol

  datatype Peer = Peer(
    peerID: PeerID, userID: string, username: string,
    isHost: bool, buffering: bool, addrs: seq<string>, version: int)

  /** `hostPeer` is the empty string while nobody is known to host. */
  datatype RoomState = RoomState(
    selfID: PeerID,
    isHost: bool,
    peers: map<PeerID, Peer>,
    hostPeer: PeerID,
    magnet: Option<Magnet>,
    refused: map<PeerID, int>,
    paused: bool,
    pausedKnown: bool)

  /** What a room does to the world: broadcasts, dial hints, callbacks. */
  datatype Effect =
    | Sent(msg: Message)
    | Hinted(book: seq<PeerAddr>)
    | RosterShown(peers: map<PeerID, Peer>)
    | FilmShown(magnet: Magnet)
    | PauseShown(paused: bool)
    | SeekShown(seconds: real)
    | BufferingShown(peer: PeerID, buffering: bool)
    | HostShown(hostPeer: PeerID)
    | RefusalShown(peer: PeerID, version: int)

  datatype Outcome = Outcome(room: RoomState, effects: seq<Effect>)

  function NewRoom(selfID: PeerID, isHost: bool): RoomState {
    RoomState(selfID, isHost, map[], if isHost then selfID else "", None, map[], false, false)
  }

  // ---------- parts of the steps ----------

  /** Everyone the takeover rule ranges over: the roster and this peer itself. */
  function View(r: RoomState): set<PeerID> {
    r.peers.Keys + {r.selfID}
  }

  ghost function TakeoverWinner(r: RoomState): PeerID {
    Least(View(r))
  }

  function Reachable(peers: map<PeerID, Peer>): set<PeerID> {
    set id | id in peers && peers[id].addrs != []
  }

  function Entry(peers: map<PeerID, Peer>, id: PeerID): PeerAddr
    requires id in peers
  {
    PeerAddr(id, peers[id].addrs)
  }

  /** Where the members can be reached, in ascending order of identifier. */
  ghost function AddressBook(peers: map<PeerID, Peer>): seq<PeerAddr> {
    var ids := Enumeration(Reachable(peers));
    seq(|ids|, i requires 0 <= i < |ids| => Entry(peers, ids[i]))
  }

  /** What a host broadcasts when somebody says hello. */
  ghost function Answer(r: RoomState): seq<Effect> {
    var book := AddressBook(r.peers);
    (if r.magnet.Some? then [Sent(Film(r.magnet.value))] else [])
    + [Sent(Host(r.selfID))]
    + (if r.pausedKnown then [Sent(Pause(r.paused))] else [])
    + (if book != [] then [Sent(Peers(book))] else [])
  }

  predicate Fresh(r: RoomState, p: PeerAddr) {
    p.peerID != r.selfID && p.peerID !in r.peers && p.addrs != []
  }

  /** The book entries worth dialling, in book order. */
  function FreshOf(r: RoomState, book: seq<PeerAddr>): seq<PeerAddr> {
    if book == [] then []
    else
      var init := FreshOf(r, book[..|book| - 1]);
      if Fresh(r, book[|book| - 1]) then init + [book[|book| - 1]] else init
  }

  function Crowned(peers: map<PeerID, Peer>, host: PeerID): map<PeerID, Peer> {
    map id | id in peers :: peers[id].(isHost := id == host)
  }

  // ---------- the steps ----------

  ghost function OnHello(r: RoomState, from: PeerID, m: Message): Outcome
    requires m.Hello?
  {
    var version := SpokenVersion(m.version);
    if version > PROTOCOL_VERSION then
      Outcome(r.(refused := r.refused[from := version]),
              if from in r.refused then [] else [RefusalShown(from, version)])
    else if from in r.refused then
      Outcome(r, [])
    else
      var peer := Peer(from, m.userID, m.username, m.claimsHost, false, m.addrs, version);
      var r' := r.(peers := r.peers[from := peer], hostPeer := if m.claimsHost then from else r.hostPeer);
      Outcome(r', [RosterShown(r'.peers)]
                  + (if m.claimsHost then [HostShown(from)] else [])
                  + (if r.isHost then Answer(r') else []))
  }

  function OnFilm(r: RoomState, from: PeerID, magnet: Magnet): Outcome {
    var r' := r.(hostPeer := if r.hostPeer == "" then from else r.hostPeer, magnet := Some(magnet));
    Outcome(r', if from == r'.hostPeer then [FilmShown(magnet)] else [])
  }

  ghost predicate Believable(r: RoomState, from: PeerID, host: PeerID) {
    if host == from then from == TakeoverWinner(r) else from == r.hostPeer
  }

  ghost function OnHost(r: RoomState, from: PeerID, host: PeerID): Outcome {
    if !Believable(r, from, host) then Outcome(r, [])
    else
      var r' := r.(hostPeer := host, peers := Crowned(r.peers, host), isHost := host == r.selfID);
      Outcome(r', [RosterShown(r'.peers), HostShown(host)])
  }

  ghost function OnBye(r: RoomState, from: PeerID): Outcome {
    var left := r.(peers := r.peers - {from});
    var roster := if from in r.peers then [RosterShown(left.peers)] else [];
    if from != r.hostPeer then Outcome(left, roster)
    else
      var winner := TakeoverWinner(left);
      var r' := left.(hostPeer := winner, isHost := r.isHost || winner == r.selfID);
      Outcome(r', roster
                  + (if winner == r.selfID then [Sent(Host(winner))] else [])
                  + [RosterShown(r'.peers), HostShown(winner)])
  }

  function OnPeers(r: RoomState, book: seq<PeerAddr>): Outcome {
    var unknown := FreshOf(r, book);
    Outcome(r, if unknown == [] then [] else [Hinted(unknown)])
  }

  function OnBuffering(r: RoomState, from: PeerID, buffering: bool): Outcome {
    Outcome(if from in r.peers then r.(peers := r.peers[from := r.peers[from].(buffering := buffering)]) else r,
            [BufferingShown(from, buffering)])
  }

  /** One message from one peer. */
  ghost function Step(r: RoomState, from: PeerID, m: Message): Outcome {
    if !m.Hello? && from in r.refused then Outcome(r, [])
    else
      match m
      case Hello(_, _, _, _, _, _) => OnHello(r, from, m)
      case Film(magnet) => OnFilm(r, from, magnet)
      case Pause(paused) =>
        if ShouldFollow(from, r.hostPeer)
        then Outcome(r.(paused := paused, pausedKnown := true), [PauseShown(paused)])
        else Outcome(r, [])
      case Position(seconds) =>
        Outcome(r, if ShouldFollow(from, r.hostPeer) then [SeekShown(seconds)] else [])
      case Buffering(buffering) => OnBuffering(r, from, buffering)
      case Host(host) => OnHost(r, from, host)
      case Bye(_) => OnBye(r, from)
      case Peers(book) => OnPeers(r, book)
  }

  // ---------- what the parts mean ----------

  /** The address book lists exactly the members that can be reached, once each,
    * in ascending order, each with its own addresses. */
  lemma AddressBookLists(peers: map<PeerID, Peer>)
    ensures var book := AddressBook(peers);
      && (forall e :: e in book <==> e.peerID in peers && e.addrs != [] && e.addrs == peers[e.peerID].addrs)
      && (forall i, j | 0 <= i < j < |book| :: book[i].peerID != book[j].peerID && Leq(book[i].peerID, book[j].peerID))
  {
    var ids := Enumeration(Reachable(peers));
    var book := AddressBook(peers);
    forall e: PeerAddr | e.peerID in peers && e.addrs != [] && e.addrs == peers[e.peerID].addrs ensures e in book {
      assert e.peerID in Reachable(peers);
      var i :| 0 <= i < |ids| && ids[i] == e.peerID;
      assert book[i] == e;
    }
    forall e | e in book ensures e.peerID in peers && e.addrs != [] && e.addrs == peers[e.peerID].addrs {
      var i :| 0 <= i < |book| && book[i] == e;
      assert ids[i] in Reachable(peers);
    }
  }

  /** A dial hint names exactly the listed peers that are neither this one nor
    * known already and that say where they are. */
  lemma {:induction false} FreshOfSelects(r: RoomState, book: seq<PeerAddr>)
    ensures forall e :: e in FreshOf(r, book) <==>
              e in book && e.peerID != r.selfID && e.peerID !in r.peers && e.addrs != []
  {
    if book != [] {
      FreshOfSelects(r, book[..|book| - 1]);
      assert book == book[..|book| - 1] + [book[|book| - 1]];
    }
  }

  // ---------- what a step does to the roles ----------

  predicate Admits(r: RoomState, from: PeerID, m: Message) {
    m.Hello? && SpokenVersion(m.version) <= PROTOCOL_VERSION && from !in r.refused
  }

  /** Who is left when a peer leaves; this peer itself always is. */
  function Survivors(r: RoomState, gone: PeerID): (s: set<PeerID>)
    ensures r.selfID in s
  {
    (r.peers.Keys - {gone}) + {r.selfID}
  }

  /** Whom the room follows after a message, and whether it holds the role. */
  ghost function RoleAfter(r: RoomState, from: PeerID, m: Message): (PeerID, bool) {
    if !m.Hello? && from in r.refused then (r.hostPeer, r.isHost)
    else
      match m
      case Hello(_, _, _, claimsHost, _, _) => (if Admits(r, from, m) && claimsHost then from else r.hostPeer, r.isHost)
      case Film(_) => (if r.hostPeer == "" then from else r.hostPeer, r.isHost)
      case Host(host) => if Believable(r, from, host) then (host, host == r.selfID) else (r.hostPeer, r.isHost)
      case Bye(_) =>
        if from != r.hostPeer then (r.hostPeer, r.isHost)
        else var winner := Least(Survivors(r, from)); (winner, r.isHost || winner == r.selfID)
      case _ => (r.hostPeer, r.isHost)
  }

  /** Who is in the roster after a message. */
  ghost function RosterAfter(r: RoomState, from: PeerID, m: Message): set<PeerID> {
    if Admits(r, from, m) then r.peers.Keys + {from}
    else if m.Bye? && from !in r.refused then r.peers.Keys - {from}
    else r.peers.Keys
  }

  predicate TracksRole(s: RoomState, r: RoomState, role: (PeerID, bool), roster: set<PeerID>) {
    s.selfID == r.selfID && s.hostPeer == role.0 && s.isHost == role.1 && s.peers.Keys == roster
  }

  lemma HelloMovesRole(r: RoomState, from: PeerID, m: Message)
    requires m.Hello?
    ensures TracksRole(OnHello(r, from, m).room, r, RoleAfter(r, from, m), RosterAfter(r, from, m))
  {
    hide Answer;
  }

  lemma HostMovesRole(r: RoomState, from: PeerID, m: Message)
    requires m.Host? && from !in r.refused
    ensures TracksRole(OnHost(r, from, m.hostID).room, r, RoleAfter(r, from, m), RosterAfter(r, from, m))
  {
    hide Believable;
  }

  lemma ByeMovesRole(r: RoomState, from: PeerID, m: Message)
    requires m.Bye? && from !in r.refused
    ensures TracksRole(OnBye(r, from).room, r, RoleAfter(r, from, m), RosterAfter(r, from, m))
  {
    assert View(r.(peers := r.peers - {from})) == Survivors(r, from);
  }

  /** The whole effect of a message on the membership and the role. */
  lemma StepMovesRole(r: RoomState, from: PeerID, m: Message)
    ensures TracksRole(Step(r, from, m).room, r, RoleAfter(r, from, m), RosterAfter(r, from, m))
  {
    hide OnHello, OnBye, OnHost, FreshOf, Believable;
    if m.Hello? {
      HelloMovesRole(r, from, m);
    } else if from in r.refused {
    } else if m.Host? {
      HostMovesRole(r, from, m);
    } else if m.Bye? {
      ByeMovesRole(r, from, m);
    }
  }

  /** Only greetings touch the refusals. */
  lemma StepRefuses(r: RoomState, from: PeerID, m: Message)
    ensures Step(r, from, m).room.refused ==
      if m.Hello? && SpokenVersion(m.version) > PROTOCOL_VERSION
          then r.refused[from := SpokenVersion(m.version)] else r.refused
  {
    hide Answer, Believable, TakeoverWinner, FreshOf, Crowned;
  }

  /** A roster entry keeps the addresses its greeting carried. */
  lemma StepKeepsAddrs(r: RoomState, from: PeerID, m: Message)
    ensures var s := Step(r, from, m).room;
      forall y | y in s.peers ::
        s.peers[y].addrs == if y == from && Admits(r, from, m) then m.addrs
                            else if y in r.peers then r.peers[y].addrs else []
    ensures Admits(r, from, m) ==> from in Step(r, from, m).room.peers
  {
    hide Answer, Believable, TakeoverWinner, FreshOf;
  }
}
