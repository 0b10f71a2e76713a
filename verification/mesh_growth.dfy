/** The room's own network: everybody dials the host, the host hands out its
  * address book, and the star grows into a full mesh. Joins and deliveries
  * interleave freely; messages are delivered in any order.
  */
module MeshGrowth {
  import opened FiniteSums
  import opened PeerOrder
  import opened Protocol
  import opened RoomModel

  datatype Packet = Packet(to: PeerID, from: PeerID, msg: Message)

  /** `links` holds both directions of every stream; `wire` is what was sent and
    * not yet delivered. */
  datatype Net = Net(rooms: map<PeerID, RoomState>, links: set<(PeerID, PeerID)>, wire: seq<Packet>)

  /** What everybody says when a stream opens: this build's protocol, the host
    * claims its role, and each says where it can be reached. */
  ghost predicate Proper(greet: PeerID -> Message, host: PeerID) {
    forall x :: greet(x).Hello? && greet(x).version == PROTOCOL_VERSION && greet(x).addrs != []
                && (greet(x).claimsHost <==> x == host)
  }

  /** One dial that succeeds: both ends greet. A peer already connected is not
    * dialled again. */
  ghost function Dial(n: Net, greet: PeerID -> Message, a: PeerID, b: PeerID): Net {
    if (a, b) in n.links then n
    else n.(links := n.links + {(a, b), (b, a)},
            wire := n.wire + [Packet(b, a, greet(a)), Packet(a, b, greet(b))])
  }

  ghost function DialAll(n: Net, greet: PeerID -> Message, a: PeerID, book: seq<PeerAddr>): Net
    decreases |book|
  {
    if book == [] then n else DialAll(Dial(n, greet, a, book[0].peerID), greet, a, book[1..])
  }

  function Neighbours(n: Net, a: PeerID): set<PeerID> {
    set l | l in n.links && l.0 == a :: l.1
  }

  ghost function Broadcast(n: Net, a: PeerID, msg: Message): seq<Packet> {
    var ids := Enumeration(Neighbours(n, a));
    seq(|ids|, i requires 0 <= i < |ids| => Packet(ids[i], a, msg))
  }

  /** A room's broadcasts and dial hints, carried out. */
  ghost function Perform(n: Net, greet: PeerID -> Message, a: PeerID, effects: seq<Effect>): Net
    decreases |effects|
  {
    if effects == [] then n
    else
      var n' := match effects[0]
        case Sent(msg) => n.(wire := n.wire + Broadcast(n, a, msg))
        case Hinted(book) => DialAll(n, greet, a, book)
        case _ => n;
      Perform(n', greet, a, effects[1..])
  }

  function Without<T>(s: seq<T>, i: nat): seq<T>
    requires i < |s|
  {
    s[..i] + s[i + 1..]
  }

  datatype Move = Join(who: PeerID) | Deliver(i: nat)

  ghost predicate Enabled(n: Net, m: Move) {
    match m
    case Join(who) => who != "" && who !in n.rooms
    case Deliver(i) => i < |n.wire| && n.wire[i].to in n.rooms
  }

  /** The net after the room at the far end has read packet `i`. */
  ghost function Read(n: Net, i: nat): Net
    requires Enabled(n, Deliver(i))
  {
    var p := n.wire[i];
    n.(rooms := n.rooms[p.to := Step(n.rooms[p.to], p.from, p.msg).room], wire := Without(n.wire, i))
  }

  ghost function After(n: Net, greet: PeerID -> Message, host: PeerID, m: Move): Net
    requires Enabled(n, m)
  {
    match m
    case Join(who) => Dial(n.(rooms := n.rooms[who := NewRoom(who, false)]), greet, who, host)
    case Deliver(i) =>
      var p := n.wire[i];
      Perform(Read(n, i), greet, p.to, Step(n.rooms[p.to], p.from, p.msg).effects)
  }

  ghost predicate Possible(n: Net, greet: PeerID -> Message, host: PeerID, moves: seq<Move>)
    decreases |moves|
  {
    moves != [] ==> Enabled(n, moves[0]) && Possible(After(n, greet, host, moves[0]), greet, host, moves[1..])
  }

  ghost function Play(n: Net, greet: PeerID -> Message, host: PeerID, moves: seq<Move>): Net
    requires Possible(n, greet, host, moves)
    decreases |moves|
  {
    if moves == [] then n else Play(After(n, greet, host, moves[0]), greet, host, moves[1..])
  }

  // ---------- the invariant ----------

  ghost predicate RoomOK(r: RoomState, x: PeerID, links: set<(PeerID, PeerID)>, host: PeerID) {
    && r.selfID == x && x !in r.peers && r.refused == map[]
    && (r.isHost <==> x == host)
    && (r.hostPeer == host || (r.hostPeer == "" && x != host))
    && (host in r.peers ==> r.hostPeer == host)
    && forall y | y in r.peers :: (x, y) in links && r.peers[y].addrs != []
  }

  ghost predicate RoomsOK(n: Net, host: PeerID) {
    && host in n.rooms && "" !in n.rooms
    && forall x | x in n.rooms :: RoomOK(n.rooms[x], x, n.links, host)
  }

  ghost predicate LinksOK(rooms: set<PeerID>, links: set<(PeerID, PeerID)>, host: PeerID) {
    && (forall l | l in links :: (l.1, l.0) in links && l.0 != l.1 && l.0 in rooms && l.1 in rooms)
    && (forall x | x in rooms && x != host :: (host, x) in links)
  }

  ghost predicate HostSays(m: Message, rooms: set<PeerID>, host: PeerID) {
    match m
    case Film(_) => true
    case Pause(_) => true
    case Host(h) => h == host
    case Peers(book) => forall e | e in book :: e.peerID in rooms && e.addrs != []
    case _ => false
  }

  ghost predicate PacketOK(p: Packet, rooms: set<PeerID>, links: set<(PeerID, PeerID)>, greet: PeerID -> Message,
                           host: PeerID) {
    && (p.from, p.to) in links
    && (p.msg == greet(p.from) || (p.from == host && HostSays(p.msg, rooms, host)))
  }

  /** Whoever is linked has been heard, or its greeting is on the wire. */
  ghost predicate Introduced(n: Net, greet: PeerID -> Message, a: PeerID, b: PeerID) {
    Packet(b, a, greet(a)) in n.wire || (b in n.rooms && a in n.rooms[b].peers)
  }

  ghost predicate Lists(book: seq<PeerAddr>, x: PeerID) {
    exists e | e in book :: e.peerID == x
  }

  /** An address book that names `b` is on its way to `a`. */
  ghost predicate Told(n: Net, host: PeerID, a: PeerID, b: PeerID) {
    exists p | p in n.wire :: p.to == a && p.from == host && p.msg.Peers? && Lists(p.msg.book, b)
  }

  /** Two members are linked, or one of them is about to be told of the other. */
  ghost predicate Meeting(n: Net, host: PeerID, a: PeerID, b: PeerID) {
    (a, b) in n.links || Told(n, host, a, b) || Told(n, host, b, a)
  }

  ghost predicate WireOK(n: Net, greet: PeerID -> Message, host: PeerID) {
    forall p | p in n.wire :: PacketOK(p, n.rooms.Keys, n.links, greet, host)
  }

  ghost predicate AllIntroduced(n: Net, greet: PeerID -> Message) {
    forall a, b | (a, b) in n.links :: Introduced(n, greet, a, b)
  }

  ghost predicate AllMeeting(n: Net, host: PeerID)
    requires host in n.rooms
  {
    forall a, b | a in n.rooms[host].peers && b in n.rooms[host].peers && a != b :: Meeting(n, host, a, b)
  }

  /** Everything but the meetings. */
  ghost predicate Sane(n: Net, greet: PeerID -> Message, host: PeerID) {
    && Proper(greet, host)
    && RoomsOK(n, host)
    && LinksOK(n.rooms.Keys, n.links, host)
    && WireOK(n, greet, host)
    && AllIntroduced(n, greet)
  }

  ghost predicate Inv(n: Net, greet: PeerID -> Message, host: PeerID) {
    Sane(n, greet, host) && AllMeeting(n, host)
  }

  // ---------- dialling ----------

  /** Links and packets only grow while a room acts. */
  ghost predicate Grows(n: Net, n': Net) {
    n'.rooms == n.rooms && n.links <= n'.links && forall p | p in n.wire :: p in n'.wire
  }

  lemma ToldStays(n: Net, n': Net, host: PeerID, a: PeerID, b: PeerID)
    requires Told(n, host, a, b)
    requires forall p | p in n.wire && p.msg.Peers? :: p in n'.wire
    ensures Told(n', host, a, b)
  {
    var p :| p in n.wire && p.to == a && p.from == host && p.msg.Peers? && Lists(p.msg.book, b);
    assert p in n'.wire;
  }

  lemma MeetingStays(n: Net, n': Net, host: PeerID, a: PeerID, b: PeerID)
    requires Meeting(n, host, a, b) && n.links <= n'.links
    requires forall p | p in n.wire && p.msg.Peers? :: p in n'.wire
    ensures Meeting(n', host, a, b)
  {
    hide Told;
    if Told(n, host, a, b) { ToldStays(n, n', host, a, b); }
    if Told(n, host, b, a) { ToldStays(n, n', host, b, a); }
  }

  lemma DialIntroduces(n: Net, greet: PeerID -> Message, a: PeerID, b: PeerID)
    requires AllIntroduced(n, greet)
    ensures AllIntroduced(Dial(n, greet, a, b), greet)
  {
    hide Introduced;
    var n' := Dial(n, greet, a, b);
    if (a, b) !in n.links {
      assert n'.wire[|n.wire|] == Packet(b, a, greet(a)) && n'.wire[|n.wire| + 1] == Packet(a, b, greet(b));
      forall x, y | (x, y) in n'.links ensures Introduced(n', greet, x, y) {
        if (x, y) in n.links {
          OldIntroduction(n, n', greet, x, y);
        } else {
          NewIntroduction(n', greet, x, y);
        }
      }
    }
  }

  lemma OldIntroduction(n: Net, n': Net, greet: PeerID -> Message, x: PeerID, y: PeerID)
    requires Introduced(n, greet, x, y) && Grows(n, n')
    ensures Introduced(n', greet, x, y)
  {
  }

  lemma NewIntroduction(n: Net, greet: PeerID -> Message, x: PeerID, y: PeerID)
    requires Packet(y, x, greet(x)) in n.wire
    ensures Introduced(n, greet, x, y)
  {
  }

  lemma DialKeepsWire(n: Net, greet: PeerID -> Message, host: PeerID, a: PeerID, b: PeerID)
    requires WireOK(n, greet, host)
    ensures WireOK(Dial(n, greet, a, b), greet, host)
  {
    hide HostSays;
    var n' := Dial(n, greet, a, b);
    forall p | p in n'.wire ensures PacketOK(p, n'.rooms.Keys, n'.links, greet, host) {
      if p in n.wire { assert PacketOK(p, n.rooms.Keys, n.links, greet, host); }
    }
  }

  lemma DialKeepsSane(n: Net, greet: PeerID -> Message, host: PeerID, a: PeerID, b: PeerID)
    requires Sane(n, greet, host) && a in n.rooms && b in n.rooms && a != b
    ensures var n' := Dial(n, greet, a, b); Sane(n', greet, host) && Grows(n, n') && (a, b) in n'.links
  {
    hide Introduced, WireOK, AllIntroduced, Proper;
    var n' := Dial(n, greet, a, b);
    DialKeepsWire(n, greet, host, a, b);
    DialIntroduces(n, greet, a, b);
    forall x | x in n'.rooms ensures RoomOK(n'.rooms[x], x, n'.links, host) {
      assert RoomOK(n.rooms[x], x, n.links, host);
    }
  }

  lemma {:induction false} DialAllKeepsSane(n: Net, greet: PeerID -> Message, host: PeerID, a: PeerID,
                                            book: seq<PeerAddr>)
    requires Sane(n, greet, host) && a in n.rooms
    requires forall e | e in book :: e.peerID in n.rooms && e.peerID != a
    ensures var n' := DialAll(n, greet, a, book);
      Sane(n', greet, host) && Grows(n, n') && forall e | e in book :: (a, e.peerID) in n'.links
    decreases |book|
  {
    hide Sane, Dial;
    if book != [] {
      assert book[0] in book && forall e | e in book[1..] :: e in book;
      DialKeepsSane(n, greet, host, a, book[0].peerID);
      var n1 := Dial(n, greet, a, book[0].peerID);
      DialAllKeepsSane(n1, greet, host, a, book[1..]);
      forall e | e in book ensures (a, e.peerID) in DialAll(n, greet, a, book).links {
        if e != book[0] { assert e in book[1..]; }
      }
    }
  }

  // ---------- joining ----------

  lemma JoinKeepsRooms(n: Net, greet: PeerID -> Message, host: PeerID, who: PeerID)
    requires RoomsOK(n, host) && LinksOK(n.rooms.Keys, n.links, host) && Enabled(n, Join(who))
    ensures var n' := After(n, greet, host, Join(who)); RoomsOK(n', host) && LinksOK(n'.rooms.Keys, n'.links, host)
  {
    var n' := After(n, greet, host, Join(who));
    assert (who, host) !in n.links;
    forall x | x in n'.rooms ensures RoomOK(n'.rooms[x], x, n'.links, host) {
      if x != who { assert RoomOK(n.rooms[x], x, n.links, host); }
    }
  }

  lemma JoinKeepsWire(n: Net, greet: PeerID -> Message, host: PeerID, who: PeerID)
    requires WireOK(n, greet, host) && LinksOK(n.rooms.Keys, n.links, host) && Enabled(n, Join(who))
    ensures WireOK(After(n, greet, host, Join(who)), greet, host)
  {
    var n0 := n.(rooms := n.rooms[who := NewRoom(who, false)]);
    forall p | p in n0.wire ensures PacketOK(p, n0.rooms.Keys, n0.links, greet, host) {
      assert PacketOK(p, n.rooms.Keys, n.links, greet, host);
    }
    DialKeepsWire(n0, greet, host, who, host);
  }

  lemma JoinIntroduces(n: Net, greet: PeerID -> Message, host: PeerID, who: PeerID)
    requires AllIntroduced(n, greet) && LinksOK(n.rooms.Keys, n.links, host) && Enabled(n, Join(who))
    ensures AllIntroduced(After(n, greet, host, Join(who)), greet)
  {
    var n0 := n.(rooms := n.rooms[who := NewRoom(who, false)]);
    forall a, b | (a, b) in n0.links ensures Introduced(n0, greet, a, b) {
      assert Introduced(n, greet, a, b) && b in n.rooms;
    }
    DialIntroduces(n0, greet, who, host);
  }

  lemma JoinKeepsInv(n: Net, greet: PeerID -> Message, host: PeerID, who: PeerID)
    requires Inv(n, greet, host) && Enabled(n, Join(who))
    ensures Inv(After(n, greet, host, Join(who)), greet, host)
  {
    JoinKeepsRooms(n, greet, host, who);
    JoinKeepsWire(n, greet, host, who);
    JoinIntroduces(n, greet, host, who);
    hide WireOK, AllIntroduced, RoomsOK, LinksOK, Meeting, Proper;
    var n' := After(n, greet, host, Join(who));
    assert n'.rooms[host].peers == n.rooms[host].peers by { assert host in n.rooms by { HostIsHere(n, host); } }
    forall a, b | a in n'.rooms[host].peers && b in n'.rooms[host].peers && a != b ensures Meeting(n', host, a, b) {
      MeetingStays(n, n', host, a, b);
    }
  }

  lemma HostIsHere(n: Net, host: PeerID)
    requires RoomsOK(n, host)
    ensures host in n.rooms
  {
  }

  // ---------- delivering ----------

  lemma WithoutKeeps<T>(s: seq<T>, i: nat)
    requires i < |s|
    ensures forall x :: x in s <==> x in Without(s, i) || x == s[i]
    ensures |Without(s, i)| == |s| - 1
  {
    assert s == s[..i] + [s[i]] + s[i + 1..];
  }

  /** A greeting, or something the host may say. */
  predicate Expected(m: Message, from: PeerID, host: PeerID) {
    || (m.Hello? && m.version == PROTOCOL_VERSION && m.addrs != [] && (m.claimsHost <==> from == host))
    || (from == host && (m.Film? || m.Pause? || m == Host(host) || m.Peers?))
  }

  lemma HearingKeepsRoom(r: RoomState, x: PeerID, from: PeerID, m: Message, links: set<(PeerID, PeerID)>, host: PeerID)
    requires RoomOK(r, x, links, host) && Expected(m, from, host)
    requires from != "" && from != x && (x, from) in links
    ensures RoomOK(Step(r, from, m).room, x, links, host)
  {
    hide Step, Believable;
    StepMovesRole(r, from, m);
    StepRefuses(r, from, m);
    StepKeepsAddrs(r, from, m);
  }

  lemma ReadKeepsRoom(n: Net, greet: PeerID -> Message, host: PeerID, i: nat)
    requires Sane(n, greet, host) && Enabled(n, Deliver(i))
    ensures var p := n.wire[i]; RoomOK(Read(n, i).rooms[p.to], p.to, n.links, host)
  {
    hide Step, AllIntroduced;
    var p := n.wire[i];
    var r := n.rooms[p.to];
    assert PacketOK(p, n.rooms.Keys, n.links, greet, host) && RoomOK(r, p.to, n.links, host);
    assert p.from != "" && p.from != p.to && (p.to, p.from) in n.links;
    HearingKeepsRoom(r, p.to, p.from, p.msg, n.links, host);
  }

  lemma ReadIntroduces(n: Net, greet: PeerID -> Message, host: PeerID, i: nat)
    requires Sane(n, greet, host) && Enabled(n, Deliver(i))
    ensures AllIntroduced(Read(n, i), greet)
  {
    hide Step, Believable, RoleAfter, LinksOK;
    var p := n.wire[i];
    var r := n.rooms[p.to];
    var n' := Read(n, i);
    assert PacketOK(p, n.rooms.Keys, n.links, greet, host) && RoomOK(r, p.to, n.links, host);
    StepMovesRole(r, p.from, p.msg);
    WithoutKeeps(n.wire, i);
    assert !p.msg.Bye?;
    forall a, b | (a, b) in n'.links ensures Introduced(n', greet, a, b) {
      assert Introduced(n, greet, a, b);
    }
  }

  lemma ReadKeepsSane(n: Net, greet: PeerID -> Message, host: PeerID, i: nat)
    requires Sane(n, greet, host) && Enabled(n, Deliver(i))
    ensures Sane(Read(n, i), greet, host)
    ensures forall p | p in n.wire && p != n.wire[i] :: p in Read(n, i).wire
  {
    ReadKeepsRoom(n, greet, host, i);
    ReadIntroduces(n, greet, host, i);
    WithoutKeeps(n.wire, i);
    hide Step, AllIntroduced, RoomOK, Proper, PacketOK;
    var n' := Read(n, i);
    assert n'.rooms.Keys == n.rooms.Keys;
  }

  /** Case 1: anything but an address book, at anybody but the host. Nothing is
    * sent and nobody is dialled. */
  lemma GuestListens(n: Net, greet: PeerID -> Message, host: PeerID, i: nat)
    requires Inv(n, greet, host) && Enabled(n, Deliver(i))
    requires n.wire[i].to != host && !n.wire[i].msg.Peers?
    ensures Inv(After(n, greet, host, Deliver(i)), greet, host)
    ensures After(n, greet, host, Deliver(i)) == Read(n, i)
  {
    var p := n.wire[i];
    ReadKeepsSane(n, greet, host, i);
    QuietGuest(n, greet, host, i);
    hide Step, Sane, Meeting, Perform;
    PerformNothing(Read(n, i), greet, p.to, Step(n.rooms[p.to], p.from, p.msg).effects);
    var n' := Read(n, i);
    HostStays(n, greet, host, i);
    forall a, b | a in n'.rooms[host].peers && b in n'.rooms[host].peers && a != b ensures Meeting(n', host, a, b) {
      MeetingStays(n, n', host, a, b);
    }
  }

  lemma HostStays(n: Net, greet: PeerID -> Message, host: PeerID, i: nat)
    requires Sane(n, greet, host) && Enabled(n, Deliver(i)) && n.wire[i].to != host
    ensures host in n.rooms && Read(n, i).rooms[host] == n.rooms[host]
  {
    hide Step;
  }

  lemma QuietGuest(n: Net, greet: PeerID -> Message, host: PeerID, i: nat)
    requires Sane(n, greet, host) && Enabled(n, Deliver(i))
    requires n.wire[i].to != host && !n.wire[i].msg.Peers?
    ensures var p := n.wire[i];
      forall e | e in Step(n.rooms[p.to], p.from, p.msg).effects :: !e.Sent? && !e.Hinted?
  {
    hide Believable, AllIntroduced, LinksOK, Answer, OnBye, OnPeers;
    var p := n.wire[i];
    assert PacketOK(p, n.rooms.Keys, n.links, greet, host) && RoomOK(n.rooms[p.to], p.to, n.links, host);
    assert !p.msg.Bye?;
  }

  lemma {:induction false} PerformNothing(n: Net, greet: PeerID -> Message, a: PeerID, effects: seq<Effect>)
    requires forall e | e in effects :: !e.Sent? && !e.Hinted?
    ensures Perform(n, greet, a, effects) == n
    decreases |effects|
  {
    if effects != [] {
      assert effects[0] in effects && forall e | e in effects[1..] :: e in effects;
      PerformNothing(n, greet, a, effects[1..]);
    }
  }

  /** Case 2: a guest reads an address book and dials whom it does not know. */
  lemma BookReader(n: Net, greet: PeerID -> Message, host: PeerID, i: nat)
    requires Sane(n, greet, host) && Enabled(n, Deliver(i)) && n.wire[i].msg.Peers?
    ensures var p := n.wire[i]; var r := n.rooms[p.to];
      && p.from == host && p.to != host
      && Step(r, p.from, p.msg) == OnPeers(r, p.msg.book)
      && Read(n, i).rooms == n.rooms
      && forall e | e in p.msg.book :: e.peerID in n.rooms && e.addrs != []
  {
    hide AllIntroduced, OnHello, FreshOf;
    var p := n.wire[i];
    assert PacketOK(p, n.rooms.Keys, n.links, greet, host) && RoomOK(n.rooms[p.to], p.to, n.links, host);
    assert !greet(p.from).Peers?;
    assert n.rooms[p.to := n.rooms[p.to]] == n.rooms;
  }

  /** Whoever the book lists is connected to its reader afterwards. */
  lemma GuestReadsBook(n: Net, greet: PeerID -> Message, host: PeerID, i: nat)
    requires Sane(n, greet, host) && Enabled(n, Deliver(i)) && n.wire[i].msg.Peers?
    ensures var p, n' := n.wire[i], After(n, greet, host, Deliver(i));
      && Sane(n', greet, host) && n'.rooms == n.rooms && n.links <= n'.links
      && (forall q | q in n.wire && q != p :: q in n'.wire)
      && forall b | Lists(p.msg.book, b) && b != p.to :: (p.to, b) in n'.links && (b, p.to) in n'.links
  {
    ReadKeepsSane(n, greet, host, i);
    BookReader(n, greet, host, i);
    var p := n.wire[i];
    var r, n1 := n.rooms[p.to], Read(n, i);
    var unknown := FreshOf(r, p.msg.book);
    FreshOfSelects(r, p.msg.book);
    PerformHint(n1, greet, p.to, unknown);
    var n' := DialAll(n1, greet, p.to, unknown);
    assert RoomOK(r, p.to, n.links, host);
    DialAllKeepsSane(n1, greet, host, p.to, unknown);
    hide Step, DialAll, Dial, AllIntroduced, WireOK, FreshOf;
    assert After(n, greet, host, Deliver(i)) == n';
    forall b | Lists(p.msg.book, b) && b != p.to ensures (p.to, b) in n'.links && (b, p.to) in n'.links {
      var e :| e in p.msg.book && e.peerID == b;
      if b in r.peers { assert (p.to, b) in n.links; } else { assert e in unknown; }
    }
  }

  lemma PerformHint(n: Net, greet: PeerID -> Message, a: PeerID, unknown: seq<PeerAddr>)
    ensures Perform(n, greet, a, if unknown == [] then [] else [Hinted(unknown)])
            == DialAll(n, greet, a, unknown)
  {
    if unknown != [] {
      assert [Hinted(unknown)][1..] == [];
    }
  }

  lemma GuestGrowsTheMesh(n: Net, greet: PeerID -> Message, host: PeerID, i: nat)
    requires Inv(n, greet, host) && Enabled(n, Deliver(i)) && n.wire[i].msg.Peers?
    ensures Inv(After(n, greet, host, Deliver(i)), greet, host)
  {
    GuestReadsBook(n, greet, host, i);
    HostIsHere(n, host);
    hide Sane, Told, After, Enabled;
    var p, n' := n.wire[i], After(n, greet, host, Deliver(i));
    forall a, b | a in n'.rooms[host].peers && b in n'.rooms[host].peers && a != b ensures Meeting(n', host, a, b) {
      assert Meeting(n, host, a, b);
      if Told(n, host, a, b) { BookStaysOrLinks(n, n', host, p, a, b); }
      if Told(n, host, b, a) { BookStaysOrLinks(n, n', host, p, b, a); }
    }
  }

  lemma BookStaysOrLinks(n: Net, n': Net, host: PeerID, p: Packet, a: PeerID, b: PeerID)
    requires Told(n, host, a, b) && a != b && p.msg.Peers?
    requires forall q | q in n.wire && q != p :: q in n'.wire
    requires forall c | Lists(p.msg.book, c) && c != p.to :: (p.to, c) in n'.links && (c, p.to) in n'.links
    ensures Told(n', host, a, b) || ((a, b) in n'.links && (b, a) in n'.links)
  {
    hide Lists;
    var q :| q in n.wire && q.to == a && q.from == host && q.msg.Peers? && Lists(q.msg.book, b);
    if q != p { assert q in n'.wire; }
  }

  /** Case 3: the host admits a newcomer and answers everybody. */
  lemma BroadcastReaches(n: Net, a: PeerID, msg: Message)
    ensures forall p :: p in Broadcast(n, a, msg) <==> p.from == a && p.msg == msg && (a, p.to) in n.links
  {
    var ids := Enumeration(Neighbours(n, a));
    forall p ensures p in Broadcast(n, a, msg) <==> p.from == a && p.msg == msg && (a, p.to) in n.links {
      if p.from == a && p.msg == msg && (a, p.to) in n.links {
        assert p.to in Neighbours(n, a) by { var l := (a, p.to); assert l in n.links; }
        var i :| 0 <= i < |ids| && ids[i] == p.to;
        assert Broadcast(n, a, msg)[i] == p;
      }
      if p in Broadcast(n, a, msg) {
        var i :| 0 <= i < |ids| && Broadcast(n, a, msg)[i] == p;
        assert ids[i] in Neighbours(n, a);
      }
    }
  }

  lemma {:induction false} PerformSends(n: Net, greet: PeerID -> Message, a: PeerID, effects: seq<Effect>)
    requires forall e | e in effects :: !e.Hinted?
    ensures var n' := Perform(n, greet, a, effects);
      && n'.rooms == n.rooms && n'.links == n.links
      && forall p :: p in n'.wire <==> p in n.wire || (p.from == a && (a, p.to) in n.links && Sent(p.msg) in effects)
    decreases |effects|
  {
    if effects != [] {
      assert effects[0] in effects && forall e | e in effects[1..] :: e in effects;
      assert forall e :: e in effects <==> e == effects[0] || e in effects[1..];
      var e := effects[0];
      if e.Sent? {
        BroadcastReaches(n, a, e.msg);
        hide Broadcast;
        PerformSends(n.(wire := n.wire + Broadcast(n, a, e.msg)), greet, a, effects[1..]);
      } else {
        PerformSends(n, greet, a, effects[1..]);
      }
    }
  }

  /** What the host sends when it admits a greeting: its announcement, its film,
    * its play state, and a book that lists its whole roster. */
  lemma HostAdmits(n: Net, greet: PeerID -> Message, host: PeerID, i: nat)
    requires Sane(n, greet, host) && Enabled(n, Deliver(i)) && n.wire[i].to == host
    ensures var p := n.wire[i]; var o := Step(n.rooms[host], p.from, p.msg);
      && p.msg == greet(p.from) && Admits(n.rooms[host], p.from, p.msg) && !p.msg.claimsHost
      && o == OnHello(n.rooms[host], p.from, p.msg)
      && o.effects == [RosterShown(o.room.peers)] + Answer(o.room)
      && o.room.peers.Keys == n.rooms[host].peers.Keys + {p.from} && o.room.selfID == host
  {
    hide AllIntroduced, Answer;
    var p := n.wire[i];
    assert PacketOK(p, n.rooms.Keys, n.links, greet, host) && RoomOK(n.rooms[host], host, n.links, host);
  }

  lemma AnswerHolds(r: RoomState, rooms: set<PeerID>, host: PeerID)
    requires r.selfID == host && r.peers.Keys <= rooms && forall y | y in r.peers :: r.peers[y].addrs != []
    ensures forall e | e in Answer(r) :: e.Sent? && HostSays(e.msg, rooms, host)
    ensures r.peers != map[] ==>
        exists book :: Sent(Peers(book)) in Answer(r) && forall y | y in r.peers :: Lists(book, y)
  {
    var book := AddressBook(r.peers);
    AddressBookLists(r.peers);
    hide AddressBook;
    forall y | y in r.peers ensures Lists(book, y) {
      assert PeerAddr(y, r.peers[y].addrs) in book;
    }
    if r.peers != map[] {
      var y :| y in r.peers;
      assert Lists(book, y);
      assert Sent(Peers(book)) in Answer(r);
    }
  }

  ghost predicate ListsAll(book: seq<PeerAddr>, r: RoomState) {
    forall y | y in r.peers :: Lists(book, y)
  }

  /** The host sent its neighbours something it may say, among it the book. */
  ghost predicate Answered(n: Net, n': Net, host: PeerID, book: seq<PeerAddr>) {
    && n'.rooms == n.rooms && n'.links == n.links
    && (forall q | q in n.wire :: q in n'.wire)
    && (forall q | q in n'.wire && q !in n.wire ::
          q.from == host && (host, q.to) in n.links && HostSays(q.msg, n.rooms.Keys, host))
    && (forall c | (host, c) in n.links :: Packet(c, host, Peers(book)) in n'.wire)
  }

  lemma AnswerIsSent(n: Net, n': Net, greet: PeerID -> Message, host: PeerID, book: seq<PeerAddr>,
                     effects: seq<Effect>, shown: Effect)
    requires host in n.rooms && effects == [shown] + Answer(n.rooms[host]) && shown.RosterShown?
    requires n' == Perform(n, greet, host, effects)
    requires forall e | e in Answer(n.rooms[host]) :: e.Sent? && HostSays(e.msg, n.rooms.Keys, host)
    requires Sent(Peers(book)) in Answer(n.rooms[host])
    ensures Answered(n, n', host, book)
  {
    hide Answer, HostSays, Perform;
    assert forall e :: e in effects <==> e == shown || e in Answer(n.rooms[host]);
    PerformSends(n, greet, host, effects);
    forall c | (host, c) in n.links ensures Packet(c, host, Peers(book)) in n'.wire {
      assert Sent(Packet(c, host, Peers(book)).msg) in effects;
    }
  }

  lemma HostAnswers(n: Net, greet: PeerID -> Message, host: PeerID, i: nat) returns (book: seq<PeerAddr>)
    requires Sane(n, greet, host) && Enabled(n, Deliver(i)) && n.wire[i].to == host
    ensures Sane(Read(n, i), greet, host)
    ensures ListsAll(book, Read(n, i).rooms[host])
    ensures Answered(Read(n, i), After(n, greet, host, Deliver(i)), host, book)
  {
    HostAdmits(n, greet, host, i);
    ReadKeepsSane(n, greet, host, i);
    var p, n1 := n.wire[i], Read(n, i);
    var r := n1.rooms[host];
    assert p.from in r.peers && r.peers.Keys <= n1.rooms.Keys && forall y | y in r.peers :: r.peers[y].addrs != [] by {
      assert RoomOK(r, host, n1.links, host);
    }
    hide Step, OnHello, Answer, Sane, Lists, HostSays, RoomOK, Perform;
    AnswerHolds(r, n1.rooms.Keys, host);
    book :| Sent(Peers(book)) in Answer(r) && forall y | y in r.peers :: Lists(book, y);
    AnswerIsSent(n1, After(n, greet, host, Deliver(i)), greet, host, book, [RosterShown(r.peers)] + Answer(r),
                 RosterShown(r.peers));
  }

  lemma BookBringsTogether(n: Net, n': Net, greet: PeerID -> Message, host: PeerID, book: seq<PeerAddr>)
    requires Sane(n, greet, host) && Answered(n, n', host, book) && ListsAll(book, n.rooms[host])
    ensures AllMeeting(n', host)
  {
    hide Lists, HostSays, WireOK, AllIntroduced;
    forall a, b | a in n'.rooms[host].peers && b in n'.rooms[host].peers && a != b ensures Meeting(n', host, a, b) {
      assert RoomOK(n.rooms[host], host, n.links, host);
      var p := Packet(a, host, Peers(book));
      assert p in n'.wire && Lists(p.msg.book, b);
    }
  }

  lemma HostGrowsTheMesh(n: Net, greet: PeerID -> Message, host: PeerID, i: nat)
    requires Inv(n, greet, host) && Enabled(n, Deliver(i)) && n.wire[i].to == host
    ensures Inv(After(n, greet, host, Deliver(i)), greet, host)
  {
    var book := HostAnswers(n, greet, host, i);
    hide Sane, Answered, ListsAll, After, AllMeeting;
    AnswersKeepSane(Read(n, i), After(n, greet, host, Deliver(i)), greet, host, book);
    BookBringsTogether(Read(n, i), After(n, greet, host, Deliver(i)), greet, host, book);
  }

  lemma AnswersKeepSane(n: Net, n': Net, greet: PeerID -> Message, host: PeerID, book: seq<PeerAddr>)
    requires Sane(n, greet, host) && Answered(n, n', host, book)
    ensures Sane(n', greet, host)
  {
    hide RoomOK, Proper, HostSays;
  }

  // ---------- every interleaving ----------

  lemma MoveKeepsInv(n: Net, greet: PeerID -> Message, host: PeerID, m: Move)
    requires Inv(n, greet, host) && Enabled(n, m)
    ensures Inv(After(n, greet, host, m), greet, host)
  {
    hide Inv, After;
    match m
    case Join(who) => JoinKeepsInv(n, greet, host, who);
    case Deliver(i) =>
      if n.wire[i].to == host {
        HostGrowsTheMesh(n, greet, host, i);
      } else if n.wire[i].msg.Peers? {
        GuestGrowsTheMesh(n, greet, host, i);
      } else {
        GuestListens(n, greet, host, i);
      }
  }

  lemma {:induction false} RunKeepsInv(n: Net, greet: PeerID -> Message, host: PeerID, moves: seq<Move>)
    requires Inv(n, greet, host) && Possible(n, greet, host, moves)
    ensures Inv(Play(n, greet, host, moves), greet, host)
    decreases |moves|
  {
    hide Inv, After;
    if moves != [] {
      MoveKeepsInv(n, greet, host, moves[0]);
      RunKeepsInv(After(n, greet, host, moves[0]), greet, host, moves[1..]);
    }
  }

  /** A host alone in its room, whatever film and play state it starts with. */
  function Opened(host: RoomState): Net {
    Net(map[host.selfID := host], {}, [])
  }

  ghost predicate Opening(host: RoomState) {
    host.selfID != "" && host.isHost && host.hostPeer == host.selfID && host.peers == map[] && host.refused == map[]
  }

  /** Everybody is connected to everybody, and everybody knows everybody. */
  ghost predicate FullMesh(n: Net) {
    && (forall a, b | a in n.rooms && b in n.rooms && a != b :: (a, b) in n.links)
    && forall a | a in n.rooms :: n.rooms[a].peers.Keys == n.rooms.Keys - {a}
  }

  lemma QuietIsIntroduced(n: Net, greet: PeerID -> Message, a: PeerID, b: PeerID)
    requires AllIntroduced(n, greet) && n.wire == [] && (a, b) in n.links && b in n.rooms
    ensures a in n.rooms[b].peers
  {
    assert Introduced(n, greet, a, b);
  }

  lemma QuietIsFull(n: Net, greet: PeerID -> Message, host: PeerID)
    requires Inv(n, greet, host) && n.wire == []
    ensures FullMesh(n)
  {
    hide Meeting, WireOK, Proper, AllIntroduced;
    forall a, b | a in n.rooms && b in n.rooms && a != b ensures (a, b) in n.links {
      if a != host && b != host {
        assert (host, a) in n.links && (host, b) in n.links;
        QuietIsIntroduced(n, greet, a, host);
        QuietIsIntroduced(n, greet, b, host);
        NobodyTold(n, host, a, b);
      }
    }
    forall a | a in n.rooms ensures n.rooms[a].peers.Keys == n.rooms.Keys - {a} {
      assert RoomOK(n.rooms[a], a, n.links, host);
      forall b | b in n.rooms && b != a ensures b in n.rooms[a].peers { QuietIsIntroduced(n, greet, b, a); }
    }
  }

  lemma NobodyTold(n: Net, host: PeerID, a: PeerID, b: PeerID)
    requires n.wire == [] && Meeting(n, host, a, b)
    ensures (a, b) in n.links
  {
  }

  /** Whoever joins, in whatever order, and however the messages interleave: a
    * room in which nothing is on the wire is a full mesh with a complete roster
    * everywhere; and at no moment is anybody connected to itself. */
  lemma StarGrowsIntoAMesh(host: RoomState, greet: PeerID -> Message, moves: seq<Move>)
    requires Opening(host) && Proper(greet, host.selfID)
    requires Possible(Opened(host), greet, host.selfID, moves)
    ensures var end := Play(Opened(host), greet, host.selfID, moves);
      && (forall x :: (x, x) !in end.links)
      && (end.wire == [] ==> FullMesh(end))
  {
    hide After, Play, Possible, FullMesh;
    var n := Opened(host);
    OpenedIsInvariant(host, greet);
    RunKeepsInv(n, greet, host.selfID, moves);
    var end := Play(n, greet, host.selfID, moves);
    NoSelfLinks(end, greet, host.selfID);
    if end.wire == [] { QuietIsFull(end, greet, host.selfID); }
  }

  lemma OpenedIsInvariant(host: RoomState, greet: PeerID -> Message)
    requires Opening(host) && Proper(greet, host.selfID)
    ensures Inv(Opened(host), greet, host.selfID)
  {
    assert RoomOK(host, host.selfID, {}, host.selfID);
  }

  lemma NoSelfLinks(n: Net, greet: PeerID -> Message, host: PeerID)
    requires Inv(n, greet, host)
    ensures forall x :: (x, x) !in n.links
  {
  }

  // ---------- the wire always drains ----------

  function Unlinked(n: Net): set<(PeerID, PeerID)> {
    set a, b | a in n.rooms && b in n.rooms && a != b && (a, b) !in n.links :: (a, b)
  }

  function ToHost(wire: seq<Packet>, host: PeerID): nat {
    if wire == [] then 0
    else ToHost(wire[..|wire| - 1], host) + if wire[|wire| - 1].to == host then 1 else 0
  }

  lemma {:induction false} ToHostAdds(a: seq<Packet>, b: seq<Packet>, host: PeerID)
    ensures ToHost(a + b, host) == ToHost(a, host) + ToHost(b, host)
    decreases |b|
  {
    if b == [] {
      assert a + b == a;
    } else {
      assert (a + b)[..|a + b| - 1] == a + b[..|b| - 1];
      ToHostAdds(a, b[..|b| - 1], host);
    }
  }

  lemma {:induction false} NoneToHost(wire: seq<Packet>, host: PeerID)
    requires forall p | p in wire :: p.to != host
    ensures ToHost(wire, host) == 0
  {
    if wire != [] {
      assert wire[|wire| - 1] in wire && forall p | p in wire[..|wire| - 1] :: p in wire;
      NoneToHost(wire[..|wire| - 1], host);
    }
  }

  lemma ToHostWithout(wire: seq<Packet>, i: nat, host: PeerID)
    requires i < |wire|
    ensures ToHost(wire, host) == ToHost(Without(wire, i), host) + if wire[i].to == host then 1 else 0
  {
    assert wire == wire[..i] + ([wire[i]] + wire[i + 1..]);
    ToHostAdds(wire[..i], [wire[i]] + wire[i + 1..], host);
    ToHostAdds([wire[i]], wire[i + 1..], host);
    ToHostAdds(wire[..i], wire[i + 1..], host);
    assert [wire[i]][..0] == [];
  }

  /** Fewer pairs to connect; or as many, and fewer packets for the host; or as
    * many of both, and fewer packets. */
  ghost predicate Nearer(n': Net, n: Net, host: PeerID) {
    || Unlinked(n') < Unlinked(n)
    || (Unlinked(n') == Unlinked(n)
        && (ToHost(n'.wire, host) < ToHost(n.wire, host)
            || (ToHost(n'.wire, host) == ToHost(n.wire, host) && |n'.wire| < |n.wire|)))
  }

  lemma {:induction false} PerformKeepsToHost(n: Net, greet: PeerID -> Message, host: PeerID, effects: seq<Effect>)
    requires (host, host) !in n.links && forall e | e in effects :: !e.Hinted?
    ensures ToHost(Perform(n, greet, host, effects).wire, host) == ToHost(n.wire, host)
    decreases |effects|
  {
    if effects != [] {
      assert effects[0] in effects && forall e | e in effects[1..] :: e in effects;
      var e := effects[0];
      if e.Sent? {
        BroadcastReaches(n, host, e.msg);
        hide Broadcast;
        NoneToHost(Broadcast(n, host, e.msg), host);
        ToHostAdds(n.wire, Broadcast(n, host, e.msg), host);
        PerformKeepsToHost(n.(wire := n.wire + Broadcast(n, host, e.msg)), greet, host, effects[1..]);
      } else {
        PerformKeepsToHost(n, greet, host, effects[1..]);
      }
    }
  }

  lemma {:induction false} DialAllLinksOrIdles(n: Net, greet: PeerID -> Message, a: PeerID, book: seq<PeerAddr>)
    requires a in n.rooms && forall e | e in book :: e.peerID in n.rooms && e.peerID != a
    ensures var n' := DialAll(n, greet, a, book);
      n'.rooms == n.rooms && (n' == n || Unlinked(n') < Unlinked(n))
    decreases |book|
  {
    if book != [] {
      assert book[0] in book && forall e | e in book[1..] :: e in book;
      var b := book[0].peerID;
      var n1 := Dial(n, greet, a, b);
      if (a, b) !in n.links {
        assert (a, b) in Unlinked(n) && (a, b) !in Unlinked(n1);
        assert Unlinked(n1) <= Unlinked(n);
      }
      DialAllLinksOrIdles(n1, greet, a, book[1..]);
    }
  }

  lemma GreetingHintsNobody(r: RoomState, from: PeerID, m: Message)
    requires m.Hello?
    ensures forall e | e in OnHello(r, from, m).effects :: !e.Hinted?
  {
    hide AddressBook;
  }

  lemma HostProgress(n: Net, greet: PeerID -> Message, host: PeerID, i: nat)
    requires Sane(n, greet, host) && Enabled(n, Deliver(i)) && n.wire[i].to == host
    ensures Nearer(After(n, greet, host, Deliver(i)), n, host)
    ensures After(n, greet, host, Deliver(i)).rooms.Keys == n.rooms.Keys
  {
    HostAdmits(n, greet, host, i);
    var p, n1, n' := n.wire[i], Read(n, i), After(n, greet, host, Deliver(i));
    var o := Step(n.rooms[host], p.from, p.msg);
    hide Step, OnHello, RoomsOK, WireOK, AllIntroduced, Proper, Admits;
    GreetingHintsNobody(n.rooms[host], p.from, p.msg);
    hide Answer;
    PerformSends(n1, greet, host, o.effects);
    PerformKeepsToHost(n1, greet, host, o.effects);
    ToHostWithout(n.wire, i, host);
    hide Perform;
    assert n'.rooms.Keys == n.rooms.Keys && n'.links == n.links;
    assert Unlinked(n') == Unlinked(n);
  }

  lemma BookProgress(n: Net, greet: PeerID -> Message, host: PeerID, i: nat)
    requires Sane(n, greet, host) && Enabled(n, Deliver(i)) && n.wire[i].msg.Peers?
    ensures Nearer(After(n, greet, host, Deliver(i)), n, host)
    ensures After(n, greet, host, Deliver(i)).rooms.Keys == n.rooms.Keys
  {
    BookReader(n, greet, host, i);
    var p := n.wire[i];
    var r, n1 := n.rooms[p.to], Read(n, i);
    var unknown := FreshOf(r, p.msg.book);
    FreshOfSelects(r, p.msg.book);
    assert r.selfID == p.to by { assert RoomOK(r, p.to, n.links, host); }
    PerformHint(n1, greet, p.to, unknown);
    DialAllLinksOrIdles(n1, greet, p.to, unknown);
    hide Step, Sane, FreshOf, DialAll, Perform;
    assert After(n, greet, host, Deliver(i)) == DialAll(n1, greet, p.to, unknown);
    WithoutKeeps(n.wire, i);
    ToHostWithout(n.wire, i, host);
    assert Unlinked(n1) == Unlinked(n);
  }

  /** Every delivery brings the room nearer to silence, whichever is next. */
  lemma DeliveryProgress(n: Net, greet: PeerID -> Message, host: PeerID, i: nat)
    requires Inv(n, greet, host) && Enabled(n, Deliver(i))
    ensures Nearer(After(n, greet, host, Deliver(i)), n, host)
    ensures After(n, greet, host, Deliver(i)).rooms.Keys == n.rooms.Keys
  {
    if n.wire[i].to == host {
      HostProgress(n, greet, host, i);
    } else if n.wire[i].msg.Peers? {
      BookProgress(n, greet, host, i);
    } else {
      GuestListens(n, greet, host, i);
      hide Inv, After, Step;
      WithoutKeeps(n.wire, i);
      ToHostWithout(n.wire, i, host);
      assert Unlinked(Read(n, i)) == Unlinked(n);
    }
  }

  /** From every reachable state, delivering what is on the wire (here: always
    * the oldest packet) ends, and ends in a full mesh of the same members. */
  lemma {:induction false} WireDrains(n: Net, greet: PeerID -> Message, host: PeerID) returns (moves: seq<Move>)
    requires Inv(n, greet, host)
    ensures Possible(n, greet, host, moves) && forall m | m in moves :: m.Deliver?
    ensures var end := Play(n, greet, host, moves);
      Inv(end, greet, host) && end.wire == [] && FullMesh(end) && end.rooms.Keys == n.rooms.Keys
    decreases |Unlinked(n)|, ToHost(n.wire, host), |n.wire|
  {
    hide After, Inv, FullMesh, Unlinked, ToHost;
    if n.wire == [] {
      moves := [];
      QuietIsFull(n, greet, host);
    } else {
      var m := Deliver(0);
      OldestIsDeliverable(n, greet, host);
      DeliveryProgress(n, greet, host, 0);
      MoveKeepsInv(n, greet, host, m);
      var n' := After(n, greet, host, m);
      if Unlinked(n') < Unlinked(n) { SmallerSet(Unlinked(n'), Unlinked(n)); }
      var rest := WireDrains(n', greet, host);
      moves := [m] + rest;
      assert moves[1..] == rest;
    }
  }

  lemma OldestIsDeliverable(n: Net, greet: PeerID -> Message, host: PeerID)
    requires Inv(n, greet, host) && n.wire != []
    ensures Enabled(n, Deliver(0))
  {
    hide AllMeeting, AllIntroduced, RoomsOK;
    assert PacketOK(n.wire[0], n.rooms.Keys, n.links, greet, host);
  }

  lemma {:induction false} SmallerSet<T>(a: set<T>, b: set<T>)
    requires a < b
    ensures |a| < |b|
  {
    var x :| x in b && x !in a;
    assert a <= b - {x};
    SubsetIsNoLarger(a, b - {x});
  }

  lemma {:induction false} PlaysOn(n: Net, greet: PeerID -> Message, host: PeerID, a: seq<Move>, b: seq<Move>)
    requires Possible(n, greet, host, a) && Possible(Play(n, greet, host, a), greet, host, b)
    ensures Possible(n, greet, host, a + b)
        && Play(n, greet, host, a + b) == Play(Play(n, greet, host, a), greet, host, b)
    decreases |a|
  {
    hide After, Enabled;
    if a == [] {
      assert a + b == b;
    } else {
      assert (a + b)[0] == a[0] && (a + b)[1..] == a[1..] + b;
      PlaysOn(After(n, greet, host, a[0]), greet, host, a[1..], b);
    }
  }

  lemma JoinAdds(n: Net, greet: PeerID -> Message, host: PeerID, who: PeerID)
    requires who != "" && who !in n.rooms
    ensures Enabled(n, Join(who)) && After(n, greet, host, Join(who)).rooms.Keys == n.rooms.Keys + {who}
  {
  }

  lemma NoMoves(n: Net, greet: PeerID -> Message, host: PeerID)
    ensures Possible(n, greet, host, []) && Play(n, greet, host, []) == n
  {
  }

  lemma FirstMove(n: Net, greet: PeerID -> Message, host: PeerID, m: Move, rest: seq<Move>)
    requires Enabled(n, m) && Possible(After(n, greet, host, m), greet, host, rest)
    ensures Possible(n, greet, host, [m] + rest)
    ensures Play(n, greet, host, [m] + rest) == Play(After(n, greet, host, m), greet, host, rest)
  {
    assert ([m] + rest)[1..] == rest;
  }

  lemma {:induction false} AllJoin(n: Net, greet: PeerID -> Message, host: PeerID, members: set<PeerID>)
    returns (moves: seq<Move>)
    requires Inv(n, greet, host) && n.rooms.Keys <= members && "" !in members
    ensures Possible(n, greet, host, moves)
    ensures var end := Play(n, greet, host, moves); Inv(end, greet, host) && end.rooms.Keys == members
    decreases members - n.rooms.Keys
  {
    hide Inv, After, Possible, Play, Enabled;
    if members <= n.rooms.Keys {
      moves := [];
      NoMoves(n, greet, host);
    } else {
      var x :| x in members && x !in n.rooms.Keys;
      JoinAdds(n, greet, host, x);
      JoinKeepsInv(n, greet, host, x);
      var rest := AllJoin(After(n, greet, host, Join(x)), greet, host, members);
      moves := [Join(x)] + rest;
      FirstMove(n, greet, host, Join(x), rest);
    }
  }

  /** Any group of peers can meet at any host among them and fall silent, fully
    * connected. */
  lemma EveryRoomCanGrow(host: RoomState, greet: PeerID -> Message, members: set<PeerID>) returns (moves: seq<Move>)
    requires Opening(host) && Proper(greet, host.selfID) && host.selfID in members && "" !in members
    ensures Possible(Opened(host), greet, host.selfID, moves)
    ensures var end := Play(Opened(host), greet, host.selfID, moves);
      end.wire == [] && FullMesh(end) && end.rooms.Keys == members
  {
    hide Inv, After, FullMesh, Possible, Play;
    OpenedIsInvariant(host, greet);
    var joins := AllJoin(Opened(host), greet, host.selfID, members);
    var met := Play(Opened(host), greet, host.selfID, joins);
    var deliveries := WireDrains(met, greet, host.selfID);
    PlaysOn(Opened(host), greet, host.selfID, joins, deliveries);
    moves := joins + deliveries;
  }
}
