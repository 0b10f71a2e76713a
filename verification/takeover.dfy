/** Host takeover across a whole room: every member runs its own driver, and the
  * messages reach each of them in its own order, any number of times.
  */
module Takeover {
  import opened PeerOrder
  import opened Protocol
  import opened RoomModel
  import MeshGrowth

  /** `gone` have left. `announced` are the peers that ever broadcast themselves
    * as host: those broadcasts may reach anyone, late and repeatedly. */
  datatype World = World(rooms: map<PeerID, RoomState>, gone: set<PeerID>, announced: set<PeerID>)

  datatype Move =
    | Leave(who: PeerID)
    | HearBye(at: PeerID, who: PeerID)
    | HearHost(at: PeerID, who: PeerID)
    | HearChatter(at: PeerID, who: PeerID, msg: Message)

  function Living(w: World): set<PeerID> {
    w.rooms.Keys - w.gone
  }

  predicate IsChatter(m: Message) {
    !m.Hello? && !m.Host? && !m.Bye?
  }

  ghost predicate Enabled(w: World, m: Move) {
    match m
    case Leave(who) => who in Living(w)
    case HearBye(at, who) => at in Living(w) && who in w.gone
    case HearHost(at, who) => at in Living(w) && who in w.announced && who != at
    case HearChatter(at, who, msg) => at in Living(w) && who in w.rooms && who != at && IsChatter(msg)
  }

  /** A room hears a message; if it broadcasts itself as host, that is in the air. */
  ghost function Heard(w: World, at: PeerID, from: PeerID, msg: Message): World
    requires at in w.rooms
  {
    var o := Step(w.rooms[at], from, msg);
    w.(rooms := w.rooms[at := o.room],
       announced := w.announced + if Sent(Host(at)) in o.effects then {at} else {})
  }

  ghost function After(w: World, m: Move): World
    requires Enabled(w, m)
  {
    match m
    case Leave(who) => w.(gone := w.gone + {who})
    case HearBye(at, who) => Heard(w, at, who, Bye(who))
    case HearHost(at, who) => Heard(w, at, who, Host(who))
    case HearChatter(at, who, msg) => Heard(w, at, who, msg)
  }

  ghost predicate Possible(w: World, moves: seq<Move>)
    decreases |moves|
  {
    moves != [] ==> Enabled(w, moves[0]) && Possible(After(w, moves[0]), moves[1..])
  }

  ghost function Play(w: World, moves: seq<Move>): World
    requires Possible(w, moves)
    decreases |moves|
  {
    if moves == [] then w else Play(After(w, moves[0]), moves[1..])
  }

  /** Everybody is here, knows everybody else, and follows `host`, who holds the
    * role; no member was refused; only `host` may have announced itself so far. */
  ghost predicate Settled(w: World, host: PeerID) {
    && host in w.rooms && w.gone == {} && w.announced <= {host} && "" !in w.rooms
    && forall i | i in w.rooms ::
      var r := w.rooms[i];
      r.selfID == i && r.peers.Keys == w.rooms.Keys - {i} && r.refused.Keys !! w.rooms.Keys
      && r.hostPeer == host && (r.isHost <==> i == host)
  }

  /** What one member believes: it follows somebody it can see, namely the first
    * host or the smallest identifier it can see, and it holds the role exactly
    * when it follows itself. */
  ghost predicate Sound(r: RoomState, i: PeerID, members: set<PeerID>, host: PeerID) {
    && r.selfID == i && i !in r.peers && r.refused.Keys !! members && "" !in View(r)
    && r.hostPeer in View(r)
    && (r.hostPeer == host || r.hostPeer == Least(View(r)))
    && (r.isHost <==> r.hostPeer == i)
  }

  ghost predicate Inv(w: World, members: set<PeerID>, host: PeerID) {
    && w.rooms.Keys == members && host in members && w.gone <= members && w.announced <= members
    && (forall i | i in Living(w) :: Sound(w.rooms[i], i, members, host) && Living(w) <= View(w.rooms[i]) <= members)
    && (host !in w.gone ==> w.announced <= {host} && forall i | i in Living(w) :: w.rooms[i].hostPeer == host)
    && (forall i | i in Living(w) && w.rooms[i].isHost && i != host :: i in w.announced)
  }

  // ---------- one room ----------

  lemma LeastOfFewer(s: set<PeerID>, t: set<PeerID>)
    requires t <= s && s != {} && Least(s) in t
    ensures t != {} && Least(t) == Least(s)
  {
    LeastUnique(Least(s), t);
  }

  /** Departures and self-announcements keep a member's belief sound, whoever
    * sends them and however often; no departed host is believed back. */
  lemma SoundStep(r: RoomState, i: PeerID, members: set<PeerID>, host: PeerID, from: PeerID, msg: Message)
    requires Sound(r, i, members, host) && from != i && from in members
    requires msg == Bye(from) || msg == Host(from) || IsChatter(msg)
    ensures var s := Step(r, from, msg).room;
      && Sound(s, i, members, host)
      && View(s) == (if msg.Bye? then View(r) - {from} else View(r))
      && (msg.Bye? && from != r.hostPeer ==> s.hostPeer == r.hostPeer)
      && (IsChatter(msg) ==> s.hostPeer == r.hostPeer)
      && (msg == Host(from) ==> s.hostPeer in {r.hostPeer, from})
  {
    hide Step;
    StepMovesRole(r, from, msg);
    StepRefuses(r, from, msg);
    var s := Step(r, from, msg).room;
    if msg.Bye? {
      assert View(s) == View(r) - {from};
      assert Survivors(r, from) == View(s);
      if from != r.hostPeer && r.hostPeer == Least(View(r)) {
        LeastOfFewer(View(r), View(s));
      }
    } else {
      assert View(s) == View(r);
    }
  }

  /** Only a bye of the followed host makes a member announce itself. */
  lemma AnnouncesOnlyWhenLeft(r: RoomState, i: PeerID, from: PeerID, msg: Message)
    requires r.selfID == i && Sent(Host(i)) in Step(r, from, msg).effects
    requires msg == Bye(from) || msg == Host(from) || IsChatter(msg)
    ensures msg == Bye(from) && from == r.hostPeer
  {
    hide FreshOf, Crowned, Believable;
  }

  /** Whoever takes the role on a message announces itself with it. */
  lemma TakingIsAnnounced(r: RoomState, i: PeerID, from: PeerID, msg: Message)
    requires r.selfID == i && from != i && !r.isHost && Step(r, from, msg).room.isHost
    requires msg == Bye(from) || msg == Host(from) || IsChatter(msg)
    ensures Sent(Host(i)) in Step(r, from, msg).effects
  {
    hide FreshOf, Crowned, Believable, TakeoverWinner;
  }

  // ---------- the whole room ----------

  lemma SettledIsSound(w: World, host: PeerID, i: PeerID)
    requires Settled(w, host) && i in w.rooms
    ensures Sound(w.rooms[i], i, w.rooms.Keys, host) && View(w.rooms[i]) == w.rooms.Keys
  {
    hide Least;
    assert View(w.rooms[i]) == w.rooms.Keys;
  }

  lemma SettledIsInvariant(w: World, host: PeerID)
    requires Settled(w, host)
    ensures Inv(w, w.rooms.Keys, host)
  {
    hide Sound;
    forall i | i in Living(w) ensures Sound(w.rooms[i], i, w.rooms.Keys, host) && View(w.rooms[i]) == w.rooms.Keys {
      SettledIsSound(w, host, i);
    }
  }

  lemma HeardKeepsInv(w: World, members: set<PeerID>, host: PeerID, at: PeerID, from: PeerID, msg: Message)
    requires Inv(w, members, host) && at in Living(w) && from != at
    requires (msg == Bye(from) && from in w.gone) || (msg == Host(from) && from in w.announced)
             || (from in members && IsChatter(msg))
    ensures Inv(Heard(w, at, from, msg), members, host)
  {
    hide Step;
    var w' := Heard(w, at, from, msg);
    SoundStep(w.rooms[at], at, members, host, from, msg);
    if Sent(Host(at)) in Step(w.rooms[at], from, msg).effects {
      AnnouncesOnlyWhenLeft(w.rooms[at], at, from, msg);
    } else if !w.rooms[at].isHost && w'.rooms[at].isHost {
      TakingIsAnnounced(w.rooms[at], at, from, msg);
    }
    assert Living(w') == Living(w);
    forall i | i in Living(w')
      ensures Sound(w'.rooms[i], i, members, host) && Living(w') <= View(w'.rooms[i]) <= members
    {
      if i != at { assert w'.rooms[i] == w.rooms[i]; }
    }
  }

  lemma MoveKeepsInv(w: World, members: set<PeerID>, host: PeerID, m: Move)
    requires Inv(w, members, host) && Enabled(w, m)
    ensures Inv(After(w, m), members, host)
  {
    hide Step;
    match m
    case Leave(who) =>
    case HearBye(at, who) => HeardKeepsInv(w, members, host, at, who, Bye(who));
    case HearHost(at, who) => HeardKeepsInv(w, members, host, at, who, Host(who));
    case HearChatter(at, who, msg) => HeardKeepsInv(w, members, host, at, who, msg);
  }

  lemma {:induction false} RunKeepsInv(w: World, members: set<PeerID>, host: PeerID, moves: seq<Move>)
    requires Inv(w, members, host) && Possible(w, moves)
    ensures Inv(Play(w, moves), members, host)
    decreases |moves|
  {
    if moves != [] {
      MoveKeepsInv(w, members, host, moves[0]);
      RunKeepsInv(After(w, moves[0]), members, host, moves[1..]);
    }
  }

  /** Every survivor has processed every departure. */
  ghost predicate AllHeard(w: World) {
    forall i | i in Living(w) :: View(w.rooms[i]) == Living(w)
  }

  /** All survivors name one living host, and it is the only one with the role. */
  ghost predicate OneHost(w: World, host: PeerID) {
    && host in Living(w)
    && forall i | i in Living(w) :: w.rooms[i].hostPeer == host && (w.rooms[i].isHost <==> i == host)
  }

  ghost function Successor(w: World, host: PeerID): PeerID
    requires Living(w) != {}
  {
    if host in w.gone then Least(Living(w)) else host
  }

  lemma MemberAgrees(w: World, members: set<PeerID>, host: PeerID, i: PeerID)
    requires Inv(w, members, host) && i in Living(w) && AllHeard(w)
    ensures var h := Successor(w, host);
      h in Living(w) && w.rooms[i].hostPeer == h && (w.rooms[i].isHost <==> i == h)
  {
    assert Sound(w.rooms[i], i, members, host) && View(w.rooms[i]) == Living(w);
  }

  lemma AllHeardIsAgreement(w: World, members: set<PeerID>, host: PeerID)
    requires Inv(w, members, host) && Living(w) != {} && AllHeard(w)
    ensures OneHost(w, Successor(w, host))
  {
    hide Sound, Least, View;
    var i :| i in Living(w);
    MemberAgrees(w, members, host, i);
    forall i | i in Living(w)
      ensures w.rooms[i].hostPeer == Successor(w, host) && (w.rooms[i].isHost <==> i == Successor(w, host))
    {
      MemberAgrees(w, members, host, i);
    }
  }

  /** In every interleaving each member follows a visible peer, the first host or
    * the smallest it sees; and once the survivors have processed the same
    * departures they agree on one host: the first one while it lives, and else
    * the smallest survivor. */
  lemma TakeoverConverges(w: World, host: PeerID, moves: seq<Move>)
    requires Settled(w, host) && Possible(w, moves)
    ensures var end := Play(w, moves);
      && end.rooms.Keys == w.rooms.Keys
      && (forall i | i in Living(end) :: Sound(end.rooms[i], i, w.rooms.Keys, host))
      && (Living(end) != {} && AllHeard(end) ==> OneHost(end, Successor(end, host)))
  {
    hide After, Enabled, Play, Possible;
    SettledIsInvariant(w, host);
    RunKeepsInv(w, w.rooms.Keys, host, moves);
    var end := Play(w, moves);
    if Living(end) != {} && AllHeard(end) {
      AllHeardIsAgreement(end, w.rooms.Keys, host);
    }
  }

  /** In every interleaving each member that took the role over has announced it: all
    * the others can come to hear of it. */
  lemma TakeoversAreAnnounced(w: World, host: PeerID, moves: seq<Move>)
    requires Settled(w, host) && Possible(w, moves)
    ensures var end := Play(w, moves);
      forall i | i in Living(end) && end.rooms[i].isHost && i != host :: i in end.announced
  {
    hide After, Enabled, Play, Possible;
    SettledIsInvariant(w, host);
    RunKeepsInv(w, w.rooms.Keys, host, moves);
  }

  // ---------- the departures can always be processed ----------

  lemma ByeIsHeard(w: World, members: set<PeerID>, host: PeerID, at: PeerID, who: PeerID)
    requires Inv(w, members, host) && Enabled(w, HearBye(at, who))
    ensures var w' := After(w, HearBye(at, who));
      && w'.rooms.Keys == w.rooms.Keys && w'.gone == w.gone
      && View(w'.rooms[at]) == View(w.rooms[at]) - {who}
      && forall i | i in w.rooms && i != at :: w'.rooms[i] == w.rooms[i]
  {
    hide Step;
    SoundStep(w.rooms[at], at, members, host, who, Bye(who));
  }

  /** The departures in `pending` are all that is left to hear. */
  ghost predicate Outstanding(w: World, pending: set<(PeerID, PeerID)>) {
    && (forall p | p in pending :: p.0 in Living(w) && p.1 in w.gone)
    && (forall i, d | i in Living(w) && d in w.gone && d in View(w.rooms[i]) :: (i, d) in pending)
  }

  ghost function Pending(w: World): (pending: set<(PeerID, PeerID)>)
    ensures Outstanding(w, pending)
  {
    set i, d | i in Living(w) && d in w.gone :: (i, d)
  }

  lemma NothingOutstanding(w: World, members: set<PeerID>, host: PeerID)
    requires Inv(w, members, host) && Outstanding(w, {})
    ensures AllHeard(w)
  {
    hide Sound;
    forall i | i in Living(w) ensures View(w.rooms[i]) == Living(w) {
      forall d | d in View(w.rooms[i]) ensures d in Living(w) {
      }
    }
  }

  lemma OneLessOutstanding(w: World, members: set<PeerID>, host: PeerID, pending: set<(PeerID, PeerID)>,
                           p: (PeerID, PeerID))
    requires Inv(w, members, host) && Outstanding(w, pending) && p in pending
    ensures Enabled(w, HearBye(p.0, p.1))
    ensures var w' := After(w, HearBye(p.0, p.1)); Living(w') == Living(w) && Outstanding(w', pending - {p})
  {
    hide After, Sound;
    ByeIsHeard(w, members, host, p.0, p.1);
    var w' := After(w, HearBye(p.0, p.1));
    forall i, d | i in Living(w') && d in w'.gone && d in View(w'.rooms[i]) ensures (i, d) in pending - {p} {
      if i != p.0 { assert w'.rooms[i] == w.rooms[i]; }
    }
  }

  /** Hear every outstanding bye, in some order. */
  lemma {:induction false} DrainFrom(w: World, members: set<PeerID>, host: PeerID, pending: set<(PeerID, PeerID)>)
    returns (moves: seq<Move>)
    requires Inv(w, members, host) && Outstanding(w, pending)
    ensures Possible(w, moves) && AllHeard(Play(w, moves)) && Living(Play(w, moves)) == Living(w)
    decreases |pending|
  {
    hide After, Enabled, Inv, Outstanding;
    if pending == {} {
      moves := [];
      NothingOutstanding(w, members, host);
    } else {
      var p :| p in pending;
      var m := HearBye(p.0, p.1);
      OneLessOutstanding(w, members, host, pending, p);
      MoveKeepsInv(w, members, host, m);
      var rest := DrainFrom(After(w, m), members, host, pending - {p});
      moves := [m] + rest;
      assert moves[1..] == rest;
    }
  }

  /** From every reachable state the survivors reach agreement by hearing nothing
    * but the departures they have not processed. */
  lemma AgreementIsReachable(w: World, host: PeerID, moves: seq<Move>) returns (more: seq<Move>)
    requires Settled(w, host) && Possible(w, moves) && Living(Play(w, moves)) != {}
    ensures var mid := Play(w, moves);
      && Possible(mid, more)
      && Living(Play(mid, more)) == Living(mid)
      && OneHost(Play(mid, more), Successor(Play(mid, more), host))
  {
    hide After, Enabled, Play, Possible, OneHost, Successor, Inv;
    SettledIsInvariant(w, host);
    RunKeepsInv(w, w.rooms.Keys, host, moves);
    var mid := Play(w, moves);
    more := DrainFrom(mid, w.rooms.Keys, host, Pending(mid));
    RunKeepsInv(mid, w.rooms.Keys, host, more);
    AllHeardIsAgreement(Play(mid, more), w.rooms.Keys, host);
  }

  // ---------- where such a run starts ----------

  /** A room grown from a star, once nothing is on the wire. */
  ghost function Grown(n: MeshGrowth.Net, host: PeerID): World {
    World(n.rooms, {}, {host})
  }

  /** However a room grew, once it is silent it is where a takeover run starts. */
  lemma GrownRoomIsSettled(host: RoomState, greet: PeerID -> Message, moves: seq<MeshGrowth.Move>)
    requires MeshGrowth.Opening(host) && MeshGrowth.Proper(greet, host.selfID)
    requires MeshGrowth.Possible(MeshGrowth.Opened(host), greet, host.selfID, moves)
    requires MeshGrowth.Play(MeshGrowth.Opened(host), greet, host.selfID, moves).wire == []
    ensures Settled(Grown(MeshGrowth.Play(MeshGrowth.Opened(host), greet, host.selfID, moves), host.selfID),
        host.selfID)
  {
    hide MeshGrowth.After, MeshGrowth.Play, MeshGrowth.Possible, MeshGrowth.AllMeeting, MeshGrowth.WireOK,
         MeshGrowth.AllIntroduced, MeshGrowth.LinksOK;
    MeshGrowth.StarGrowsIntoAMesh(host, greet, moves);
    MeshGrowth.OpenedIsInvariant(host, greet);
    MeshGrowth.RunKeepsInv(MeshGrowth.Opened(host), greet, host.selfID, moves);
    var end := MeshGrowth.Play(MeshGrowth.Opened(host), greet, host.selfID, moves);
    forall i | i in end.rooms ensures MeshGrowth.RoomOK(end.rooms[i], i, end.links, host.selfID) {
    }
  }

  /** Any group of peers can settle under any host among them, from nothing but
    * joins and deliveries. */
  lemma EveryRoomCanSettle(members: set<PeerID>, host: PeerID, greet: PeerID -> Message)
    returns (moves: seq<MeshGrowth.Move>)
    requires host in members && "" !in members && MeshGrowth.Proper(greet, host)
    ensures MeshGrowth.Possible(MeshGrowth.Opened(NewRoom(host, true)), greet, host, moves)
    ensures var w := Grown(MeshGrowth.Play(MeshGrowth.Opened(NewRoom(host, true)), greet, host, moves), host);
      Settled(w, host) && w.rooms.Keys == members
  {
    hide MeshGrowth.Possible, MeshGrowth.Play, Settled, MeshGrowth.Proper;
    moves := MeshGrowth.EveryRoomCanGrow(NewRoom(host, true), greet, members);
    GrownRoomIsSettled(NewRoom(host, true), greet, moves);
  }
}
