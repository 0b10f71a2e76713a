/** The room driver as the program runs it: one object whose fields the message
  * handlers update in place. Every handler is proved against the value-level
  * step of RoomModel; `emitted` is the log of everything the room sent or showed.
  */
module RoomDriver {
  import opened Wrappers
  import opened PeerOrder
  import opened Protocol
  import opened RoomModel

  class Room {
    const selfID: PeerID
    var isHost: bool
    var peers: map<PeerID, Peer>
    var hostPeer: PeerID
    var magnet: Option<Magnet>
    var refused: map<PeerID, int>
    var paused: bool
    var pausedKnown: bool
    var emitted: seq<Effect>

    /** The room's state as a value. */
    ghost function State(): RoomState
      reads this
    {
      RoomState(selfID, isHost, peers, hostPeer, magnet, refused, paused, pausedKnown)
    }

    constructor (selfID: PeerID, isHost: bool)
      ensures State() == NewRoom(selfID, isHost) && emitted == []
    {
      this.selfID := selfID;
      this.isHost := isHost;
      peers := map[];
      hostPeer := if isHost then selfID else "";
      magnet := None;
      refused := map[];
      paused, pausedKnown := false, false;
      emitted := [];
    }

    /** Some member other than this one says it ran out of data. The roster is
      * walked in arbitrary order. */
    method AnyoneBuffering() returns (someone: bool)
      ensures someone <==> exists id :: id in peers && peers[id].buffering
    {
      var todo := peers.Keys;
      while todo != {}
        invariant todo <= peers.Keys
        invariant forall id | id in peers && id !in todo :: !peers[id].buffering
        decreases |todo|
      {
        var id :| id in todo;
        if peers[id].buffering { return true; }
        todo := todo - {id};
      }
      return false;
    }

    method Emit(e: Effect)
      modifies this`emitted
      ensures emitted == old(emitted) + [e]
    {
      emitted := emitted + [e];
    }

    /** The smallest identifier among the roster and this peer itself, however
      * the roster happens to be listed. */
    method FindTakeoverWinner() returns (winner: PeerID)
      ensures winner == TakeoverWinner(State())
    {
      var ids := [selfID];
      var todo := peers.Keys;
      while todo != {}
        invariant todo <= peers.Keys
        invariant forall id :: id in ids <==> id == selfID || (id in peers && id !in todo)
        decreases |todo|
      {
        var id :| id in todo;
        ids, todo := ids + [id], todo - {id};
      }
      assert (set id | id in ids) == View(State());
      TakeoverHostDependsOnlyOnTheSet(ids, View(State()));
      winner := TakeoverHost(ids);
    }

    /** Collects the reachable members in arbitrary order, then sorts. */
    method CollectAddressBook() returns (book: seq<PeerAddr>)
      ensures book == AddressBook(peers)
    {
      book := [];
      var todo := peers.Keys;
      while todo != {}
        invariant todo <= peers.Keys
        invariant forall e :: e in book <==>
                    && e.peerID in peers && e.peerID in Reachable(peers)
                    && e.peerID !in todo && e == Entry(peers, e.peerID)
        invariant Distinct(book)
        decreases |todo|
      {
        var id :| id in todo;
        todo := todo - {id};
        if |peers[id].addrs| != 0 {
          book := book + [PeerAddr(id, peers[id].addrs)];
        }
      }
      ghost var collected := book;
      assert ListsReachable(peers, collected);
      book := SortOn((e: PeerAddr) => e.peerID, book);
      SortedBookIsTheBook(peers, collected, book);
    }

    method RememberPause(value: bool)
      modifies this`paused, this`pausedKnown
      ensures State() == old(State()).(paused := value, pausedKnown := true)
    {
      paused, pausedKnown := value, true;
    }

    // ---------- commands of the local participant ----------

    method Play()
      modifies this
      ensures State() == old(State()).(paused := false, pausedKnown := true)
      ensures emitted == old(emitted) + [Sent(Pause(false))]
    {
      RememberPause(false);
      Emit(Sent(Pause(false)));
    }

    method PauseRoom()
      modifies this
      ensures State() == old(State()).(paused := true, pausedKnown := true)
      ensures emitted == old(emitted) + [Sent(Pause(true))]
    {
      RememberPause(true);
      Emit(Sent(Pause(true)));
    }

    method AnnounceMagnet(m: Magnet)
      modifies this
      ensures State() == old(State()).(magnet := Some(m))
      ensures emitted == old(emitted) + [Sent(Film(m))]
    {
      magnet := Some(m);
      Emit(Sent(Film(m)));
    }

    // ---------- messages of the others ----------

    method Handle(from: PeerID, msg: Message)
      modifies this
      ensures State() == Step(old(State()), from, msg).room
      ensures emitted == old(emitted) + Step(old(State()), from, msg).effects
    {
      if !msg.Hello? && from in refused {
        return;
      }
      match msg
      case Hello(_, _, _, _, _, _) => HandleHello(from, msg);
      case Film(m) => HandleFilm(from, m);
      case Pause(p) =>
        if ShouldFollow(from, hostPeer) {
          RememberPause(p);
          Emit(PauseShown(p));
        }
      case Position(seconds) =>
        if ShouldFollow(from, hostPeer) {
          Emit(SeekShown(seconds));
        }
      case Buffering(b) =>
        if from in peers {
          peers := peers[from := peers[from].(buffering := b)];
        }
        Emit(BufferingShown(from, b));
      case Host(host) => HandleHost(from, host);
      case Bye(_) => HandleBye(from);
      case Peers(book) => HandlePeers(book);
    }

    method HandleHello(from: PeerID, m: Message)
      requires m.Hello?
      modifies this
      ensures State() == OnHello(old(State()), from, m).room
      ensures emitted == old(emitted) + OnHello(old(State()), from, m).effects
    {
      var version := SpokenVersion(m.version);
      if version > PROTOCOL_VERSION {
        var already := from in refused;
        refused := refused[from := version];
        if !already {
          Emit(RefusalShown(from, version));
        }
        return;
      }
      if from in refused {
        return;
      }
      peers := peers[from := Peer(from, m.userID, m.username, m.claimsHost, false, m.addrs, version)];
      if m.claimsHost {
        hostPeer := from;
      }
      var book := CollectAddressBook();
      ghost var shown := [RosterShown(peers)] + if m.claimsHost then [HostShown(from)] else [];
      Emit(RosterShown(peers));
      if m.claimsHost {
        Emit(HostShown(from));
      }
      assert emitted == old(emitted) + shown;
      if isHost {
        AnswerNewcomer(book);
        ConcatAssociates(old(emitted), shown, Answer(State()));
      }
    }

    /** The room's state and its address book, for whoever just arrived. */
    method AnswerNewcomer(book: seq<PeerAddr>)
      requires book == AddressBook(peers)
      modifies this`emitted
      ensures emitted == old(emitted) + Answer(State())
    {
      if magnet.Some? {
        Emit(Sent(Film(magnet.value)));
      }
      Emit(Sent(Host(selfID)));
      if pausedKnown {
        Emit(Sent(Pause(paused)));
      }
      if |book| > 0 {
        Emit(Sent(Peers(book)));
      }
    }

    method HandleFilm(from: PeerID, m: Magnet)
      modifies this
      ensures State() == OnFilm(old(State()), from, m).room
      ensures emitted == old(emitted) + OnFilm(old(State()), from, m).effects
    {
      if hostPeer == "" {
        hostPeer := from;
      }
      var follow := from == hostPeer;
      magnet := Some(m);
      if follow {
        Emit(FilmShown(m));
      }
    }

    method HandleHost(from: PeerID, host: PeerID)
      modifies this
      ensures State() == OnHost(old(State()), from, host).room
      ensures emitted == old(emitted) + OnHost(old(State()), from, host).effects
    {
      var believable := false;
      if host == from {
        var winner := FindTakeoverWinner();
        believable := from == winner;
      } else if from == hostPeer {
        believable := true;
      }
      if !believable {
        return;
      }
      hostPeer := host;
      MarkHost(host);
      isHost := host == selfID;
      Emit(RosterShown(peers));
      Emit(HostShown(host));
    }

    /** The roster's host flags follow the role: one flag, on the named peer. */
    method MarkHost(host: PeerID)
      modifies this`peers
      ensures peers == Crowned(old(peers), host)
    {
      var todo := peers.Keys;
      while todo != {}
        invariant todo <= peers.Keys == old(peers).Keys
        invariant forall id | id in peers ::
          peers[id] == if id in todo then old(peers)[id] else old(peers)[id].(isHost := id == host)
        decreases |todo|
      {
        var id :| id in todo;
        peers := peers[id := peers[id].(isHost := id == host)];
        todo := todo - {id};
      }
    }

    method HandleBye(from: PeerID)
      modifies this
      ensures State() == OnBye(old(State()), from).room
      ensures emitted == old(emitted) + OnBye(old(State()), from).effects
    {
      var known := from in peers;
      peers := peers - {from};
      var wasHost := from == hostPeer;
      if wasHost {
        hostPeer := "";
      }
      if known {
        Emit(RosterShown(peers));
      }
      if !wasHost {
        return;
      }
      var winner := FindTakeoverWinner();
      hostPeer := winner;
      if winner == selfID {
        isHost := true;
      }
      if winner == selfID {
        Emit(Sent(Host(winner)));
      }
      Emit(RosterShown(peers));
      Emit(HostShown(winner));
    }

    method HandlePeers(book: seq<PeerAddr>)
      modifies this`emitted
      ensures State() == OnPeers(old(State()), book).room
      ensures emitted == old(emitted) + OnPeers(old(State()), book).effects
    {
      var unknown: seq<PeerAddr> := [];
      for i := 0 to |book|
        invariant unknown == FreshOf(State(), book[..i])
      {
        var p := book[i];
        assert book[..i + 1][..i] == book[..i];
        if p.peerID == selfID {
          continue;
        }
        if p.peerID in peers {
          continue;
        }
        if |p.addrs| == 0 {
          continue;
        }
        unknown := unknown + [p];
      }
      assert book[..|book|] == book;
      if |unknown| == 0 {
        return;
      }
      Emit(Hinted(unknown));
    }
  }

  lemma ConcatAssociates<T>(a: seq<T>, b: seq<T>, c: seq<T>)
    ensures (a + b) + c == a + (b + c)
  {
  }

  function IDs(book: seq<PeerAddr>): seq<PeerID> {
    seq(|book|, i requires 0 <= i < |book| => book[i].peerID)
  }

  /** The entries are those of the reachable members, each with its own addresses. */
  ghost predicate ListsReachable(peers: map<PeerID, Peer>, book: seq<PeerAddr>) {
    && (forall e | e in book :: e.peerID in Reachable(peers) && e == Entry(peers, e.peerID))
    && (forall id | id in Reachable(peers) :: Entry(peers, id) in book)
  }

  lemma SortedIDsEnumerate(peers: map<PeerID, Peer>, book: seq<PeerAddr>)
    requires ListsReachable(peers, book) && Distinct(book)
    requires Ascending((e: PeerAddr) => e.peerID, book)
    ensures Enumerates(IDs(book), Reachable(peers))
  {
    var ids, key := IDs(book), (e: PeerAddr) => e.peerID;
    forall x | x in Reachable(peers) ensures x in ids {
      var i :| 0 <= i < |book| && book[i] == Entry(peers, x);
      assert ids[i] == x;
    }
    forall i, j | 0 <= i < j < |ids| ensures ids[i] != ids[j] && Leq(ids[i], ids[j]) {
      assert Leq(key(book[i]), key(book[j]));
      assert book[i] in book && book[j] in book && book[i] != book[j];
    }
    forall i | 0 <= i < |ids| ensures ids[i] in Reachable(peers) {
      assert book[i] in book;
    }
  }

  /** Sorting the collected entries gives the one ascending address book. */
  lemma SortedBookIsTheBook(peers: map<PeerID, Peer>, collected: seq<PeerAddr>, book: seq<PeerAddr>)
    requires ListsReachable(peers, collected) && Distinct(collected)
    requires book == SortOn((e: PeerAddr) => e.peerID, collected)
    ensures book == AddressBook(peers)
  {
    SortOnKeeps((e: PeerAddr) => e.peerID, collected);
    SortedIDsEnumerate(peers, book);
    EnumerationUnique(IDs(book), Reachable(peers));
    forall i | 0 <= i < |book| ensures book[i] == Entry(peers, IDs(book)[i]) {
      assert book[i] in book;
    }
  }
}
