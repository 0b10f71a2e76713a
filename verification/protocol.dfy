/** The messages that travel the room, and the two rules that decide whose
  * commands count.
  */
module Protocol {
  import opened PeerOrder

  /** The protocol this build speaks. */
  const PROTOCOL_VERSION := 2

  /** The protocol of a greeting that names no version. */
  const PROTOCOL_VERSION_LEGACY := 1

  datatype Magnet = Magnet(magnetURI: string, infoHash: string, selectedFile: int, name: string)

  /** One entry of the address book. */
  datatype PeerAddr = PeerAddr(peerID: PeerID, addrs: seq<string>)

  datatype Message =
    | Hello(peerID: PeerID, userID: string, username: string, claimsHost: bool, addrs: seq<string>, version: int)
    | Film(magnet: Magnet)
    | Pause(paused: bool)
    | Position(seconds: real)
    | Buffering(buffering: bool)
    | Host(hostID: PeerID)
    | Bye(leaving: PeerID)
    | Peers(book: seq<PeerAddr>)

  /** A greeting as this build sends it: the version is filled in here. */
  function NewHello(peerID: PeerID, userID: string, username: string, claimsHost: bool, addrs: seq<string>): Message {
    Hello(peerID, userID, username, claimsHost, addrs, PROTOCOL_VERSION)
  }

  /** The version a greeting speaks: a missing number means the legacy protocol. */
  function SpokenVersion(version: int): int {
    if version == 0 then PROTOCOL_VERSION_LEGACY else version
  }

  /** Playback commands count only from the host. */
  predicate ShouldFollow(from: PeerID, hostPeer: PeerID) {
    from != "" && from == hostPeer
  }

  /** The new host when the old one is gone: sort a copy, take the first. */
  function TakeoverHost(ids: seq<PeerID>): (host: PeerID)
    ensures ids == [] ==> host == ""
    ensures ids != [] ==> host in ids && forall id | id in ids :: Leq(host, id)
  {
    if ids == [] then ""
    else
      var sorted := SortOn((id: PeerID) => id, ids);
      assert |sorted| > 0 by { assert ids[0] in multiset(sorted); }
      assert sorted[0] in ids by { assert sorted[0] in multiset(sorted); }
      assert forall id | id in ids :: Leq(sorted[0], id) by {
        forall id | id in ids ensures Leq(sorted[0], id) {
          assert id in multiset(sorted);
          var i :| 0 <= i < |sorted| && sorted[i] == id;
          if i == 0 { LeqReflexive(id); }
        }
      }
      sorted[0]
  }

  /** Everyone who sees the same peers names the same host, in whatever order
    * (and however often) the identifiers were listed. */
  lemma TakeoverHostDependsOnlyOnTheSet(ids: seq<PeerID>, s: set<PeerID>)
    requires s != {} && s == set id | id in ids
    ensures TakeoverHost(ids) == Least(s)
  {
    assert ids != [];
    LeastUnique(TakeoverHost(ids), s);
  }
}
