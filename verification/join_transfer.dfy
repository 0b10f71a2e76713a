/** Joining: what a newcomer knows once it has heard the host's greeting and the
  * host's answer to its own greeting, however the two were interleaved with each
  * other and with what the other members say.
  */
module JoinTransfer {
  import opened Wrappers
  import opened PeerOrder
  import opened Protocol
  import opened RoomModel
  import opened RoomRuns

  /** The broadcasts among a room's effects, in order. */
  function Sends(effects: seq<Effect>): seq<Message> {
    if effects == [] then []
    else (if effects[0].Sent? then [effects[0].msg] else []) + Sends(effects[1..])
  }

  /** What the newcomer hears from the host, in order. */
  function HostPart(events: seq<Event>, host: PeerID): seq<Message> {
    if events == [] then []
    else
      var n := |events| - 1;
      HostPart(events[..n], host)
      + (if events[n].Heard? && events[n].from == host then [events[n].msg] else [])
  }

  /** What a member that does not host can say. */
  predicate MemberSays(m: Message) {
    !m.Film? && !m.Host? && (m.Hello? ==> !m.claimsHost)
  }

  /** The newcomer hears the host and ordinary members, and presses nothing. */
  predicate OnlyRoomTraffic(events: seq<Event>, self: PeerID, host: PeerID) {
    forall e | e in events ::
      e.Heard? && e.from != "" && e.from != self && (e.from == host || MemberSays(e.msg))
  }

  // ---------- what the host's messages alone decide ----------

  /** What the host taught a newcomer: whether it greeted, whether the newcomer
    * follows it, its film and its play state. */
  datatype Lesson = Lesson(met: bool, follows: bool, film: Option<Magnet>, play: Option<bool>)

  /** One message of the host. `least` says that the host is the least peer the
    * newcomer sees just then: only then is an announcement believed. A play state
    * counts from somebody already followed. */
  function Taught(l: Lesson, m: Message, least: bool): Lesson {
    match m
    case Hello(_, _, _, claimsHost, _, _) => l.(met := true, follows := l.follows || claimsHost)
    case Film(magnet) => l.(film := Some(magnet), follows := true)
    case Host(_) => l.(follows := l.follows || least)
    case Pause(paused) => if l.follows then l.(play := Some(paused)) else l
    case _ => l
  }

  /** The newcomer's room after these events. */
  ghost function Newcomer(self: PeerID, events: seq<Event>): RoomState {
    Run(NewRoom(self, false), events).room
  }

  /** The host is the least peer the newcomer sees. */
  ghost predicate SeesLeast(self: PeerID, host: PeerID, events: seq<Event>) {
    IsLeast(host, View(Newcomer(self, events)))
  }

  ghost function Learnt(self: PeerID, host: PeerID, events: seq<Event>): Lesson {
    if events == [] then Lesson(false, false, None, None)
    else
      var n := |events| - 1;
      var l := Learnt(self, host, events[..n]);
      if events[n].Heard? && events[n].from == host
      then Taught(l, events[n].msg, SeesLeast(self, host, events[..n])) else l
  }

  /** What a host says to a newcomer: it stays, it announces nobody but itself, and
    * it greets with a version everybody knows. */
  predicate HostSays(m: Message, host: PeerID) {
    !m.Bye? && (m.Host? ==> m.hostID == host) && (m.Hello? ==> SpokenVersion(m.version) <= PROTOCOL_VERSION)
  }

  predicate FromHost(e: Event, host: PeerID) {
    e.Heard? && e.from == host
  }

  predicate HostSpeaks(events: seq<Event>, host: PeerID) {
    forall e | e in events && FromHost(e, host) :: HostSays(e.msg, host)
  }

  /** The newcomer's state, as far as the host's messages decide it. */
  ghost predicate Knows(r: RoomState, self: PeerID, host: PeerID, l: Lesson) {
    && r.selfID == self && self !in r.peers && !r.isHost && host !in r.refused
    && r.hostPeer == (if l.follows then host else "")
    && (host in r.peers <==> l.met)
    && r.magnet == l.film
    && (if l.play.Some? then r.pausedKnown && r.paused == l.play.value else !r.pausedKnown)
  }

  lemma ByHostStep(r: RoomState, self: PeerID, host: PeerID, l: Lesson, m: Message)
    requires host != "" && host != self && Knows(r, self, host, l) && HostSays(m, host)
    ensures Knows(Step(r, host, m).room, self, host, Taught(l, m, IsLeast(host, View(r))))
  {
    hide Step, IsLeast;
    StepMovesRole(r, host, m);
    StepRefuses(r, host, m);
    StepKeepsPlay(r, host, m);
    if m.Host? { BelievedIfLeast(r, host); }
    hide Believable;
  }

  lemma BelievedIfLeast(r: RoomState, host: PeerID)
    ensures Believable(r, host, host) <==> IsLeast(host, View(r))
  {
    if IsLeast(host, View(r)) { LeastUnique(host, View(r)); }
  }

  lemma StepKeepsPlay(r: RoomState, from: PeerID, m: Message)
    ensures var s := Step(r, from, m).room;
      && s.magnet == (if m.Film? && from !in r.refused then Some(m.magnet) else r.magnet)
      && (if m.Pause? && from !in r.refused && ShouldFollow(from, r.hostPeer)
          then s.pausedKnown && s.paused == m.paused
          else s.pausedKnown == r.pausedKnown && s.paused == r.paused)
  {
    hide Answer, Believable, TakeoverWinner, FreshOf, Crowned;
  }

  lemma ByMemberStep(r: RoomState, self: PeerID, host: PeerID, l: Lesson, from: PeerID, m: Message)
    requires host != "" && Knows(r, self, host, l)
    requires from != "" && from != self && from != host && MemberSays(m)
    ensures Knows(Step(r, from, m).room, self, host, l)
  {
    hide Step;
    StepMovesRole(r, from, m);
    StepRefuses(r, from, m);
    StepKeepsPlay(r, from, m);
  }

  /** Whatever ordinary members say in between, and however the events are mixed,
    * the newcomer's state is what the host taught it. */
  lemma {:induction false} NewcomerKnows(self: PeerID, host: PeerID, events: seq<Event>)
    requires host != "" && self != host && OnlyRoomTraffic(events, self, host) && HostSpeaks(events, host)
    ensures Knows(Newcomer(self, events), self, host, Learnt(self, host, events))
  {
    hide Act, Knows, Taught;
    if events == [] {
      NothingKnown(self, host);
    } else {
      var n := |events| - 1;
      var init, e := events[..n], events[n];
      assert e in events && forall x | x in init :: x in events;
      RunExtends(NewRoom(self, false), events, n);
      assert events[..n + 1] == events;
      NewcomerKnows(self, host, init);
      NewcomerKnowsMore(Newcomer(self, init), self, host, Learnt(self, host, init), e);
    }
  }

  lemma NothingKnown(self: PeerID, host: PeerID)
    ensures Knows(NewRoom(self, false), self, host, Lesson(false, false, None, None))
  {
  }

  lemma NewcomerKnowsMore(r: RoomState, self: PeerID, host: PeerID, l: Lesson, e: Event)
    requires host != "" && host != self && Knows(r, self, host, l)
    requires e.Heard? && e.from != "" && e.from != self && (e.from == host || MemberSays(e.msg))
    requires e.from == host ==> HostSays(e.msg, host)
    ensures Knows(Act(r, e).room, self, host, if e.from == host then Taught(l, e.msg, IsLeast(host, View(r))) else l)
  {
    hide Step, Knows;
    if e.from == host {
      ByHostStep(r, self, host, l, e.msg);
    } else {
      ByMemberStep(r, self, host, l, e.from, e.msg);
    }
  }

  // ---------- the host's answer ----------

  /** What a hosting room broadcasts when it admits a greeting. */
  ghost function HostAnswer(h: RoomState, from: PeerID, hello: Message): seq<Message> {
    Sends(Step(h, from, hello).effects)
  }

  lemma {:induction false} SendsSplits(a: seq<Effect>, b: seq<Effect>)
    ensures Sends(a + b) == Sends(a) + Sends(b)
  {
    if a == [] {
      assert a + b == b;
    } else {
      assert (a + b)[0] == a[0] && (a + b)[1..] == a[1..] + b;
      SendsSplits(a[1..], b);
      var first := if a[0].Sent? then [a[0].msg] else [];
      assert first + (Sends(a[1..]) + Sends(b)) == (first + Sends(a[1..])) + Sends(b);
    }
  }

  function Maybe<T>(c: bool, x: T): seq<T> {
    if c then [x] else []
  }

  lemma SendsMaybe(c: bool, m: Message)
    ensures Sends(Maybe(c, Sent(m))) == Maybe(c, m)
  {
    if c {
      assert [Sent(m)][1..] == [];
    }
  }

  lemma AnswerSends(r: RoomState, film: Magnet)
    requires r.magnet.Some? ==> r.magnet.value == film
    ensures var book := AddressBook(r.peers);
      Sends(Answer(r)) == Maybe(r.magnet.Some?, Film(film)) + [Host(r.selfID)]
                          + Maybe(r.pausedKnown, Pause(r.paused)) + Maybe(book != [], Peers(book))
  {
    var book := AddressBook(r.peers);
    hide AddressBook;
    var a, b, c, d := Maybe(r.magnet.Some?, Sent(Film(film))), Maybe(true, Sent(Host(r.selfID))),
                      Maybe(r.pausedKnown, Sent(Pause(r.paused))), Maybe(book != [], Sent(Peers(book)));
    assert Answer(r) == a + b + c + d;
    SendsSplits(a + b + c, d);
    SendsSplits(a + b, c);
    SendsSplits(a, b);
    SendsMaybe(r.magnet.Some?, Film(film));
    SendsMaybe(true, Host(r.selfID));
    SendsMaybe(r.pausedKnown, Pause(r.paused));
    SendsMaybe(book != [], Peers(book));
  }

  lemma HostAnswerIs(h: RoomState, from: PeerID, hello: Message, film: Magnet)
    requires h.isHost && Admits(h, from, hello) && !hello.claimsHost
    requires h.magnet.Some? ==> h.magnet.value == film
    ensures exists book ::
      HostAnswer(h, from, hello) == Maybe(h.magnet.Some?, Film(film)) + [Host(h.selfID)]
                                    + Maybe(h.pausedKnown, Pause(h.paused)) + Maybe(book != [], Peers(book))
  {
    hide Answer;
    var o := OnHello(h, from, hello);
    assert o.effects == [RosterShown(o.room.peers)] + Answer(o.room);
    SendsSplits([RosterShown(o.room.peers)], Answer(o.room));
    assert [RosterShown(o.room.peers)][1..] == [];
    AnswerSends(o.room, film);
  }

  /** The host's greeting somewhere among the messages of its answer. */
  function WithGreeting(answer: seq<Message>, greeting: Message, k: nat): seq<Message>
    requires k <= |answer|
  {
    answer[..k] + [greeting] + answer[k..]
  }

  lemma GreetingSits(answer: seq<Message>, greeting: Message, k: nat)
    requires k <= |answer|
    ensures var msgs := WithGreeting(answer, greeting, k);
      && |msgs| == |answer| + 1
      && forall i | 0 <= i < |msgs| ::
           msgs[i] == if i < k then answer[i] else if i == k then greeting else answer[i - 1]
  {
  }

  /** Where each kind of message stands in a stream: the film at `f`, the
    * announcement at `h`, the play state at `p`, the greeting at `k`. */
  predicate Placed(m: Message, i: int, host: PeerID, film: Magnet, paused: bool, claims: bool,
                   hasFilm: bool, known: bool, f: int, h: int, p: int, k: int)
  {
    && (m.Film? <==> hasFilm && i == f) && (m.Host? <==> i == h)
    && (m.Pause? <==> known && i == p) && (m.Hello? <==> i == k) && !m.Bye?
    && (m.Film? ==> m.magnet == film) && (m.Host? ==> m.hostID == host)
    && (m.Pause? ==> m.paused == paused)
    && (m.Hello? ==> m.claimsHost == claims && m.version == PROTOCOL_VERSION)
  }

  ghost predicate Laid(msgs: seq<Message>, host: PeerID, film: Magnet, paused: bool, claims: bool,
                       hasFilm: bool, known: bool, f: int, h: int, p: int, k: int)
  {
    && (forall i | 0 <= i < |msgs| :: Placed(msgs[i], i, host, film, paused, claims, hasFilm, known, f, h, p, k))
    && 0 <= k < |msgs| && (hasFilm ==> 0 <= f < h) && 0 <= h < |msgs| && (known ==> h < p < |msgs|)
  }

  /** The same for the bare answer, which holds no greeting. */
  ghost predicate AnswerLaid(answer: seq<Message>, host: PeerID, film: Magnet, paused: bool, hasFilm: bool,
                             known: bool) {
    var at := if hasFilm then 1 else 0;
    && |answer| > (if known then at + 1 else at)
    && forall i | 0 <= i < |answer| ::
         && (answer[i].Film? <==> hasFilm && i == 0) && (answer[i].Host? <==> i == at)
         && (answer[i].Pause? <==> known && i == at + 1) && !answer[i].Hello? && !answer[i].Bye?
         && (answer[i].Film? ==> answer[i].magnet == film) && (answer[i].Host? ==> answer[i].hostID == host)
         && (answer[i].Pause? ==> answer[i].paused == paused)
  }

  lemma AnswerLaysOut(answer: seq<Message>, host: PeerID, film: Magnet, paused: bool, hasFilm: bool, known: bool,
                      book: seq<PeerAddr>)
    requires answer == Maybe(hasFilm, Film(film)) + [Host(host)] + Maybe(known, Pause(paused))
                       + Maybe(book != [], Peers(book))
    ensures AnswerLaid(answer, host, film, paused, hasFilm, known)
  {
  }

  lemma LaysOut(answer: seq<Message>, greeting: Message, k: nat, host: PeerID, film: Magnet, paused: bool,
                hasFilm: bool, known: bool) returns (f: int, h: int, p: int)
    requires AnswerLaid(answer, host, film, paused, hasFilm, known)
    requires k <= |answer| && greeting.Hello? && greeting.version == PROTOCOL_VERSION
    ensures Laid(WithGreeting(answer, greeting, k), host, film, paused, greeting.claimsHost, hasFilm, known, f, h, p, k)
    ensures !hasFilm ==> (k <= 1 <==> k < p) && (k > 0 <==> h < k)
  {
    var at := if hasFilm then 1 else 0;
    f := if k == 0 then 1 else 0;
    h := if k <= at then at + 1 else at;
    p := if k <= at + 1 then at + 2 else at + 1;
    var msgs := WithGreeting(answer, greeting, k);
    GreetingSits(answer, greeting, k);
    hide WithGreeting;
    forall i | 0 <= i < |msgs|
      ensures Placed(msgs[i], i, host, film, paused, greeting.claimsHost, hasFilm, known, f, h, p, k)
    {
      if i != k { assert msgs[i] == answer[if i < k then i else i - 1]; }
    }
  }

  /** An announcement was heard while the host was the least peer in view. */
  ghost predicate Crowned(self: PeerID, host: PeerID, events: seq<Event>) {
    events != [] &&
    var n := |events| - 1;
    || Crowned(self, host, events[..n])
    || (FromHost(events[n], host) && events[n].msg.Host? && SeesLeast(self, host, events[..n]))
  }

  /** What has been learnt once `n` messages of such a stream were heard. */
  ghost predicate Unfolded(l: Lesson, crowned: bool, n: int, film: Magnet, paused: bool, claims: bool,
                           hasFilm: bool, known: bool, f: int, h: int, p: int, k: int)
  {
    && (l.met <==> k < n)
    && l.film == (if hasFilm && f < n then Some(film) else None)
    && (l.follows <==> (hasFilm && f < n) || (claims && k < n) || crowned)
    && l.play == (if known && p < n && (hasFilm || (claims && k < p) || crowned) then Some(paused) else None)
    && (crowned ==> k < h < n)
  }

  lemma UnfoldsOneMore(l: Lesson, crowned: bool, least: bool, msgs: seq<Message>, n: int, host: PeerID, film: Magnet,
                       paused: bool, claims: bool, hasFilm: bool, known: bool, f: int, h: int, p: int, k: int)
    requires Laid(msgs, host, film, paused, claims, hasFilm, known, f, h, p, k) && 0 <= n < |msgs|
    requires Unfolded(l, crowned, n, film, paused, claims, hasFilm, known, f, h, p, k)
    requires least ==> l.met
    ensures Unfolded(Taught(l, msgs[n], least), crowned || (msgs[n].Host? && least), n + 1,
                     film, paused, claims, hasFilm, known, f, h, p, k)
  {
  }

  lemma {:induction false} LessonUnfolds(self: PeerID, host: PeerID, events: seq<Event>, msgs: seq<Message>,
                                         film: Magnet, paused: bool, claims: bool, hasFilm: bool, known: bool,
                                         f: int, h: int, p: int, k: int)
    requires host != "" && self != host && OnlyRoomTraffic(events, self, host) && HostSpeaks(events, host)
    requires Laid(msgs, host, film, paused, claims, hasFilm, known, f, h, p, k) && HostPart(events, host) <= msgs
    ensures Unfolded(Learnt(self, host, events), Crowned(self, host, events), |HostPart(events, host)|,
                     film, paused, claims, hasFilm, known, f, h, p, k)
  {
    hide Unfolded, Laid, Taught, SeesLeast;
    if events == [] {
      NothingUnfolded(msgs, host, film, paused, claims, hasFilm, known, f, h, p, k);
    } else {
      var n := |events| - 1;
      var init, e := events[..n], events[n];
      assert e in events && forall x | x in init :: x in events;
      LessonUnfolds(self, host, init, msgs, film, paused, claims, hasFilm, known, f, h, p, k);
      if FromHost(e, host) {
        var least := SeesLeast(self, host, init);
        if least { LeastIsMet(self, host, init); }
        assert msgs[|HostPart(init, host)|] == e.msg;
        UnfoldsOneMore(Learnt(self, host, init), Crowned(self, host, init), least, msgs, |HostPart(init, host)|,
                       host, film, paused, claims, hasFilm, known, f, h, p, k);
      }
    }
  }

  lemma NothingUnfolded(msgs: seq<Message>, host: PeerID, film: Magnet, paused: bool, claims: bool,
                        hasFilm: bool, known: bool, f: int, h: int, p: int, k: int)
    requires Laid(msgs, host, film, paused, claims, hasFilm, known, f, h, p, k)
    ensures Unfolded(Lesson(false, false, None, None), false, 0, film, paused, claims, hasFilm, known, f, h, p, k)
  {
  }

  lemma LeastIsMet(self: PeerID, host: PeerID, events: seq<Event>)
    requires host != "" && self != host && OnlyRoomTraffic(events, self, host) && HostSpeaks(events, host)
    requires SeesLeast(self, host, events)
    ensures Learnt(self, host, events).met
  {
    NewcomerKnows(self, host, events);
    hide Learnt;
    assert host in View(Newcomer(self, events));
  }

  lemma {:induction false} HostPartSpeaks(events: seq<Event>, host: PeerID)
    requires forall m | m in HostPart(events, host) :: HostSays(m, host)
    ensures HostSpeaks(events, host)
  {
    if events != [] {
      var n := |events| - 1;
      assert forall m | m in HostPart(events[..n], host) :: m in HostPart(events, host);
      HostPartSpeaks(events[..n], host);
      assert forall e | e in events :: e in events[..n] || e == events[n];
      if FromHost(events[n], host) { assert events[n].msg in HostPart(events, host); }
    }
  }

  lemma LaidSpeaks(msgs: seq<Message>, host: PeerID, film: Magnet, paused: bool, claims: bool,
                   hasFilm: bool, known: bool, f: int, h: int, p: int, k: int)
    requires Laid(msgs, host, film, paused, claims, hasFilm, known, f, h, p, k)
    ensures forall m | m in msgs :: HostSays(m, host)
  {
    forall m | m in msgs ensures HostSays(m, host) {
      var i :| 0 <= i < |msgs| && msgs[i] == m;
    }
  }

  /** The stream of an answer with the greeting in it. */
  lemma StreamTeaches(self: PeerID, events: seq<Event>, answer: seq<Message>, greeting: Message, k: nat, host: PeerID,
                      film: Magnet, paused: bool, hasFilm: bool, known: bool, book: seq<PeerAddr>)
    requires answer == Maybe(hasFilm, Film(film)) + [Host(host)] + Maybe(known, Pause(paused))
                       + Maybe(book != [], Peers(book))
    requires k <= |answer| && greeting.Hello? && greeting.version == PROTOCOL_VERSION
    requires host != "" && self != host && OnlyRoomTraffic(events, self, host)
    requires HostPart(events, host) == WithGreeting(answer, greeting, k)
    ensures HostSpeaks(events, host)
    ensures var l, crowned := Learnt(self, host, events), Crowned(self, host, events);
      && l.met && l.film == (if hasFilm then Some(film) else None)
      && (l.follows <==> hasFilm || greeting.claimsHost || (k == 0 && crowned))
      && l.play == (if known && (hasFilm || (greeting.claimsHost && k <= 1) || (k == 0 && crowned))
                    then Some(paused) else None)
  {
    hide WithGreeting, Learnt, Crowned, HostPart, OnlyRoomTraffic;
    var msgs := WithGreeting(answer, greeting, k);
    AnswerLaysOut(answer, host, film, paused, hasFilm, known, book);
    var f, h, p := LaysOut(answer, greeting, k, host, film, paused, hasFilm, known);
    LaidSpeaks(msgs, host, film, paused, greeting.claimsHost, hasFilm, known, f, h, p, k);
    HostPartSpeaks(events, host);
    LessonUnfolds(self, host, events, msgs, film, paused, greeting.claimsHost, hasFilm, known, f, h, p, k);
  }

  /** A newcomer hears the host's greeting anywhere among the host's answer to its
    * own greeting, whatever ordinary members say meanwhile. It learns the film. It
    * follows the host exactly when there is a film, or the greeting claims the role,
    * or the greeting came first and the host was the least peer in view when it
    * announced itself. And it learns the play state exactly when it followed the
    * host by then. */
  lemma JoinTransfersTheRoom(h: RoomState, self: PeerID, hello: Message, greeting: Message, k: nat, events: seq<Event>)
    requires Agree(h) && h.isHost && h.selfID != "" && self != h.selfID
    requires Admits(h, self, hello) && !hello.claimsHost
    requires greeting.Hello? && greeting.version == PROTOCOL_VERSION
    requires k <= |HostAnswer(h, self, hello)|
    requires HostPart(events, h.selfID) == WithGreeting(HostAnswer(h, self, hello), greeting, k)
    requires OnlyRoomTraffic(events, self, h.selfID)
    ensures var end := Newcomer(self, events);
      var ranked := k == 0 && Crowned(self, h.selfID, events);
      && !end.isHost && h.selfID in end.peers && end.magnet == h.magnet
      && end.hostPeer == (if h.magnet.Some? || greeting.claimsHost || ranked then h.selfID else "")
      && (end.pausedKnown <==> h.pausedKnown && (h.magnet.Some? || (greeting.claimsHost && k <= 1) || ranked))
      && (end.pausedKnown ==> end.paused == h.paused)
  {
    hide Run, HostAnswer, HostPart, WithGreeting, OnlyRoomTraffic, Learnt, Crowned;
    var film := if h.magnet.Some? then h.magnet.value else Magnet("", "", 0, "");
    HostAnswerIs(h, self, hello, film);
    var book :| HostAnswer(h, self, hello) == Maybe(h.magnet.Some?, Film(film)) + [Host(h.selfID)]
                                              + Maybe(h.pausedKnown, Pause(h.paused)) + Maybe(book != [], Peers(book));
    StreamTeaches(self, events, HostAnswer(h, self, hello), greeting, k, h.selfID, film, h.paused,
                  h.magnet.Some?, h.pausedKnown, book);
    NewcomerKnows(self, h.selfID, events);
  }

  // ---------- a host that took over, in a room without a film ----------

  function Says(host: PeerID, msgs: seq<Message>): seq<Event> {
    seq(|msgs|, i requires 0 <= i < |msgs| => Heard(host, msgs[i]))
  }

  lemma {:induction false} SaysOnly(host: PeerID, msgs: seq<Message>)
    ensures HostPart(Says(host, msgs), host) == msgs
  {
    if msgs != [] {
      var n := |msgs| - 1;
      SaysOnly(host, msgs[..n]);
      assert Says(host, msgs)[..n] == Says(host, msgs[..n]);
      assert msgs == msgs[..n] + [msgs[n]];
    }
  }

  /** Just after the greeting of a host that claims nothing, the newcomer sees the
    * host and itself. */
  lemma AfterTheGreeting(self: PeerID, host: PeerID, greeting: Message)
    requires greeting.Hello? && greeting.version == PROTOCOL_VERSION && self != host
    ensures SeesLeast(self, host, [Heard(host, greeting)]) <==> Leq(host, self)
  {
    var events := [Heard(host, greeting)];
    hide Answer;
    RunExtends(NewRoom(self, false), events, 0);
    assert events[..1] == events && events[..0] == [];
    assert View(Newcomer(self, events)) == {self, host};
    LeqReflexive(host);
  }

  lemma {:induction false} CrownedAtAnnouncement(self: PeerID, host: PeerID, events: seq<Event>, j: nat)
    requires j < |events| && FromHost(events[j], host) && events[j].msg.Host?
    requires forall i | 0 <= i < |events| && i != j && FromHost(events[i], host) :: !events[i].msg.Host?
    ensures Crowned(self, host, events) <==> SeesLeast(self, host, events[..j])
  {
    hide SeesLeast;
    var n := |events| - 1;
    if j < n {
      CrownedAtAnnouncement(self, host, events[..n], j);
      assert events[..n][..j] == events[..j];
    } else {
      NeverCrowned(self, host, events[..n]);
    }
  }

  lemma {:induction false} NeverCrowned(self: PeerID, host: PeerID, events: seq<Event>)
    requires forall i | 0 <= i < |events| && FromHost(events[i], host) :: !events[i].msg.Host?
    ensures !Crowned(self, host, events)
  {
    hide SeesLeast;
    if events != [] { NeverCrowned(self, host, events[..|events| - 1]); }
  }

  /** A host that took over greets without claiming the role. When the newcomer
    * hears nobody else and there is no film, it follows the host exactly if the
    * greeting came first and the host's identifier is not larger than its own;
    * otherwise it follows nobody and knows no play state. */
  lemma TakeoverHostNeedsAFilm(h: RoomState, self: PeerID, hello: Message, greeting: Message, k: nat)
    requires Agree(h) && h.isHost && h.selfID != "" && self != h.selfID
    requires Admits(h, self, hello) && !hello.claimsHost
    requires greeting.Hello? && greeting.version == PROTOCOL_VERSION
    requires k <= |HostAnswer(h, self, hello)|
    requires !greeting.claimsHost && h.magnet.None?
    ensures var end := Newcomer(self, Says(h.selfID, WithGreeting(HostAnswer(h, self, hello), greeting, k)));
      var ranked := k == 0 && Leq(h.selfID, self);
      && h.selfID in end.peers && end.magnet == None
      && end.hostPeer == (if ranked then h.selfID else "")
      && (end.pausedKnown <==> h.pausedKnown && ranked) && (end.pausedKnown ==> end.paused == h.paused)
  {
    hide Run, Crowned, HostAnswer;
    var host, answer := h.selfID, HostAnswer(h, self, hello);
    var events := Says(host, WithGreeting(answer, greeting, k));
    SaysOnly(host, WithGreeting(answer, greeting, k));
    JoinTransfersTheRoom(h, self, hello, greeting, k, events);
    if k == 0 {
      GreetingThenAnnouncement(h, self, hello, greeting);
      CrownedAtAnnouncement(self, host, events, 1);
      assert events[..1] == [Heard(host, greeting)];
      AfterTheGreeting(self, host, greeting);
    }
  }

  /** In front of an answer without a film the greeting is followed by the answer's
    * one announcement. */
  lemma GreetingBeforeAnswer(answer: seq<Message>, greeting: Message, host: PeerID, film: Magnet,
                             paused: bool, known: bool)
    requires AnswerLaid(answer, host, film, paused, false, known) && greeting.Hello?
    ensures var msgs := WithGreeting(answer, greeting, 0);
      && |msgs| >= 2 && msgs[0] == greeting && msgs[1].Host?
      && forall i | 0 <= i < |msgs| && i != 1 :: !msgs[i].Host?
  {
    GreetingSits(answer, greeting, 0);
    hide WithGreeting;
  }

  lemma GreetingThenAnnouncement(h: RoomState, self: PeerID, hello: Message, greeting: Message)
    requires h.isHost && Admits(h, self, hello) && !hello.claimsHost && h.magnet.None? && greeting.Hello?
    ensures var msgs := WithGreeting(HostAnswer(h, self, hello), greeting, 0);
      && |msgs| >= 2 && msgs[0] == greeting && msgs[1].Host?
      && forall i | 0 <= i < |msgs| && i != 1 :: !msgs[i].Host?
  {
    var film := Magnet("", "", 0, "");
    HostAnswerIs(h, self, hello, film);
    hide HostAnswer, WithGreeting, AnswerLaid;
    var book :| HostAnswer(h, self, hello) == Maybe(h.magnet.Some?, Film(film)) + [Host(h.selfID)]
                                              + Maybe(h.pausedKnown, Pause(h.paused)) + Maybe(book != [], Peers(book));
    AnswerLaysOut(HostAnswer(h, self, hello), h.selfID, film, h.paused, h.magnet.Some?, h.pausedKnown, book);
    GreetingBeforeAnswer(HostAnswer(h, self, hello), greeting, h.selfID, film, h.paused, h.pausedKnown);
  }
}
