/** What a room sends and shows over whole runs, each kind for itself: when it
  * announces itself, what its participant is told, and what its roster holds.
  */
module RoomEffects {
  import opened Wrappers
  import opened PeerOrder
  import opened Protocol
  import opened RoomModel
  import opened RoomRuns

  /** The effects of one kind, in order. */
  function Only(effects: seq<Effect>, want: Effect -> bool): seq<Effect> {
    if effects == [] then []
    else (if want(effects[0]) then [effects[0]] else []) + Only(effects[1..], want)
  }

  lemma {:induction false} OnlySplits(a: seq<Effect>, b: seq<Effect>, want: Effect -> bool)
    ensures Only(a + b, want) == Only(a, want) + Only(b, want)
  {
    if a == [] {
      assert a + b == b;
    } else {
      assert (a + b)[0] == a[0] && (a + b)[1..] == a[1..] + b;
      OnlySplits(a[1..], b, want);
      var first := if want(a[0]) then [a[0]] else [];
      assert first + (Only(a[1..], want) + Only(b, want)) == (first + Only(a[1..], want)) + Only(b, want);
    }
  }

  lemma {:induction false} NoneWanted(effects: seq<Effect>, want: Effect -> bool)
    requires forall e | e in effects :: !want(e)
    ensures Only(effects, want) == []
  {
    if effects != [] {
      assert effects[0] in effects && forall e | e in effects[1..] :: e in effects;
      NoneWanted(effects[1..], want);
    }
  }

  lemma OneWanted(before: seq<Effect>, e: Effect, after: seq<Effect>, want: Effect -> bool)
    requires want(e) && (forall x | x in before :: !want(x)) && (forall x | x in after :: !want(x))
    ensures Only(before + [e] + after, want) == [e]
  {
    OnlySplits(before + [e], after, want);
    OnlySplits(before, [e], want);
    NoneWanted(before, want);
    NoneWanted(after, want);
    assert [e][1..] == [];
    assert Only([e], want) == [e] + Only([], want);
  }

  /** What is wanted in a run is what was due at each of its moments. */
  ghost function Due(r: RoomState, events: seq<Event>, due: (RoomState, Event) -> seq<Effect>): seq<Effect>
  {
    if events == [] then []
    else
      var n := |events| - 1;
      Due(r, events[..n], due) + due(Run(r, events[..n]).room, events[n])
  }

  lemma {:induction false} RunsAreDue(r: RoomState, events: seq<Event>, want: Effect -> bool,
                                      due: (RoomState, Event) -> seq<Effect>)
    requires forall s, e :: Only(Act(s, e).effects, want) == due(s, e)
    ensures Only(Run(r, events).effects, want) == Due(r, events, due)
  {
    hide Act;
    if events != [] {
      var n := |events| - 1;
      RunsAreDue(r, events[..n], want, due);
      RunExtends(r, events, n);
      assert events[..n + 1] == events;
      OnlySplits(Run(r, events[..n]).effects, Act(Run(r, events[..n]).room, events[n]).effects, want);
    }
  }

  // ---------- announcements ----------

  const ANNOUNCES: Effect -> bool := (e: Effect) => e.Sent? && e.msg.Host?

  /** The followed host, not refused, leaves, and this peer is the least of those who
    * stay; or a greeting is admitted while this peer holds the role. */
  ghost predicate MustAnnounce(r: RoomState, e: Event) {
    && e.Heard?
    && (|| (&& e.msg.Bye? && e.from == r.hostPeer && e.from !in r.refused
            && IsLeast(r.selfID, (r.peers.Keys - {e.from}) + {r.selfID}))
        || (Admits(r, e.from, e.msg) && r.isHost))
  }

  ghost function AnnouncementDue(r: RoomState, e: Event): seq<Effect> {
    if MustAnnounce(r, e) then [Sent(Host(r.selfID))] else []
  }

  lemma AnswerAnnounces(r: RoomState)
    ensures Only(Answer(r), ANNOUNCES) == [Sent(Host(r.selfID))]
  {
    hide AddressBook, Only;
    var film := if r.magnet.Some? then [Sent(Film(r.magnet.value))] else [];
    var play := if r.pausedKnown then [Sent(Pause(r.paused))] else [];
    var book := if AddressBook(r.peers) != [] then [Sent(Peers(AddressBook(r.peers)))] else [];
    assert Answer(r) == film + [Sent(Host(r.selfID))] + (play + book);
    OneWanted(film, Sent(Host(r.selfID)), play + book, ANNOUNCES);
  }

  lemma HelloAnnounces(r: RoomState, from: PeerID, m: Message)
    requires m.Hello?
    ensures Only(OnHello(r, from, m).effects, ANNOUNCES) == AnnouncementDue(r, Heard(from, m))
  {
    hide Answer, Only;
    var effects, r' := OnHello(r, from, m).effects, OnHello(r, from, m).room;
    if Admits(r, from, m) && r.isHost {
      var shown := [RosterShown(r'.peers)] + (if m.claimsHost then [HostShown(from)] else []);
      assert effects == shown + Answer(r');
      OnlySplits(shown, Answer(r'), ANNOUNCES);
      NoneWanted(shown, ANNOUNCES);
      AnswerAnnounces(r');
    } else {
      NoneWanted(effects, ANNOUNCES);
    }
  }

  lemma ByeAnnounces(r: RoomState, from: PeerID)
    requires from !in r.refused
    ensures Only(OnBye(r, from).effects, ANNOUNCES) == AnnouncementDue(r, Heard(from, Bye(from)))
  {
    hide Only;
    var left := r.(peers := r.peers - {from});
    assert View(left) == (r.peers.Keys - {from}) + {r.selfID};
    var effects := OnBye(r, from).effects;
    if IsLeast(r.selfID, View(left)) { LeastUnique(r.selfID, View(left)); }
    var roster := if from in r.peers then [RosterShown(left.peers)] else [];
    if MustAnnounce(r, Heard(from, Bye(from))) {
      var after := [RosterShown(OnBye(r, from).room.peers), HostShown(r.selfID)];
      assert effects == roster + [Sent(Host(r.selfID))] + after;
      OneWanted(roster, Sent(Host(r.selfID)), after, ANNOUNCES);
    } else {
      NoneWanted(effects, ANNOUNCES);
    }
  }

  lemma ActAnnounces(r: RoomState, e: Event)
    ensures Only(Act(r, e).effects, ANNOUNCES) == AnnouncementDue(r, e)
  {
    hide OnHello, OnBye, FreshOf, Believable, Crowned, Only;
    if e.Heard? && e.msg.Hello? {
      HelloAnnounces(r, e.from, e.msg);
    } else if e.Heard? && e.msg.Bye? && e.from !in r.refused {
      ByeAnnounces(r, e.from);
    } else {
      NoneWanted(Act(r, e).effects, ANNOUNCES);
    }
  }

  /** A room announces a host exactly when it must, itself each time, in every run. */
  lemma AnnouncementsAreExact(r: RoomState, events: seq<Event>)
    ensures Only(Run(r, events).effects, ANNOUNCES) == Due(r, events, AnnouncementDue)
  {
    hide Act, Only, AnnouncementDue;
    forall s, e ensures Only(Act(s, e).effects, ANNOUNCES) == AnnouncementDue(s, e) {
      ActAnnounces(s, e);
    }
    RunsAreDue(r, events, ANNOUNCES, AnnouncementDue);
  }

  // ---------- everything that is sent ----------

  const SENDS: Effect -> bool := (e: Effect) => e.Sent?

  /** The local participant's command, the answer to an admitted greeting while this peer
    * holds the role, and its own takeover. */
  ghost function SendDue(r: RoomState, e: Event): seq<Effect> {
    match e
    case PlayPressed => [Sent(Pause(false))]
    case PausePressed => [Sent(Pause(true))]
    case SeekPressed(seconds) => [Sent(Position(seconds))]
    case StallNoticed(buffering) => [Sent(Buffering(buffering))]
    case FilmChosen(magnet) => [Sent(Film(magnet))]
    case Heard(from, m) =>
      if !MustAnnounce(r, e) then []
      else if m.Hello? then Answer(Act(r, e).room)
      else [Sent(Host(r.selfID))]
  }

  lemma {:induction false} AllWanted(effects: seq<Effect>, want: Effect -> bool)
    requires forall e | e in effects :: want(e)
    ensures Only(effects, want) == effects
  {
    if effects != [] {
      assert effects[0] in effects && forall e | e in effects[1..] :: e in effects;
      AllWanted(effects[1..], want);
      assert effects == [effects[0]] + effects[1..];
    }
  }

  lemma HelloSends(r: RoomState, from: PeerID, m: Message)
    requires m.Hello?
    ensures Only(OnHello(r, from, m).effects, SENDS) == SendDue(r, Heard(from, m))
  {
    hide Answer, Only;
    var effects, r' := OnHello(r, from, m).effects, OnHello(r, from, m).room;
    if Admits(r, from, m) && r.isHost {
      var shown := [RosterShown(r'.peers)] + (if m.claimsHost then [HostShown(from)] else []);
      assert effects == shown + Answer(r');
      OnlySplits(shown, Answer(r'), SENDS);
      NoneWanted(shown, SENDS);
      AnswerOnlySends(r');
      AllWanted(Answer(r'), SENDS);
    } else {
      NoneWanted(effects, SENDS);
    }
  }

  lemma ByeSends(r: RoomState, from: PeerID, leaving: PeerID)
    requires from !in r.refused
    ensures Only(OnBye(r, from).effects, SENDS) == SendDue(r, Heard(from, Bye(leaving)))
  {
    hide Only;
    var left := r.(peers := r.peers - {from});
    assert View(left) == (r.peers.Keys - {from}) + {r.selfID};
    var effects := OnBye(r, from).effects;
    if IsLeast(r.selfID, View(left)) { LeastUnique(r.selfID, View(left)); }
    var roster := if from in r.peers then [RosterShown(left.peers)] else [];
    if MustAnnounce(r, Heard(from, Bye(leaving))) {
      var after := [RosterShown(OnBye(r, from).room.peers), HostShown(r.selfID)];
      assert effects == roster + [Sent(Host(r.selfID))] + after;
      OneWanted(roster, Sent(Host(r.selfID)), after, SENDS);
    } else {
      NoneWanted(effects, SENDS);
    }
  }

  lemma ActSends(r: RoomState, e: Event)
    ensures Only(Act(r, e).effects, SENDS) == SendDue(r, e)
  {
    hide OnHello, OnBye, OnHost, FreshOf, Only;
    if e.Heard? && e.msg.Hello? {
      HelloSends(r, e.from, e.msg);
    } else if e.Heard? && e.msg.Bye? && e.from !in r.refused {
      ByeSends(r, e.from, e.msg.leaving);
    } else if e.Heard? {
      OthersSendNothing(r, e.from, e.msg);
    } else {
      Single(Act(r, e).effects[0], SENDS);
    }
  }

  lemma OthersSendNothing(r: RoomState, from: PeerID, m: Message)
    requires !m.Hello? && (m.Bye? ==> from in r.refused)
    ensures Only(Step(r, from, m).effects, SENDS) == []
  {
    hide FreshOf, Believable, Crowned, Only, OnBye;
    NoneWanted(Step(r, from, m).effects, SENDS);
  }

  /** In every run a room sends its own participant's commands, each once, its answers to
    * the greetings it admits as the host, and the announcement of its own takeover, in
    * that order of events, and nothing else: no message is passed on. */
  lemma SendsExactly(r: RoomState, events: seq<Event>)
    ensures Only(Run(r, events).effects, SENDS) == Due(r, events, SendDue)
  {
    hide Act, Only, SendDue;
    forall s, e ensures Only(Act(s, e).effects, SENDS) == SendDue(s, e) {
      ActSends(s, e);
    }
    RunsAreDue(r, events, SENDS, SendDue);
  }

  // ---------- what the participant is told ----------

  const PAUSES: Effect -> bool := (e: Effect) => e.PauseShown?
  const FILMS: Effect -> bool := (e: Effect) => e.FilmShown?
  const STALLS: Effect -> bool := (e: Effect) => e.BufferingShown?

  predicate Counts(r: RoomState, e: Event) {
    e.Heard? && e.from !in r.refused
  }

  /** A pause of the host of the moment. */
  function PauseDue(r: RoomState, e: Event): seq<Effect> {
    if Counts(r, e) && e.msg.Pause? && e.from != "" && e.from == r.hostPeer then [PauseShown(e.msg.paused)] else []
  }

  /** A film of the host of the moment, or of the first to name one. */
  function FilmDue(r: RoomState, e: Event): seq<Effect> {
    if Counts(r, e) && e.msg.Film? && (r.hostPeer == "" || e.from == r.hostPeer) then [FilmShown(e.msg.magnet)] else []
  }

  /** Anybody's report of a stall. */
  function StallDue(r: RoomState, e: Event): seq<Effect> {
    if Counts(r, e) && e.msg.Buffering? then [BufferingShown(e.from, e.msg.buffering)] else []
  }

  lemma Single(e: Effect, want: Effect -> bool)
    ensures Only([e], want) == if want(e) then [e] else []
  {
    assert [e][1..] == [];
    assert Only([], want) == [];
  }

  ghost predicate Playing(want: Effect -> bool) {
    want == PAUSES || want == FILMS || want == STALLS
  }

  /** Neither a greeting, a departure nor an announcement shows any of these. */
  lemma RosterMovesShowNone(r: RoomState, from: PeerID, m: Message, want: Effect -> bool)
    requires Playing(want)
    requires m.Hello? || m.Bye? || m.Host? || m.Peers?
    ensures Only(Step(r, from, m).effects, want) == []
  {
    hide Only, FreshOf, Believable, Crowned, OnHello, OnBye;
    if m.Hello? {
      GreetingPlaysNothing(r, from, m, want);
    } else if m.Bye? && from !in r.refused {
      DeparturePlaysNothing(r, from, want);
    } else {
      NoneWanted(Step(r, from, m).effects, want);
    }
  }

  lemma GreetingPlaysNothing(r: RoomState, from: PeerID, m: Message, want: Effect -> bool)
    requires Playing(want) && m.Hello?
    ensures Only(OnHello(r, from, m).effects, want) == []
  {
    hide Answer, Only;
    var o := OnHello(r, from, m);
    AnswerOnlySends(o.room);
    NoneWanted(o.effects, want);
  }

  lemma DeparturePlaysNothing(r: RoomState, from: PeerID, want: Effect -> bool)
    requires Playing(want)
    ensures Only(OnBye(r, from).effects, want) == []
  {
    hide TakeoverWinner, Only;
    NoneWanted(OnBye(r, from).effects, want);
  }

  lemma ActTells(r: RoomState, e: Event)
    ensures Only(Act(r, e).effects, PAUSES) == PauseDue(r, e)
    ensures Only(Act(r, e).effects, FILMS) == FilmDue(r, e)
    ensures Only(Act(r, e).effects, STALLS) == StallDue(r, e)
  {
    hide OnHello, OnBye, OnHost, OnPeers, Only;
    var effects := Act(r, e).effects;
    if e.Heard? && (e.msg.Hello? || e.msg.Bye? || e.msg.Host? || e.msg.Peers?) {
      RosterMovesShowNone(r, e.from, e.msg, PAUSES);
      RosterMovesShowNone(r, e.from, e.msg, FILMS);
      RosterMovesShowNone(r, e.from, e.msg, STALLS);
    } else if effects != [] {
      assert effects == [effects[0]];
      Single(effects[0], PAUSES);
      Single(effects[0], FILMS);
      Single(effects[0], STALLS);
    } else {
      NoneWanted(effects, PAUSES);
      NoneWanted(effects, FILMS);
      NoneWanted(effects, STALLS);
    }
  }

  /** Over every run the participant is told exactly the pauses of the host of each
    * moment, its films or those of the first to name one, and everybody's stalls, each
    * once and in order; and nothing of a refused peer. */
  lemma TellsExactly(r: RoomState, events: seq<Event>)
    ensures Only(Run(r, events).effects, PAUSES) == Due(r, events, PauseDue)
    ensures Only(Run(r, events).effects, FILMS) == Due(r, events, FilmDue)
    ensures Only(Run(r, events).effects, STALLS) == Due(r, events, StallDue)
  {
    hide Act, Only, PauseDue, FilmDue, StallDue;
    forall s, e
      ensures Only(Act(s, e).effects, PAUSES) == PauseDue(s, e)
      ensures Only(Act(s, e).effects, FILMS) == FilmDue(s, e)
      ensures Only(Act(s, e).effects, STALLS) == StallDue(s, e)
    {
      ActTells(s, e);
    }
    RunsAreDue(r, events, PAUSES, PauseDue);
    RunsAreDue(r, events, FILMS, FilmDue);
    RunsAreDue(r, events, STALLS, StallDue);
  }

  const ROSTERS: Effect -> bool := (e: Effect) => e.RosterShown?
  const HOSTS: Effect -> bool := (e: Effect) => e.HostShown?

  /** The roster after an admitted greeting, a believed announcement or the departure of a
    * member, and after that of the followed host once more. */
  ghost function RosterDue(r: RoomState, e: Event): seq<Effect> {
    var now := [RosterShown(Act(r, e).room.peers)];
    if !e.Heard? then []
    else if Admits(r, e.from, e.msg) || (Counts(r, e) && e.msg.Host? && Believable(r, e.from, e.msg.hostID)) then now
    else if Counts(r, e) && e.msg.Bye? then
      (if e.from in r.peers then now else []) + (if e.from == r.hostPeer then now else [])
    else []
  }

  /** The host after an admitted claim, a believed announcement or the departure of the
    * one that was followed. */
  ghost function HostDue(r: RoomState, e: Event): seq<Effect> {
    if e.Heard? &&
      (|| (Admits(r, e.from, e.msg) && e.msg.claimsHost)
       || (Counts(r, e) && e.msg.Host? && Believable(r, e.from, e.msg.hostID))
       || (Counts(r, e) && e.msg.Bye? && e.from == r.hostPeer))
    then [HostShown(Act(r, e).room.hostPeer)] else []
  }

  lemma Pair(a: Effect, b: Effect, want: Effect -> bool)
    ensures Only([a, b], want) == (if want(a) then [a] else []) + (if want(b) then [b] else [])
  {
    hide Only;
    assert [a, b] == [a] + [b];
    OnlySplits([a], [b], want);
    Single(a, want);
    Single(b, want);
  }

  lemma AnnouncementShows(r: RoomState, from: PeerID, host: PeerID)
    ensures var e := Heard(from, Host(host));
      Only(Act(r, e).effects, ROSTERS) == RosterDue(r, e) && Only(Act(r, e).effects, HOSTS) == HostDue(r, e)
  {
    hide Only, Believable, Crowned;
    var e := Heard(from, Host(host));
    NoneWanted([], ROSTERS);
    NoneWanted([], HOSTS);
    if Act(r, e).effects != [] {
      Pair(RosterShown(Act(r, e).room.peers), HostShown(host), ROSTERS);
      Pair(RosterShown(Act(r, e).room.peers), HostShown(host), HOSTS);
    }
  }

  lemma GreetingShows(r: RoomState, from: PeerID, m: Message)
    requires m.Hello?
    ensures var e := Heard(from, m);
      Only(Act(r, e).effects, ROSTERS) == RosterDue(r, e) && Only(Act(r, e).effects, HOSTS) == HostDue(r, e)
  {
    hide Only, Answer;
    var effects, r' := OnHello(r, from, m).effects, OnHello(r, from, m).room;
    if Admits(r, from, m) {
      var roster := [RosterShown(r'.peers)];
      var claim := if m.claimsHost then [HostShown(from)] else [];
      var answer := if r.isHost then Answer(r') else [];
      AnswerOnlySends(r');
      GreetingParts(roster, claim, answer, ROSTERS);
      GreetingParts(roster, claim, answer, HOSTS);
      Single(RosterShown(r'.peers), ROSTERS);
      Single(RosterShown(r'.peers), HOSTS);
      Single(HostShown(from), ROSTERS);
      Single(HostShown(from), HOSTS);
    } else {
      NoneWanted(effects, ROSTERS);
      NoneWanted(effects, HOSTS);
    }
  }

  lemma GreetingParts(roster: seq<Effect>, claim: seq<Effect>, answer: seq<Effect>, want: Effect -> bool)
    requires forall e | e in answer :: !want(e)
    ensures Only(roster + claim + answer, want) == Only(roster, want) + Only(claim, want)
    ensures Only([], want) == []
  {
    OnlySplits(roster + claim, answer, want);
    OnlySplits(roster, claim, want);
    NoneWanted(answer, want);
  }

  lemma DepartureShows(r: RoomState, from: PeerID)
    ensures var e := Heard(from, Bye(from));
      Only(Act(r, e).effects, ROSTERS) == RosterDue(r, e) && Only(Act(r, e).effects, HOSTS) == HostDue(r, e)
  {
    hide Only, TakeoverWinner;
    var e := Heard(from, Bye(from));
    var effects, now := Act(r, e).effects, RosterShown(Act(r, e).room.peers);
    NoneWanted([], ROSTERS);
    NoneWanted([], HOSTS);
    Single(now, ROSTERS);
    Single(now, HOSTS);
    if from !in r.refused && from == r.hostPeer {
      var winner := Act(r, e).room.hostPeer;
      var roster := if from in r.peers then [now] else [];
      var said := if winner == r.selfID then [Sent(Host(winner))] else [];
      assert effects == roster + said + [now, HostShown(winner)];
      DepartureParts(roster, said, now, HostShown(winner), ROSTERS);
      DepartureParts(roster, said, now, HostShown(winner), HOSTS);
    }
  }

  lemma DepartureParts(roster: seq<Effect>, said: seq<Effect>, now: Effect, host: Effect, want: Effect -> bool)
    requires forall e | e in said :: !want(e)
    ensures Only(roster + said + [now, host], want)
         == Only(roster, want) + ((if want(now) then [now] else []) + (if want(host) then [host] else []))
  {
    hide Only;
    OnlySplits(roster + said, [now, host], want);
    OnlySplits(roster, said, want);
    NoneWanted(said, want);
    Pair(now, host, want);
  }

  lemma ActShows(r: RoomState, e: Event)
    ensures Only(Act(r, e).effects, ROSTERS) == RosterDue(r, e) && Only(Act(r, e).effects, HOSTS) == HostDue(r, e)
  {
    hide OnHello, OnBye, OnHost;
    if e.Heard? && e.msg.Hello? {
      GreetingShows(r, e.from, e.msg);
    } else if e.Heard? && e.msg.Host? {
      AnnouncementShows(r, e.from, e.msg.hostID);
    } else if e.Heard? && e.msg.Bye? {
      DepartureShows(r, e.from);
    } else {
      OthersShowNeither(r, e);
    }
  }

  lemma OthersShowNeither(r: RoomState, e: Event)
    requires e.Heard? ==> !e.msg.Hello? && !e.msg.Host? && !e.msg.Bye?
    ensures Only(Act(r, e).effects, ROSTERS) == RosterDue(r, e) && Only(Act(r, e).effects, HOSTS) == HostDue(r, e)
  {
    hide Only, FreshOf, OnHello, OnHost, OnBye;
    NoneWanted(Act(r, e).effects, ROSTERS);
    NoneWanted(Act(r, e).effects, HOSTS);
  }

  /** The roster and the host are shown exactly when they may have changed, as they are
    * then, in every run. */
  lemma ShowsExactly(r: RoomState, events: seq<Event>)
    ensures Only(Run(r, events).effects, ROSTERS) == Due(r, events, RosterDue)
    ensures Only(Run(r, events).effects, HOSTS) == Due(r, events, HostDue)
  {
    hide Act, Only, RosterDue, HostDue;
    forall s, e
      ensures Only(Act(s, e).effects, ROSTERS) == RosterDue(s, e)
      ensures Only(Act(s, e).effects, HOSTS) == HostDue(s, e)
    {
      ActShows(s, e);
    }
    RunsAreDue(r, events, ROSTERS, RosterDue);
    RunsAreDue(r, events, HOSTS, HostDue);
  }

  function RefusalOf(id: PeerID): Effect -> bool {
    (e: Effect) => e.RefusalShown? && e.peer == id
  }

  lemma ActShowsRefusal(r: RoomState, e: Event, id: PeerID)
    ensures Only(Act(r, e).effects, RefusalOf(id))
         == if Refuses(e) && e.from == id && id !in r.refused
            then [RefusalShown(id, SpokenVersion(e.msg.version))] else []
  {
    hide Answer, FreshOf, Believable, TakeoverWinner, Crowned, Only;
    var effects := Act(r, e).effects;
    if Refuses(e) && e.from !in r.refused {
      Single(effects[0], RefusalOf(id));
    } else if e.Heard? && e.msg.Hello? {
      GreetingsShowNoRefusal(r, e.from, e.msg, id);
    } else {
      NoneWanted(effects, RefusalOf(id));
    }
  }

  lemma GreetingsShowNoRefusal(r: RoomState, from: PeerID, m: Message, id: PeerID)
    requires m.Hello? && (SpokenVersion(m.version) <= PROTOCOL_VERSION || from in r.refused)
    ensures Only(OnHello(r, from, m).effects, RefusalOf(id)) == []
  {
    hide AddressBook, Only;
    NoneWanted(OnHello(r, from, m).effects, RefusalOf(id));
  }

  /** A refusal is shown once for each peer that is ever refused, and never again. */
  lemma {:induction false} EachRefusalIsShownOnce(r: RoomState, events: seq<Event>, id: PeerID)
    ensures |Only(Run(r, events).effects, RefusalOf(id))|
         == if id !in r.refused && OnceRefused(id, events) then 1 else 0
  {
    hide Act, Only, OnceRefused;
    if events == [] {
      NothingRefused(r, id);
    } else {
      var n := |events| - 1;
      var init, e, mid := events[..n], events[n], Run(r, events[..n]).room;
      EachRefusalIsShownOnce(r, init, id);
      RunExtends(r, events, n);
      assert events[..n + 1] == events;
      OnlySplits(Run(r, init).effects, Act(mid, e).effects, RefusalOf(id));
      ActShowsRefusal(mid, e, id);
      RefusedExactly(r, init);
      OnceRefusedLast(id, events);
    }
  }

  lemma NothingRefused(r: RoomState, id: PeerID)
    ensures Only(Run(r, []).effects, RefusalOf(id)) == [] && !OnceRefused(id, [])
  {
  }

  lemma OnceRefusedLast(id: PeerID, events: seq<Event>)
    requires events != []
    ensures var n := |events| - 1;
      OnceRefused(id, events) <==> OnceRefused(id, events[..n]) || (Refuses(events[n]) && events[n].from == id)
  {
    var n := |events| - 1;
    assert events == events[..n] + [events[n]];
  }

  /** Whatever roster or host is shown is the current one; and a change of the roster
    * is shown, unless it is a stall, and a change of the host, unless a film brought it. */
  lemma ChangesAreShown(r: RoomState, e: Event)
    ensures var s, effects := Act(r, e).room, Act(r, e).effects;
      && (forall p | RosterShown(p) in effects :: p == s.peers)
      && (forall h | HostShown(h) in effects :: h == s.hostPeer)
      && (s.peers != r.peers && !(e.Heard? && e.msg.Buffering?) ==> RosterShown(s.peers) in effects)
      && (s.hostPeer != r.hostPeer && !(e.Heard? && e.msg.Film?) ==> HostShown(s.hostPeer) in effects)
  {
    hide OnHello, OnBye, OnHost, FreshOf;
    if e.Heard? && e.msg.Hello? { GreetingIsShown(r, e.from, e.msg); }
    if e.Heard? && e.msg.Bye? { DepartureIsShown(r, e.from); }
    if e.Heard? && e.msg.Host? { AnnouncementIsShown(r, e.from, e.msg.hostID); }
  }

  ghost predicate ShowsItself(r: RoomState, o: Outcome) {
    && (forall p | RosterShown(p) in o.effects :: p == o.room.peers)
    && (forall h | HostShown(h) in o.effects :: h == o.room.hostPeer)
    && (o.room.peers != r.peers ==> RosterShown(o.room.peers) in o.effects)
    && (o.room.hostPeer != r.hostPeer ==> HostShown(o.room.hostPeer) in o.effects)
  }

  lemma GreetingIsShown(r: RoomState, from: PeerID, m: Message)
    requires m.Hello?
    ensures ShowsItself(r, OnHello(r, from, m))
  {
    if Admits(r, from, m) { AnswerOnlySends(OnHello(r, from, m).room); }
    hide Answer;
  }

  lemma AnswerOnlySends(r: RoomState)
    ensures forall e | e in Answer(r) :: e.Sent?
  {
    hide AddressBook;
  }

  lemma DepartureIsShown(r: RoomState, from: PeerID)
    ensures ShowsItself(r, OnBye(r, from))
  {
    hide TakeoverWinner;
    var o := OnBye(r, from);
    if from == r.hostPeer {
      var n := |o.effects|;
      assert o.effects[n - 2] == RosterShown(o.room.peers) && o.effects[n - 1] == HostShown(o.room.hostPeer);
    }
  }

  lemma AnnouncementIsShown(r: RoomState, from: PeerID, host: PeerID)
    ensures ShowsItself(r, OnHost(r, from, host))
  {
    hide Crowned, Believable;
  }

  // ---------- what the roster holds ----------

  /** The last greeting of a peer that was admitted. */
  ghost function LastGreeting(r: RoomState, events: seq<Event>, id: PeerID): Option<Message> {
    if events == [] then None
    else
      var n := |events| - 1;
      var e := events[n];
      if e.Heard? && e.from == id && Admits(Run(r, events[..n]).room, id, e.msg) then Some(e.msg)
      else LastGreeting(r, events[..n], id)
  }

  /** The last report of a stall since that greeting; a greeting starts without one. */
  ghost function LastReport(r: RoomState, events: seq<Event>, id: PeerID): Option<bool> {
    if events == [] then None
    else
      var n := |events| - 1;
      var e, mid := events[n], Run(r, events[..n]).room;
      if e.Heard? && e.from == id && Admits(mid, id, e.msg) then Some(false)
      else if Counts(mid, e) && e.from == id && e.msg.Buffering? then Some(e.msg.buffering)
      else LastReport(r, events[..n], id)
  }

  ghost predicate Believes(r: RoomState, e: Event) {
    e.Heard? && e.msg.Host? && Act(r, e).effects != []
  }

  /** The last word on whether the peer is the host: its own, in that greeting, or that
    * of an announcement believed since. */
  ghost function LastMark(r: RoomState, events: seq<Event>, id: PeerID): Option<bool> {
    if events == [] then None
    else
      var n := |events| - 1;
      var e, mid := events[n], Run(r, events[..n]).room;
      if e.Heard? && e.from == id && Admits(mid, id, e.msg) then Some(e.msg.claimsHost)
      else if Believes(mid, e) then Some(e.msg.hostID == id)
      else LastMark(r, events[..n], id)
  }

  predicate SameIdentity(a: Peer, b: Peer) {
    && a.peerID == b.peerID && a.userID == b.userID && a.username == b.username
    && a.addrs == b.addrs && a.version == b.version
  }

  predicate IdentityFrom(p: Peer, id: PeerID, m: Message)
    requires m.Hello?
  {
    && p.peerID == id && p.userID == m.userID && p.username == m.username && p.addrs == m.addrs
    && p.version == SpokenVersion(m.version)
  }

  ghost predicate KeepsEntry(r: RoomState, e: Event, s: RoomState, id: PeerID) {
    if e.Heard? && e.from == id && Admits(r, id, e.msg) then
      && id in s.peers && IdentityFrom(s.peers[id], id, e.msg) && !s.peers[id].buffering
      && s.peers[id].isHost == e.msg.claimsHost
    else
      id in s.peers ==>
        && id in r.peers && SameIdentity(s.peers[id], r.peers[id])
        && s.peers[id].buffering == (if Counts(r, e) && e.from == id && e.msg.Buffering? then e.msg.buffering
                                     else r.peers[id].buffering)
        && s.peers[id].isHost == (if Believes(r, e) then id == e.msg.hostID else r.peers[id].isHost)
  }

  lemma GreetingKeepsEntries(r: RoomState, from: PeerID, m: Message, id: PeerID)
    requires m.Hello?
    ensures KeepsEntry(r, Heard(from, m), OnHello(r, from, m).room, id)
  {
    hide Answer;
  }

  lemma DepartureKeepsEntries(r: RoomState, from: PeerID, leaving: PeerID, id: PeerID)
    ensures KeepsEntry(r, Heard(from, Bye(leaving)), OnBye(r, from).room, id)
  {
    hide TakeoverWinner;
  }

  lemma AnnouncementKeepsEntries(r: RoomState, from: PeerID, host: PeerID, id: PeerID)
    requires from !in r.refused
    ensures KeepsEntry(r, Heard(from, Host(host)), OnHost(r, from, host).room, id)
  {
    hide Believable;
  }

  lemma ActKeepsEntries(r: RoomState, e: Event, id: PeerID)
    ensures KeepsEntry(r, e, Act(r, e).room, id)
  {
    hide OnHello, OnBye, OnHost, FreshOf, KeepsEntry;
    if e.Heard? && e.msg.Hello? {
      GreetingKeepsEntries(r, e.from, e.msg, id);
    } else if e.Heard? && e.msg.Bye? && e.from !in r.refused {
      DepartureKeepsEntries(r, e.from, e.msg.leaving, id);
    } else if e.Heard? && e.msg.Host? && e.from !in r.refused {
      AnnouncementKeepsEntries(r, e.from, e.msg.hostID, id);
    } else {
      OthersKeepEntries(r, e, id);
    }
  }

  lemma OthersKeepEntries(r: RoomState, e: Event, id: PeerID)
    requires e.Heard? ==> !e.msg.Hello? && ((e.msg.Bye? || e.msg.Host?) ==> e.from in r.refused)
    ensures KeepsEntry(r, e, Act(r, e).room, id)
  {
    hide OnHello, OnBye, OnHost, OnPeers, OnBuffering;
    if e.Heard? && e.from !in r.refused {
      if e.msg.Buffering? { BufferingKeepsEntries(r, e.from, e.msg.buffering); }
      if e.msg.Peers? { BookKeepsRoom(r, e.msg.book); }
    }
  }

  lemma BookKeepsRoom(r: RoomState, book: seq<PeerAddr>)
    ensures OnPeers(r, book).room == r
  {
    hide FreshOf;
  }

  lemma BufferingKeepsEntries(r: RoomState, from: PeerID, buffering: bool)
    ensures var s := OnBuffering(r, from, buffering).room;
      && s.peers.Keys == r.peers.Keys
      && forall id | id in s.peers ::
        s.peers[id] == if id == from then r.peers[id].(buffering := buffering) else r.peers[id]
  {
  }

  /** Whoever is in the roster is there as its last admitted greeting said. */
  lemma {:induction false} RosterHoldsTheLastGreeting(r: RoomState, events: seq<Event>, id: PeerID)
    requires id in Run(r, events).room.peers
    ensures var p, g := Run(r, events).room.peers[id], LastGreeting(r, events, id);
      if g.Some? then g.value.Hello? && IdentityFrom(p, id, g.value)
      else id in r.peers && SameIdentity(p, r.peers[id])
  {
    hide Act, Believes;
    if events != [] {
      var n := |events| - 1;
      RunExtends(r, events, n);
      assert events[..n + 1] == events;
      ActKeepsEntries(Run(r, events[..n]).room, events[n], id);
      if id in Run(r, events[..n]).room.peers { RosterHoldsTheLastGreeting(r, events[..n], id); }
    }
  }

  /** It is marked as stalled exactly if its last report since then said so. */
  lemma {:induction false} StallsHoldTheLastReport(r: RoomState, events: seq<Event>, id: PeerID)
    requires id in Run(r, events).room.peers
    ensures var p, last := Run(r, events).room.peers[id], LastReport(r, events, id);
      if last.Some? then p.buffering == last.value else id in r.peers && p.buffering == r.peers[id].buffering
  {
    hide Act, Believes, SameIdentity, IdentityFrom, Admits;
    if events != [] {
      var n := |events| - 1;
      RunExtends(r, events, n);
      assert events[..n + 1] == events;
      ActKeepsEntries(Run(r, events[..n]).room, events[n], id);
      if id in Run(r, events[..n]).room.peers { StallsHoldTheLastReport(r, events[..n], id); }
    }
  }

  /** It is marked as the host exactly if the last word on that said so: a takeover by
    * departure marks nobody. */
  lemma {:induction false} MarksHoldTheLastWord(r: RoomState, events: seq<Event>, id: PeerID)
    requires id in Run(r, events).room.peers
    ensures var p, last := Run(r, events).room.peers[id], LastMark(r, events, id);
      if last.Some? then p.isHost == last.value else id in r.peers && p.isHost == r.peers[id].isHost
  {
    hide Act, Believes, SameIdentity, IdentityFrom, Counts;
    if events != [] {
      var n := |events| - 1;
      RunExtends(r, events, n);
      assert events[..n + 1] == events;
      ActKeepsEntries(Run(r, events[..n]).room, events[n], id);
      if id in Run(r, events[..n]).room.peers { MarksHoldTheLastWord(r, events[..n], id); }
    }
  }

  /** A greeting gets its peer into the roster exactly if the peer was never refused and
    * speaks version 2 at most; one without a version speaks version 1. */
  lemma GreetingsAreAdmittedExactly(r: RoomState, from: PeerID, m: Message)
    requires m.Hello?
    ensures var s := Step(r, from, m).room;
      if from !in r.refused && m.version <= 2
      then from in s.peers && s.peers[from].version == (if m.version == 0 then 1 else m.version)
      else s.peers == r.peers && from in s.refused
  {
    hide Answer;
  }

  /** Once an announcement is believed, the roster marks the host it names and nobody
    * else. */
  lemma BelievedHostIsMarked(r: RoomState, from: PeerID, host: PeerID)
    requires from !in r.refused && Step(r, from, Host(host)).effects != []
    ensures var s := Step(r, from, Host(host)).room;
      s.hostPeer == host && forall id | id in s.peers :: s.peers[id].isHost <==> id == host
  {
  }
}
