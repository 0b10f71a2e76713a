/** Who may be dialled, step by step. The room's hints check a peer and mark it in two
  * steps; the search for the invited peer does both in one, on a thread of its own; a
  * dial that lands frees its peer. All of them share one set of marks.
  */
module DialFlights {
  import opened Wrappers
  import opened PeerOrder

  type Flight = nat

  /** `checked` is the peer a hint found free and has not marked yet. `flights` are the
    * dials on their way. */
  datatype State = State(
    known: set<PeerID>,
    dialing: set<PeerID>,
    checked: Option<PeerID>,
    flights: map<Flight, PeerID>)

  datatype Event =
    | Check(id: PeerID)
    | Mark(flight: Flight)
    | Discover(id: PeerID, flight: Flight)
    | Land(flight: Flight)
    | Connect(id: PeerID)
    | Lose(id: PeerID)

  predicate Enabled(s: State, e: Event) {
    match e
    case Check(_) => s.checked.None?
    case Mark(f) => s.checked.Some? && f !in s.flights
    case Discover(_, f) => f !in s.flights
    case Land(f) => f in s.flights
    case _ => true
  }

  predicate Free(s: State, id: PeerID) {
    id !in s.known && id !in s.dialing
  }

  function TakeOff(s: State, id: PeerID, f: Flight): State {
    s.(dialing := s.dialing + {id}, flights := s.flights[f := id])
  }

  function After(s: State, e: Event): State
    requires Enabled(s, e)
  {
    match e
    case Check(id) => s.(checked := if Free(s, id) then Some(id) else None)
    case Mark(f) => TakeOff(s, s.checked.value, f).(checked := None)
    case Discover(id, f) => if Free(s, id) then TakeOff(s, id, f) else s
    case Land(f) => s.(dialing := s.dialing - {s.flights[f]}, flights := s.flights - {f})
    case Connect(id) => s.(known := s.known + {id})
    case Lose(id) => s.(known := s.known - {id})
  }

  predicate Possible(s: State, run: seq<Event>)
    decreases |run|
  {
    run != [] ==> Enabled(s, run[0]) && Possible(After(s, run[0]), run[1..])
  }

  function Run(s: State, run: seq<Event>): State
    requires Possible(s, run)
    decreases |run|
  {
    if run == [] then s else Run(After(s, run[0]), run[1..])
  }

  /** The marks are those of the flights, and no peer has two. */
  ghost predicate OneFlightEach(s: State) {
    && (forall f | f in s.flights :: s.flights[f] in s.dialing)
    && (forall id | id in s.dialing :: exists f | f in s.flights :: s.flights[f] == id)
    && (forall f, g | f in s.flights && g in s.flights && s.flights[f] == s.flights[g] :: f == g)
  }

  /** At every moment of the run. */
  ghost predicate AlwaysOneFlight(s: State, run: seq<Event>)
    requires Possible(s, run)
    decreases |run|
  {
    OneFlightEach(s) && (run != [] ==> AlwaysOneFlight(After(s, run[0]), run[1..]))
  }

  /** Every mark of a hint still finds its peer unmarked. */
  predicate MarksAreFresh(s: State, run: seq<Event>)
    requires Possible(s, run)
    decreases |run|
  {
    run != [] ==> (run[0].Mark? ==> s.checked.value !in s.dialing) && MarksAreFresh(After(s, run[0]), run[1..])
  }

  lemma TakeOffKeepsOneEach(s: State, id: PeerID, f: Flight)
    requires OneFlightEach(s) && f !in s.flights
    ensures OneFlightEach(TakeOff(s, id, f)) <==> id !in s.dialing
  {
    var s' := TakeOff(s, id, f);
    if id in s.dialing {
      var g :| g in s.flights && s.flights[g] == id;
      assert s'.flights[f] == s'.flights[g];
    } else {
      assert s'.flights[f] == id;
      forall x | x in s'.dialing ensures exists g | g in s'.flights :: s'.flights[g] == x {
        if x != id {
          var g :| g in s.flights && s.flights[g] == x;
          assert s'.flights[g] == x;
        }
      }
    }
  }

  lemma LandingKeepsOneEach(s: State, f: Flight)
    requires OneFlightEach(s) && f in s.flights
    ensures OneFlightEach(After(s, Land(f)))
  {
    var s' := After(s, Land(f));
    forall x | x in s'.dialing ensures exists g | g in s'.flights :: s'.flights[g] == x {
      var g :| g in s.flights && s.flights[g] == x;
      assert g != f && s'.flights[g] == x;
    }
  }

  lemma StepKeepsOneEach(s: State, e: Event)
    requires OneFlightEach(s) && Enabled(s, e)
    ensures OneFlightEach(After(s, e)) <==> (e.Mark? ==> s.checked.value !in s.dialing)
  {
    match e
    case Mark(f) => TakeOffKeepsOneEach(s, s.checked.value, f);
    case Discover(id, f) => if Free(s, id) { TakeOffKeepsOneEach(s, id, f); }
    case Land(f) => LandingKeepsOneEach(s, f);
    case _ =>
  }

  /** No peer is dialled twice at once, at every moment of a run, exactly if every hint
    * still finds the peer it checked unmarked when it marks it. */
  lemma {:induction false} OneFlightExactlyIfMarksAreFresh(s: State, run: seq<Event>)
    requires OneFlightEach(s) && Possible(s, run)
    ensures AlwaysOneFlight(s, run) <==> MarksAreFresh(s, run)
    decreases |run|
  {
    hide After, Enabled, OneFlightEach;
    if run != [] {
      StepKeepsOneEach(s, run[0]);
      if OneFlightEach(After(s, run[0])) { OneFlightExactlyIfMarksAreFresh(After(s, run[0]), run[1..]); }
      else { NotAlways(After(s, run[0]), run[1..]); }
    }
  }

  lemma NotAlways(s: State, run: seq<Event>)
    requires Possible(s, run) && !OneFlightEach(s)
    ensures !AlwaysOneFlight(s, run)
  {
  }

  /** The search never looks for a peer that a hint has checked and not yet marked. */
  predicate NoOverlap(s: State, run: seq<Event>)
    requires Possible(s, run)
    decreases |run|
  {
    run != [] ==> !(run[0].Discover? && s.checked == Some(run[0].id)) && NoOverlap(After(s, run[0]), run[1..])
  }

  /** Without that overlap the guard holds in every run. */
  lemma {:induction false} NoOverlapNoDoubleFlight(s: State, run: seq<Event>)
    requires OneFlightEach(s) && Possible(s, run) && NoOverlap(s, run)
    requires s.checked.Some? ==> s.checked.value !in s.dialing
    ensures MarksAreFresh(s, run) && AlwaysOneFlight(s, run)
    decreases |run|
  {
    hide OneFlightEach;
    if run != [] {
      StepKeepsOneEach(s, run[0]);
      NoOverlapNoDoubleFlight(After(s, run[0]), run[1..]);
    }
  }

  /** With it, two dials of one peer are on their way, and when one lands the peer is
    * free to be dialled again under the other. */
  lemma SearchOvertakesAHint(s: State, id: PeerID, f: Flight, g: Flight)
    requires Free(s, id) && s.checked.None? && f != g && f !in s.flights && g !in s.flights
    ensures var run := [Check(id), Discover(id, f), Mark(g)];
      && Possible(s, run)
      && var end := Run(s, run);
      && f in end.flights && g in end.flights && end.flights[f] == end.flights[g] == id
      && Enabled(end, Land(f)) && Free(After(end, Land(f)), id) && g in After(end, Land(f)).flights
  {
    var run := [Check(id), Discover(id, f), Mark(g)];
    var s1 := After(s, Check(id));
    var s2 := After(s1, Discover(id, f));
    var s3 := After(s2, Mark(g));
    assert run[1..] == [Discover(id, f), Mark(g)] && run[1..][1..] == [Mark(g)] && run[1..][1..][1..] == [];
    assert Possible(s3, []) && Possible(s2, [Mark(g)]) && Possible(s1, run[1..]);
    assert Run(s2, [Mark(g)]) == s3 && Run(s1, run[1..]) == s3;
  }

  /** The last word in a run on whether a peer is connected. */
  function LastWord(run: seq<Event>, id: PeerID): Option<bool> {
    if run == [] then None
    else if LastWord(run[1..], id).Some? then LastWord(run[1..], id)
    else if run[0] == Connect(id) then Some(true)
    else if run[0] == Lose(id) then Some(false)
    else None
  }

  lemma {:induction false} KnownIsTheLastWord(s: State, run: seq<Event>, id: PeerID)
    requires Possible(s, run)
    ensures var known := id in Run(s, run).known;
      known == match LastWord(run, id) case Some(connected) => connected case None => id in s.known
    decreases |run|
  {
    if run != [] { KnownIsTheLastWord(After(s, run[0]), run[1..], id); }
  }

  /** A search dials exactly a peer whose connection is lost, or never was, and that
    * nobody is dialling. */
  lemma SearchDialsWhoIsMissing(s: State, run: seq<Event>, id: PeerID, f: Flight)
    requires Possible(s, run) && s.known == {} && f !in Run(s, run).flights
    ensures var now := Run(s, run);
      f in After(now, Discover(id, f)).flights <==> LastWord(run, id) != Some(true) && id !in now.dialing
  {
    KnownIsTheLastWord(s, run, id);
    hide Run;
  }
}
