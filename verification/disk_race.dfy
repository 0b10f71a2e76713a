/** Saving the library, step by step. Whoever changes it afterwards takes a snapshot
  * under the lock and writes it, owners first and then the registry, without; so
  * several saves can be under way at once.
  */
module DiskRace {
  import opened TorrentLibrary
  import opened TorrentService

  type Thread = nat

  /** A saver has changed the library and not looked at it yet, or holds a snapshot, or
    * has written its owners. */
  datatype Phase = Owing | Holding(shot: Disk) | Half(shot: Disk)

  datatype State = State(lib: Library, disk: Disk, savers: map<Thread, Phase>)

  datatype Event =
    | Change(thread: Thread, act: Act)
    | Snap(thread: Thread)
    | WriteOwners(thread: Thread)
    | WriteRegistry(thread: Thread)

  predicate Saves(act: Act) {
    act.Insert? || act.Remove?
  }

  /** Only adds and successful removals are saved; another act leaves no saver. */
  predicate Enabled(s: State, e: Event) {
    match e
    case Change(t, act) => t !in s.savers
    case Snap(t) => t in s.savers && s.savers[t].Owing?
    case WriteOwners(t) => t in s.savers && s.savers[t].Holding?
    case WriteRegistry(t) => t in s.savers && s.savers[t].Half?
  }

  function After(s: State, e: Event): State
    requires Enabled(s, e)
  {
    match e
    case Change(t, act) =>
      s.(lib := Step(s.lib, act),
         savers := if Saves(act) && OutcomeOf(s.lib, act) == Done then s.savers[t := Owing] else s.savers)
    case Snap(t) => s.(savers := s.savers[t := Holding(Snapshot(s.lib))])
    case WriteOwners(t) =>
      var shot := s.savers[t].shot;
      s.(disk := s.disk.(owners := shot.owners), savers := s.savers[t := Half(shot)])
    case WriteRegistry(t) =>
      s.(disk := s.disk.(registry := s.savers[t].shot.registry), savers := s.savers - {t})
  }

  predicate Possible(s: State, run: seq<Event>)
    decreases |run|
  {
    run != [] ==> Enabled(s, run[0]) && Possible(After(s, run[0]), run[1..])
  }

  function Run(s: State, run: seq<Event>): State
    requires Possible(s, run)
    decreases |run|
  {
    if run == [] then s else Run(After(s, run[0]), run[1..])
  }

  predicate Writing(s: State) {
    exists t | t in s.savers :: !s.savers[t].Owing?
  }

  /** Nobody takes a snapshot while another save is being written. */
  predicate Serial(s: State, run: seq<Event>)
    requires Possible(s, run)
    decreases |run|
  {
    run != [] ==> (run[0].Snap? ==> !Writing(s)) && Serial(After(s, run[0]), run[1..])
  }

  /** Unless somebody still has to look, what is being written is the library of now,
    * and what is not being written is on the disk. */
  ghost predicate Inv(s: State) {
    && (forall t, u | t in s.savers && u in s.savers && !s.savers[t].Owing? && !s.savers[u].Owing? :: t == u)
    && ((forall t | t in s.savers :: !s.savers[t].Owing?) ==>
          && (forall t | t in s.savers :: s.savers[t].shot == Snapshot(s.lib))
          && (forall t | t in s.savers && s.savers[t].Half? :: s.disk.owners == s.lib.owners)
          && (s.savers == map[] ==> s.disk == Snapshot(s.lib)))
  }

  lemma UnsavedActsDoNotShow(lib: Library, act: Act)
    requires !(Saves(act) && OutcomeOf(lib, act) == Done)
    ensures Snapshot(Step(lib, act)) == Snapshot(lib) && Step(lib, act).owners == lib.owners
  {
    if act.Select? { assert forall id :: Remembered(Step(lib, act), id) == Remembered(lib, id); }
  }

  lemma ChangeKeepsInv(s: State, t: Thread, act: Act)
    requires Inv(s) && t !in s.savers
    ensures Inv(After(s, Change(t, act)))
  {
    if !(Saves(act) && OutcomeOf(s.lib, act) == Done) { UnsavedActsDoNotShow(s.lib, act); }
    hide Snapshot, OutcomeOf, Step;
    var s' := After(s, Change(t, act));
    if Saves(act) && OutcomeOf(s.lib, act) == Done {
      assert t in s'.savers && s'.savers[t].Owing?;
    }
  }

  lemma WriteKeepsInv(s: State, e: Event)
    requires Inv(s) && Enabled(s, e) && (e.WriteOwners? || e.WriteRegistry?)
    ensures Inv(After(s, e))
  {
    var s', t := After(s, e), e.thread;
    if w :| w in s.savers && s.savers[w].Owing? {
      assert w in s'.savers && s'.savers[w].Owing?;
    } else {
      assert s.savers == map[t := s.savers[t]];
      assert s.savers[t].shot.owners == s.lib.owners;
    }
  }

  lemma SnapKeepsInv(s: State, t: Thread)
    requires Inv(s) && Enabled(s, Snap(t)) && !Writing(s)
    ensures Inv(After(s, Snap(t)))
  {
    hide Snapshot;
    var s' := After(s, Snap(t));
    assert forall u | u in s.savers :: s.savers[u].Owing?;
    assert forall u | u in s'.savers && u != t :: s'.savers[u].Owing?;
    assert forall u | u in s'.savers && !s'.savers[u].Owing? :: u == t && s'.savers[u].Holding?;
    assert t in s'.savers;
  }

  /** In every run in which no snapshot is taken while another save is being written:
    * whenever no save is under way, the disk holds the library of now. Changes may
    * come at any moment. */
  lemma {:induction false} SerialSavesReachTheDisk(s: State, run: seq<Event>)
    requires Inv(s) && Possible(s, run) && Serial(s, run)
    ensures Inv(Run(s, run))
    ensures Run(s, run).savers == map[] ==> Run(s, run).disk == Snapshot(Run(s, run).lib)
    decreases |run|
  {
    hide After, Inv, Snapshot, Writing;
    if run == [] {
      QuietIsSaved(s);
    } else {
      match run[0] {
        case Change(t, act) => ChangeKeepsInv(s, t, act);
        case Snap(t) => SnapKeepsInv(s, t);
        case _ => WriteKeepsInv(s, run[0]);
      }
      SerialSavesReachTheDisk(After(s, run[0]), run[1..]);
    }
  }

  lemma QuietIsSaved(s: State)
    requires Inv(s)
    ensures s.savers == map[] ==> s.disk == Snapshot(s.lib)
  {
  }

  lemma {:induction false} RunTakesStep(s: State, run: seq<Event>, e: Event)
    requires Possible(s, run) && Enabled(Run(s, run), e)
    ensures Possible(s, run + [e]) && Run(s, run + [e]) == After(Run(s, run), e)
    decreases |run|
  {
    hide After, Enabled;
    if run == [] {
      assert (run + [e])[1..] == [];
      assert Possible(After(s, e), []);
    } else {
      assert (run + [e])[0] == run[0] && (run + [e])[1..] == run[1..] + [e];
      RunTakesStep(After(s, run[0]), run[1..], e);
    }
  }

  /** Two adds whose saves overlap: the one that looked first writes last, no save is
    * under way any more, and the other torrent is not on the disk. */
  lemma OverlappingSavesLoseATorrent(lib: Library, first: Act, second: Act) returns (run: seq<Event>)
    requires first.Insert? && second.Insert? && first.handle.id != second.handle.id
    requires second.handle.id !in lib.torrents
    ensures Possible(State(lib, Snapshot(lib), map[]), run)
    ensures var end := Run(State(lib, Snapshot(lib), map[]), run);
      && end.savers == map[] && end.lib == Step(Step(lib, first), second)
      && second.handle.id in end.lib.torrents && second.handle.id !in end.disk.registry
  {
    hide Possible, Run, Snapshot, Step, After;
    var s := State(lib, Snapshot(lib), map[]);
    run := BothLook(lib, first, second);
    run := WritesOut(s, run, 1);
    run := WritesOut(s, run, 0);
    AddsShow(lib, first, second);
    assert Run(s, run).savers == map[];
  }

  lemma BothLook(lib: Library, first: Act, second: Act) returns (run: seq<Event>)
    requires first.Insert? && second.Insert?
    ensures var s, lib1 := State(lib, Snapshot(lib), map[]), Step(lib, first);
      && Possible(s, run)
      && Run(s, run) == State(Step(lib1, second), Snapshot(lib),
                              map[0 := Holding(Snapshot(lib1)), 1 := Holding(Snapshot(Step(lib1, second)))])
  {
    hide Possible, Run, Snapshot, Step;
    var s := State(lib, Snapshot(lib), map[]);
    NothingRun(s);
    run := Looks(s, [], 0, first);
    run := Looks(s, run, 1, second);
  }

  /** An add, and the snapshot its saver takes. */
  lemma Looks(s: State, run: seq<Event>, t: Thread, act: Act) returns (run': seq<Event>)
    requires Possible(s, run) && act.Insert? && t !in Run(s, run).savers
    ensures Possible(s, run')
    ensures var mid, lib := Run(s, run), Step(Run(s, run).lib, act);
      Run(s, run') == State(lib, mid.disk, mid.savers[t := Holding(Snapshot(lib))])
  {
    hide Possible, Run, Snapshot, Step;
    var mid := Run(s, run);
    run' := Takes(s, run, Change(t, act));
    run' := Takes(s, run', Snap(t));
    assert mid.savers[t := Owing][t := Holding(Snapshot(Step(mid.lib, act)))]
        == mid.savers[t := Holding(Snapshot(Step(mid.lib, act)))];
  }

  /** A saver that holds a snapshot writes it out. */
  lemma WritesOut(s: State, run: seq<Event>, t: Thread) returns (run': seq<Event>)
    requires Possible(s, run) && t in Run(s, run).savers && Run(s, run).savers[t].Holding?
    ensures Possible(s, run')
    ensures var mid := Run(s, run); Run(s, run') == State(mid.lib, mid.savers[t].shot, mid.savers - {t})
  {
    hide Possible, Run;
    var mid := Run(s, run);
    run' := Takes(s, run, WriteOwners(t));
    run' := Takes(s, run', WriteRegistry(t));
    assert mid.savers[t := Half(mid.savers[t].shot)] - {t} == mid.savers - {t};
  }

  lemma NothingRun(s: State)
    ensures Possible(s, []) && Run(s, []) == s
  {
  }

  lemma Takes(s: State, run: seq<Event>, e: Event) returns (run': seq<Event>)
    requires Possible(s, run) && Enabled(Run(s, run), e)
    ensures Possible(s, run') && Run(s, run') == After(Run(s, run), e)
  {
    RunTakesStep(s, run, e);
    run' := run + [e];
  }

  lemma AddsShow(lib: Library, first: Act, second: Act)
    requires first.Insert? && second.Insert? && first.handle.id != second.handle.id
    requires second.handle.id !in lib.torrents
    ensures second.handle.id !in Snapshot(Step(lib, first)).registry
    ensures second.handle.id in Step(Step(lib, first), second).torrents
  {
  }
}
