/** Removing a torrent while it is being streamed. Serving, removing and adding run
  * on threads of their own; each step below is one critical section or one event
  * of theirs, and any order of steps is a run.
  */
module StreamDrain {

  type TorrentID = string

  /** A removal waits for the shared stream counter to reach zero, until its
    * caller's patience ends. */
  datatype Wait = Waiting | Drained | TimedOut

  datatype Removal = Removal(id: TorrentID, wait: Wait)

  /** `live` may be served; `streams` are being served right now and are what the
    * counter counts; `removals` have left the maps and not dropped yet. */
  datatype World = World(live: set<TorrentID>, streams: map<nat, TorrentID>, removals: map<nat, Removal>)

  datatype Event =
    | Add(id: TorrentID)
    | Serve(stream: nat, id: TorrentID)
    | Finish(stream: nat)
    | Begin(removal: nat, id: TorrentID)
    | CounterIsZero(removal: nat)
    | GiveUp(removal: nat)
    | Drop(removal: nat)

  predicate Enabled(w: World, e: Event) {
    match e
    case Add(_) => true
    case Serve(s, id) => id in w.live && s !in w.streams
    case Finish(s) => s in w.streams
    case Begin(r, id) => id in w.live && r !in w.removals
    case CounterIsZero(r) => r in w.removals && w.removals[r].wait.Waiting? && w.streams == map[]
    case GiveUp(r) => r in w.removals && w.removals[r].wait.Waiting?
    case Drop(r) => r in w.removals && !w.removals[r].wait.Waiting?
  }

  function After(w: World, e: Event): World
    requires Enabled(w, e)
  {
    match e
    case Add(id) => w.(live := w.live + {id})
    case Serve(s, id) => w.(streams := w.streams[s := id])
    case Finish(s) => w.(streams := w.streams - {s})
    case Begin(r, id) => w.(live := w.live - {id}, removals := w.removals[r := Removal(id, Waiting)])
    case CounterIsZero(r) => w.(removals := w.removals[r := w.removals[r].(wait := Drained)])
    case GiveUp(r) => w.(removals := w.removals[r := w.removals[r].(wait := TimedOut)])
    case Drop(r) => w.(removals := w.removals - {r})
  }

  predicate Possible(w: World, events: seq<Event>)
    decreases |events|
  {
    events != [] ==> Enabled(w, events[0]) && Possible(After(w, events[0]), events[1..])
  }

  function Run(w: World, events: seq<Event>): World
    requires Possible(w, events)
    decreases |events|
  {
    if events == [] then w else Run(After(w, events[0]), events[1..])
  }

  predicate Active(w: World, id: TorrentID) {
    exists s | s in w.streams :: w.streams[s] == id
  }

  // ---------- no torrent is dropped under a reader ----------

  /** Where removal `r` of `id` stands while `id` is not added again: nobody new can
    * be served, and once the wait drained nobody is. */
  predicate Quiet(w: World, r: nat, id: TorrentID) {
    && id !in w.live
    && r in w.removals && w.removals[r].id == id
    && (w.removals[r].wait.Drained? ==> !Active(w, id))
  }

  lemma QuietStaysQuiet(w: World, e: Event, r: nat, id: TorrentID)
    requires Enabled(w, e) && Quiet(w, r, id)
    requires e != Add(id) && e != Drop(r)
    ensures Quiet(After(w, e), r, id)
  {
  }

  /** From a quiet state on, only adding the torrent again or giving up the wait
    * lets anybody read it before its drop. */
  lemma {:induction false} QuietUntilTheDrop(w: World, events: seq<Event>, r: nat, id: TorrentID)
    requires Quiet(w, r, id) && !w.removals[r].wait.TimedOut?
    requires Possible(w, events + [Drop(r)]) && Drop(r) !in events
    requires Add(id) !in events && GiveUp(r) !in events
    ensures Possible(w, events) && !Active(Run(w, events), id)
    decreases |events|
  {
    Split(w, events, Drop(r));
    if events != [] {
      var e, rest := events[0], events[1..];
      assert e in events && forall x | x in rest :: x in events;
      QuietStaysQuiet(w, e, r, id);
      QuietUntilTheDrop(After(w, e), rest, r, id);
    }
  }

  lemma Split(w: World, events: seq<Event>, last: Event)
    requires Possible(w, events + [last])
    ensures Enabled(w, (events + [last])[0])
    ensures events == [] ==> Enabled(w, last)
    ensures events != [] ==> Enabled(w, events[0]) && Possible(After(w, events[0]), events[1..] + [last])
  {
    if events != [] {
      assert (events + [last])[1..] == events[1..] + [last];
    }
  }

  lemma {:induction false} EndsEnabled(w: World, events: seq<Event>, last: Event)
    requires Possible(w, events + [last])
    ensures Possible(w, events) && Enabled(Run(w, events), last)
    decreases |events|
  {
    Split(w, events, last);
    if events != [] { EndsEnabled(After(w, events[0]), events[1..], last); }
  }

  /** No torrent is dropped under a reader: whatever else runs between a removal's
    * first step and its drop, somebody can be reading the torrent at the drop only
    * if the removal gave up waiting or the torrent was added again meanwhile. */
  lemma NoDropUnderAReader(w: World, r: nat, id: TorrentID, events: seq<Event>)
    requires Enabled(w, Begin(r, id))
    requires Possible(After(w, Begin(r, id)), events + [Drop(r)]) && Drop(r) !in events
    ensures Possible(After(w, Begin(r, id)), events)
    ensures Active(Run(After(w, Begin(r, id)), events), id) ==> Add(id) in events || GiveUp(r) in events
  {
    var begun := After(w, Begin(r, id));
    EndsEnabled(begun, events, Drop(r));
    if Add(id) !in events && GiveUp(r) !in events {
      QuietUntilTheDrop(begun, events, r, id);
    }
  }

  lemma Then(w: World, e: Event, rest: seq<Event>)
    requires Enabled(w, e) && Possible(After(w, e), rest)
    ensures Possible(w, [e] + rest) && Run(w, [e] + rest) == Run(After(w, e), rest)
  {
    assert ([e] + rest)[1..] == rest;
  }

  /** Both exceptions are real. A wait that is given up drops under its reader... */
  lemma GivingUpDropsUnderAReader(w: World, r: nat, s: nat, id: TorrentID)
    requires id in w.live && s !in w.streams && r !in w.removals
    ensures var events := [Serve(s, id)] + ([Begin(r, id)] + ([GiveUp(r)] + []));
            Possible(w, events) && Active(Run(w, events), id) && Enabled(Run(w, events), Drop(r))
  {
    var w1 := After(w, Serve(s, id));
    var w2 := After(w1, Begin(r, id));
    var w3 := After(w2, GiveUp(r));
    Then(w2, GiveUp(r), []);
    Then(w1, Begin(r, id), [GiveUp(r)] + []);
    Then(w, Serve(s, id), [Begin(r, id)] + ([GiveUp(r)] + []));
    assert w3.streams[s] == id;
  }

  /** ... and so does one that drained just before the torrent was added again. */
  lemma ReaddingDropsUnderAReader(w: World, r: nat, s: nat, id: TorrentID)
    requires id in w.live && w.streams == map[] && r !in w.removals
    ensures var events := [Begin(r, id)] + ([CounterIsZero(r)] + ([Add(id)] + ([Serve(s, id)] + [])));
            Possible(w, events) && Active(Run(w, events), id) && Enabled(Run(w, events), Drop(r))
  {
    var w1 := After(w, Begin(r, id));
    var w2 := After(w1, CounterIsZero(r));
    var w3 := After(w2, Add(id));
    var w4 := After(w3, Serve(s, id));
    Then(w3, Serve(s, id), []);
    Then(w2, Add(id), [Serve(s, id)] + []);
    Then(w1, CounterIsZero(r), [Add(id)] + ([Serve(s, id)] + []));
    Then(w, Begin(r, id), [CounterIsZero(r)] + ([Add(id)] + ([Serve(s, id)] + [])));
    assert w4.streams[s] == id;
  }

  // ---------- no torrent is dropped twice ----------

  function Adds(events: seq<Event>, id: TorrentID): nat {
    if events == [] then 0 else (if events[0] == Add(id) then 1 else 0) + Adds(events[1..], id)
  }

  function Drops(w: World, events: seq<Event>, id: TorrentID): nat
    requires Possible(w, events)
    decreases |events|
  {
    if events == [] then 0
    else
      (if events[0].Drop? && w.removals[events[0].removal].id == id then 1 else 0)
      + Drops(After(w, events[0]), events[1..], id)
  }

  function Pending(w: World, id: TorrentID): set<nat> {
    set r | r in w.removals && w.removals[r].id == id
  }

  /** What `id` still has coming: drops under way, and one more while it is live. */
  function Owed(w: World, id: TorrentID): nat {
    |Pending(w, id)| + if id in w.live then 1 else 0
  }

  lemma PendingAfter(w: World, e: Event, id: TorrentID)
    requires Enabled(w, e)
    ensures e.Begin? ==> Pending(After(w, e), id) == Pending(w, id) + (if e.id == id then {e.removal} else {})
    ensures e.Drop? ==>
      Pending(After(w, e), id) == Pending(w, id) - (if w.removals[e.removal].id == id then {e.removal} else {})
    ensures !e.Begin? && !e.Drop? ==> Pending(After(w, e), id) == Pending(w, id)
  {
  }

  lemma OwedPaysForDrops(w: World, e: Event, id: TorrentID)
    requires Enabled(w, e)
    ensures Owed(After(w, e), id) + (if e.Drop? && w.removals[e.removal].id == id then 1 else 0)
         <= Owed(w, id) + if e == Add(id) then 1 else 0
  {
    PendingAfter(w, e, id);
    if e.Begin? {
      assert e.removal !in Pending(w, id);
    } else if e.Drop? && w.removals[e.removal].id == id {
      assert e.removal in Pending(w, id);
    }
    hide Pending;
  }

  /** In every run each add of a torrent is dropped at most once: the drops so far,
    * those under way and the live torrent are all paid for by adds. */
  lemma {:induction false} EachAddIsDroppedAtMostOnce(w: World, events: seq<Event>, id: TorrentID)
    requires Possible(w, events)
    ensures Drops(w, events, id) + Owed(Run(w, events), id) <= Owed(w, id) + Adds(events, id)
    decreases |events|
  {
    if events != [] {
      OwedPaysForDrops(w, events[0], id);
      EachAddIsDroppedAtMostOnce(After(w, events[0]), events[1..], id);
    }
  }
}
