/** The memory pool under contention: any number of threads ask for pieces and
  * close torrents at once. A provider's lock is held from the moment a thread
  * finds its piece missing until the piece is kept or given up; the counter itself
  * is only ever loaded and compare-and-swapped.
  */
module Charging {
  import opened FiniteSums

  const MAX_ATTEMPTS := 100

  type Provider = nat
  type Thread = nat

  datatype Key = Key(provider: Provider, index: int)

  datatype Claim = Claim(key: Key, length: nat)

  /** Where a thread is inside its provider's lock: about to load the counter, about
    * to swap it, or with its bytes reserved and the piece not yet in the map. */
  datatype Phase =
    | Trying(claim: Claim, attempts: nat)
    | Loaded(claim: Claim, attempts: nat, current: int)
    | Reserved(claim: Claim)

  datatype Memory = Memory(
    capacity: int,
    used: int,
    pieces: map<Key, nat>,
    totalBytes: map<Provider, nat>,
    threads: map<Thread, Phase>)

  function NewMemory(capacity: int): Memory {
    Memory(capacity, 0, map[], map[], map[])
  }

  datatype Event =
    | Ask(thread: Thread, claim: Claim)
    | Load(thread: Thread)
    | Swap(thread: Thread)
    | Exhaust(thread: Thread)
    | Charge(thread: Thread)
    | Keep(thread: Thread)
    | Close(provider: Provider)

  predicate Locked(m: Memory, p: Provider) {
    exists t | t in m.threads :: m.threads[t].claim.key.provider == p
  }

  function Total(m: Memory, p: Provider): nat {
    if p in m.totalBytes then m.totalBytes[p] else 0
  }

  predicate Fits(m: Memory, claim: Claim) {
    m.used + claim.length <= m.capacity
  }

  /** `Charge` is the single step of a pool without a capacity. */
  predicate Enabled(m: Memory, e: Event) {
    match e
    case Ask(t, claim) => t !in m.threads && !Locked(m, claim.key.provider) && claim.key !in m.pieces
    case Load(t) => t in m.threads && m.threads[t].Trying? && m.capacity > 0 && m.threads[t].attempts < MAX_ATTEMPTS
    case Swap(t) => t in m.threads && m.threads[t].Loaded?
    case Exhaust(t) => t in m.threads && m.threads[t].Trying? && m.capacity > 0 && m.threads[t].attempts >= MAX_ATTEMPTS
    case Charge(t) => t in m.threads && m.threads[t].Trying? && m.capacity <= 0
    case Keep(t) => t in m.threads && m.threads[t].Reserved?
    case Close(p) => !Locked(m, p)
  }

  function After(m: Memory, e: Event): Memory
    requires Enabled(m, e)
  {
    match e
    case Ask(t, claim) => m.(threads := m.threads[t := Trying(claim, 0)])
    case Load(t) =>
      var th := m.threads[t];
      if Fits(m, th.claim) then m.(threads := m.threads[t := Loaded(th.claim, th.attempts, m.used)])
      else m.(threads := m.threads - {t})
    case Swap(t) =>
      var th := m.threads[t];
      if m.used == th.current then Reserving(m, t, th.claim)
      else m.(threads := m.threads[t := Trying(th.claim, th.attempts + 1)])
    case Exhaust(t) => m.(threads := m.threads - {t})
    case Charge(t) => Reserving(m, t, m.threads[t].claim)
    case Keep(t) =>
      var claim := m.threads[t].claim;
      m.(pieces := m.pieces[claim.key := claim.length],
         totalBytes := m.totalBytes[claim.key.provider := Total(m, claim.key.provider) + claim.length],
         threads := m.threads - {t})
    case Close(p) =>
      m.(used := m.used - Total(m, p), pieces := m.pieces - OfProvider(m, p))
  }

  function Reserving(m: Memory, t: Thread, claim: Claim): Memory {
    m.(used := m.used + claim.length, threads := m.threads[t := Reserved(claim)])
  }

  function OfProvider(m: Memory, p: Provider): set<Key> {
    set k | k in m.pieces && k.provider == p
  }

  predicate Possible(m: Memory, events: seq<Event>)
    decreases |events|
  {
    events != [] ==> Enabled(m, events[0]) && Possible(After(m, events[0]), events[1..])
  }

  function Run(m: Memory, events: seq<Event>): Memory
    requires Possible(m, events)
    decreases |events|
  {
    if events == [] then m else Run(After(m, events[0]), events[1..])
  }

  // ---------- the capacity ----------

  /** What the counter's readers may rely on. */
  ghost predicate Bounded(m: Memory) {
    && (m.capacity > 0 ==> m.used <= m.capacity)
    && (forall t | t in m.threads && m.threads[t].Loaded? ::
          m.capacity > 0 && m.threads[t].current + m.threads[t].claim.length <= m.capacity)
  }

  lemma StepStaysBounded(m: Memory, e: Event)
    requires Bounded(m) && Enabled(m, e)
    ensures Bounded(After(m, e)) && After(m, e).capacity == m.capacity
  {
  }

  /** Under every interleaving the charged bytes stay within a positive capacity. */
  lemma {:induction false} CapacityHolds(m: Memory, events: seq<Event>)
    requires Bounded(m) && Possible(m, events)
    ensures Bounded(Run(m, events)) && Run(m, events).capacity == m.capacity
    decreases |events|
  {
    if events != [] {
      StepStaysBounded(m, events[0]);
      CapacityHolds(After(m, events[0]), events[1..]);
    }
  }

  // ---------- one thread per provider ----------

  /** A provider's lock has one holder, and what it is claiming is not kept yet. */
  ghost predicate Exclusive(m: Memory) {
    && (forall t, u | t in m.threads && u in m.threads &&
                      m.threads[t].claim.key.provider == m.threads[u].claim.key.provider :: t == u)
    && (forall t | t in m.threads :: m.threads[t].claim.key !in m.pieces)
  }

  lemma StepStaysExclusive(m: Memory, e: Event)
    requires Exclusive(m) && Enabled(m, e)
    ensures Exclusive(After(m, e))
  {
    if e.Ask? {
      forall t | t in m.threads ensures m.threads[t].claim.key.provider != e.claim.key.provider {
      }
    }
  }

  // ---------- what other threads cannot touch ----------

  /** A step of somebody else: a close, or a step of another thread. */
  predicate OtherThan(e: Event, t: Thread) {
    e.Close? || e.thread != t
  }

  /** The pieces and the total of one provider are the same in both. */
  ghost predicate SameProvider(m: Memory, m': Memory, p: Provider) {
    && Total(m', p) == Total(m, p)
    && forall k: Key | k.provider == p ::
         (k in m'.pieces <==> k in m.pieces) && (k in m.pieces ==> m'.pieces[k] == m.pieces[k])
  }

  lemma OtherStep(m: Memory, e: Event, t: Thread)
    requires Exclusive(m) && Enabled(m, e) && OtherThan(e, t) && t in m.threads
    ensures var m' := After(m, e);
      && t in m'.threads && m'.threads[t] == m.threads[t] && m'.capacity == m.capacity
      && SameProvider(m, m', m.threads[t].claim.key.provider)
  {
    assert Locked(m, m.threads[t].claim.key.provider);
  }

  /** While a thread is inside its provider's lock, others leave that thread and
    * that provider alone, whatever else they do. */
  lemma {:induction false} OthersStayOut(m: Memory, events: seq<Event>, t: Thread)
    requires Exclusive(m) && Possible(m, events) && t in m.threads
    requires forall e | e in events :: OtherThan(e, t)
    ensures var m' := Run(m, events);
      && Exclusive(m') && t in m'.threads && m'.threads[t] == m.threads[t] && m'.capacity == m.capacity
      && SameProvider(m, m', m.threads[t].claim.key.provider)
    decreases |events|
  {
    hide Exclusive, After;
    if events != [] {
      assert events[0] in events && forall e | e in events[1..] :: e in events;
      OtherStep(m, events[0], t);
      StepStaysExclusive(m, events[0]);
      OthersStayOut(After(m, events[0]), events[1..], t);
    }
  }

  lemma {:induction false} RunGoesOn(m: Memory, events: seq<Event>, more: seq<Event>)
    requires Possible(m, events) && Possible(Run(m, events), more)
    ensures Possible(m, events + more) && Run(m, events + more) == Run(Run(m, events), more)
    decreases |events|
  {
    hide After, Enabled;
    if events == [] {
      assert events + more == more;
    } else {
      assert (events + more)[0] == events[0] && (events + more)[1..] == events[1..] + more;
      RunGoesOn(After(m, events[0]), events[1..], more);
    }
  }

  lemma RunTakesStep(m: Memory, events: seq<Event>, e: Event)
    requires Possible(m, events) && Enabled(Run(m, events), e)
    ensures Possible(m, events + [e]) && Run(m, events + [e]) == After(Run(m, events), e)
  {
    hide After, Enabled;
    var mid := Run(m, events);
    assert [e][1..] == [];
    assert Possible(After(mid, e), []) && Possible(mid, [e]);
    RunGoesOn(m, events, [e]);
  }

  /** `blocks(i)` is what the other threads do between the load and the swap of
    * attempt `i`, and `rivals(i)` what that does to the counter. */
  ghost predicate Contended(m: Memory, t: Thread, blocks: nat -> seq<Event>, rivals: nat -> int, i: nat)
    decreases MAX_ATTEMPTS - i
  {
    i < MAX_ATTEMPTS && Enabled(m, Load(t)) && t in After(m, Load(t)).threads ==>
      var loaded := After(m, Load(t));
      && (forall e | e in blocks(i) :: OtherThan(e, t)) && Possible(loaded, blocks(i))
      && var met := Run(loaded, blocks(i));
      && Enabled(met, Swap(t)) && met.used == loaded.used + rivals(i)
      && Contended(After(met, Swap(t)), t, blocks, rivals, i + 1)
  }

  /** Where a thread that has just begun an attempt goes from here. */
  lemma AttemptGoes(m: Memory, t: Thread, blocks: nat -> seq<Event>, rivals: nat -> int, i: nat)
    requires i < MAX_ATTEMPTS && m.capacity > 0 && t in m.threads && m.threads[t] == Trying(m.threads[t].claim, i)
    requires Contended(m, t, blocks, rivals, i)
    ensures Enabled(m, Load(t))
    ensures var l, claim := After(m, Load(t)), m.threads[t].claim;
      && l.used == m.used && l.capacity == m.capacity && SameProvider(m, l, claim.key.provider)
      && if !Fits(m, claim) then t !in l.threads
         else
           && t in l.threads && l.threads[t] == Loaded(claim, i, m.used)
           && (forall e | e in blocks(i) :: OtherThan(e, t)) && Possible(l, blocks(i))
           && var met := Run(l, blocks(i));
           && Enabled(met, Swap(t)) && met.used == l.used + rivals(i)
           && Contended(After(met, Swap(t)), t, blocks, rivals, i + 1)
  {
  }

  /** What the swap of a thread does. */
  lemma SwapGoes(m: Memory, t: Thread)
    requires t in m.threads && m.threads[t].Loaded?
    ensures Enabled(m, Swap(t))
    ensures var m', th := After(m, Swap(t)), m.threads[t];
      && t in m'.threads && m'.capacity == m.capacity && SameProvider(m, m', th.claim.key.provider)
      && if m.used == th.current then m'.threads[t] == Reserved(th.claim) && m'.used == m.used + th.claim.length
         else m'.threads[t] == Trying(th.claim, th.attempts + 1) && m'.used == m.used
  {
  }

  /** And the steps that end the attempts, or need none. */
  lemma ChargeGoes(m: Memory, t: Thread)
    requires t in m.threads && m.threads[t].Trying? && m.capacity <= 0
    ensures Enabled(m, Charge(t))
    ensures var m', claim := After(m, Charge(t)), m.threads[t].claim;
      && t in m'.threads && m'.threads[t] == Reserved(claim) && m'.used == m.used + claim.length
      && m'.capacity == m.capacity && SameProvider(m, m', claim.key.provider)
  {
  }

  lemma ExhaustGoes(m: Memory, t: Thread)
    requires t in m.threads && m.threads[t].Trying? && m.capacity > 0 && m.threads[t].attempts >= MAX_ATTEMPTS
    ensures Enabled(m, Exhaust(t))
    ensures var m' := After(m, Exhaust(t));
      && t !in m'.threads && m'.used == m.used
      && m'.capacity == m.capacity && SameProvider(m, m', m.threads[t].claim.key.provider)
  {
  }

  lemma SameProviderTwice(a: Memory, b: Memory, c: Memory, p: Provider)
    requires SameProvider(a, b, p) && SameProvider(b, c, p)
    ensures SameProvider(a, c, p)
  {
  }

  /** A thread enters its provider's lock, and leaves it with its piece kept. */
  lemma AskGoes(m: Memory, t: Thread, claim: Claim)
    requires t !in m.threads && !Locked(m, claim.key.provider) && claim.key !in m.pieces
    ensures Enabled(m, Ask(t, claim))
    ensures var m' := After(m, Ask(t, claim));
      && t in m'.threads && m'.threads[t] == Trying(claim, 0) && m'.used == m.used && m'.capacity == m.capacity
      && SameProvider(m, m', claim.key.provider)
  {
  }

  lemma KeepGoes(m: Memory, t: Thread)
    requires t in m.threads && m.threads[t].Reserved?
    ensures Enabled(m, Keep(t))
    ensures var m', claim := After(m, Keep(t)), m.threads[t].claim;
      && t !in m'.threads && m'.used == m.used && m'.capacity == m.capacity
      && m'.pieces == m.pieces[claim.key := claim.length]
      && Total(m', claim.key.provider) == Total(m, claim.key.provider) + claim.length
  {
  }

  // ---------- the books ----------

  function InFlight(m: Memory): map<Thread, nat> {
    map t | t in m.threads && m.threads[t].Reserved? :: m.threads[t].claim.length
  }

  ghost function Held(m: Memory): nat {
    Sum(m.pieces)
  }

  ghost function ByProvider(m: Memory, p: Provider): nat {
    Sum(Part(m.pieces, OfProvider(m, p)))
  }

  /** The bookkeeping of a run: what each provider had been charged when it was last
    * closed, and how much was given back that was not charged any more. */
  datatype Ledger = Ledger(stale: map<Provider, nat>, debt: nat)

  function Stale(l: Ledger, p: Provider): nat {
    if p in l.stale then l.stale[p] else 0
  }

  function Noted(m: Memory, l: Ledger, e: Event): Ledger {
    if e.Close? then Ledger(l.stale[e.provider := Total(m, e.provider)], l.debt + Stale(l, e.provider)) else l
  }

  function Noting(m: Memory, l: Ledger, events: seq<Event>): Ledger
    requires Possible(m, events)
    decreases |events|
  {
    if events == [] then l else Noting(After(m, events[0]), Noted(m, l, events[0]), events[1..])
  }

  ghost predicate Balanced(m: Memory, l: Ledger) {
    && Exclusive(m)
    && m.used == Held(m) + Sum(InFlight(m)) - l.debt
    && (forall p: Provider :: Total(m, p) == ByProvider(m, p) + Stale(l, p))
  }

  lemma ThreadsMove(m: Memory, m': Memory, t: Thread)
    requires m'.threads.Keys + {t} == m.threads.Keys + {t}
    requires forall u | u in m.threads && u != t :: m'.threads[u] == m.threads[u]
    requires t in m.threads ==> !m.threads[t].Reserved?
    ensures Sum(InFlight(m'))
         == Sum(InFlight(m)) + if t in m'.threads && m'.threads[t].Reserved? then m'.threads[t].claim.length else 0
  {
    if t in m'.threads && m'.threads[t].Reserved? {
      assert InFlight(m') == InFlight(m)[t := m'.threads[t].claim.length];
      SumPutsIn(InFlight(m), t, m'.threads[t].claim.length);
    } else {
      assert InFlight(m') == InFlight(m);
    }
  }

  lemma SamePieces(m: Memory, m': Memory)
    requires m'.pieces == m.pieces && m'.totalBytes == m.totalBytes
    ensures forall p: Provider :: ByProvider(m', p) == ByProvider(m, p) && Total(m', p) == Total(m, p)
  {
    forall p: Provider ensures ByProvider(m', p) == ByProvider(m, p) {
      assert OfProvider(m', p) == OfProvider(m, p);
    }
  }

  lemma KeptShape(m: Memory, e: Event)
    requires Exclusive(m) && Enabled(m, e) && e.Keep?
    ensures var m', t, claim := After(m, e), e.thread, m.threads[e.thread].claim;
            && claim.key !in m.pieces && m'.pieces == m.pieces[claim.key := claim.length]
            && m'.used == m.used
            && t in InFlight(m) && InFlight(m)[t] == claim.length && InFlight(m') == InFlight(m) - {t}
            && (forall p: Provider :: Total(m', p) == Total(m, p) + if p == claim.key.provider then claim.length else 0)
  {
  }

  lemma KeepBalances(m: Memory, l: Ledger, e: Event)
    requires Balanced(m, l) && Enabled(m, e) && e.Keep?
    ensures Balanced(After(m, e), l)
  {
    StepStaysExclusive(m, e);
    KeptShape(m, e);
    hide Exclusive, ByProvider, InFlight, OfProvider, After, Total;
    var m', claim := After(m, e), m.threads[e.thread].claim;
    SumPutsIn(m.pieces, claim.key, claim.length);
    SumTakesOut(InFlight(m), e.thread);
    forall p: Provider ensures Total(m', p) == ByProvider(m', p) + Stale(l, p) {
      KeptBy(m, m', claim, p);
    }
  }

  lemma KeptBy(m: Memory, m': Memory, claim: Claim, p: Provider)
    requires claim.key !in m.pieces && m'.pieces == m.pieces[claim.key := claim.length]
    ensures ByProvider(m', p) == ByProvider(m, p) + if p == claim.key.provider then claim.length else 0
  {
    var before, after := Part(m.pieces, OfProvider(m, p)), Part(m'.pieces, OfProvider(m', p));
    if p == claim.key.provider {
      assert after == before[claim.key := claim.length];
      SumPutsIn(before, claim.key, claim.length);
    } else {
      assert after == before;
    }
  }

  lemma ClosedBy(m: Memory, m': Memory, p: Provider, q: Provider)
    requires m'.pieces == m.pieces - OfProvider(m, p)
    ensures ByProvider(m', q) == if q == p then 0 else ByProvider(m, q)
  {
    var after := Part(m'.pieces, OfProvider(m', q));
    if q == p {
      assert after == map[];
    } else {
      assert after == Part(m.pieces, OfProvider(m, q));
    }
  }

  lemma CloseBalances(m: Memory, l: Ledger, e: Event)
    requires Balanced(m, l) && Enabled(m, e) && e.Close?
    ensures Balanced(After(m, e), Noted(m, l, e))
  {
    var m', p := After(m, e), e.provider;
    StepStaysExclusive(m, e);
    SumSplits(m.pieces, OfProvider(m, p));
    assert InFlight(m') == InFlight(m);
    forall q: Provider ensures ByProvider(m', q) == if q == p then 0 else ByProvider(m, q) {
      ClosedBy(m, m', p, q);
    }
    assert Total(m, p) == ByProvider(m, p) + Stale(l, p);
    hide Exclusive, ByProvider, InFlight, OfProvider;
  }

  /** The other steps move one thread, and move the counter only with a reservation. */
  lemma OnlyReservationsCount(m: Memory, e: Event)
    requires Enabled(m, e) && !e.Keep? && !e.Close?
    ensures var m', t := After(m, e), e.thread;
            && m'.pieces == m.pieces && m'.totalBytes == m.totalBytes
            && m'.threads.Keys + {t} == m.threads.Keys + {t}
            && (forall u | u in m.threads && u != t :: m'.threads[u] == m.threads[u])
            && (t in m.threads ==> !m.threads[t].Reserved?)
            && m'.used == m.used + if t in m'.threads && m'.threads[t].Reserved? then m'.threads[t].claim.length else 0
  {
  }

  lemma StepStaysBalanced(m: Memory, l: Ledger, e: Event)
    requires Balanced(m, l) && Enabled(m, e)
    ensures Balanced(After(m, e), Noted(m, l, e))
  {
    if e.Keep? {
      KeepBalances(m, l, e);
    } else if e.Close? {
      CloseBalances(m, l, e);
    } else {
      var m' := After(m, e);
      StepStaysExclusive(m, e);
      OnlyReservationsCount(m, e);
      SamePieces(m, m');
      ThreadsMove(m, m', e.thread);
      hide After, Enabled, Exclusive, InFlight, ByProvider, Total;
    }
  }

  /** Every close finds its provider either never closed before or not charged
    * anything by then. */
  predicate NoRepeatedClose(m: Memory, l: Ledger, events: seq<Event>)
    requires Possible(m, events)
    decreases |events|
  {
    events != [] ==>
      && (events[0].Close? ==> Stale(l, events[0].provider) == 0)
      && NoRepeatedClose(After(m, events[0]), Noted(m, l, events[0]), events[1..])
  }

  /** The counter is exactly the bytes of the kept pieces and of the reservations
    * under way, less what repeated closes gave back twice. It is exact if and only
    * if no close repeats one that had bytes to give back. */
  lemma {:induction false} ChargingIsConserved(m: Memory, l: Ledger, events: seq<Event>)
    requires Balanced(m, l) && Possible(m, events)
    ensures var m', l' := Run(m, events), Noting(m, l, events);
            && Balanced(m', l')
            && l'.debt >= l.debt
            && (m'.used == Held(m') + Sum(InFlight(m')) - l.debt <==> NoRepeatedClose(m, l, events))
    decreases |events|
  {
    if events != [] {
      StepStaysBalanced(m, l, events[0]);
      ChargingIsConserved(After(m, events[0]), Noted(m, l, events[0]), events[1..]);
    }
  }

  /** A fresh pool starts out balanced and bounded. */
  lemma FreshPool(capacity: int)
    ensures Balanced(NewMemory(capacity), Ledger(map[], 0)) && Bounded(NewMemory(capacity))
  {
    forall p: Provider ensures ByProvider(NewMemory(capacity), p) == 0 {
      assert Part(NewMemory(capacity).pieces, OfProvider(NewMemory(capacity), p)) == map[];
    }
  }

  // ---------- each piece is charged once ----------

  /** This step moves the counter on behalf of `key`. */
  predicate Charges(m: Memory, e: Event, key: Key)
    requires Enabled(m, e)
  {
    (e.Swap? || e.Charge?) && m.threads[e.thread].claim.key == key && After(m, e).threads[e.thread].Reserved?
  }

  function TimesCharged(m: Memory, events: seq<Event>, key: Key): nat
    requires Possible(m, events)
    decreases |events|
  {
    if events == [] then 0
    else (if Charges(m, events[0], key) then 1 else 0) + TimesCharged(After(m, events[0]), events[1..], key)
  }

  function TimesClosed(events: seq<Event>, p: Provider): nat {
    if events == [] then 0 else (if events[0] == Close(p) then 1 else 0) + TimesClosed(events[1..], p)
  }

  predicate Taken(m: Memory, key: Key) {
    key in m.pieces || exists t | t in m.threads :: m.threads[t].Reserved? && m.threads[t].claim.key == key
  }

  function One(b: bool): nat {
    if b then 1 else 0
  }

  lemma OnlyFreePiecesAreCharged(m: Memory, e: Event, key: Key)
    requires Exclusive(m) && Enabled(m, e) && Charges(m, e, key)
    ensures !Taken(m, key) && Taken(After(m, e), key)
  {
    assert After(m, e).threads[e.thread].claim.key == key;
  }

  lemma OnlyCloseFrees(m: Memory, e: Event, key: Key)
    requires Enabled(m, e) && Taken(m, key) && e != Close(key.provider)
    ensures Taken(After(m, e), key)
  {
    if key !in m.pieces {
      var t :| t in m.threads && m.threads[t].Reserved? && m.threads[t].claim.key == key;
      if e != Keep(t) {
        assert t in After(m, e).threads && After(m, e).threads[t] == m.threads[t];
      }
    }
  }

  /** However many threads ask for a piece at once, it is charged once, and once
    * more at most for each time its torrent was closed. */
  lemma {:induction false} EachPieceIsChargedOnce(m: Memory, events: seq<Event>, key: Key)
    requires Exclusive(m) && Possible(m, events)
    ensures TimesCharged(m, events, key) + One(Taken(m, key)) <= TimesClosed(events, key.provider)
        + One(Taken(Run(m, events), key))
    decreases |events|
  {
    if events != [] {
      var e := events[0];
      StepStaysExclusive(m, e);
      EachPieceIsChargedOnce(After(m, e), events[1..], key);
      if Charges(m, e, key) { OnlyFreePiecesAreCharged(m, e, key); }
      if Taken(m, key) && e != Close(key.provider) { OnlyCloseFrees(m, e, key); }
      hide After, Charges, Taken, Exclusive;
    }
  }

  // ---------- a provider closed twice ----------

  lemma Then(m: Memory, l: Ledger, e: Event, rest: seq<Event>)
    requires Enabled(m, e) && Possible(After(m, e), rest)
    ensures Possible(m, [e] + rest) && Run(m, [e] + rest) == Run(After(m, e), rest)
    ensures Noting(m, l, [e] + rest) == Noting(After(m, e), Noted(m, l, e), rest)
  {
    assert ([e] + rest)[1..] == rest;
  }

  /** One piece kept, its provider closed twice: nothing is held any more, and the
    * counter has fallen below what it was before by the length of the piece. */
  lemma SecondCloseGivesBackTwice(capacity: int, length: nat)
    requires 0 < length <= capacity
    ensures var m, l := NewMemory(capacity), Ledger(map[], 0);
      var claim := Claim(Key(0, 0), length);
      var events := [Ask(0, claim)] + ([Load(0)] + ([Swap(0)] + ([Keep(0)] + ([Close(0)] + ([Close(0)] + [])))));
      && Possible(m, events)
      && Run(m, events).used + length == 0 && Held(Run(m, events)) == 0 && InFlight(Run(m, events)) == map[]
      && Noting(m, l, events).debt == length
  {
    hide Held, InFlight, ByProvider;
    var m0, l0 := NewMemory(capacity), Ledger(map[], 0);
    var claim := Claim(Key(0, 0), length);
    var m1 := After(m0, Ask(0, claim));
    var m2 := After(m1, Load(0));
    var m3 := After(m2, Swap(0));
    var m4 := After(m3, Keep(0));
    assert m4.pieces == map[Key(0, 0) := length] && Total(m4, 0) == length && m4.threads == map[];
    var m5 := After(m4, Close(0));
    var l5 := Noted(m4, l0, Close(0));
    var m6 := After(m5, Close(0));
    Then(m5, l5, Close(0), []);
    Then(m4, l0, Close(0), [Close(0)] + []);
    Then(m3, l0, Keep(0), [Close(0)] + ([Close(0)] + []));
    Then(m2, l0, Swap(0), [Keep(0)] + ([Close(0)] + ([Close(0)] + [])));
    Then(m1, l0, Load(0), [Swap(0)] + ([Keep(0)] + ([Close(0)] + ([Close(0)] + []))));
    Then(m0, l0, Ask(0, claim), [Load(0)] + ([Swap(0)] + ([Keep(0)] + ([Close(0)] + ([Close(0)] + [])))));
    NothingHeld(m6);
  }

  lemma NothingHeld(m: Memory)
    requires m.pieces == map[] && m.threads == map[]
    ensures Held(m) == 0 && InFlight(m) == map[]
  {
  }
}
