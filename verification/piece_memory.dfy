/** Pieces held in memory, and the pool their bytes are charged to. */
module PieceMemory {
  import C = Charging

  type Byte = bv8

  function Min(a: int, b: int): int {
    if a < b then a else b
  }

  function Zeros(n: nat): (s: seq<Byte>)
    ensures |s| == n && forall k | 0 <= k < n :: s[k] == 0
  {
    seq(n, _ => 0)
  }

  /** What a piece of `length` bytes holds after a write; `was` is empty before the
    * first one. What runs over the end is cut off. */
  function Written(length: nat, was: seq<Byte>, b: seq<Byte>, off: nat): (s: seq<Byte>)
    requires |was| == length || |was| == 0
    ensures |s| == length
  {
    var base := if |was| == 0 then Zeros(length) else was;
    seq(length, k requires 0 <= k < length => if off <= k < off + |b| then b[k - off] else base[k])
  }

  datatype Write = Write(off: nat, bytes: seq<Byte>)

  function AfterWrites(length: nat, writes: seq<Write>): (s: seq<Byte>)
    ensures |s| == if writes == [] then 0 else length
  {
    if writes == [] then [] else
      var last := writes[|writes| - 1];
      Written(length, AfterWrites(length, writes[..|writes| - 1]), last.bytes, last.off)
  }

  predicate Covers(w: Write, k: nat) {
    w.off <= k < w.off + |w.bytes|
  }

  /** Each byte is that of the last write that covered it, and zero if none did. */
  lemma {:induction false} ReadsSeeTheLastWrite(length: nat, writes: seq<Write>, k: nat, i: nat)
    requires writes != [] && k < length && i <= |writes|
    requires forall j | i <= j < |writes| :: !Covers(writes[j], k)
    requires i > 0 ==> Covers(writes[i - 1], k)
    ensures AfterWrites(length, writes)[k] == if i == 0 then 0 else writes[i - 1].bytes[k - writes[i - 1].off]
  {
    var init := writes[..|writes| - 1];
    if i < |writes| && init != [] {
      ReadsSeeTheLastWrite(length, init, k, i);
    }
  }

  /** Copies as much of `b` as fits from `off` on. */
  method CopyInto(buffer: array<Byte>, b: seq<Byte>, off: nat) returns (n: nat)
    requires off <= buffer.Length
    modifies buffer
    ensures n == Min(|b|, buffer.Length - off)
    ensures forall k | 0 <= k < buffer.Length :: buffer[k] == if off <= k < off + n then b[k - off] else old(buffer[k])
  {
    var end := Min(off + |b|, buffer.Length);
    n := 0;
    while off + n < end
      invariant 0 <= n && off + n <= end
      invariant forall k | 0 <= k < buffer.Length ::
                  buffer[k] == if off <= k < off + n then b[k - off] else old(buffer[k])
    {
      buffer[off + n] := b[n];
      n := n + 1;
    }
  }

  class Piece {
    const length: nat
    /** Nothing is allocated before the first write. */
    var data: array?<Byte>
    var bytesAllocated: nat

    ghost predicate Valid()
      reads this
    {
      data != null ==> data.Length == length
    }

    ghost function Contents(): (s: seq<Byte>)
      requires Valid()
      reads this, data
      ensures |s| == 0 || |s| == length
    {
      if data == null then [] else data[..]
    }

    constructor (length: nat)
      ensures Valid() && data == null && this.length == length && bytesAllocated == 0
    {
      this.length := length;
      data, bytesAllocated := null, 0;
    }

    method WriteAt(b: seq<Byte>, off: nat) returns (n: nat)
      requires Valid()
      modifies this`data, this`bytesAllocated, data
      ensures Valid() && data != null
      ensures old(data) == null ==> fresh(data)
      ensures old(data) != null ==> data == old(data)
      ensures Contents() == Written(length, old(Contents()), b, off)
      ensures bytesAllocated == if old(data) == null then length else old(bytesAllocated)
      ensures n == if off >= length then 0 else Min(|b|, length - off)
    {
      ghost var before := Contents();
      if data == null {
        data := new Byte[length](_ => 0);
        bytesAllocated := length;
      }
      var buffer := data;
      ghost var base := buffer[..];
      assert base == if |before| == 0 then Zeros(length) else before;
      if off >= length { return 0; }
      n := CopyInto(buffer, b, off);
    }

    /** Copies what there is from `off` on; running out is only reported when
      * nothing was copied at all. */
    method ReadAt(b: array<Byte>, off: nat) returns (n: nat, eof: bool)
      requires Valid() && b != data
      modifies b
      ensures n == if off >= |Contents()| then 0 else Min(b.Length, |Contents()| - off)
      ensures forall k | 0 <= k < b.Length :: b[k] == if k < n then Contents()[off + k] else old(b[k])
      ensures eof <==> n == 0
    {
      n, eof := 0, true;
      if data == null || off >= data.Length { return; }
      var end := Min(off + b.Length, data.Length);
      while off + n < end
        invariant 0 <= n && off + n <= end
        invariant forall k | 0 <= k < b.Length :: b[k] == if k < n then data[off + k] else old(b[k])
      {
        b[n] := data[off + n];
        n := n + 1;
      }
      eof := n == 0;
    }
  }

  function Sum(f: nat -> int, n: nat): int {
    if n == 0 then 0 else Sum(f, n - 1) + f(n - 1)
  }

  // ---------- reading and writing through a provider ----------

  /** What a provider keeps: the bytes of each kept piece, none before its first write.
    * `spent` counts the bytes of every piece it ever handed out and that was
    * written, kept or not. */
  datatype View = View(kept: map<int, seq<Byte>>, spent: nat)

  /** A piece is asked for and written or read; `granted` says whether the pool would
    * charge it now. */
  datatype Touch =
    | Put(index: int, b: seq<Byte>, off: nat, granted: bool)
    | Get(index: int, granted: bool)
    | Shut

  /** Asked for, a known piece stays, a new one is kept if it is charged. */
  function Fetched(v: View, index: int, granted: bool): View {
    if index in v.kept || !granted then v else v.(kept := v.kept[index := []])
  }

  predicate Sized(v: View, length: nat) {
    forall i | i in v.kept :: |v.kept[i]| == 0 || |v.kept[i]| == length
  }

  /** A write to a piece that is not kept goes to bytes nobody will find again. */
  function Touched(v: View, length: nat, t: Touch): (v': View)
    requires Sized(v, length)
    ensures Sized(v', length)
  {
    match t
    case Put(index, b, off, granted) =>
      var f := Fetched(v, index, granted);
      if index in f.kept then
        f.(kept := f.kept[index := Written(length, f.kept[index], b, off)],
           spent := f.spent + if f.kept[index] == [] then length else 0)
      else f.(spent := f.spent + length)
    case Get(index, granted) => Fetched(v, index, granted)
    case Shut => v.(kept := map[])
  }

  function Through(v: View, length: nat, touches: seq<Touch>): (v': View)
    requires Sized(v, length)
    ensures Sized(v', length)
    decreases |touches|
  {
    if touches == [] then v else Through(Touched(v, length, touches[0]), length, touches[1..])
  }

  /** What a read of a piece finds. */
  function Seen(v: View, index: int): seq<Byte> {
    if index in v.kept then v.kept[index] else []
  }

  predicate Spares(t: Touch, index: int) {
    !t.Shut? && !(t.Put? && t.index == index)
  }

  lemma {:induction false} SparedPiecesStay(v: View, length: nat, touches: seq<Touch>, index: int)
    requires Sized(v, length) && index in v.kept && forall t | t in touches :: Spares(t, index)
    ensures var v' := Through(v, length, touches); index in v'.kept && v'.kept[index] == v.kept[index]
    decreases |touches|
  {
    if touches != [] {
      assert touches[0] in touches && forall t | t in touches[1..] :: t in touches;
      SparedPiecesStay(Touched(v, length, touches[0]), length, touches[1..], index);
    }
  }

  lemma {:induction false} EmptyPiecesStayEmpty(v: View, length: nat, touches: seq<Touch>, index: int)
    requires Sized(v, length) && Seen(v, index) == [] && forall t | t in touches :: !(t.Put? && t.index == index)
    ensures Seen(Through(v, length, touches), index) == []
    decreases |touches|
  {
    if touches != [] {
      assert touches[0] in touches && forall t | t in touches[1..] :: t in touches;
      EmptyPiecesStayEmpty(Touched(v, length, touches[0]), length, touches[1..], index);
    }
  }

  lemma {:induction false} ClosedPiecesAreGone(v: View, length: nat, touches: seq<Touch>, index: int)
    requires Sized(v, length) && Shut in touches && forall t | t in touches :: !(t.Put? && t.index == index)
    ensures Seen(Through(v, length, touches), index) == []
    decreases |touches|
  {
    assert touches[0] in touches && forall t | t in touches[1..] :: t in touches;
    if touches[0] == Shut {
      EmptyPiecesStayEmpty(Touched(v, length, Shut), length, touches[1..], index);
    } else {
      assert Shut in touches[1..];
      ClosedPiecesAreGone(Touched(v, length, touches[0]), length, touches[1..], index);
    }
  }

  /** A later read through the provider finds the last write exactly if the piece was
    * kept and no close came between; otherwise it finds nothing at all. */
  lemma LastWriteIsSeenExactlyIfKept(v: View, length: nat, put: Touch, later: seq<Touch>)
    requires Sized(v, length) && put.Put? && length > 0
    requires forall t | t in later :: !(t.Put? && t.index == put.index)
    ensures var seen := Seen(Through(Touched(v, length, put), length, later), put.index);
      var keeps := put.index in v.kept || put.granted;
      && (keeps && Shut !in later ==> seen == Written(length, Seen(v, put.index), put.b, put.off))
      && (!(keeps && Shut !in later) ==> seen == [])
      && (seen != [] <==> keeps && Shut !in later)
  {
    var after := Touched(v, length, put);
    if Shut in later {
      ClosedPiecesAreGone(after, length, later, put.index);
    } else if put.index in after.kept {
      forall t | t in later ensures Spares(t, put.index) {
      }
      SparedPiecesStay(after, length, later, put.index);
    } else {
      EmptyPiecesStayEmpty(after, length, later, put.index);
    }
  }

  /** Pieces that were refused are allocated all the same once they are written: with
    * nothing charged and nothing kept, the bytes grow past any capacity. */
  lemma {:induction false} AllocationIsUnbounded(v: View, length: nat, n: nat) returns (touches: seq<Touch>)
    requires v.kept == map[]
    ensures Sized(v, length) && |touches| == n
    ensures Through(v, length, touches) == View(map[], v.spent + n * length)
    decreases n
  {
    if n == 0 {
      touches := [];
    } else {
      var put := Put(0, [], 0, false);
      var rest := AllocationIsUnbounded(Touched(v, length, put), length, n - 1);
      touches := [put] + rest;
      assert touches[1..] == rest;
      assert (n - 1) * length + length == n * length;
    }
  }

  /** The writes that found nothing where they wrote. */
  function FirstWrites(v: View, length: nat, touches: seq<Touch>): nat
    requires Sized(v, length)
    decreases |touches|
  {
    if touches == [] then 0
    else
      (if touches[0].Put? && Seen(v, touches[0].index) == [] then 1 else 0)
      + FirstWrites(Touched(v, length, touches[0]), length, touches[1..])
  }

  /** Each of them allocates a whole piece, kept or not, and nothing else does; closing
    * gives none of it back to this count. */
  lemma {:induction false} FirstWritesAllocate(v: View, length: nat, touches: seq<Touch>)
    requires Sized(v, length)
    ensures Through(v, length, touches).spent == v.spent + FirstWrites(v, length, touches) * length
    decreases |touches|
  {
    if touches != [] {
      var n := FirstWrites(Touched(v, length, touches[0]), length, touches[1..]);
      FirstWritesAllocate(Touched(v, length, touches[0]), length, touches[1..]);
      assert (1 + n) * length == length + n * length;
    }
  }

  lemma NothingRunYet(m: C.Memory, p: C.Provider)
    ensures C.Possible(m, []) && C.Run(m, []) == m && C.SameProvider(m, m, p)
  {
  }

  /** How one attempt at the counter ends. */
  datatype Verdict = Full | Won | Lost

  lemma SumStarts(f: nat -> int)
    ensures Sum(f, 0) == 0
  {
  }

  lemma SumGrows(f: nat -> int, n: nat)
    ensures Sum(f, n + 1) == Sum(f, n) + f(n)
  {
  }

  /** The pool every piece of every torrent is charged to. `memory` is everything
    * the threads share, as Charging has it; the counter is its counter. */
  class Pool {
    const capacity: int
    var used: int
    ghost var memory: C.Memory

    ghost predicate Valid()
      reads this
    {
      memory.capacity == capacity && memory.used == used && C.Exclusive(memory)
    }

    constructor (capacity: int)
      ensures Valid() && this.capacity == capacity && used == 0 && memory == C.NewMemory(capacity)
    {
      this.capacity := capacity;
      used := 0;
      memory := C.NewMemory(capacity);
    }

    /** `rivals(i)` is what other threads add to the counter between the load and
      * the swap of attempt `i`, by the steps `blocks(i)`. The swap goes through only
      * if the counter is what was loaded. The call and its rivals together are the
      * run `events`. */
    method TryAllocate(size: nat, rivals: nat -> int, ghost t: C.Thread, ghost blocks: nat -> seq<C.Event>)
      returns (ok: bool, attempts: nat, ghost events: seq<C.Event>)
      requires Valid() && t in memory.threads
      requires memory.threads[t] == C.Trying(memory.threads[t].claim, 0) && memory.threads[t].claim.length == size
      requires C.Contended(memory, t, blocks, rivals, 0)
      modifies this`used, this`memory
      ensures Valid() && C.Possible(old(memory), events) && memory == C.Run(old(memory), events)
      ensures C.SameProvider(old(memory), memory, old(memory).threads[t].claim.key.provider)
      ensures if ok then t in memory.threads && memory.threads[t] == C.Reserved(old(memory).threads[t].claim)
              else t !in memory.threads
      ensures attempts <= C.MAX_ATTEMPTS
      ensures capacity <= 0 ==> ok && attempts == 0
      ensures used == old(used) + Sum(rivals, attempts) + if ok then size else 0
      ensures capacity > 0 && ok ==> used <= capacity && attempts > 0 && rivals(attempts - 1) == 0
      ensures capacity > 0 && !ok ==> used + size > capacity || attempts == C.MAX_ATTEMPTS
      ensures forall i | 0 <= i < attempts && !(ok && i == attempts - 1) :: rivals(i) != 0
    {
      hide C.After, C.Enabled, C.Possible, C.Run, C.Exclusive, C.Contended, C.SameProvider, C.Fits, Sum;
      ghost var start, claim := memory, memory.threads[t].claim;
      attempts, events := 0, [];
      NothingRunYet(start, claim.key.provider);
      SumStarts(rivals);
      if capacity <= 0 {
        C.ChargeGoes(memory, t);
        events := Take(start, events, C.Charge(t));
        used := used + size;
        return true, 0, events;
      }
      while attempts < C.MAX_ATTEMPTS
        invariant 0 <= attempts <= C.MAX_ATTEMPTS && Valid()
        invariant C.Possible(start, events) && memory == C.Run(start, events)
        invariant t in memory.threads && memory.threads[t] == C.Trying(claim, attempts)
        invariant C.SameProvider(start, memory, claim.key.provider)
        invariant C.Contended(memory, t, blocks, rivals, attempts)
        invariant used == old(used) + Sum(rivals, attempts)
        invariant forall i | 0 <= i < attempts :: rivals(i) != 0
      {
        ghost var before := memory;
        var verdict;
        verdict, events := TryOnce(size, rivals(attempts), start, events, t, blocks, rivals, attempts);
        C.SameProviderTwice(start, before, memory, claim.key.provider);
        SumGrows(rivals, attempts);
        if verdict == Full { return false, attempts, events; }
        attempts := attempts + 1;
        if verdict == Won { return true, attempts, events; }
      }
      C.ExhaustGoes(memory, t);
      C.SameProviderTwice(start, memory, C.After(memory, C.Exhaust(t)), claim.key.provider);
      events := Take(start, events, C.Exhaust(t));
      return false, attempts, events;
    }

    /** One attempt: load, and swap if the counter is still what was loaded. */
    method TryOnce(size: nat, rival: int, ghost start: C.Memory, ghost before: seq<C.Event>,
                   ghost t: C.Thread, ghost blocks: nat -> seq<C.Event>, ghost rivals: nat -> int, ghost i: nat)
      returns (verdict: Verdict, ghost events: seq<C.Event>)
      requires Valid() && C.Possible(start, before) && memory == C.Run(start, before) && capacity > 0
      requires t in memory.threads && memory.threads[t] == C.Trying(memory.threads[t].claim, i)
      requires memory.threads[t].claim.length == size && i < C.MAX_ATTEMPTS && rival == rivals(i)
      requires C.Contended(memory, t, blocks, rivals, i)
      modifies this`used, this`memory
      ensures Valid() && C.Possible(start, events) && memory == C.Run(start, events)
      ensures C.SameProvider(old(memory), memory, old(memory).threads[t].claim.key.provider)
      ensures verdict == Full ==> used == old(used) && used + size > capacity && t !in memory.threads
      ensures verdict == Won ==>
                && rival == 0 && used == old(used) + rival + size <= capacity
                && t in memory.threads && memory.threads[t] == C.Reserved(old(memory).threads[t].claim)
      ensures verdict == Lost ==>
                && rival != 0 && used == old(used) + rival
                && t in memory.threads && memory.threads[t] == C.Trying(old(memory).threads[t].claim, i + 1)
                && C.Contended(memory, t, blocks, rivals, i + 1)
    {
      hide C.After, C.Enabled, C.Possible, C.Run, C.Exclusive, C.Contended, C.SameProvider;
      ghost var p := memory.threads[t].claim.key.provider;
      C.AttemptGoes(memory, t, blocks, rivals, i);
      var current := used;
      events := Take(start, before, C.Load(t));
      if current + size > capacity { return Full, events; }
      ghost var loaded := memory;
      events := Meddle(start, events, t, blocks(i));
      used := used + rival;
      ghost var met := memory;
      C.SwapGoes(met, t);
      events := Take(start, events, C.Swap(t));
      C.SameProviderTwice(loaded, met, memory, p);
      C.SameProviderTwice(old(memory), loaded, memory, p);
      if used == current {
        used := current + size;
        return Won, events;
      }
      return Lost, events;
    }

    /** One step of the shared memory, noted. */
    ghost method Take(start: C.Memory, events: seq<C.Event>, e: C.Event) returns (events': seq<C.Event>)
      requires C.Possible(start, events) && memory == C.Run(start, events) && C.Enabled(memory, e)
          && C.Exclusive(memory)
      modifies this`memory
      ensures events' == events + [e] && memory == C.After(old(memory), e) && C.Exclusive(memory)
      ensures C.Possible(start, events') && memory == C.Run(start, events')
    {
      C.RunTakesStep(start, events, e);
      C.StepStaysExclusive(memory, e);
      memory, events' := C.After(memory, e), events + [e];
    }

    /** Other threads go on while `t` holds its provider's lock. */
    ghost method Meddle(start: C.Memory, events: seq<C.Event>, t: C.Thread, block: seq<C.Event>)
      returns (events': seq<C.Event>)
      requires C.Possible(start, events) && memory == C.Run(start, events) && C.Exclusive(memory) && t in memory.threads
      requires C.Possible(memory, block) && forall e | e in block :: C.OtherThan(e, t)
      modifies this`memory
      ensures events' == events + block && memory == C.Run(old(memory), block) && C.Exclusive(memory)
      ensures C.Possible(start, events') && memory == C.Run(start, events')
      ensures t in memory.threads && memory.threads[t] == old(memory).threads[t]
          && memory.capacity == old(memory).capacity
      ensures C.SameProvider(old(memory), memory, old(memory).threads[t].claim.key.provider)
    {
      C.RunGoesOn(start, events, block);
      C.OthersStayOut(memory, block, t);
      memory, events' := C.Run(memory, block), events + block;
    }
  }

  /** What is kept for one provider is what the shared memory holds for it. */
  ghost predicate Mirrors(m: C.Memory, id: C.Provider, pieces: map<int, Piece>, totalBytes: int) {
    && totalBytes == C.Total(m, id)
    && (forall i :: i in pieces <==> C.Key(id, i) in m.pieces)
    && (forall i | i in pieces :: pieces[i].length == m.pieces[C.Key(id, i)])
  }

  lemma OthersKeepTheMirror(m: C.Memory, m': C.Memory, id: C.Provider, pieces: map<int, Piece>, totalBytes: int)
    requires Mirrors(m, id, pieces, totalBytes) && C.SameProvider(m, m', id)
    ensures Mirrors(m', id, pieces, totalBytes)
  {
  }

  lemma KeepingMirrors(m: C.Memory, m': C.Memory, id: C.Provider, pieces: map<int, Piece>, totalBytes: int,
                       index: int, impl: Piece)
    requires Mirrors(m, id, pieces, totalBytes)
    requires m'.pieces == m.pieces[C.Key(id, index) := impl.length] && C.Total(m', id) == C.Total(m, id) + impl.length
    ensures Mirrors(m', id, pieces[index := impl], totalBytes + impl.length)
  {
  }

  /** The pieces of one torrent. */
  class Provider {
    const id: C.Provider
    const pool: Pool
    var pieces: map<int, Piece>
    var totalBytes: int

    /** What is kept here is what the shared memory holds for this provider. */
    ghost predicate Valid()
      reads this, pool
    {
      pool.Valid() && Mirrors(pool.memory, id, pieces, totalBytes)
    }

    constructor (id: C.Provider, pool: Pool)
      requires pool.Valid() && C.Total(pool.memory, id) == 0 && C.OfProvider(pool.memory, id) == {}
      ensures Valid() && this.id == id && this.pool == pool && pieces == map[] && totalBytes == 0
    {
      this.id, this.pool := id, pool;
      pieces, totalBytes := map[], 0;
      new;
      forall i ensures C.Key(id, i) !in pool.memory.pieces {
        assert C.Key(id, i) !in C.OfProvider(pool.memory, id);
      }
    }

    /** A known piece is handed out as it is and charged nothing. A new one is
      * charged and kept, or else handed out on its own, uncharged and forgotten. The
      * call and its rivals together are the run `events` of the shared memory. */
    method GetPiece(index: int, length: nat, rivals: nat -> int, ghost t: C.Thread, ghost blocks: nat -> seq<C.Event>)
      returns (impl: Piece, attempts: nat, ghost events: seq<C.Event>)
      requires Valid() && t !in pool.memory.threads && !C.Locked(pool.memory, id)
      requires index !in pieces ==>
                 C.Contended(C.After(pool.memory, C.Ask(t, C.Claim(C.Key(id, index), length))), t, blocks, rivals, 0)
      modifies this`pieces, this`totalBytes, pool`used, pool`memory
      ensures Valid() && C.Possible(old(pool.memory), events) && pool.memory == C.Run(old(pool.memory), events)
      ensures t !in pool.memory.threads
      ensures index in old(pieces) ==>
                impl == old(pieces)[index] && pieces == old(pieces) && totalBytes == old(totalBytes) && events == []
      ensures index !in old(pieces) ==> fresh(impl) && impl.Valid() && impl.length == length && impl.data == null
      ensures index !in old(pieces) ==>
                if index in pieces
                then pieces == old(pieces)[index := impl] && totalBytes == old(totalBytes) + length
                     && pool.used == old(pool.used) + Sum(rivals, attempts) + length
                     && (pool.capacity > 0 ==> pool.used <= pool.capacity)
                else pieces == old(pieces) && totalBytes == old(totalBytes)
                     && pool.used == old(pool.used) + Sum(rivals, attempts)
                     && pool.capacity > 0 && (pool.used + length > pool.capacity || attempts == C.MAX_ATTEMPTS)
    {
      if index in pieces {
        NothingRunYet(pool.memory, id);
        return pieces[index], 0, [];
      }
      impl, attempts, events := NewPiece(index, length, rivals, t, blocks);
    }

    /** The part under the provider's lock. */
    method NewPiece(index: int, length: nat, rivals: nat -> int, ghost t: C.Thread, ghost blocks: nat -> seq<C.Event>)
      returns (impl: Piece, attempts: nat, ghost events: seq<C.Event>)
      requires Valid() && index !in pieces && t !in pool.memory.threads && !C.Locked(pool.memory, id)
      requires C.Contended(C.After(pool.memory, C.Ask(t, C.Claim(C.Key(id, index), length))), t, blocks, rivals, 0)
      modifies this`pieces, this`totalBytes, pool`used, pool`memory
      ensures Valid() && C.Possible(old(pool.memory), events) && pool.memory == C.Run(old(pool.memory), events)
      ensures t !in pool.memory.threads
      ensures fresh(impl) && impl.Valid() && impl.length == length && impl.data == null
      ensures if index in pieces
              then pieces == old(pieces)[index := impl] && totalBytes == old(totalBytes) + length
                   && pool.used == old(pool.used) + Sum(rivals, attempts) + length
                   && (pool.capacity > 0 ==> pool.used <= pool.capacity)
              else pieces == old(pieces) && totalBytes == old(totalBytes)
                   && pool.used == old(pool.used) + Sum(rivals, attempts)
                   && pool.capacity > 0 && (pool.used + length > pool.capacity || attempts == C.MAX_ATTEMPTS)
    {
      assert C.Key(id, index) !in pool.memory.pieces;
      hide C.After, C.Enabled, C.Possible, C.Run, C.Exclusive, C.Contended, C.Locked, C.SameProvider, Mirrors, Sum;
      ghost var start := pool.memory;
      var ok;
      ok, attempts, events := Reserve(C.Key(id, index), length, rivals, t, blocks);
      OthersKeepTheMirror(start, pool.memory, id, pieces, totalBytes);
      impl := new Piece(length);
      if !ok { return; }
      events := KeepPiece(index, impl, start, events, t);
    }

    /** The charged piece goes into the map, and the lock is left. */
    method KeepPiece(index: int, impl: Piece, ghost start: C.Memory, ghost before: seq<C.Event>, ghost t: C.Thread)
      returns (ghost events: seq<C.Event>)
      requires Valid() && C.Possible(start, before) && pool.memory == C.Run(start, before)
      requires t in pool.memory.threads && pool.memory.threads[t] == C.Reserved(C.Claim(C.Key(id, index), impl.length))
      modifies this`pieces, this`totalBytes, pool`memory
      ensures Valid() && C.Possible(start, events) && pool.memory == C.Run(start, events) && t !in pool.memory.threads
      ensures pieces == old(pieces)[index := impl] && totalBytes == old(totalBytes) + impl.length
    {
      hide C.After, C.Enabled, C.Possible, C.Run, C.Exclusive, Mirrors;
      C.KeepGoes(pool.memory, t);
      KeepingMirrors(pool.memory, C.After(pool.memory, C.Keep(t)), id, pieces, totalBytes, index, impl);
      events := pool.Take(start, before, C.Keep(t));
      totalBytes := totalBytes + impl.length;
      pieces := pieces[index := impl];
    }

    /** The lock is taken and the bytes are charged, or not. */
    method Reserve(ghost key: C.Key, length: nat, rivals: nat -> int, ghost t: C.Thread,
                   ghost blocks: nat -> seq<C.Event>)
      returns (ok: bool, attempts: nat, ghost events: seq<C.Event>)
      requires pool.Valid() && key.provider == id && key !in pool.memory.pieces
      requires t !in pool.memory.threads && !C.Locked(pool.memory, id)
      requires C.Contended(C.After(pool.memory, C.Ask(t, C.Claim(key, length))), t, blocks, rivals, 0)
      modifies pool`used, pool`memory
      ensures pool.Valid() && C.Possible(old(pool.memory), events) && pool.memory == C.Run(old(pool.memory), events)
      ensures C.SameProvider(old(pool.memory), pool.memory, id)
      ensures if ok then t in pool.memory.threads && pool.memory.threads[t] == C.Reserved(C.Claim(key, length))
              else t !in pool.memory.threads
      ensures pool.used == old(pool.used) + Sum(rivals, attempts) + if ok then length else 0
      ensures pool.capacity > 0 && ok ==> pool.used <= pool.capacity
      ensures !ok ==> pool.capacity > 0 && (pool.used + length > pool.capacity || attempts == C.MAX_ATTEMPTS)
    {
      hide C.After, C.Enabled, C.Possible, C.Run, C.Exclusive, C.Contended, C.Locked, C.SameProvider, Sum;
      ghost var start, claim := pool.memory, C.Claim(key, length);
      NothingRunYet(start, id);
      C.AskGoes(start, t, claim);
      events := pool.Take(start, [], C.Ask(t, claim));
      ghost var asked := pool.memory;
      ghost var more;
      ok, attempts, more := pool.TryAllocate(length, rivals, t, blocks);
      C.RunGoesOn(start, events, more);
      C.SameProviderTwice(start, asked, pool.memory, id);
      events := events + more;
    }

    method Close()
      requires Valid() && !C.Locked(pool.memory, id)
      modifies this`pieces, pool`used, pool`memory
      ensures Valid() && pool.memory == C.After(old(pool.memory), C.Close(id))
      ensures pool.used == old(pool.used) - totalBytes && pieces == map[]
    {
      C.StepStaysExclusive(pool.memory, C.Close(id));
      pool.memory := C.After(pool.memory, C.Close(id));
      pool.used := pool.used - totalBytes;
      pieces := map[];
    }
  }
}
