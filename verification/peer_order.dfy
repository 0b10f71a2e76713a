/** Peer identifiers and the order the room compares them in.
  *
  * The room has no election: every rule that must give the same answer on every
  * machine ("who takes over", "which stream survives", "in which order is the
  * address book sent") compares peer identifiers as strings.
  */
module PeerOrder {

  type PeerID = string

  /** The order of Go strings: lexicographic by character. */
  predicate Leq(a: string, b: string) {
    a == [] || (b != [] && (a[0] < b[0] || (a[0] == b[0] && Leq(a[1..], b[1..]))))
  }

  lemma {:induction false} LeqReflexive(a: string)
    ensures Leq(a, a)
  {
    if a != [] { LeqReflexive(a[1..]); }
  }

  lemma {:induction false} LeqTotal(a: string, b: string)
    ensures Leq(a, b) || Leq(b, a)
  {
    if a != [] && b != [] && a[0] == b[0] { LeqTotal(a[1..], b[1..]); }
  }

  lemma {:induction false} LeqAntisymmetric(a: string, b: string)
    requires Leq(a, b) && Leq(b, a)
    ensures a == b
  {
    if a != [] && b != [] {
      LeqAntisymmetric(a[1..], b[1..]);
      assert a == [a[0]] + a[1..] && b == [b[0]] + b[1..];
    }
  }

  lemma {:induction false} LeqTransitive(a: string, b: string, c: string)
    requires Leq(a, b) && Leq(b, c)
    ensures Leq(a, c)
  {
    if a != [] && a[0] == b[0] && b[0] == c[0] { LeqTransitive(a[1..], b[1..], c[1..]); }
  }

  // ---------- the least element of a set of identifiers ----------

  ghost predicate IsLeast(x: PeerID, s: set<PeerID>) {
    x in s && forall y | y in s :: Leq(x, y)
  }

  lemma {:induction false} LeastExists(s: set<PeerID>) returns (x: PeerID)
    requires s != {}
    ensures IsLeast(x, s)
    decreases |s|
  {
    var y :| y in s;
    LeqReflexive(y);
    if s == {y} { return y; }
    var z := LeastExists(s - {y});
    LeqTotal(y, z);
    if Leq(y, z) {
      forall w | w in s ensures Leq(y, w) {
        if w != y { LeqTransitive(y, z, w); }
      }
      return y;
    }
    return z;
  }

  /** The smallest identifier of a nonempty set. */
  ghost function Least(s: set<PeerID>): (x: PeerID)
    requires s != {}
    ensures IsLeast(x, s)
  {
    assert exists y :: IsLeast(y, s) by { var y := LeastExists(s); }
    var y :| IsLeast(y, s);
    y
  }

  lemma LeastUnique(x: PeerID, s: set<PeerID>)
    requires IsLeast(x, s)
    ensures s != {} && x == Least(s)
  {
    LeqAntisymmetric(x, Least(s));
  }

  // ---------- sorting ----------

  /** In ascending order of the key. */
  ghost predicate Ascending<T>(key: T -> PeerID, s: seq<T>) {
    forall i, j | 0 <= i < j < |s| :: Leq(key(s[i]), key(s[j]))
  }

  lemma FrontAscends<T>(key: T -> PeerID, x: T, s: seq<T>)
    requires Ascending(key, s) && (s == [] || Leq(key(x), key(s[0])))
    ensures Ascending(key, [x] + s)
  {
    hide Leq;
    forall j | 0 <= j < |s| ensures Leq(key(x), key(s[j])) {
      if j > 0 { LeqTransitive(key(x), key(s[0]), key(s[j])); }
    }
  }

  /** A tail rearranged with one more element still comes after its head. */
  lemma HeadStaysFirst<T>(key: T -> PeerID, x: T, s: seq<T>, rest: seq<T>)
    requires s != [] && Ascending(key, s) && !Leq(key(x), key(s[0]))
    requires multiset(rest) == multiset{x} + multiset(s[1..]) && Ascending(key, rest)
    ensures Ascending(key, [s[0]] + rest) && multiset([s[0]] + rest) == multiset{x} + multiset(s)
  {
    LeqTotal(key(x), key(s[0]));
    hide Leq;
    assert s == [s[0]] + s[1..];
    if rest != [] {
      assert rest[0] in multiset(rest);
      if rest[0] != x { assert rest[0] in s[1..]; }
    }
    FrontAscends(key, s[0], rest);
  }

  function Insert<T>(key: T -> PeerID, x: T, s: seq<T>): (r: seq<T>)
    requires Ascending(key, s)
    ensures multiset(r) == multiset{x} + multiset(s)
    ensures Ascending(key, r)
  {
    if s == [] || Leq(key(x), key(s[0])) then
      FrontAscends(key, x, s);
      [x] + s
    else
      var rest := Insert(key, x, s[1..]);
      HeadStaysFirst(key, x, s, rest);
      [s[0]] + rest
  }

  /** A copy of the sequence, sorted by key. */
  function SortOn<T>(key: T -> PeerID, s: seq<T>): (r: seq<T>)
    ensures multiset(r) == multiset(s)
    ensures Ascending(key, r)
  {
    if s == [] then []
    else
      assert s == [s[0]] + s[1..];
      Insert(key, s[0], SortOn(key, s[1..]))
  }

  ghost predicate Distinct<T>(s: seq<T>) {
    forall i, j | 0 <= i < j < |s| :: s[i] != s[j]
  }

  lemma {:induction false} DistinctIffCountedOnce<T>(s: seq<T>)
    ensures Distinct(s) <==> forall x | x in s :: multiset(s)[x] == 1
  {
    if s != [] {
      var init, last := s[..|s| - 1], s[|s| - 1];
      assert s == init + [last];
      DistinctIffCountedOnce(init);
      assert multiset(s) == multiset(init) + multiset{last};
      if Distinct(s) {
        assert Distinct(init);
        assert last !in init;
      }
      if forall x | x in s :: multiset(s)[x] == 1 {
        assert multiset(s)[last] == 1;
        assert last !in init;
        forall x | x in init ensures multiset(init)[x] == 1 { assert x in s; }
      }
    }
  }

  /** Sorting neither repeats nor loses an element. */
  lemma SortOnKeeps<T>(key: T -> PeerID, s: seq<T>)
    ensures forall x :: x in SortOn(key, s) <==> x in s
    ensures Distinct(s) ==> Distinct(SortOn(key, s))
  {
    var r := SortOn(key, s);
    forall x ensures x in r <==> x in s {
      assert x in r <==> x in multiset(r);
      assert x in s <==> x in multiset(s);
    }
    DistinctIffCountedOnce(s);
    DistinctIffCountedOnce(r);
  }

  // ---------- the ascending enumeration of a set ----------

  ghost predicate Enumerates(r: seq<PeerID>, s: set<PeerID>) {
    && (forall i | 0 <= i < |r| :: r[i] in s)
    && (forall x | x in s :: x in r)
    && (forall i, j | 0 <= i < j < |r| :: r[i] != r[j] && Leq(r[i], r[j]))
  }

  lemma LeastComesFirst(least: PeerID, rest: seq<PeerID>, s: set<PeerID>)
    requires IsLeast(least, s) && Enumerates(rest, s - {least})
    ensures Enumerates([least] + rest, s)
  {
    hide Leq;
    var r := [least] + rest;
    forall x | x in s ensures x in r {
      if x != least { assert x in rest; }
    }
  }

  /** The elements of the set in ascending order, each once. */
  ghost function Enumeration(s: set<PeerID>): (r: seq<PeerID>)
    ensures Enumerates(r, s)
    decreases |s|
  {
    if s == {} then []
    else
      var rest := Enumeration(s - {Least(s)});
      LeastComesFirst(Least(s), rest, s);
      [Least(s)] + rest
  }

  lemma NothingEnumerated(r: seq<PeerID>, s: set<PeerID>)
    requires Enumerates(r, s) && r == []
    ensures s == {}
  {
    hide Leq;
    assert forall x | x in s :: x in r;
  }

  lemma HeadIsLeast(r: seq<PeerID>, s: set<PeerID>)
    requires Enumerates(r, s) && r != []
    ensures IsLeast(r[0], s)
  {
    assert r[0] in s;
    hide Leq;
    forall y | y in s ensures Leq(r[0], y) {
      var i :| 0 <= i < |r| && r[i] == y;
      if i == 0 { LeqReflexive(y); }
    }
  }

  lemma TailEnumerates(r: seq<PeerID>, s: set<PeerID>)
    requires Enumerates(r, s) && r != []
    ensures Enumerates(r[1..], s - {r[0]})
  {
    hide Leq;
    var rest, t := r[1..], s - {r[0]};
    forall x | x in t ensures x in rest {
      var i :| 0 <= i < |r| && r[i] == x;
      assert i > 0 && rest[i - 1] == x;
    }
    forall i | 0 <= i < |rest| ensures rest[i] in t {
      assert rest[i] == r[i + 1] && r[0] != r[i + 1];
    }
  }

  lemma {:induction false} EnumerationUnique(r: seq<PeerID>, s: set<PeerID>)
    requires Enumerates(r, s)
    ensures r == Enumeration(s)
    decreases |r|
  {
    hide Leq, IsLeast, Enumerates;
    if r == [] {
      NothingEnumerated(r, s);
    } else {
      HeadIsLeast(r, s);
      TailEnumerates(r, s);
      LeastUnique(r[0], s);
      EnumerationUnique(r[1..], s - {r[0]});
    }
  }
}
