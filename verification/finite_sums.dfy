/** Finite collections: adding up the values of a map in whatever order, and sizes. */
module FiniteSums {

  ghost function Sum<K>(m: map<K, nat>): nat
    decreases |m|
  {
    if m == map[] then 0 else
      var k :| k in m;
      m[k] + Sum(m - {k})
  }

  lemma {:induction false} SumTakesOut<K>(m: map<K, nat>, k: K)
    requires k in m
    ensures Sum(m) == m[k] + Sum(m - {k})
    decreases |m|
  {
    var first :| first in m && Sum(m) == m[first] + Sum(m - {first});
    if first != k {
      SumTakesOut(m - {first}, k);
      SumTakesOut(m - {k}, first);
      assert m - {first} - {k} == m - {k} - {first};
    }
  }

  lemma SumPutsIn<K>(m: map<K, nat>, k: K, v: nat)
    requires k !in m
    ensures Sum(m[k := v]) == Sum(m) + v
  {
    SumTakesOut(m[k := v], k);
    assert m[k := v] - {k} == m;
  }

  function Part<K>(m: map<K, nat>, keys: set<K>): map<K, nat> {
    map k | k in m && k in keys :: m[k]
  }

  lemma {:induction false} SumSplits<K>(m: map<K, nat>, keys: set<K>)
    ensures Sum(m) == Sum(Part(m, keys)) + Sum(m - keys)
    decreases |m|
  {
    if m == map[] {
      assert Part(m, keys) == map[] && m - keys == m;
    } else {
      var k :| k in m;
      SumTakesOut(m, k);
      SumSplits(m - {k}, keys);
      PartTakesOut(m, keys, k);
      hide Sum, Part;
      if k in keys {
        SumTakesOut(Part(m, keys), k);
      } else {
        SumTakesOut(m - keys, k);
      }
    }
  }

  lemma PartTakesOut<K>(m: map<K, nat>, keys: set<K>, k: K)
    requires k in m
    ensures k in keys ==> k in Part(m, keys) && Part(m, keys)[k] == m[k]
                          && Part(m, keys) - {k} == Part(m - {k}, keys) && m - keys == m - {k} - keys
    ensures k !in keys ==> m - keys - {k} == m - {k} - keys && Part(m, keys) == Part(m - {k}, keys)
  {
  }

  lemma SubsetIsNoLarger<T>(a: set<T>, b: set<T>)
    requires a <= b
    ensures |a| <= |b|
  {
    assert b == a + (b - a);
  }
}
