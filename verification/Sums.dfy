/** Sums and counts over finite maps. */
module Sums {

  ghost function Sum<K(!new)>(m: map<K, int>): int
    decreases |m|
  {
    if m == map[] then 0
    else
      var k :| k in m;
      m[k] + Sum(m - {k})
  }

  lemma {:induction false} SumRemove<K(!new)>(m: map<K, int>, k: K)
    requires k in m
    ensures Sum(m) == m[k] + Sum(m - {k})
    decreases |m|
  {
    var j :| j in m && Sum(m) == m[j] + Sum(m - {j});
    if j != k {
      SumRemove(m - {j}, k);
      SumRemove(m - {k}, j);
      assert m - {j} - {k} == m - {k} - {j};
    }
  }

  ghost function Or0<K(!new)>(m: map<K, int>, k: K): int {
    if k in m then m[k] else 0
  }

  lemma SumUpdate<K(!new)>(m: map<K, int>, k: K, v: int)
    ensures Sum(m[k := v]) == Sum(m) - Or0(m, k) + v
  {
    var m' := m[k := v];
    SumRemove(m', k);
    assert m' - {k} == m - {k};
    if k in m {
      SumRemove(m, k);
    } else {
      assert m - {k} == m;
    }
  }

  /** A sum of non-negative terms is at least each of them. */
  lemma {:induction false} SumBound<K(!new)>(m: map<K, int>)
    requires forall k :: k in m ==> m[k] >= 0
    ensures Sum(m) >= 0
    ensures forall k :: k in m ==> m[k] <= Sum(m)
    decreases |m|
  {
    if m != map[] {
      forall k | k in m ensures 0 <= m[k] <= Sum(m) {
        SumRemove(m, k);
        SumBound(m - {k});
      }
      var k :| k in m;
    }
  }

  /** Weighted sum of the values of a map. */
  ghost function Weigh<K, V>(m: map<K, V>, w: V -> int): map<K, int> {
    map k | k in m :: w(m[k])
  }

  ghost function Total<K(!new), V>(m: map<K, V>, w: V -> int): int {
    Sum(Weigh(m, w))
  }

  ghost function Weight<K, V>(m: map<K, V>, w: V -> int, k: K): int {
    if k in m then w(m[k]) else 0
  }

  lemma TotalUpdate<K(!new), V>(m: map<K, V>, w: V -> int, k: K, v: V)
    ensures Total(m[k := v], w) == Total(m, w) - Weight(m, w, k) + w(v)
  {
    SumUpdate(Weigh(m, w), k, w(v));
    assert Weigh(m[k := v], w) == Weigh(m, w)[k := w(v)];
  }

  lemma TotalBound<K(!new), V>(m: map<K, V>, w: V -> int)
    requires forall k :: k in m ==> w(m[k]) >= 0
    ensures Total(m, w) >= 0
    ensures forall k :: k in m ==> w(m[k]) <= Total(m, w)
  {
    SumBound(Weigh(m, w));
    forall k | k in m ensures w(m[k]) <= Total(m, w) {
      assert Weigh(m, w)[k] == w(m[k]);
    }
  }

  lemma CardinalityWithout<T>(s: set<T>, x: T)
    ensures |s| == |s - {x}| + (if x in s then 1 else 0)
  {
    if x in s { assert s == (s - {x}) + {x}; } else { assert s == s - {x}; }
  }
}
