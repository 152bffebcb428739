/** The order in which a layered schedule runs its operations, compared with the
    order in which they were given. */
module ScheduleOrder {
  import opened Wrappers
  import opened Traces
  import opened OpDependency

  function Iota(n: nat): seq<nat> {
    if n == 0 then [] else Iota(n - 1) + [n - 1]
  }

  /** Layers 0 to count - 1, one after another, each in ascending order. */
  ghost function Flatten(a: seq<nat>, count: nat): seq<nat> {
    if count == 0 then [] else Flatten(a, count - 1) + Members(a, |a|, count - 1)
  }

  ghost predicate Earlier(a: seq<nat>, x: nat, y: nat)
    requires x < |a| && y < |a|
  {
    a[x] < a[y] || (a[x] == a[y] && x < y)
  }

  lemma {:induction false} IotaAt(n: nat)
    ensures |Iota(n)| == n && forall p :: 0 <= p < n ==> Iota(n)[p] == p
  {
    if n == 0 {
    } else {
      IotaAt(n - 1);
    }
  }

  lemma {:induction false} FlattenHolds(a: seq<nat>, count: nat, x: nat)
    requires x < |a| && a[x] < count
    ensures x in Flatten(a, count)
  {
    var front, layer := Flatten(a, count - 1), Members(a, |a|, count - 1);
    if a[x] == count - 1 {
      MembersOf(a, |a|, count - 1);
      assert x in layer;
    } else {
      FlattenHolds(a, count - 1, x);
      assert x in front;
    }
    InConcat(front, layer, x);
  }

  lemma InConcat(u: seq<nat>, v: seq<nat>, x: nat)
    ensures x in u + v <==> x in u || x in v
  {
  }

  ghost predicate Sorted(a: seq<nat>, u: seq<nat>) {
    && (forall p :: 0 <= p < |u| ==> u[p] < |a|)
    && (forall p, q :: 0 <= p < q < |u| ==> Earlier(a, u[p], u[q]))
  }

  ghost predicate SortedBelow(a: seq<nat>, u: seq<nat>, count: nat) {
    Sorted(a, u) && forall p :: 0 <= p < |u| ==> a[u[p]] < count
  }

  lemma MembersSorted(a: seq<nat>, layer: nat)
    ensures var m := Members(a, |a|, layer); Sorted(a, m) && forall p :: 0 <= p < |m| ==> a[m[p]] == layer
  {
    MembersOf(a, |a|, layer);
    var m := Members(a, |a|, layer);
    assert forall p :: 0 <= p < |m| ==> m[p] in m;
  }

  lemma SortedConcat(a: seq<nat>, f: seq<nat>, m: seq<nat>, layer: nat)
    requires SortedBelow(a, f, layer) && Sorted(a, m)
    requires forall p :: 0 <= p < |m| ==> a[m[p]] == layer
    ensures SortedBelow(a, f + m, layer + 1)
  {
  }

  lemma {:induction false} FlattenSortedBelow(a: seq<nat>, count: nat)
    ensures SortedBelow(a, Flatten(a, count), count)
  {
    if count == 0 {
    } else {
      FlattenSortedBelow(a, count - 1);
      MembersSorted(a, count - 1);
      SortedConcat(a, Flatten(a, count - 1), Members(a, |a|, count - 1), count - 1);
    }
  }

  /** The flattened schedule runs each placed operation once, by layer and then by position. */
  lemma FlattenSorted(a: seq<nat>, count: nat)
    ensures forall x: nat :: x in Flatten(a, count) <==> x < |a| && a[x] < count
    ensures Sorted(a, Flatten(a, count))
  {
    FlattenSortedBelow(a, count);
    forall x: nat | x < |a| && a[x] < count ensures x in Flatten(a, count) { FlattenHolds(a, count, x); }
  }

  lemma {:induction false} DistinctCount(u: seq<nat>, x: nat)
    requires Distinct(u)
    ensures multiset(u)[x] == if x in u then 1 else 0
  {
    if u == [] {
    } else {
      var n := |u| - 1;
      assert u == u[..n] + [u[n]];
      DistinctCount(u[..n], x);
    }
  }

  lemma SameElements(u: seq<nat>, v: seq<nat>)
    requires Distinct(u) && Distinct(v)
    requires forall x: nat :: x in u <==> x in v
    ensures multiset(u) == multiset(v)
  {
    forall x: nat ensures multiset(u)[x] == multiset(v)[x] {
      DistinctCount(u, x);
      DistinctCount(v, x);
    }
  }

  lemma FlattenIsPermutation(a: seq<nat>, count: nat)
    requires forall i :: 0 <= i < |a| ==> a[i] < count
    ensures Distinct(Iota(|a|)) && Distinct(Flatten(a, count))
    ensures multiset(Iota(|a|)) == multiset(Flatten(a, count))
  {
    IotaAt(|a|);
    FlattenSorted(a, count);
    var u, v := Iota(|a|), Flatten(a, count);
    forall x: nat ensures x in u <==> x in v {
      if x < |a| { assert u[x] == x; }
    }
    SameElements(u, v);
  }

  lemma BeforeInFlatten(a: seq<nat>, count: nat, x: nat, y: nat)
    requires forall i :: 0 <= i < |a| ==> a[i] < count
    ensures Before(Flatten(a, count), x, y) <==> x < |a| && y < |a| && Earlier(a, x, y)
  {
    FlattenSorted(a, count);
    var f := Flatten(a, count);
    if x < |a| && y < |a| && Earlier(a, x, y) {
      assert x in f && y in f;
      var p, q :| 0 <= p < |f| && 0 <= q < |f| && f[p] == x && f[q] == y;
      assert p < q;
    }
  }

  lemma BeforeInIota(n: nat, x: nat, y: nat)
    ensures Before(Iota(n), x, y) <==> x < y < n
  {
    IotaAt(n);
    if x < y < n { assert Iota(n)[x] == x && Iota(n)[y] == y; }
  }

  lemma MembersOfThree(a: seq<nat>, l: nat)
    requires |a| == 3
    ensures Members(a, 3, l) ==
            (if a[0] == l then [0] else []) + (if a[1] == l then [1] else []) + (if a[2] == l then [2] else [])
  {
    var none := Members(a, 0, l);
    assert none == [];
    assert Members(a, 1, l) == none + (if a[0] == l then [0] else []);
    assert Members(a, 2, l) == Members(a, 1, l) + (if a[1] == l then [1] else []);
    assert Members(a, 3, l) == Members(a, 2, l) + (if a[2] == l then [2] else []);
  }

  /** Three operations of which the last overtakes the second. */
  lemma OvertakenOrder(a: seq<nat>)
    requires |a| == 3 && a[0] == 0 && a[1] == 1 && a[2] == 0
    ensures Flatten(a, 2) == Flatten(a, 3) == [0, 2, 1] && Iota(3) == [0, 1, 2]
  {
    MembersOfThree(a, 0);
    MembersOfThree(a, 1);
    MembersOfThree(a, 2);
    assert Flatten(a, 1) == Flatten(a, 0) + Members(a, 3, 0) == [0, 2];
    assert Flatten(a, 2) == Flatten(a, 1) + Members(a, 3, 1) == [0, 2, 1];
    assert Flatten(a, 3) == Flatten(a, 2) + Members(a, 3, 2);
    IotaAt(3);
  }

  /** No dependent pair is placed the wrong way round. */
  ghost predicate NoInversion(dep: (nat, nat) -> bool, a: seq<nat>) {
    forall i, j :: 0 <= i < j < |a| && dep(i, j) ==> a[i] <= a[j]
  }

  lemma InversionIsLostDependency(dep: (nat, nat) -> bool, a: seq<nat>, count: nat)
    requires forall i :: 0 <= i < |a| ==> a[i] < count
    ensures NoInversion(dep, a) <==> KeepsDependencies(dep, Iota(|a|), Flatten(a, count))
  {
    forall x: nat, y: nat
      ensures Before(Iota(|a|), x, y) && Before(Flatten(a, count), y, x) <==> x < y < |a| && a[y] < a[x]
    {
      BeforeInIota(|a|, x, y);
      BeforeInFlatten(a, count, y, x);
    }
    if KeepsDependencies(dep, Iota(|a|), Flatten(a, count)) {
      forall i, j | 0 <= i < j < |a| && dep(i, j) ensures a[i] <= a[j] {
        assert Before(Iota(|a|), i, j) && Before(Flatten(a, count), j, i) <==> a[j] < a[i];
      }
    }
  }

  /** The layer order is reached from the given order by swapping independent
      neighbours exactly when no dependent pair is inverted. */
  lemma CausalOrderKept(dep: (nat, nat) -> bool, a: seq<nat>, count: nat)
    requires forall i :: 0 <= i < |a| ==> a[i] < count
    ensures TraceEquivalent(dep, Iota(|a|), Flatten(a, count)) <==> NoInversion(dep, a)
  {
    FlattenIsPermutation(a, count);
    InversionIsLostDependency(dep, a, count);
    TraceEquivalence(dep, Iota(|a|), Flatten(a, count));
  }

  // ----- soundness for every semantics

  ghost predicate Respects(dep: (nat, nat) -> bool, step: (nat, seq<nat>) -> Option<seq<nat>>) {
    forall i: nat, j: nat :: !dep(i, j) ==> Commute(step, i, j)
  }

  /** The two orders agree under every semantics in which independent operations commute. */
  ghost predicate AlwaysAgree(dep: (nat, nat) -> bool, u: seq<nat>, v: seq<nat>) {
    forall step: (nat, seq<nat>) -> Option<seq<nat>>, s: seq<nat> ::
      Respects(dep, step) ==> Run(step, u, Some(s)) == Run(step, v, Some(s))
  }

  /** Layering is sound for every semantics that respects the dependencies exactly when
      no dependent pair is inverted. */
  lemma ScheduleSoundExactly(dep: (nat, nat) -> bool, a: seq<nat>, count: nat)
    requires forall i :: 0 <= i < |a| ==> a[i] < count
    requires forall i: nat, j: nat :: dep(i, j) ==> dep(j, i)
    ensures AlwaysAgree(dep, Iota(|a|), Flatten(a, count)) <==> NoInversion(dep, a)
  {
    var u, v := Iota(|a|), Flatten(a, count);
    FlattenIsPermutation(a, count);
    if NoInversion(dep, a) {
      InversionIsLostDependency(dep, a, count);
      forall step: (nat, seq<nat>) -> Option<seq<nat>>, s: seq<nat> | Respects(dep, step)
        ensures Run(step, u, Some(s)) == Run(step, v, Some(s))
      {
        OrdersAgree(dep, step, u, v, Some(s));
      }
    } else {
      var i, j :| 0 <= i < j < |a| && dep(i, j) && a[j] < a[i];
      BeforeInIota(|a|, i, j);
      BeforeInFlatten(a, count, j, i);
      InversionObservable(dep, u, v, i, j);
      assert Respects(dep, Witness(i, j));
    }
  }
}
