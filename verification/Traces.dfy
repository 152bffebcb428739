/** Orders of partial state transformers, and when two orders mean the same.

    An order is a sequence of operation numbers without repetition; running it
    threads a state through the numbered transformers and stops at the first
    failure.  Two orders are trace equivalent when one is reached from the other
    by swapping neighbours that do not depend on each other. */
module Traces {
  import opened Wrappers

  function Then<S>(step: (nat, S) -> Option<S>, o: Option<S>, i: nat): Option<S> {
    if o.Some? then step(i, o.value) else None
  }

  /** Runs the numbered operations from left to right. */
  function Run<S>(step: (nat, S) -> Option<S>, order: seq<nat>, o: Option<S>): Option<S> {
    if order == [] then o else Run(step, order[1..], Then(step, o, order[0]))
  }

  ghost predicate Commute<S(!new)>(step: (nat, S) -> Option<S>, i: nat, j: nat) {
    forall s: S :: Then(step, step(i, s), j) == Then(step, step(j, s), i)
  }

  ghost predicate Distinct(u: seq<nat>) {
    forall p, q :: 0 <= p < q < |u| ==> u[p] != u[q]
  }

  ghost predicate Before(u: seq<nat>, a: nat, b: nat) {
    exists p, q :: 0 <= p < q < |u| && u[p] == a && u[q] == b
  }

  /** Every dependent pair keeps in v the order it has in u. */
  ghost predicate KeepsDependencies(dep: (nat, nat) -> bool, u: seq<nat>, v: seq<nat>) {
    forall a, b :: Before(u, a, b) && Before(v, b, a) ==> !dep(a, b)
  }

  function Swap(u: seq<nat>, k: nat): seq<nat>
    requires k + 1 < |u|
  {
    u[k := u[k + 1]][k + 1 := u[k]]
  }

  /** A script lists the positions at which neighbours are swapped, one after another. */
  predicate Legal(dep: (nat, nat) -> bool, u: seq<nat>, script: seq<nat>)
    decreases |script|
  {
    script != [] ==>
      && script[0] + 1 < |u|
      && !dep(u[script[0]], u[script[0] + 1])
      && Legal(dep, Swap(u, script[0]), script[1..])
  }

  function Perform(dep: (nat, nat) -> bool, u: seq<nat>, script: seq<nat>): seq<nat>
    requires Legal(dep, u, script)
    decreases |script|
  {
    if script == [] then u else Perform(dep, Swap(u, script[0]), script[1..])
  }

  ghost predicate Reaches(dep: (nat, nat) -> bool, u: seq<nat>, v: seq<nat>, script: seq<nat>) {
    Legal(dep, u, script) && Perform(dep, u, script) == v
  }

  /** v is reached from u by swaps of independent neighbours. */
  ghost predicate TraceEquivalent(dep: (nat, nat) -> bool, u: seq<nat>, v: seq<nat>) {
    exists script :: Reaches(dep, u, v, script)
  }

  // ----- running

  lemma {:induction false} RunConcat<S>(step: (nat, S) -> Option<S>, u: seq<nat>, v: seq<nat>, o: Option<S>)
    ensures Run(step, u + v, o) == Run(step, v, Run(step, u, o))
  {
    if u == [] {
      assert u + v == v;
    } else {
      assert (u + v)[1..] == u[1..] + v;
      RunConcat(step, u[1..], v, Then(step, o, u[0]));
    }
  }

  lemma {:induction false} RunNone<S>(step: (nat, S) -> Option<S>, order: seq<nat>)
    ensures Run(step, order, None) == None
  {
    if order == [] {
    } else {
      RunNone(step, order[1..]);
    }
  }

  lemma RunPair<S(!new)>(step: (nat, S) -> Option<S>, i: nat, j: nat, o: Option<S>)
    requires Commute(step, i, j)
    ensures Run(step, [i, j], o) == Run(step, [j, i], o)
  {
    assert [i, j][1..] == [j] && [j, i][1..] == [i];
    assert Run(step, [i, j], o) == Run(step, [j], Then(step, o, i)) == Then(step, Then(step, o, i), j);
    assert Run(step, [j, i], o) == Run(step, [i], Then(step, o, j)) == Then(step, Then(step, o, j), i);
  }

  lemma SwapKeepsRun<S(!new)>(step: (nat, S) -> Option<S>, u: seq<nat>, k: nat, o: Option<S>)
    requires k + 1 < |u|
    requires Commute(step, u[k], u[k + 1])
    ensures Run(step, u, o) == Run(step, Swap(u, k), o)
  {
    var pre, post := u[..k], u[k + 2..];
    var i, j := u[k], u[k + 1];
    assert u == pre + ([i, j] + post);
    assert Swap(u, k) == pre + ([j, i] + post);
    RunConcat(step, pre, [i, j] + post, o);
    RunConcat(step, pre, [j, i] + post, o);
    var mid := Run(step, pre, o);
    RunConcat(step, [i, j], post, mid);
    RunConcat(step, [j, i], post, mid);
    RunPair(step, i, j, mid);
  }

  /** Trace equivalent orders compute the same result under every semantics in
      which independent operations commute. */
  lemma {:induction false} ScriptKeepsRun<S(!new)>(dep: (nat, nat) -> bool, step: (nat, S) -> Option<S>,
                                                   u: seq<nat>, script: seq<nat>, o: Option<S>)
    requires Legal(dep, u, script)
    requires forall i, j :: i in u && j in u && !dep(i, j) ==> Commute(step, i, j)
    ensures Run(step, u, o) == Run(step, Perform(dep, u, script), o)
    decreases |script|
  {
    if script == [] {
    } else {
      SwapKeepsRun(step, u, script[0], o);
      SwapKeepsElements(u, script[0]);
      ScriptKeepsRun(dep, step, Swap(u, script[0]), script[1..], o);
    }
  }

  // ----- building a script

  lemma {:induction false} ScriptConcat(dep: (nat, nat) -> bool, u: seq<nat>, a: seq<nat>, b: seq<nat>)
    requires Legal(dep, u, a) && Legal(dep, Perform(dep, u, a), b)
    ensures Legal(dep, u, a + b)
    ensures Perform(dep, u, a + b) == Perform(dep, Perform(dep, u, a), b)
    decreases |a|
  {
    if a == [] {
      assert a + b == b;
    } else {
      assert (a + b)[1..] == a[1..] + b;
      ScriptConcat(dep, Swap(u, a[0]), a[1..], b);
    }
  }

  function Shift(script: seq<nat>): seq<nat> {
    if script == [] then [] else [script[0] + 1] + Shift(script[1..])
  }

  lemma {:induction false} ScriptUnderPrefix(dep: (nat, nat) -> bool, x: nat, u: seq<nat>, script: seq<nat>)
    requires Legal(dep, u, script)
    ensures Legal(dep, [x] + u, Shift(script))
    ensures Perform(dep, [x] + u, Shift(script)) == [x] + Perform(dep, u, script)
    decreases |script|
  {
    if script == [] {
    } else {
      var k := script[0];
      assert Swap([x] + u, k + 1) == [x] + Swap(u, k);
      assert Shift(script)[1..] == Shift(script[1..]);
      ScriptUnderPrefix(dep, x, Swap(u, k), script[1..]);
    }
  }

  function Descend(p: nat): seq<nat> {
    if p == 0 then [] else [p - 1] + Descend(p - 1)
  }

  lemma SwappedThenMoved(u: seq<nat>, p: nat)
    requires 0 < p < |u|
    ensures var w := Swap(u, p - 1);
            [w[p - 1]] + (w[..p - 1] + w[p..]) == [u[p]] + (u[..p] + u[p + 1..])
  {
    var w := Swap(u, p - 1);
    assert w[p..] == [u[p - 1]] + u[p + 1..];
    assert u[..p] == u[..p - 1] + [u[p - 1]];
    assert w[..p - 1] == u[..p - 1];
  }

  /** An operation independent of everything before it can be moved to the front. */
  lemma {:induction false} MoveToFront(dep: (nat, nat) -> bool, u: seq<nat>, p: nat)
    requires p < |u|
    requires forall q :: 0 <= q < p ==> !dep(u[q], u[p])
    ensures Legal(dep, u, Descend(p))
    ensures Perform(dep, u, Descend(p)) == [u[p]] + (u[..p] + u[p + 1..])
    decreases p
  {
    if p != 0 {
      var w := Swap(u, p - 1);
      MoveToFront(dep, w, p - 1);
      assert Descend(p)[1..] == Descend(p - 1);
      SwappedThenMoved(u, p);
    } else {
      assert u == [u[p]] + (u[..p] + u[p + 1..]);
    }
  }

  lemma BeforeDrop(t: seq<nat>, p: nat, a: nat, b: nat)
    requires p < |t|
    requires Before(t[..p] + t[p + 1..], a, b)
    ensures Before(t, a, b)
  {
    var c := t[..p] + t[p + 1..];
    var i, j :| 0 <= i < j < |c| && c[i] == a && c[j] == b;
    var i', j' := if i < p then i else i + 1, if j < p then j else j + 1;
    assert t[i'] == a && t[j'] == b;
  }

  lemma DropElement(u: seq<nat>, p: nat)
    requires p < |u| && Distinct(u)
    ensures Distinct(u[..p] + u[p + 1..])
    ensures multiset(u[..p] + u[p + 1..]) == multiset(u) - multiset{u[p]}
  {
    var w := u[..p] + u[p + 1..];
    assert u == u[..p] + [u[p]] + u[p + 1..];
    assert forall i :: 0 <= i < |w| ==> w[i] == u[if i < p then i else i + 1];
  }

  /** The operation that v runs first is independent of all that u runs before it. */
  lemma FirstIsMovable(dep: (nat, nat) -> bool, u: seq<nat>, v: seq<nat>, p: nat)
    requires multiset(u) == multiset(v) && Distinct(u)
    requires KeepsDependencies(dep, u, v)
    requires p < |u| && v != [] && u[p] == v[0]
    ensures forall q :: 0 <= q < p ==> !dep(u[q], u[p])
  {
    forall q | 0 <= q < p ensures !dep(u[q], u[p]) {
      assert Before(u, u[q], u[p]);
      assert u[q] in multiset(v);
      var r :| 0 <= r < |v| && v[r] == u[q];
      assert Before(v, u[p], u[q]);
    }
  }

  lemma TailKeepsDependencies(dep: (nat, nat) -> bool, u: seq<nat>, v: seq<nat>, p: nat)
    requires KeepsDependencies(dep, u, v)
    requires p < |u| && v != []
    ensures KeepsDependencies(dep, u[..p] + u[p + 1..], v[1..])
  {
    assert v[..0] + v[0 + 1..] == v[1..];
    forall a, b | Before(u[..p] + u[p + 1..], a, b) && Before(v[1..], b, a) ensures !dep(a, b) {
      BeforeDrop(u, p, a, b);
      BeforeDrop(v, 0, b, a);
    }
  }

  lemma ExtendScript(dep: (nat, nat) -> bool, u: seq<nat>, p: nat, w: seq<nat>, script: seq<nat>)
    requires p < |u| && w == u[..p] + u[p + 1..]
    requires forall q :: 0 <= q < p ==> !dep(u[q], u[p])
    requires Legal(dep, w, script)
    ensures Reaches(dep, u, [u[p]] + Perform(dep, w, script), Descend(p) + Shift(script))
  {
    MoveToFront(dep, u, p);
    ScriptUnderPrefix(dep, u[p], w, script);
    ScriptConcat(dep, u, Descend(p), Shift(script));
  }

  lemma {:induction false} BuildScript(dep: (nat, nat) -> bool, u: seq<nat>, v: seq<nat>) returns (script: seq<nat>)
    requires Distinct(u) && Distinct(v) && multiset(u) == multiset(v)
    requires KeepsDependencies(dep, u, v)
    ensures Reaches(dep, u, v, script)
    decreases |v|
  {
    if v == [] {
      assert |multiset(u)| == 0;
      script := [];
    } else {
      assert v[0] in multiset(u);
      var p :| 0 <= p < |u| && u[p] == v[0];
      var w := u[..p] + u[p + 1..];
      FirstIsMovable(dep, u, v, p);
      TailPair(dep, u, v, p);
      var rest := BuildScript(dep, w, v[1..]);
      ExtendScript(dep, u, p, w, rest);
      script := Descend(p) + Shift(rest);
      assert v == [u[p]] + v[1..];
    }
  }

  lemma TailPair(dep: (nat, nat) -> bool, u: seq<nat>, v: seq<nat>, p: nat)
    requires Distinct(u) && Distinct(v) && multiset(u) == multiset(v)
    requires KeepsDependencies(dep, u, v)
    requires p < |u| && v != [] && u[p] == v[0]
    ensures var w := u[..p] + u[p + 1..];
            && Distinct(w) && Distinct(v[1..]) && multiset(w) == multiset(v[1..])
            && KeepsDependencies(dep, w, v[1..])
  {
    TailKeepsDependencies(dep, u, v, p);
    DropElement(u, p);
    DropFirst(v);
  }

  lemma DropFirst(v: seq<nat>)
    requires v != [] && Distinct(v)
    ensures Distinct(v[1..]) && multiset(v[1..]) == multiset(v) - multiset{v[0]}
  {
    assert v == [v[0]] + v[1..];
  }

  // ----- swaps keep dependencies

  lemma BeforeAsymmetric(u: seq<nat>, a: nat, b: nat)
    requires Distinct(u) && Before(u, a, b)
    ensures !Before(u, b, a)
  {
    var p, q :| 0 <= p < q < |u| && u[p] == a && u[q] == b;
    forall r, s | 0 <= r < s < |u| ensures !(u[r] == b && u[s] == a) {
      if u[r] == b { assert r == q; }
    }
  }

  lemma BeforeElements(u: seq<nat>, a: nat, b: nat)
    requires Distinct(u) && Before(u, a, b)
    ensures a in u && b in u && a != b
  {
  }

  lemma SwapKeepsElements(u: seq<nat>, k: nat)
    requires k + 1 < |u|
    ensures forall i :: i in Swap(u, k) <==> i in u
    ensures Distinct(u) ==> Distinct(Swap(u, k))
  {
    var w := Swap(u, k);
    forall i | i in u ensures i in w {
      var p :| 0 <= p < |u| && u[p] == i;
      assert w[if p == k then k + 1 else if p == k + 1 then k else p] == i;
    }
  }

  lemma SwapKeepsBefore(dep: (nat, nat) -> bool, u: seq<nat>, k: nat, a: nat, b: nat)
    requires k + 1 < |u| && !dep(u[k], u[k + 1])
    requires Before(u, a, b) && dep(a, b)
    ensures Before(Swap(u, k), a, b)
  {
    var p, q :| 0 <= p < q < |u| && u[p] == a && u[q] == b;
    var p' := if p == k then k + 1 else if p == k + 1 then k else p;
    var q' := if q == k then k + 1 else if q == k + 1 then k else q;
    var w := Swap(u, k);
    assert w[p'] == a && w[q'] == b && p' < q';
  }

  lemma {:induction false} ScriptKeepsBefore(dep: (nat, nat) -> bool, u: seq<nat>, script: seq<nat>, a: nat, b: nat)
    requires Legal(dep, u, script)
    requires Before(u, a, b) && dep(a, b)
    ensures Before(Perform(dep, u, script), a, b)
    decreases |script|
  {
    if script == [] {
    } else {
      SwapKeepsBefore(dep, u, script[0], a, b);
      ScriptKeepsBefore(dep, Swap(u, script[0]), script[1..], a, b);
    }
  }

  /** Two orders of the same operations are trace equivalent exactly when no
      dependent pair changes its relative order. */
  lemma TraceEquivalence(dep: (nat, nat) -> bool, u: seq<nat>, v: seq<nat>)
    requires Distinct(u) && Distinct(v) && multiset(u) == multiset(v)
    ensures TraceEquivalent(dep, u, v) <==> KeepsDependencies(dep, u, v)
  {
    if KeepsDependencies(dep, u, v) {
      var script := BuildScript(dep, u, v);
    }
    if TraceEquivalent(dep, u, v) {
      var script :| Reaches(dep, u, v, script);
      forall a, b | Before(u, a, b) && Before(v, b, a) ensures !dep(a, b) {
        BeforeAsymmetric(v, b, a);
        if dep(a, b) {
          ScriptKeepsBefore(dep, u, script, a, b);
        }
      }
    }
  }

  /** Orders that keep every dependency compute the same result. */
  lemma OrdersAgree<S(!new)>(dep: (nat, nat) -> bool, step: (nat, S) -> Option<S>,
                             u: seq<nat>, v: seq<nat>, o: Option<S>)
    requires Distinct(u) && Distinct(v) && multiset(u) == multiset(v)
    requires KeepsDependencies(dep, u, v)
    requires forall i, j :: i in u && j in u && !dep(i, j) ==> Commute(step, i, j)
    ensures Run(step, u, o) == Run(step, v, o)
  {
    var script := BuildScript(dep, u, v);
    ScriptKeepsRun(dep, step, u, script, o);
  }

  // ----- and the hypothesis cannot be dropped

  /** A semantics that observes only the relative order of a and b. */
  function Witness(a: nat, b: nat): (nat, seq<nat>) -> Option<seq<nat>> {
    (i: nat, s: seq<nat>) => Some(if i == a || i == b then s + [i] else s)
  }

  lemma WitnessCommutes(a: nat, b: nat, i: nat, j: nat)
    requires !(i == a && j == b) && !(i == b && j == a)
    ensures Commute(Witness(a, b), i, j)
  {
    forall s: seq<nat>
      ensures Then(Witness(a, b), Witness(a, b)(i, s), j) == Then(Witness(a, b), Witness(a, b)(j, s), i)
    {
      if (i == a || i == b) && (j == a || j == b) {
        assert i == j;
      }
    }
  }

  function Project(a: nat, b: nat, u: seq<nat>): seq<nat> {
    if u == [] then [] else (if u[0] == a || u[0] == b then [u[0]] else []) + Project(a, b, u[1..])
  }

  lemma {:induction false} WitnessRun(a: nat, b: nat, u: seq<nat>, s: seq<nat>)
    ensures Run(Witness(a, b), u, Some(s)) == Some(s + Project(a, b, u))
  {
    if u == [] {
      assert s + [] == s;
    } else {
      var s' := if u[0] == a || u[0] == b then s + [u[0]] else s;
      WitnessRun(a, b, u[1..], s');
      assert s' + Project(a, b, u[1..]) == s + Project(a, b, u);
    }
  }

  lemma {:induction false} ProjectStartsWithEarlier(a: nat, b: nat, u: seq<nat>)
    requires Distinct(u) && Before(u, a, b)
    ensures Project(a, b, u) != [] && Project(a, b, u)[0] == a
    ensures Project(b, a, u) == Project(a, b, u)
  {
    ProjectSymmetric(a, b, u);
    if u[0] != a {
      BeforeTail(u, a, b);
      ProjectStartsWithEarlier(a, b, u[1..]);
      assert u[0] != b by {
        var p, q :| 0 <= p < q < |u| && u[p] == a && u[q] == b;
      }
    }
  }

  lemma ProjectSymmetric(a: nat, b: nat, u: seq<nat>)
    ensures Project(b, a, u) == Project(a, b, u)
  {
  }

  lemma BeforeTail(u: seq<nat>, a: nat, b: nat)
    requires Before(u, a, b) && u[0] != a
    ensures Before(u[1..], a, b)
  {
    var p, q :| 0 <= p < q < |u| && u[p] == a && u[q] == b;
    assert u[1..][p - 1] == a && u[1..][q - 1] == b;
  }

  /** If some dependent pair is inverted, there is a semantics in which all
      independent operations commute and the two orders still differ. */
  lemma InversionObservable(dep: (nat, nat) -> bool, u: seq<nat>, v: seq<nat>, a: nat, b: nat)
    requires Distinct(u) && Distinct(v)
    requires Before(u, a, b) && Before(v, b, a) && dep(a, b) && dep(b, a)
    ensures forall i: nat, j: nat :: !dep(i, j) ==> Commute(Witness(a, b), i, j)
    ensures Run(Witness(a, b), u, Some([])) != Run(Witness(a, b), v, Some([]))
  {
    if a == b { BeforeAsymmetric(u, a, b); }
    forall i: nat, j: nat | !dep(i, j) ensures Commute(Witness(a, b), i, j) {
      WitnessCommutes(a, b, i, j);
    }
    WitnessRun(a, b, u, []);
    WitnessRun(a, b, v, []);
    ProjectStartsWithEarlier(a, b, u);
    ProjectStartsWithEarlier(b, a, v);
    assert [] + Project(a, b, u) == Project(a, b, u) && [] + Project(a, b, v) == Project(a, b, v);
  }
}
