/** Greedy layering of operations by the keys they touch
    (include/hive_native/perf/op_dependency.hpp). */
module OpDependency {

  datatype OpClass =
    TransferClass | NftTransferClass | HtlcRedeemClass | VoteClass | CustomJsonClass | GlobalClass | OtherClass

  datatype OpTouch = OpTouch(index: nat, cls: OpClass, accounts: seq<string>, touchesGlobal: bool)

  function AccountSet(op: OpTouch): set<string> {
    set x | x in op.accounts
  }

  ghost predicate Conflict(a: OpTouch, b: OpTouch) {
    a.touchesGlobal || b.touchesGlobal || exists x :: x in a.accounts && x in b.accounts
  }

  /** Everything a touches is touched by b; a global operation counts as touching everything. */
  ghost predicate TouchContained(a: OpTouch, b: OpTouch) {
    b.touchesGlobal || (!a.touchesGlobal && forall x :: x in a.accounts ==> x in b.accounts)
  }

  // ----- greedy assignments

  /** An operation before position n sits in the layer and conflicts with op. */
  ghost predicate Blocked(ops: seq<OpTouch>, a: seq<nat>, n: nat, op: OpTouch, layer: nat)
    requires n <= |a| && n <= |ops|
  {
    exists j :: 0 <= j < n && a[j] == layer && Conflict(ops[j], op)
  }

  ghost predicate GreedyPrefix(ops: seq<OpTouch>, a: seq<nat>) {
    && |a| <= |ops|
    && (forall n :: 0 <= n < |a| ==> !Blocked(ops, a, n, ops[n], a[n]))
    && (forall n, m :: 0 <= n < |a| && 0 <= m < a[n] ==> Blocked(ops, a, n, ops[n], m))
  }

  /** Every operation sits in the least layer in which no earlier operation conflicts with it. */
  ghost predicate Greedy(ops: seq<OpTouch>, a: seq<nat>) {
    |a| == |ops| && GreedyPrefix(ops, a)
  }

  ghost function FirstFit(ops: seq<OpTouch>, a: seq<nat>, op: OpTouch, from: nat): (layer: nat)
    requires |a| <= |ops| && from <= |a|
    requires forall j :: 0 <= j < |a| ==> a[j] <= j
    ensures from <= layer <= |a|
    ensures !Blocked(ops, a, |a|, op, layer)
    ensures forall m :: from <= m < layer ==> Blocked(ops, a, |a|, op, m)
    decreases |a| - from
  {
    if Blocked(ops, a, |a|, op, from) then FirstFit(ops, a, op, from + 1) else from
  }

  /** Layers of the first n operations. */
  ghost function Assignment(ops: seq<OpTouch>, n: nat): (a: seq<nat>)
    requires n <= |ops|
    ensures |a| == n
    ensures forall j :: 0 <= j < n ==> a[j] <= j
  {
    if n == 0 then []
    else
      var a := Assignment(ops, n - 1);
      a + [FirstFit(ops, a, ops[n - 1], 0)]
  }

  ghost function Layers(ops: seq<OpTouch>): seq<nat> {
    Assignment(ops, |ops|)
  }

  lemma BlockedByPrefix(ops: seq<OpTouch>, a: seq<nat>, x: nat, n: nat, op: OpTouch, layer: nat)
    requires n <= |a| && n <= |ops|
    ensures Blocked(ops, a + [x], n, op, layer) <==> Blocked(ops, a, n, op, layer)
  {
    assert forall j :: 0 <= j < n ==> (a + [x])[j] == a[j];
  }

  lemma GreedyExtends(ops: seq<OpTouch>, a: seq<nat>, x: nat)
    requires |a| < |ops| && GreedyPrefix(ops, a)
    requires !Blocked(ops, a, |a|, ops[|a|], x)
    requires forall m :: 0 <= m < x ==> Blocked(ops, a, |a|, ops[|a|], m)
    ensures GreedyPrefix(ops, a + [x])
  {
    var b := a + [x];
    forall i | 0 <= i < |b| ensures !Blocked(ops, b, i, ops[i], b[i]) {
      BlockedByPrefix(ops, a, x, i, ops[i], b[i]);
    }
    forall i, m | 0 <= i < |b| && 0 <= m < b[i] ensures Blocked(ops, b, i, ops[i], m) {
      BlockedByPrefix(ops, a, x, i, ops[i], m);
    }
  }

  lemma {:induction false} AssignmentIsGreedy(ops: seq<OpTouch>, n: nat)
    requires n <= |ops|
    ensures GreedyPrefix(ops, Assignment(ops, n))
  {
    if n == 0 {
    } else {
      AssignmentIsGreedy(ops, n - 1);
      var a := Assignment(ops, n - 1);
      GreedyExtends(ops, a, FirstFit(ops, a, ops[n - 1], 0));
    }
  }

  /** The layering is greedy ... */
  lemma LayersAreGreedy(ops: seq<OpTouch>)
    ensures Greedy(ops, Layers(ops))
  {
    AssignmentIsGreedy(ops, |ops|);
  }

  /** ... and there is no other greedy layering. */
  lemma {:induction false} GreedyIsUnique(ops: seq<OpTouch>, a: seq<nat>, b: seq<nat>, n: nat)
    requires Greedy(ops, a) && Greedy(ops, b) && n <= |ops|
    ensures a[..n] == b[..n]
  {
    if n == 0 {
    } else {
      GreedyIsUnique(ops, a, b, n - 1);
      var i := n - 1;
      assert forall j :: 0 <= j < i ==> a[j] == a[..i][j] == b[j];
      assert forall m: nat :: Blocked(ops, a, i, ops[i], m) <==> Blocked(ops, b, i, ops[i], m);
      assert a[i] == b[i];
    }
  }

  // ----- contents of a layer

  /** Positions below n placed in the layer, in ascending order. */
  ghost function Members(a: seq<nat>, n: nat, layer: nat): seq<nat>
    requires n <= |a|
  {
    if n == 0 then []
    else Members(a, n - 1, layer) + (if a[n - 1] == layer then [n - 1] else [])
  }

  /** The index fields of those positions. */
  ghost function Indices(ops: seq<OpTouch>, a: seq<nat>, n: nat, layer: nat): seq<nat>
    requires n <= |a| && n <= |ops|
  {
    if n == 0 then []
    else Indices(ops, a, n - 1, layer) + (if a[n - 1] == layer then [ops[n - 1].index] else [])
  }

  ghost function AccountsIn(ops: seq<OpTouch>, a: seq<nat>, n: nat, layer: nat): set<string>
    requires n <= |a| && n <= |ops|
  {
    if n == 0 then {}
    else AccountsIn(ops, a, n - 1, layer) + (if a[n - 1] == layer then AccountSet(ops[n - 1]) else {})
  }

  ghost predicate GlobalIn(ops: seq<OpTouch>, a: seq<nat>, n: nat, layer: nat)
    requires n <= |a| && n <= |ops|
  {
    n != 0 && (GlobalIn(ops, a, n - 1, layer) || (a[n - 1] == layer && ops[n - 1].touchesGlobal))
  }

  ghost predicate InUse(a: seq<nat>, n: nat, layer: nat)
    requires n <= |a|
  {
    layer in a[..n]
  }

  /** A layer holds exactly the positions assigned to it, each once and in increasing order. */
  lemma {:induction false} MembersOf(a: seq<nat>, n: nat, layer: nat)
    requires n <= |a|
    ensures forall p: nat :: p in Members(a, n, layer) <==> p < n && a[p] == layer
    ensures forall x, y :: 0 <= x < y < |Members(a, n, layer)| ==> Members(a, n, layer)[x] < Members(a, n, layer)[y]
  {
    if n == 0 {
    } else {
      MembersOf(a, n - 1, layer);
      var m := Members(a, n - 1, layer);
      forall x | 0 <= x < |m| ensures m[x] < n - 1 { assert m[x] in m; }
    }
  }

  /** When every index field is the position, layers list positions. */
  lemma {:induction false} IndicesAreMembers(ops: seq<OpTouch>, a: seq<nat>, n: nat, layer: nat)
    requires n <= |ops| && n <= |a|
    requires forall i :: 0 <= i < |ops| ==> ops[i].index == i
    ensures Indices(ops, a, n, layer) == Members(a, n, layer)
  {
    if n == 0 {
    } else {
      IndicesAreMembers(ops, a, n - 1, layer);
    }
  }

  lemma {:induction false} AccountsInAre(ops: seq<OpTouch>, a: seq<nat>, n: nat, layer: nat)
    requires n <= |ops| && n <= |a|
    ensures forall x :: x in AccountsIn(ops, a, n, layer) <==>
            exists j :: 0 <= j < n && a[j] == layer && x in ops[j].accounts
  {
    if n == 0 {
    } else {
      AccountsInAre(ops, a, n - 1, layer);
    }
  }

  lemma {:induction false} GlobalInIs(ops: seq<OpTouch>, a: seq<nat>, n: nat, layer: nat)
    requires n <= |ops| && n <= |a|
    ensures GlobalIn(ops, a, n, layer) <==> exists j :: 0 <= j < n && a[j] == layer && ops[j].touchesGlobal
  {
    if n == 0 {
    } else {
      GlobalInIs(ops, a, n - 1, layer);
    }
  }

  lemma {:induction false} UnusedIsEmpty(ops: seq<OpTouch>, a: seq<nat>, n: nat, layer: nat)
    requires n <= |ops| && n <= |a| && forall j :: 0 <= j < n ==> a[j] != layer
    ensures Indices(ops, a, n, layer) == [] && AccountsIn(ops, a, n, layer) == {} && !GlobalIn(ops, a, n, layer)
  {
    if n == 0 {
    } else {
      UnusedIsEmpty(ops, a, n - 1, layer);
    }
  }

  // ----- the builder

  ghost predicate Row(ops: seq<OpTouch>, a: seq<nat>, n: nat, l: nat, layer: seq<nat>, accounts: set<string>,
                      global: bool)
    requires n <= |a| && n <= |ops|
  {
    && layer == Indices(ops, a, n, l)
    && accounts == AccountsIn(ops, a, n, l)
    && global == GlobalIn(ops, a, n, l)
  }

  /** What the three tables of the builder hold after n operations. */
  ghost predicate Tables(ops: seq<OpTouch>, a: seq<nat>, n: nat, layers: seq<seq<nat>>, accounts: seq<set<string>>,
                         globals: seq<bool>)
    requires n <= |a| && n <= |ops|
  {
    && |accounts| == |layers| == |globals|
    && (forall j :: 0 <= j < n ==> a[j] < |layers|)
    && (forall l :: 0 <= l < |layers| ==> InUse(a, n, l))
    && (forall l :: 0 <= l < |layers| ==> Row(ops, a, n, l, layers[l], accounts[l], globals[l]))
  }

  /** The test made on the tables decides whether the layer is blocked. */
  lemma TestDecidesBlocked(ops: seq<OpTouch>, a: seq<nat>, n: nat, l: nat)
    requires n < |ops| && n <= |a| && InUse(a, n, l)
    ensures Blocked(ops, a, n, ops[n], l) <==>
            || ops[n].touchesGlobal
            || GlobalIn(ops, a, n, l)
            || exists k :: 0 <= k < |ops[n].accounts| && ops[n].accounts[k] in AccountsIn(ops, a, n, l)
  {
    GlobalInIs(ops, a, n, l);
    AccountsInAre(ops, a, n, l);
    if k :| 0 <= k < |ops[n].accounts| && ops[n].accounts[k] in AccountsIn(ops, a, n, l) {
      var j :| 0 <= j < n && a[j] == l && ops[n].accounts[k] in ops[j].accounts;
      assert Conflict(ops[j], ops[n]);
    }
    if Blocked(ops, a, n, ops[n], l) && !ops[n].touchesGlobal && !GlobalIn(ops, a, n, l) {
      var j :| 0 <= j < n && a[j] == l && Conflict(ops[j], ops[n]);
      var x :| x in ops[j].accounts && x in ops[n].accounts;
      assert x in AccountsIn(ops, a, n, l);
    }
  }

  /** Recording operation n in the tables, after a fresh row was added if none was free. */
  lemma TablesGrow(ops: seq<OpTouch>, a: seq<nat>, n: nat, layers: seq<seq<nat>>, accounts: seq<set<string>>,
                   globals: seq<bool>)
    requires n < |ops| && n < |a| && a[n] < |layers|
    requires |accounts| == |layers| == |globals|
    requires forall j :: 0 <= j < n ==> a[j] < |layers|
    requires forall l :: 0 <= l < |layers| ==> InUse(a, n, l) || l == a[n]
    requires forall l :: 0 <= l < |layers| ==> Row(ops, a, n, l, layers[l], accounts[l], globals[l])
    ensures var p := a[n];
            Tables(ops, a, n + 1, layers[p := layers[p] + [ops[n].index]],
                   accounts[p := accounts[p] + AccountSet(ops[n])],
                   globals[p := globals[p] || ops[n].touchesGlobal])
  {
    assert a[..n + 1] == a[..n] + [a[n]];
    var next := n + 1;
    forall l | 0 <= l < |layers| ensures InUse(a, next, l) {
      assert InUse(a, n, l) || l == a[n];
    }
    var p := a[n];
    var layers', accounts', globals' :=
      layers[p := layers[p] + [ops[n].index]],
      accounts[p := accounts[p] + AccountSet(ops[n])],
      globals[p := globals[p] || ops[n].touchesGlobal];
    forall l | 0 <= l < |layers| ensures Row(ops, a, n + 1, l, layers'[l], accounts'[l], globals'[l]) {
      assert Row(ops, a, n, l, layers[l], accounts[l], globals[l]);
    }
  }

  lemma LeastFree(ops: seq<OpTouch>, a: seq<nat>, n: nat, place: nat)
    requires Greedy(ops, a) && n < |ops|
    requires !Blocked(ops, a, n, ops[n], place)
    requires forall m :: 0 <= m < place ==> Blocked(ops, a, n, ops[n], m)
    ensures a[n] == place
  {
  }

  /** One operation's search for a layer: the first one that is not blocked. */
  method FindPlace(ops: seq<OpTouch>, ghost a: seq<nat>, n: nat, layers: seq<seq<nat>>,
                   layerAccounts: seq<set<string>>, layerGlobal: seq<bool>) returns (place: nat)
    requires n < |ops| && n <= |a| && Tables(ops, a, n, layers, layerAccounts, layerGlobal)
    ensures place <= |layers|
    ensures place < |layers| ==> !Blocked(ops, a, n, ops[n], place)
    ensures forall m :: 0 <= m < place ==> Blocked(ops, a, n, ops[n], m)
  {
    var op := ops[n];
    for l := 0 to |layers|
      invariant forall m :: 0 <= m < l ==> Blocked(ops, a, n, op, m)
    {
      assert Row(ops, a, n, l, layers[l], layerAccounts[l], layerGlobal[l]);
      TestDecidesBlocked(ops, a, n, l);
      if op.touchesGlobal || layerGlobal[l] { continue; }
      var conflict := false;
      for k := 0 to |op.accounts|
        invariant !conflict
        invariant forall x :: 0 <= x < k ==> op.accounts[x] !in layerAccounts[l]
      {
        if op.accounts[k] in layerAccounts[l] { conflict := true; break; }
      }
      if !conflict { return l; }
    }
    return |layers|;
  }

  /** Recording operation n at its place, in a new row if that lies beyond the tables. */
  lemma TablesRecord(ops: seq<OpTouch>, a: seq<nat>, n: nat, layers: seq<seq<nat>>, accounts: seq<set<string>>,
                     globals: seq<bool>)
    requires Greedy(ops, a) && n < |ops| && Tables(ops, a, n, layers, accounts, globals) && a[n] <= |layers|
    ensures var layers', accounts', globals' :=
              if a[n] < |layers| then layers else layers + [[]],
              if a[n] < |layers| then accounts else accounts + [{}],
              if a[n] < |layers| then globals else globals + [false];
            var p := a[n];
            Tables(ops, a, n + 1, layers'[p := layers'[p] + [ops[n].index]],
                   accounts'[p := accounts'[p] + AccountSet(ops[n])],
                   globals'[p := globals'[p] || ops[n].touchesGlobal])
  {
    if a[n] < |layers| {
      TablesGrow(ops, a, n, layers, accounts, globals);
    } else {
      UnusedIsEmpty(ops, a, n, a[n]);
      TablesGrow(ops, a, n, layers + [[]], accounts + [{}], globals + [false]);
    }
  }

  /** Greedy list scheduling.  Layer l of the result lists the index fields of the
      operations whose least unblocked layer is l, in input order; no layer is empty. */
  method BuildParallelSchedule(ops: seq<OpTouch>) returns (layers: seq<seq<nat>>)
    ensures |Layers(ops)| == |ops|
    ensures forall i :: 0 <= i < |ops| ==> Layers(ops)[i] < |layers|
    ensures forall l :: 0 <= l < |layers| ==> InUse(Layers(ops), |ops|, l)
    ensures forall l :: 0 <= l < |layers| ==> layers[l] == Indices(ops, Layers(ops), |ops|, l)
  {
    LayersAreGreedy(ops);
    ghost var a := Layers(ops);
    layers := [];
    var layerAccounts: seq<set<string>> := [];
    var layerGlobal: seq<bool> := [];
    for n := 0 to |ops|
      invariant Tables(ops, a, n, layers, layerAccounts, layerGlobal)
    {
      var op := ops[n];
      var place := FindPlace(ops, a, n, layers, layerAccounts, layerGlobal);
      LeastFree(ops, a, n, place);
      TablesRecord(ops, a, n, layers, layerAccounts, layerGlobal);
      if place == |layers| {
        layers := layers + [[]];
        layerAccounts := layerAccounts + [{}];
        layerGlobal := layerGlobal + [false];
      }
      layers := layers[place := layers[place] + [op.index]];
      layerAccounts := layerAccounts[place := layerAccounts[place] + AccountSet(op)];
      layerGlobal := layerGlobal[place := layerGlobal[place] || op.touchesGlobal];
    }
    forall l | 0 <= l < |layers| ensures layers[l] == Indices(ops, a, |ops|, l) {
      assert Row(ops, a, |ops|, l, layers[l], layerAccounts[l], layerGlobal[l]);
    }
  }

  // ----- what every greedy layering guarantees

  /** Operations that share a layer do not conflict. */
  lemma SameLayerIndependent(ops: seq<OpTouch>, a: seq<nat>, i: nat, j: nat)
    requires Greedy(ops, a) && i < j < |ops| && a[i] == a[j]
    ensures !Conflict(ops[i], ops[j])
  {
    assert !Blocked(ops, a, j, ops[j], a[j]);
  }

  /** A global operation is alone in its layer. */
  lemma GlobalAlone(ops: seq<OpTouch>, a: seq<nat>, i: nat, j: nat)
    requires Greedy(ops, a) && i < |ops| && j < |ops| && i != j && ops[i].touchesGlobal
    ensures a[i] != a[j]
  {
    assert !Blocked(ops, a, i, ops[i], a[i]);
    assert !Blocked(ops, a, j, ops[j], a[j]);
  }

  /** An earlier conflicting operation whose touch set is contained in a later one's
      runs in a strictly earlier layer. */
  lemma ContainedRunsFirst(ops: seq<OpTouch>, a: seq<nat>, i: nat, j: nat)
    requires Greedy(ops, a) && i < j < |ops|
    requires Conflict(ops[i], ops[j]) && TouchContained(ops[i], ops[j])
    ensures a[i] < a[j]
  {
    assert !Blocked(ops, a, j, ops[j], a[j]);
    forall m: nat | m < a[i] ensures Blocked(ops, a, j, ops[j], m) {
      assert Blocked(ops, a, i, ops[i], m);
      var k :| 0 <= k < i && a[k] == m && Conflict(ops[k], ops[i]);
      assert Conflict(ops[k], ops[j]);
    }
  }

  ghost function EarlierConflicts(ops: seq<OpTouch>, j: nat): set<nat>
    requires j < |ops|
  {
    set i: nat | i < j && Conflict(ops[i], ops[j])
  }

  ghost function Conflicts(ops: seq<OpTouch>, j: nat): set<nat>
    requires j < |ops|
  {
    set i: nat | i < |ops| && i != j && Conflict(ops[i], ops[j])
  }

  lemma {:induction false} OneWitnessPerLayer(ops: seq<OpTouch>, a: seq<nat>, j: nat, top: nat) returns (w: set<nat>)
    requires Greedy(ops, a) && j < |ops| && top <= a[j]
    ensures |w| == top && w <= EarlierConflicts(ops, j)
    ensures forall i :: i in w ==> i < j && a[i] < top
    decreases top
  {
    if top == 0 {
      w := {};
    } else {
      w := OneWitnessPerLayer(ops, a, j, top - 1);
      assert Blocked(ops, a, j, ops[j], top - 1);
      var i :| 0 <= i < j && a[i] == top - 1 && Conflict(ops[i], ops[j]);
      w := w + {i};
    }
  }

  lemma SubsetCardinality(a: set<nat>, b: set<nat>)
    requires a <= b
    ensures |a| <= |b|
  {
    if a != {} {
      var x :| x in a;
      SubsetCardinality(a - {x}, b - {x});
    }
  }

  /** The layer number is at most the number of earlier operations in conflict. */
  lemma LayerBound(ops: seq<OpTouch>, a: seq<nat>, j: nat)
    requires Greedy(ops, a) && j < |ops|
    ensures a[j] <= |EarlierConflicts(ops, j)| <= |Conflicts(ops, j)|
  {
    var w := OneWitnessPerLayer(ops, a, j, a[j]);
    SubsetCardinality(w, EarlierConflicts(ops, j));
    SubsetCardinality(EarlierConflicts(ops, j), Conflicts(ops, j));
  }

  /** There are at most one plus the maximum conflict degree many layers. */
  lemma LayerCountBound(ops: seq<OpTouch>, a: seq<nat>, degree: nat, layerCount: nat)
    requires Greedy(ops, a)
    requires forall j :: 0 <= j < |ops| ==> |Conflicts(ops, j)| <= degree
    requires forall l :: 0 <= l < layerCount ==> InUse(a, |ops|, l)
    ensures layerCount <= degree + 1
  {
    if layerCount > 0 {
      assert InUse(a, |ops|, layerCount - 1);
      var j :| 0 <= j < |ops| && a[j] == layerCount - 1;
      LayerBound(ops, a, j);
    }
  }
}
