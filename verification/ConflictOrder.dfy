/** Which batches greedy layering leaves in causal order, told from the touch sets alone. */
module ConflictOrder {
  import opened OpDependency

  // ----- one operation overtaking another

  /** An operation before i holds back i but not j. */
  ghost predicate Bypass(ops: seq<OpTouch>, i: nat, j: nat)
    requires i < |ops| && j < |ops|
  {
    exists h :: 0 <= h < i && Conflict(ops[h], ops[i]) && !Conflict(ops[h], ops[j])
  }

  /** A later operation is placed in an earlier layer only past something that holds back
      the earlier operation and not the later one. */
  lemma OvertakingNeedsBypass(ops: seq<OpTouch>, a: seq<nat>, i: nat, j: nat)
    requires Greedy(ops, a) && i < j < |ops| && a[j] < a[i]
    ensures Bypass(ops, i, j)
  {
    assert Blocked(ops, a, i, ops[i], a[j]);
    var h :| 0 <= h < i && a[h] == a[j] && Conflict(ops[h], ops[i]);
    assert !Blocked(ops, a, j, ops[j], a[j]);
  }

  /** In a batch of three the last operation overtakes the second exactly when the first
      holds back the second only. */
  lemma ThreeOvertake(ops: seq<OpTouch>)
    requires |ops| == 3
    ensures Layers(ops)[2] < Layers(ops)[1] <==> Conflict(ops[0], ops[1]) && !Conflict(ops[0], ops[2])
    ensures Conflict(ops[0], ops[1]) && !Conflict(ops[0], ops[2]) ==> Layers(ops) == [0, 1, 0]
  {
    LayersAreGreedy(ops);
    if Conflict(ops[0], ops[1]) && !Conflict(ops[0], ops[2]) {
      var a := [0, 1, 0];
      assert Blocked(ops, a, 1, ops[1], 0) by { assert a[0] == 0; }
      assert !Blocked(ops, a, 2, ops[2], 0);
      assert Greedy(ops, a);
      GreedyIsUnique(ops, a, Layers(ops), 3);
      assert a[..3] == a && Layers(ops)[..3] == Layers(ops);
    } else if Layers(ops)[2] < Layers(ops)[1] {
      OvertakingNeedsBypass(ops, Layers(ops), 1, 2);
    }
  }

  // ----- depth: the longest chain of conflicts that ends in an operation

  /** One more than the largest depth among the first n operations that conflict with j. */
  ghost function DepthBelow(ops: seq<OpTouch>, j: nat, n: nat): nat
    requires n <= j < |ops|
    decreases j, n
  {
    if n == 0 then 0
    else
      var d := DepthBelow(ops, j, n - 1);
      if Conflict(ops[n - 1], ops[j]) && d <= Depth(ops, n - 1) then Depth(ops, n - 1) + 1 else d
  }

  ghost function Depth(ops: seq<OpTouch>, j: nat): nat
    requires j < |ops|
    decreases j, j + 1
  {
    DepthBelow(ops, j, j)
  }

  lemma {:induction false} DepthBelowIsLargest(ops: seq<OpTouch>, j: nat, n: nat)
    requires n <= j < |ops|
    ensures forall i :: 0 <= i < n && Conflict(ops[i], ops[j]) ==> Depth(ops, i) < DepthBelow(ops, j, n)
    ensures DepthBelow(ops, j, n) > 0 ==>
              exists i :: 0 <= i < n && Conflict(ops[i], ops[j]) && Depth(ops, i) + 1 == DepthBelow(ops, j, n)
  {
    if n == 0 {
    } else {
      DepthBelowIsLargest(ops, j, n - 1);
    }
  }

  /** Ascending positions of which each conflicts with the next. */
  ghost predicate Chain(ops: seq<OpTouch>, c: seq<nat>) {
    && (forall k :: 0 <= k < |c| ==> c[k] < |ops|)
    && (forall k :: 0 < k < |c| ==> c[k - 1] < c[k] && Conflict(ops[c[k - 1]], ops[c[k]]))
  }

  lemma {:induction false} ChainBound(ops: seq<OpTouch>, c: seq<nat>)
    requires Chain(ops, c) && c != []
    ensures |c| <= Depth(ops, c[|c| - 1]) + 1
    decreases |c|
  {
    if |c| > 1 {
      var n := |c| - 1;
      var front := c[..n];
      assert forall k :: 0 <= k < n ==> front[k] == c[k];
      ChainBound(ops, front);
      DepthBelowIsLargest(ops, c[n], c[n]);
      assert c[n - 1] < c[n] && Conflict(ops[c[n - 1]], ops[c[n]]);
    }
  }

  lemma ChainExtends(ops: seq<OpTouch>, c: seq<nat>, j: nat)
    requires Chain(ops, c) && c != [] && c[|c| - 1] < j < |ops| && Conflict(ops[c[|c| - 1]], ops[j])
    ensures Chain(ops, c + [j])
  {
  }

  lemma {:induction false} LongestChain(ops: seq<OpTouch>, j: nat) returns (c: seq<nat>)
    requires j < |ops|
    ensures Chain(ops, c) && |c| == Depth(ops, j) + 1 && c[|c| - 1] == j
    decreases j
  {
    if Depth(ops, j) == 0 {
      c := [j];
    } else {
      DepthBelowIsLargest(ops, j, j);
      var i :| 0 <= i < j && Conflict(ops[i], ops[j]) && Depth(ops, i) + 1 == Depth(ops, j);
      c := LongestChain(ops, i);
      ChainExtends(ops, c, j);
      c := c + [j];
    }
  }

  /** The depth of an operation is the number of operations before it on a longest chain
      of conflicts that ends in it. */
  lemma DepthIsLongestChain(ops: seq<OpTouch>, j: nat)
    requires j < |ops|
    ensures forall c :: Chain(ops, c) && c != [] && c[|c| - 1] == j ==> |c| <= Depth(ops, j) + 1
    ensures exists c :: Chain(ops, c) && c != [] && c[|c| - 1] == j && |c| == Depth(ops, j) + 1
  {
    forall c | Chain(ops, c) && c != [] && c[|c| - 1] == j ensures |c| <= Depth(ops, j) + 1 { ChainBound(ops, c); }
    var c := LongestChain(ops, j);
  }

  // ----- the exact condition for one batch

  /** Operation j conflicts with an earlier operation of depth m. */
  ghost predicate MeetsDepth(ops: seq<OpTouch>, j: nat, m: nat)
    requires j < |ops|
  {
    exists h :: 0 <= h < j && Depth(ops, h) == m && Conflict(ops[h], ops[j])
  }

  /** Every operation conflicts with earlier operations of all depths below its own. */
  ghost predicate Stepped(ops: seq<OpTouch>) {
    forall j, m :: 0 <= j < |ops| && 0 <= m < Depth(ops, j) ==> MeetsDepth(ops, j, m)
  }

  /** Every conflicting pair is placed in the order given. */
  ghost predicate ConflictsKept(ops: seq<OpTouch>, a: seq<nat>)
    requires |a| == |ops|
  {
    forall i, j :: 0 <= i < j < |ops| && Conflict(ops[i], ops[j]) ==> a[i] < a[j]
  }

  ghost function Depths(ops: seq<OpTouch>): (d: seq<nat>)
    ensures |d| == |ops|
  {
    seq(|ops|, j requires 0 <= j < |ops| => Depth(ops, j))
  }

  lemma SteppedDepthsAreGreedy(ops: seq<OpTouch>)
    requires Stepped(ops)
    ensures Greedy(ops, Depths(ops)) && ConflictsKept(ops, Depths(ops))
  {
    var d := Depths(ops);
    forall j | 0 <= j < |ops| ensures forall i :: 0 <= i < j && Conflict(ops[i], ops[j]) ==> d[i] < d[j] {
      DepthBelowIsLargest(ops, j, j);
    }
    forall j, m | 0 <= j < |ops| && 0 <= m < d[j] ensures Blocked(ops, d, j, ops[j], m) {
      assert MeetsDepth(ops, j, m);
      var h :| 0 <= h < j && Depth(ops, h) == m && Conflict(ops[h], ops[j]);
      assert d[h] == m;
    }
  }

  lemma {:induction false} KeptLayerIsDepth(ops: seq<OpTouch>, a: seq<nat>, j: nat)
    requires Greedy(ops, a) && ConflictsKept(ops, a) && j < |ops|
    ensures a[j] == Depth(ops, j)
    decreases j
  {
    forall i | 0 <= i < j ensures a[i] == Depth(ops, i) { KeptLayerIsDepth(ops, a, i); }
    DepthBelowIsLargest(ops, j, j);
    assert !Blocked(ops, a, j, ops[j], Depth(ops, j));
  }

  /** Greedy layering keeps every conflicting pair in order exactly when every operation
      conflicts with earlier operations of all depths below its own; the layers are then
      the depths. */
  lemma KeptExactlyWhenStepped(ops: seq<OpTouch>)
    ensures ConflictsKept(ops, Layers(ops)) <==> Stepped(ops)
    ensures Stepped(ops) ==> Layers(ops) == Depths(ops)
  {
    var a, d := Layers(ops), Depths(ops);
    LayersAreGreedy(ops);
    if Stepped(ops) {
      SteppedDepthsAreGreedy(ops);
      GreedyIsUnique(ops, a, d, |ops|);
      assert a[..|ops|] == a && d[..|ops|] == d;
    }
    if ConflictsKept(ops, a) {
      forall j | 0 <= j < |ops| ensures a[j] == Depth(ops, j) { KeptLayerIsDepth(ops, a, j); }
      forall j, m | 0 <= j < |ops| && 0 <= m < Depth(ops, j) ensures MeetsDepth(ops, j, m) {
        assert Blocked(ops, a, j, ops[j], m);
      }
    }
  }

  // ----- the exact condition for a batch and all its sub-batches

  ghost predicate Ascending(pick: seq<nat>, n: nat) {
    && (forall k :: 0 <= k < |pick| ==> pick[k] < n)
    && (forall k, l :: 0 <= k < l < |pick| ==> pick[k] < pick[l])
  }

  /** The sub-batch of the picked positions. */
  ghost function Pick<T>(s: seq<T>, pick: seq<nat>): (r: seq<T>)
    requires Ascending(pick, |s|)
    ensures |r| == |pick| && forall k :: 0 <= k < |pick| ==> r[k] == s[pick[k]]
  {
    seq(|pick|, k requires 0 <= k < |pick| => s[pick[k]])
  }
}
