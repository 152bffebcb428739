/** Planning and executing a schedule on the mutable database
    (include/hive_native/perf/apply_scheduler.hpp). */
module ScheduledApply {
  import opened Chain
  import opened Evaluators
  import opened Wrappers
  import opened Traces
  import opened OpDependency
  import opened ScheduleOrder
  import opened ApplyScheduler
  import opened ScheduleExactness
  import opened TouchSets

  datatype Stats = Stats(layers: seq<seq<nat>>, parallelWidth: nat, opsApplied: nat, layerCount: nat)

  /** The touch sets of valid operations conflict exactly when the operations overlap. */
  method ClassifyAll(ops: seq<ScheduledOp>) returns (out: seq<OpTouch>)
    ensures out == Touches(ops)
    ensures forall i, j :: 0 <= i < |ops| && 0 <= j < |ops| && Admissible(ops[i]) && Admissible(ops[j]) ==>
              (Conflict(out[i], out[j]) <==> Overlap(ops[i], ops[j]))
  {
    out := [];
    for i := 0 to |ops|
      invariant |out| == i && forall k :: 0 <= k < i ==> out[k] == Classify(k, ops[k])
    {
      out := out + [Classify(i, ops[i])];
    }
    forall i, j | 0 <= i < |ops| && 0 <= j < |ops| && Admissible(ops[i]) && Admissible(ops[j])
      ensures Conflict(out[i], out[j]) <==> Overlap(ops[i], ops[j])
    {
      TouchConflict(ops, i, j);
      ConflictExactly(ops[i], ops[j]);
    }
  }

  /** The layers are those of the greedy layering, each listing positions in ascending
      order, and the width is the size of a largest layer. */
  ghost predicate IsPlan(ops: seq<ScheduledOp>, stats: Stats) {
    && stats.layerCount == |stats.layers|
    && (forall i :: 0 <= i < |ops| ==> LayersOf(ops)[i] < |stats.layers|)
    && (forall l :: 0 <= l < |stats.layers| ==> stats.layers[l] == Members(LayersOf(ops), |ops|, l))
    && (forall l :: 0 <= l < |stats.layers| ==> 0 < |stats.layers[l]| <= stats.parallelWidth)
    && (stats.layers == [] ==> stats.parallelWidth == 0)
    && (stats.layers != [] ==> exists l :: 0 <= l < |stats.layers| && |stats.layers[l]| == stats.parallelWidth)
  }

  method PlanSchedule(ops: seq<ScheduledOp>) returns (stats: Stats)
    ensures IsPlan(ops, stats)
    ensures stats.opsApplied == 0
  {
    if ops == [] {
      return Stats([], 0, 0, 0);
    }
    var touches := ClassifyAll(ops);
    var layers := BuildParallelSchedule(touches);
    forall l | 0 <= l < |layers| ensures layers[l] == Members(LayersOf(ops), |ops|, l) && layers[l] != [] {
      IndicesAreMembers(touches, Layers(touches), |ops|, l);
      MembersOf(LayersOf(ops), |ops|, l);
      assert InUse(LayersOf(ops), |ops|, l);
      var i :| 0 <= i < |ops| && LayersOf(ops)[i] == l;
      assert i in Members(LayersOf(ops), |ops|, l);
    }
    var width := 0;
    for l := 0 to |layers|
      invariant forall k :: 0 <= k < l ==> |layers[k]| <= width
      invariant l == 0 ==> width == 0
      invariant l != 0 ==> exists k :: 0 <= k < l && |layers[k]| == width
    {
      if |layers[l]| > width { width := |layers[l]|; }
    }
    stats := Stats(layers, width, 0, |layers|);
  }

  /** A marker is always accepted, adds its record to the log and changes nothing else. */
  lemma MarkerOnlyLogs(env: Env, db: Db, name: string)
    ensures ApplyOne(env, db, GlobalMarker(name)) ==
            Outcome(db.(virtualOps := db.virtualOps + [GlobalMarked(name)]), true)
  {
  }

  // ----- running on the database, log order and failure included

  /** Runs the numbered transformers in order and stops at the first failure. */
  ghost function RunDb(step: (nat, Db) -> Outcome, db: Db, order: seq<nat>): Outcome
    decreases |order|
  {
    if order == [] then Outcome(db, true)
    else
      var o := step(order[0], db);
      if o.ok then RunDb(step, o.db, order[1..]) else o
  }

  lemma {:induction false} RunDbConcat(step: (nat, Db) -> Outcome, db: Db, u: seq<nat>, v: seq<nat>)
    ensures var o := RunDb(step, db, u);
            RunDb(step, db, u + v) == if o.ok then RunDb(step, o.db, v) else o
    decreases |u|
  {
    if u == [] {
      assert u + v == v;
    } else {
      assert (u + v)[0] == u[0] && (u + v)[1..] == u[1..] + v;
      RunDbConcat(step, step(u[0], db).db, u[1..], v);
    }
  }

  ghost predicate Prefix(order: seq<nat>, done: seq<nat>, next: nat) {
    |done| < |order| && done == order[..|done|] && order[|done|] == next
  }

  lemma RunDbNext(step: (nat, Db) -> Outcome, db: Db, order: seq<nat>, done: seq<nat>, next: nat)
    requires Prefix(order, done, next)
    ensures var o := RunDb(step, db, done);
            o.ok ==> RunDb(step, db, done + [next]) == step(next, o.db)
    ensures !RunDb(step, db, done + [next]).ok ==> RunDb(step, db, order) == RunDb(step, db, done + [next])
  {
    assert order == (done + [next]) + order[|done| + 1..];
    RunDbConcat(step, db, done + [next], order[|done| + 1..]);
    RunDbConcat(step, db, done, [next]);
    var o := RunDb(step, db, done);
    assert [next][1..] == [];
    assert RunDb(step, o.db, [next]) == step(next, o.db);
  }

  /** The transformers of a batch. */
  ghost function OnDb(env: Env, ops: seq<ScheduledOp>): (nat, Db) -> Outcome {
    (i: nat, db: Db) => if i < |ops| then ApplyOne(env, db, ops[i]) else Outcome(db, false)
  }

  ghost predicate Implements(step: (nat, Db) -> Outcome, env: Env, ops: seq<ScheduledOp>) {
    forall i: nat, db: Db {:trigger ApplyOne(env, db, ops[i])} :: i < |ops| ==> step(i, db) == ApplyOne(env, db, ops[i])
  }

  /** The run on the database and the run on views agree. */
  lemma {:induction false} RunDbIsRun(env: Env, db: Db, ops: seq<ScheduledOp>, order: seq<nat>)
    ensures Run(Semantics(env, ops), order, Some(ViewOf(db))) ==
            var o := RunDb(OnDb(env, ops), db, order); if o.ok then Some(ViewOf(o.db)) else None
    decreases |order|
  {
    if order == [] {
    } else {
      if order[0] < |ops| { ViewStepIsApplyOne(env, db, ops[order[0]]); }
      var o := OnDb(env, ops)(order[0], db);
      if o.ok {
        RunDbIsRun(env, o.db, ops, order[1..]);
      } else {
        RunNone(Semantics(env, ops), order[1..]);
      }
    }
  }

  /** The conditions on a batch, alone or with the state, under which it runs as given. */
  ghost predicate KeepsItsMeaning(ops: seq<ScheduledOp>, db: Db) {
    BypassFree(Interferes, ops) || (OvertakingFree(ops) && Funded(db))
  }

  lemma ScheduledMeetsGiven(env: Env, db: Db, ops: seq<ScheduledOp>, count: nat)
    requires forall i :: 0 <= i < |ops| ==> LayersOf(ops)[i] < count
    ensures KeepsItsMeaning(ops, db) ==>
              var scheduled := RunDb(OnDb(env, ops), db, Flatten(LayersOf(ops), count));
              var given := RunDb(OnDb(env, ops), db, Iota(|ops|));
              scheduled.ok == given.ok && (given.ok ==> ViewOf(scheduled.db) == ViewOf(given.db))
  {
    if KeepsItsMeaning(ops, db) {
      RunDbIsRun(env, db, ops, Flatten(LayersOf(ops), count));
      RunDbIsRun(env, db, ops, Iota(|ops|));
      if BypassFree(Interferes, ops) {
        ScheduleAgreesWithGivenOrder(env, ops, count, Some(ViewOf(db)));
      } else {
        OvertakingFreeAgrees(env, ops, count, ViewOf(db));
      }
    }
  }

  // ----- positions in the flattened schedule

  lemma {:induction false} FlattenPrefix(a: seq<nat>, l: nat, count: nat)
    requires l <= count
    ensures Flatten(a, l) <= Flatten(a, count)
  {
    if l < count { FlattenPrefix(a, l, count - 1); }
  }

  lemma NextInFlatten(a: seq<nat>, l: nat, k: nat, count: nat)
    requires l < count && k < |Members(a, |a|, l)|
    ensures Prefix(Flatten(a, count), Flatten(a, l) + Members(a, |a|, l)[..k], Members(a, |a|, l)[k])
  {
    FlattenPrefix(a, l + 1, count);
    var f, m, whole := Flatten(a, l), Members(a, |a|, l), Flatten(a, count);
    assert f + m == whole[..|f + m|];
    assert f + m[..k] == whole[..|f| + k];
    assert whole[|f| + k] == (f + m)[|f| + k] == m[k];
  }

  lemma FlattenLength(a: seq<nat>, count: nat)
    requires forall i :: 0 <= i < |a| ==> a[i] < count
    ensures |Flatten(a, count)| == |a|
  {
    FlattenIsPermutation(a, count);
    IotaAt(|a|);
    assert |multiset(Iota(|a|))| == |multiset(Flatten(a, count))|;
  }

  // ----- execution

  method ApplyTo(env: Env, db: Database, ops: seq<ScheduledOp>, i: nat, ghost step: (nat, Db) -> Outcome)
    returns (ok: bool)
    requires i < |ops| && Implements(step, env, ops)
    modifies db
    ensures Outcome(db.Value(), ok) == step(i, old(db.Value()))
  {
    ghost var before := db.Value();
    match ops[i] {
      case NftTransfer(t) => ok := db.ApplyTransfer(t);
      case HtlcRedeem(r) => ok := db.ApplyHtlcRedeem(env, r);
      case ContractCall(c) => ok := db.ApplyCall(env, c);
      case GlobalMarker(name) =>
        db.PushVirtual(GlobalMarked(name));
        ok := true;
    }
    assert Outcome(db.Value(), ok) == ApplyOne(env, before, ops[i]);
  }

  /** Runs one layer, continuing a run that has done the layers before it. */
  method RunLayer(env: Env, db: Database, ops: seq<ScheduledOp>, layer: seq<nat>, applied: nat,
                  ghost step: (nat, Db) -> Outcome, ghost a: seq<nat>, ghost db0: Db, ghost l: nat, ghost count: nat)
    returns (ok: bool, total: nat)
    requires Implements(step, env, ops)
    requires |a| == |ops| && l < count && layer == Members(a, |a|, l)
    requires RunDb(step, db0, Flatten(a, l)) == Outcome(db.Value(), true)
    modifies db
    ensures ok ==> RunDb(step, db0, Flatten(a, l + 1)) == Outcome(db.Value(), true) && total == applied + |layer|
    ensures !ok ==> RunDb(step, db0, Flatten(a, count)) == Outcome(db.Value(), false)
  {
    ghost var f := Flatten(a, l);
    MembersOf(a, |a|, l);
    total := applied;
    assert f + layer[..0] == f;
    for k := 0 to |layer|
      invariant total == applied + k
      invariant RunDb(step, db0, f + layer[..k]) == Outcome(db.Value(), true)
    {
      NextInFlatten(a, l, k, count);
      RunDbNext(step, db0, Flatten(a, count), f + layer[..k], layer[k]);
      assert f + layer[..k + 1] == (f + layer[..k]) + [layer[k]];
      assert layer[k] in layer;
      ok := ApplyTo(env, db, ops, layer[k], step);
      if !ok { return; }
      total := total + 1;
    }
    assert layer[..|layer|] == layer;
    ok := true;
  }

  method RunLayers(env: Env, db: Database, ops: seq<ScheduledOp>, layers: seq<seq<nat>>,
                   ghost step: (nat, Db) -> Outcome, ghost a: seq<nat>) returns (ok: bool, applied: nat)
    requires Implements(step, env, ops)
    requires |a| == |ops| && forall l :: 0 <= l < |layers| ==> layers[l] == Members(a, |a|, l)
    modifies db
    ensures Outcome(db.Value(), ok) == RunDb(step, old(db.Value()), Flatten(a, |layers|))
    ensures ok ==> applied == |Flatten(a, |layers|)|
  {
    ghost var db0 := db.Value();
    applied := 0;
    for l := 0 to |layers|
      invariant applied == |Flatten(a, l)|
      invariant RunDb(step, db0, Flatten(a, l)) == Outcome(db.Value(), true)
    {
      ok, applied := RunLayer(env, db, ops, layers[l], applied, step, a, db0, l, |layers|);
      if !ok { return; }
    }
    ok := true;
  }

  /** Executes the layers one after another.  The final database, the log order and the
      point of failure are those of running the flattened schedule; when nothing in the batch
      holds back the first of an interfering pair alone, or on a funded database the first of
      a clashing pair, success and the final state are those of the given order. */
  method ApplyScheduled(env: Env, db: Database, ops: seq<ScheduledOp>) returns (ok: bool, stats: Stats)
    modifies db
    ensures IsPlan(ops, stats)
    ensures Outcome(db.Value(), ok) == RunDb(OnDb(env, ops), old(db.Value()), Flatten(LayersOf(ops), stats.layerCount))
    ensures ok ==> stats.opsApplied == |ops|
    ensures KeepsItsMeaning(ops, old(db.Value())) ==>
              var given := RunDb(OnDb(env, ops), old(db.Value()), Iota(|ops|));
              ok == given.ok && (ok ==> ViewOf(db.Value()) == ViewOf(given.db))
  {
    stats := PlanSchedule(ops);
    ScheduledMeetsGiven(env, db.Value(), ops, |stats.layers|);
    FlattenLength(LayersOf(ops), |stats.layers|);
    var applied;
    ok, applied := RunLayers(env, db, ops, stats.layers, OnDb(env, ops), LayersOf(ops));
    stats := stats.(opsApplied := applied);
  }
}
