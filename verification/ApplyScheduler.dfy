/** Scheduled application of transfers, redeems, contract calls and global markers
    (include/hive_native/perf/apply_scheduler.hpp), compared with applying them in
    the order given. */
module ApplyScheduler {
  import opened Types
  import opened Chain
  import opened Wrappers
  import opened Traces
  import opened OpDependency
  import opened ScheduleOrder
  import opened ConflictOrder

  datatype ScheduledOp =
    | NftTransfer(transfer: TransferOp)
    | HtlcRedeem(redeem: HtlcRedeemOp)
    | ContractCall(call: CallOp)
    | GlobalMarker(name: string)

  // ----- classification

  const DIGITS: string := "0123456789"

  function Decimal(n: nat): string {
    if n < 10 then [DIGITS[n]] else Decimal(n / 10) + [DIGITS[n % 10]]
  }

  function Classify(index: nat, op: ScheduledOp): OpTouch {
    match op
    case NftTransfer(t) => OpTouch(index, NftTransferClass, [t.from, t.to, "nft:" + Decimal(t.nftId)], false)
    case HtlcRedeem(r) => OpTouch(index, HtlcRedeemClass, [r.to, "htlc:" + Decimal(r.htlcId)], false)
    case ContractCall(c) => OpTouch(index, CustomJsonClass, [c.caller, "contract:" + Decimal(c.contractId)], false)
    case GlobalMarker(_) => OpTouch(index, GlobalClass, [], true)
  }

  function Touches(ops: seq<ScheduledOp>): (t: seq<OpTouch>)
    ensures |t| == |ops| && forall i :: 0 <= i < |ops| ==> t[i] == Classify(i, ops[i]) && t[i].index == i
  {
    seq(|ops|, i requires 0 <= i < |ops| => Classify(i, ops[i]))
  }

  // ----- meaning of one operation

  ghost function ApplyOne(env: Env, db: Db, op: ScheduledOp): Outcome {
    match op
    case NftTransfer(t) => ApplyNft(db, Transfer(t))
    case HtlcRedeem(r) => ApplyHtlc(env, db, Redeem(r))
    case ContractCall(c) => ApplyContract(env, db, Call(c))
    case GlobalMarker(name) => Outcome(db.(virtualOps := db.virtualOps + [GlobalMarked(name)]), true)
  }

  /** The whole state, except that the virtual operation log is unordered. */
  datatype View = View(state: Db, log: multiset<VirtualOp>)

  ghost function ViewOf(db: Db): View {
    View(db.(virtualOps := []), multiset(db.virtualOps))
  }

  ghost predicate Ok(env: Env, db: Db, op: ScheduledOp) {
    match op
    case NftTransfer(t) => CanTransfer(db, t)
    case HtlcRedeem(r) => CanRedeem(env, db, r)
    case ContractCall(c) => CanCall(env, db, c)
    case GlobalMarker(_) => true
  }

  /** The state change of an accepted operation, apart from the log. */
  ghost function Effect(env: Env, db: Db, op: ScheduledOp): Db
    requires Ok(env, db, op)
  {
    match op
    case NftTransfer(t) => db.(nfts := DoTransfer(db, t).nfts)
    case HtlcRedeem(r) => db.(balances := DoRedeem(db, r).balances, htlcs := DoRedeem(db, r).htlcs)
    case ContractCall(c) => db.(contractStorage := DoCall(env, db, c).contractStorage)
    case GlobalMarker(_) => db
  }

  /** The log record of an accepted operation. */
  ghost function Record(env: Env, db: Db, op: ScheduledOp): VirtualOp
    requires Ok(env, db, op)
  {
    match op
    case NftTransfer(t) => Transferred(db.nfts[t.nftId].id, db.nfts[t.nftId].owner, t.to)
    case HtlcRedeem(r) => HtlcRedeemed(db.htlcs[r.htlcId].id, db.htlcs[r.htlcId].to)
    case ContractCall(c) => ContractCalled(c.contractId, true, EngineResult(env, db, c).fuelUsed)
    case GlobalMarker(name) => GlobalMarked(name)
  }

  ghost function ViewStep(env: Env, op: ScheduledOp, v: View): Option<View> {
    if Ok(env, v.state, op)
    then Some(View(Effect(env, v.state, op), v.log + multiset{Record(env, v.state, op)}))
    else None
  }

  lemma OkIgnoresLog(env: Env, db: Db, op: ScheduledOp)
    ensures var quiet := db.(virtualOps := []);
            && (Ok(env, quiet, op) <==> Ok(env, db, op))
            && (Ok(env, db, op) <==> ApplyOne(env, db, op).ok)
            && (Ok(env, db, op) ==> Record(env, quiet, op) == Record(env, db, op))
  {
  }

  /** Evaluators neither read the log nor do more to it than append. */
  lemma ViewStepIsApplyOne(env: Env, db: Db, op: ScheduledOp)
    ensures ViewStep(env, op, ViewOf(db)) ==
            if ApplyOne(env, db, op).ok then Some(ViewOf(ApplyOne(env, db, op).db)) else None
  {
    OkIgnoresLog(env, db, op);
    if Ok(env, db, op) {
      var after := ApplyOne(env, db, op).db;
      assert after.virtualOps == db.virtualOps + [Record(env, db, op)];
      assert after.(virtualOps := []) == Effect(env, db.(virtualOps := []), op);
    }
  }

  ghost function Semantics(env: Env, ops: seq<ScheduledOp>): (nat, View) -> Option<View> {
    (i: nat, v: View) => if i < |ops| then ViewStep(env, ops[i], v) else None
  }

  // ----- which operations interfere

  /** The operations act on the same token, contract or HTLC, or pay the same account. */
  predicate Interferes(x: ScheduledOp, y: ScheduledOp) {
    match (x, y)
    case (NftTransfer(s), NftTransfer(t)) => s.nftId == t.nftId
    case (HtlcRedeem(s), HtlcRedeem(t)) => s.htlcId == t.htlcId || s.to == t.to
    case (ContractCall(s), ContractCall(t)) => s.contractId == t.contractId
    case (_, _) => false
  }

  /** The touch sets overlap. */
  ghost predicate Conflicting(x: ScheduledOp, y: ScheduledOp) {
    Conflict(Classify(0, x), Classify(0, y))
  }

  /** A relation between operations, as one between the positions of a batch. */
  ghost function On(rel: (ScheduledOp, ScheduledOp) -> bool, ops: seq<ScheduledOp>): (nat, nat) -> bool {
    (i: nat, j: nat) => i < |ops| && j < |ops| && rel(ops[i], ops[j])
  }

  lemma InterferenceIsConflict(x: ScheduledOp, y: ScheduledOp, i: nat, j: nat)
    requires Interferes(x, y)
    ensures Conflict(Classify(i, x), Classify(j, y))
    ensures Conflicting(x, y)
  {
    var a, b := Classify(i, x).accounts, Classify(j, y).accounts;
    match (x, y)
    case (NftTransfer(s), NftTransfer(t)) => assert a[2] in a && a[2] == b[2] && b[2] in b;
    case (HtlcRedeem(s), HtlcRedeem(t)) =>
      assert a[0] in a && b[0] in b && a[1] in a && b[1] in b;
      assert s.to == t.to ==> a[0] == b[0];
      assert s.htlcId == t.htlcId ==> a[1] == b[1];
    case (ContractCall(s), ContractCall(t)) => assert a[1] in a && a[1] == b[1] && b[1] in b;
  }

  // ----- commutation of the evaluators

  /** y leaves x's acceptance and log record alone. */
  ghost predicate Undisturbed(env: Env, x: ScheduledOp, y: ScheduledOp, db: Db)
    requires Ok(env, db, y)
  {
    var db' := Effect(env, db, y);
    && (Ok(env, db', x) <==> Ok(env, db, x))
    && (Ok(env, db, x) ==> Record(env, db', x) == Record(env, db, x))
  }

  /** Both are accepted in either order, with the same final state. */
  ghost predicate EffectsCommute(env: Env, x: ScheduledOp, y: ScheduledOp, db: Db)
    requires Ok(env, db, x) && Ok(env, db, y)
  {
    var dx, dy := Effect(env, db, x), Effect(env, db, y);
    && Ok(env, dx, y) && Ok(env, dy, x)
    && Effect(env, dx, y) == Effect(env, dy, x)
  }

  lemma NonInterferingUndisturbed(env: Env, x: ScheduledOp, y: ScheduledOp, db: Db)
    requires !Interferes(x, y) && Ok(env, db, y)
    ensures Undisturbed(env, x, y, db)
  {
    var db' := Effect(env, db, y);
    match x
    case NftTransfer(t) => assert CanTransfer(db', t) <==> CanTransfer(db, t);
    case HtlcRedeem(r) => assert CanRedeem(env, db', r) <==> CanRedeem(env, db, r);
    case ContractCall(c) =>
      assert ReachesEngine(db', c) <==> ReachesEngine(db, c);
      assert ReachesEngine(db, c) ==> EngineResult(env, db', c) == EngineResult(env, db, c);
    case GlobalMarker(_) =>
  }

  lemma UpdatesCommute<K, V>(m: map<K, V>, k: K, v: V, l: K, w: V)
    requires k != l
    ensures m[k := v][l := w] == m[l := w][k := v]
  {
  }

  lemma NonInterferingEffects(env: Env, x: ScheduledOp, y: ScheduledOp, db: Db)
    requires !Interferes(x, y) && Ok(env, db, x) && Ok(env, db, y)
    ensures EffectsCommute(env, x, y, db)
  {
    NonInterferingUndisturbed(env, x, y, db);
    NonInterferingUndisturbed(env, y, x, db);
    match (x, y)
    case (NftTransfer(s), NftTransfer(t)) =>
      UpdatesCommute(db.nfts, s.nftId, db.nfts[s.nftId].(owner := s.to, approved := ""),
                     t.nftId, db.nfts[t.nftId].(owner := t.to, approved := ""));
    case (HtlcRedeem(s), HtlcRedeem(t)) =>
      var g, h := db.htlcs[s.htlcId], db.htlcs[t.htlcId];
      UpdatesCommute(db.htlcs, s.htlcId, g.(status := Redeemed), t.htlcId, h.(status := Redeemed));
      UpdatesCommute(db.balances, g.to, db.balances[g.to].Plus(g.amount), h.to, db.balances[h.to].Plus(h.amount));
    case (ContractCall(s), ContractCall(t)) =>
      UpdatesCommute(db.contractStorage,
                     s.contractId, StorageOf(db.contractStorage, s.contractId) + EngineResult(env, db, s).storageWrites,
                     t.contractId,
                     StorageOf(db.contractStorage, t.contractId) + EngineResult(env, db, t).storageWrites);
    case (_, _) =>
  }

  ghost function Both(env: Env, x: ScheduledOp, y: ScheduledOp, v: View): Option<View> {
    var o := ViewStep(env, x, v);
    if o.Some? then ViewStep(env, y, o.value) else None
  }

  lemma UndisturbedCommute(env: Env, x: ScheduledOp, y: ScheduledOp, v: View)
    requires Ok(env, v.state, x) ==> Undisturbed(env, y, x, v.state)
    requires Ok(env, v.state, y) ==> Undisturbed(env, x, y, v.state)
    requires Ok(env, v.state, x) && Ok(env, v.state, y) ==> EffectsCommute(env, x, y, v.state)
    ensures Both(env, x, y, v) == Both(env, y, x, v)
  {
    if Ok(env, v.state, x) && Ok(env, v.state, y) {
      var p, q := multiset{Record(env, v.state, x)}, multiset{Record(env, v.state, y)};
      assert v.log + p + q == v.log + q + p;
    }
  }

  lemma NonInterferingBoth(env: Env, x: ScheduledOp, y: ScheduledOp, v: View)
    requires !Interferes(x, y)
    ensures Both(env, x, y, v) == Both(env, y, x, v)
  {
    if Ok(env, v.state, x) { NonInterferingUndisturbed(env, y, x, v.state); }
    if Ok(env, v.state, y) { NonInterferingUndisturbed(env, x, y, v.state); }
    if Ok(env, v.state, x) && Ok(env, v.state, y) { NonInterferingEffects(env, x, y, v.state); }
    UndisturbedCommute(env, x, y, v);
  }

  /** Operations that do not interfere commute as partial functions on the whole state. */
  lemma NonInterferingCommute(env: Env, ops: seq<ScheduledOp>, i: nat, j: nat)
    requires i < |ops| && j < |ops| && !Interferes(ops[i], ops[j])
    ensures Commute(Semantics(env, ops), i, j)
  {
    var step := Semantics(env, ops);
    forall v: View ensures Then(step, step(i, v), j) == Then(step, step(j, v), i) {
      NonInterferingBoth(env, ops[i], ops[j], v);
    }
  }

  // ----- the schedule and the given order

  ghost function LayersOf(ops: seq<ScheduledOp>): (a: seq<nat>)
    ensures |a| == |ops| && forall i :: 0 <= i < |ops| ==> a[i] <= i
  {
    Layers(Touches(ops))
  }

  /** If the schedule inverts no interfering pair, running it layer by layer succeeds
      exactly when the given order succeeds, and ends in the same state. */
  lemma KeptInterferenceAgrees(env: Env, ops: seq<ScheduledOp>, count: nat, o: Option<View>)
    requires forall i :: 0 <= i < |ops| ==> LayersOf(ops)[i] < count
    requires NoInversion(On(Interferes, ops), LayersOf(ops))
    ensures Run(Semantics(env, ops), Flatten(LayersOf(ops), count), o) == Run(Semantics(env, ops), Iota(|ops|), o)
  {
    var a, dep, step := LayersOf(ops), On(Interferes, ops), Semantics(env, ops);
    FlattenIsPermutation(a, count);
    InversionIsLostDependency(dep, a, count);
    IotaAt(|ops|);
    forall i, j | i in Iota(|ops|) && j in Iota(|ops|) && !dep(i, j) ensures Commute(step, i, j) {
      NonInterferingCommute(env, ops, i, j);
    }
    OrdersAgree(dep, step, Iota(|ops|), Flatten(a, count), o);
  }

  /** The same when no pair that conflicts by its touch sets is inverted. */
  lemma KeptConflictsAgree(env: Env, ops: seq<ScheduledOp>, count: nat, o: Option<View>)
    requires forall i :: 0 <= i < |ops| ==> LayersOf(ops)[i] < count
    requires NoInversion(On(Conflicting, ops), LayersOf(ops))
    ensures Run(Semantics(env, ops), Flatten(LayersOf(ops), count), o) == Run(Semantics(env, ops), Iota(|ops|), o)
  {
    forall i, j | 0 <= i < j < |ops| && On(Interferes, ops)(i, j) ensures LayersOf(ops)[i] <= LayersOf(ops)[j] {
      InterferenceIsConflict(ops[i], ops[j], i, j);
      assert On(Conflicting, ops)(i, j);
    }
    KeptInterferenceAgrees(env, ops, count, o);
  }

  // ----- conditions on the batch

  /** No operation of the batch holds back the first of a related pair and not the second. */
  ghost predicate BypassFree(rel: (ScheduledOp, ScheduledOp) -> bool, ops: seq<ScheduledOp>) {
    forall i, j :: 0 <= i < j < |ops| && rel(ops[i], ops[j]) ==> !Bypass(Touches(ops), i, j)
  }

  lemma TouchConflict(ops: seq<ScheduledOp>, i: nat, j: nat)
    requires i < |ops| && j < |ops|
    ensures Conflict(Touches(ops)[i], Touches(ops)[j]) <==> Conflicting(ops[i], ops[j])
  {
    var x, y := Classify(0, ops[i]), Classify(0, ops[j]);
    assert Touches(ops)[i].accounts == x.accounts && Touches(ops)[j].accounts == y.accounts;
  }

  lemma BypassFreeKeepsOrder(rel: (ScheduledOp, ScheduledOp) -> bool, ops: seq<ScheduledOp>)
    requires BypassFree(rel, ops)
    ensures NoInversion(On(rel, ops), LayersOf(ops))
  {
    var t, a := Touches(ops), LayersOf(ops);
    LayersAreGreedy(t);
    forall i, j | 0 <= i < j < |ops| && On(rel, ops)(i, j) ensures a[i] <= a[j] {
      assert !Bypass(t, i, j);
      if a[j] < a[i] { OvertakingNeedsBypass(t, a, i, j); }
    }
  }

  /** If nothing holds back one of an interfering pair alone, running the schedule
      succeeds exactly when the given order succeeds, and ends in the same state. */
  lemma ScheduleAgreesWithGivenOrder(env: Env, ops: seq<ScheduledOp>, count: nat, o: Option<View>)
    requires forall i :: 0 <= i < |ops| ==> LayersOf(ops)[i] < count
    requires BypassFree(Interferes, ops)
    ensures Run(Semantics(env, ops), Flatten(LayersOf(ops), count), o) == Run(Semantics(env, ops), Iota(|ops|), o)
  {
    BypassFreeKeepsOrder(Interferes, ops);
    KeptInterferenceAgrees(env, ops, count, o);
  }

  lemma BypassOfPick(ops: seq<ScheduledOp>, pick: seq<nat>, i: nat, j: nat)
    requires Ascending(pick, |ops|) && i < |pick| && j < |pick|
    requires Bypass(Touches(Pick(ops, pick)), i, j)
    ensures Bypass(Touches(ops), pick[i], pick[j])
  {
    var t, u := Touches(ops), Touches(Pick(ops, pick));
    var h :| 0 <= h < i && Conflict(u[h], u[i]) && !Conflict(u[h], u[j]);
    TouchConflict(Pick(ops, pick), h, i);
    TouchConflict(Pick(ops, pick), h, j);
    TouchConflict(ops, pick[h], pick[i]);
    TouchConflict(ops, pick[h], pick[j]);
  }

  lemma PickIsBypassFree(rel: (ScheduledOp, ScheduledOp) -> bool, ops: seq<ScheduledOp>, pick: seq<nat>)
    requires BypassFree(rel, ops) && Ascending(pick, |ops|)
    ensures BypassFree(rel, Pick(ops, pick))
  {
    var sub := Pick(ops, pick);
    forall i, j | 0 <= i < j < |sub| && rel(sub[i], sub[j]) ensures !Bypass(Touches(sub), i, j) {
      assert !Bypass(Touches(ops), pick[i], pick[j]);
      if Bypass(Touches(sub), i, j) { BypassOfPick(ops, pick, i, j); }
    }
  }

  /** A bypass shows in the sub-batch of the three operations involved. */
  lemma BypassedTriple(ops: seq<ScheduledOp>, h: nat, i: nat, j: nat)
    requires h < i < j < |ops| && Conflicting(ops[h], ops[i]) && !Conflicting(ops[h], ops[j])
    ensures Ascending([h, i, j], |ops|) && Pick(ops, [h, i, j]) == [ops[h], ops[i], ops[j]]
    ensures LayersOf([ops[h], ops[i], ops[j]]) == [0, 1, 0]
  {
    var pick := [h, i, j];
    assert pick[0] == h && pick[1] == i && pick[2] == j;
    var sub := [ops[h], ops[i], ops[j]];
    assert Pick(ops, pick) == sub;
    TouchConflict(sub, 0, 1);
    TouchConflict(sub, 0, 2);
    ThreeOvertake(Touches(sub));
  }

  lemma BypassInverts(rel: (ScheduledOp, ScheduledOp) -> bool, ops: seq<ScheduledOp>, i: nat, j: nat)
    returns (pick: seq<nat>)
    requires i < j < |ops| && rel(ops[i], ops[j]) && Bypass(Touches(ops), i, j)
    ensures Ascending(pick, |ops|) && !NoInversion(On(rel, Pick(ops, pick)), LayersOf(Pick(ops, pick)))
  {
    var t := Touches(ops);
    var h :| 0 <= h < i && Conflict(t[h], t[i]) && !Conflict(t[h], t[j]);
    TouchConflict(ops, h, i);
    TouchConflict(ops, h, j);
    BypassedTriple(ops, h, i, j);
    pick := [h, i, j];
    assert On(rel, Pick(ops, pick))(1, 2);
  }

  ghost predicate SubBatchesKeep(rel: (ScheduledOp, ScheduledOp) -> bool, ops: seq<ScheduledOp>) {
    forall pick :: Ascending(pick, |ops|) ==> NoInversion(On(rel, Pick(ops, pick)), LayersOf(Pick(ops, pick)))
  }

  /** Every sub-batch is layered without inverting a related pair exactly when no
      operation holds back the first of a related pair and not the second. */
  lemma SubBatchesKeepOrderExactly(rel: (ScheduledOp, ScheduledOp) -> bool, ops: seq<ScheduledOp>)
    ensures SubBatchesKeep(rel, ops) <==> BypassFree(rel, ops)
  {
    if BypassFree(rel, ops) {
      forall pick | Ascending(pick, |ops|) ensures NoInversion(On(rel, Pick(ops, pick)), LayersOf(Pick(ops, pick))) {
        PickIsBypassFree(rel, ops, pick);
        BypassFreeKeepsOrder(rel, Pick(ops, pick));
      }
    } else {
      var i, j :| 0 <= i < j < |ops| && rel(ops[i], ops[j]) && Bypass(Touches(ops), i, j);
      var pick := BypassInverts(rel, ops, i, j);
    }
  }

  // ----- exact conditions by touch sets

  lemma ConflictInversions(ops: seq<ScheduledOp>)
    ensures NoInversion(On(Conflicting, ops), LayersOf(ops)) <==> Stepped(Touches(ops))
  {
    var t, a, dep := Touches(ops), LayersOf(ops), On(Conflicting, ops);
    LayersAreGreedy(t);
    KeptExactlyWhenStepped(t);
    forall i: nat, j: nat | i < j < |ops|
      ensures dep(i, j) <==> Conflict(t[i], t[j])
      ensures Conflict(t[i], t[j]) ==> a[i] != a[j]
    {
      TouchConflict(ops, i, j);
      if a[i] == a[j] { SameLayerIndependent(t, a, i, j); }
    }
  }

  /** The layer order keeps the causal order of conflicting operations exactly when every
      operation conflicts with earlier operations of all depths below its own. */
  lemma CausalOrderOfConflicts(ops: seq<ScheduledOp>, count: nat)
    requires forall i :: 0 <= i < |ops| ==> LayersOf(ops)[i] < count
    ensures TraceEquivalent(On(Conflicting, ops), Iota(|ops|), Flatten(LayersOf(ops), count)) <==> Stepped(Touches(ops))
  {
    CausalOrderKept(On(Conflicting, ops), LayersOf(ops), count);
    ConflictInversions(ops);
  }

  /** On the same condition the layer order agrees with the given one under every semantics
      in which operations with disjoint touch sets commute. */
  lemma SoundForTouchSetsExactly(ops: seq<ScheduledOp>, count: nat)
    requires forall i :: 0 <= i < |ops| ==> LayersOf(ops)[i] < count
    ensures AlwaysAgree(On(Conflicting, ops), Iota(|ops|), Flatten(LayersOf(ops), count)) <==> Stepped(Touches(ops))
  {
    ScheduleSoundExactly(On(Conflicting, ops), LayersOf(ops), count);
    ConflictInversions(ops);
  }

  ghost predicate Sound(ops: seq<ScheduledOp>) {
    AlwaysAgree(On(Conflicting, ops), Iota(|ops|), Flatten(LayersOf(ops), |ops|))
  }

  ghost predicate SubBatchesSound(ops: seq<ScheduledOp>) {
    forall pick :: Ascending(pick, |ops|) ==> Sound(Pick(ops, pick))
  }

  lemma SoundWhenKept(ops: seq<ScheduledOp>)
    ensures Sound(ops) <==> NoInversion(On(Conflicting, ops), LayersOf(ops))
  {
    ScheduleSoundExactly(On(Conflicting, ops), LayersOf(ops), |ops|);
  }

  /** Every sub-batch is scheduled soundly for all such semantics exactly when no
      operation holds back the first of a conflicting pair and not the second. */
  lemma SubBatchesSoundExactly(ops: seq<ScheduledOp>)
    ensures SubBatchesSound(ops) <==> BypassFree(Conflicting, ops)
  {
    SubBatchesKeepOrderExactly(Conflicting, ops);
    forall pick | Ascending(pick, |ops|)
      ensures Sound(Pick(ops, pick)) <==> NoInversion(On(Conflicting, Pick(ops, pick)), LayersOf(Pick(ops, pick)))
    {
      SoundWhenKept(Pick(ops, pick));
    }
  }

  /** A batch in which every conflict is between nested touch sets, the earlier inside
      the later, always runs as given. */
  lemma NestedConflictsAgree(env: Env, ops: seq<ScheduledOp>, count: nat, o: Option<View>)
    requires forall i :: 0 <= i < |ops| ==> LayersOf(ops)[i] < count
    requires forall i, j :: 0 <= i < j < |ops| && Conflict(Touches(ops)[i], Touches(ops)[j]) ==>
             TouchContained(Touches(ops)[i], Touches(ops)[j])
    ensures BypassFree(Conflicting, ops)
    ensures Run(Semantics(env, ops), Flatten(LayersOf(ops), count), o) == Run(Semantics(env, ops), Iota(|ops|), o)
  {
    var t := Touches(ops);
    forall i, j | 0 <= i < j < |ops| && Conflicting(ops[i], ops[j]) ensures !Bypass(t, i, j) {
      TouchConflict(ops, i, j);
      assert TouchContained(t[i], t[j]);
    }
    BypassFreeKeepsOrder(Conflicting, ops);
    KeptConflictsAgree(env, ops, count, o);
  }

  // ----- any order inside a layer

  lemma LayerDoesNotInterfere(ops: seq<ScheduledOp>, i: nat, j: nat)
    requires i < |ops| && j < |ops| && i != j && LayersOf(ops)[i] == LayersOf(ops)[j]
    ensures !Interferes(ops[i], ops[j])
  {
    var t, a := Touches(ops), LayersOf(ops);
    LayersAreGreedy(t);
    if i < j { SameLayerIndependent(t, a, i, j); } else { SameLayerIndependent(t, a, j, i); }
    if Interferes(ops[i], ops[j]) {
      InterferenceIsConflict(ops[i], ops[j], i, j);
    }
  }

  lemma LayerKeepsDependencies(ops: seq<ScheduledOp>, layer: nat, order: seq<nat>)
    requires Distinct(order) && multiset(order) == multiset(Members(LayersOf(ops), |ops|, layer))
    ensures forall i :: i in order ==> i < |ops|
    ensures KeepsDependencies(On(Interferes, ops), order, Members(LayersOf(ops), |ops|, layer))
  {
    MembersOf(LayersOf(ops), |ops|, layer);
    forall i | i in order ensures i < |ops| && LayersOf(ops)[i] == layer {
      assert i in multiset(order);
      assert i in Members(LayersOf(ops), |ops|, layer);
    }
    forall i, j | Before(order, i, j) ensures !On(Interferes, ops)(i, j) {
      BeforeElements(order, i, j);
      LayerDoesNotInterfere(ops, i, j);
    }
  }

  /** Any rearrangement of one layer has the same result, from every state. */
  lemma LayerRunsInAnyOrder(env: Env, ops: seq<ScheduledOp>, layer: nat, order: seq<nat>, o: Option<View>)
    requires Distinct(order) && multiset(order) == multiset(Members(LayersOf(ops), |ops|, layer))
    ensures Run(Semantics(env, ops), order, o) == Run(Semantics(env, ops), Members(LayersOf(ops), |ops|, layer), o)
  {
    var dep, step := On(Interferes, ops), Semantics(env, ops);
    MembersOf(LayersOf(ops), |ops|, layer);
    LayerKeepsDependencies(ops, layer, order);
    forall i, j | i in order && j in order && !dep(i, j) ensures Commute(step, i, j) {
      NonInterferingCommute(env, ops, i, j);
    }
    OrdersAgree(dep, step, order, Members(LayersOf(ops), |ops|, layer), o);
  }

  // ----- the hypothesis is needed

  /** Three transfers of which the third is moved in front of the second. */
  function ThreeTransfers(): seq<ScheduledOp> {
    [NftTransfer(TransferOp("alice", "dave", 5, "")),
     NftTransfer(TransferOp("alice", "bob", 1, "")),
     NftTransfer(TransferOp("bob", "carol", 1, ""))]
  }

  lemma ThreeTransfersTouch()
    ensures var t := Touches(ThreeTransfers());
            && t[0].accounts == ["alice", "dave", "nft:5"]
            && t[1].accounts == ["alice", "bob", "nft:1"]
            && t[2].accounts == ["bob", "carol", "nft:1"]
  {
    assert Decimal(5) == "5" && Decimal(1) == "1";
    assert "nft:" + "5" == "nft:5" && "nft:" + "1" == "nft:1";
  }

  /** The first transfer holds back the second and not the third. */
  lemma ThreeTransfersLayers()
    ensures Bypass(Touches(ThreeTransfers()), 1, 2)
    ensures LayersOf(ThreeTransfers()) == [0, 1, 0]
  {
    var t := Touches(ThreeTransfers());
    ThreeTransfersTouch();
    assert Conflict(t[0], t[1]) by { assert "alice" in t[0].accounts && "alice" in t[1].accounts; }
    assert !Conflict(t[0], t[2]);
    ThreeOvertake(t);
  }

  /** alice owns tokens 1 and 5 and bob holds no approval for token 1. */
  ghost predicate AliceHoldsBoth(db: Db) {
    && NftGate(db.config)
    && {"bob", "carol", "dave"} <= db.balances.Keys
    && 1 in db.nfts && 5 in db.nfts
    && db.nfts[1].owner == "alice" == db.nfts[5].owner
    && !db.nfts[1].soulbound && !db.nfts[5].soulbound
    && !MayTransfer(db.operators, db.nfts[1], "bob")
  }

  lemma ThreeTransfersSteps(env: Env, v: View) returns (v0: View, v1: View)
    requires AliceHoldsBoth(v.state)
    ensures var step := Semantics(env, ThreeTransfers());
            step(0, v) == Some(v0) && step(1, v0) == Some(v1) && step(2, v1).Some? && step(2, v0).None?
  {
    var ops, step := ThreeTransfers(), Semantics(env, ThreeTransfers());
    assert ValidTransfer(ops[0].transfer) && ValidTransfer(ops[1].transfer) && ValidTransfer(ops[2].transfer);
    assert Ok(env, v.state, ops[0]);
    v0 := step(0, v).value;
    assert v0.state.nfts[1] == v.state.nfts[1];
    v1 := step(1, v0).value;
    assert v1.state.nfts[1].owner == "bob";
  }

  /** In every state in which alice owns both tokens and bob holds no approval, the
      three transfers succeed in the given order and fail in the scheduled one. */
  lemma ScheduleCanFail(env: Env, v: View)
    requires AliceHoldsBoth(v.state)
    ensures Run(Semantics(env, ThreeTransfers()), Iota(3), Some(v)).Some?
    ensures Run(Semantics(env, ThreeTransfers()), Flatten(LayersOf(ThreeTransfers()), 2), Some(v)).None?
  {
    ThreeTransfersLayers();
    OvertakenOrder(LayersOf(ThreeTransfers()));
    var step := Semantics(env, ThreeTransfers());
    var v0, v1 := ThreeTransfersSteps(env, v);
    RunThree(step, 0, 1, 2, Some(v));
    RunThree(step, 0, 2, 1, Some(v));
  }

  // ----- such a state is reached

  function AliceMints(): Step {
    SubmitNft(Mint(MintOp("alice", 1, "alice", [], "", false)))
  }

  /** alice creates a collection and mints five tokens to herself. */
  function MintingSteps(): (steps: seq<Step>)
    ensures |steps| == 6 && forall k :: 0 < k < 6 ==> steps[k] == AliceMints()
  {
    [SubmitNft(CreateCollection(CreateCollectionOp("alice", "C", "", 0, true)))] + seq(5, _ => AliceMints())
  }

  ghost function FourAccounts(): Db {
    Db(0, Config(false, false, false, true, HARDFORK_NFT), 1, 1, 1, 1,
       map["alice" := Balance(0, 0), "bob" := Balance(0, 0), "carol" := Balance(0, 0), "dave" := Balance(0, 0)],
       map[], map[], map[], map[], map[], map[], map[], [])
  }

  ghost predicate MintedToAlice(db: Db, k: nat) {
    && NftGate(db.config)
    && {"alice", "bob", "carol", "dave"} <= db.balances.Keys
    && db.nextNftId == k + 1 && db.operators == map[]
    && 1 in db.collections
    && (var c := db.collections[1]; c.creator == "alice" && c.maxSupply == 0 && c.transferable)
    && forall id :: 1 <= id <= k ==>
         id in db.nfts && db.nfts[id].owner == "alice" && db.nfts[id].approved == "" && !db.nfts[id].soulbound
  }

  lemma CollectionListed()
    ensures MintedToAlice(ApplyNft(FourAccounts(), MintingSteps()[0].nft).db, 0)
  {
    var op := CreateCollectionOp("alice", "C", "", 0, true);
    assert CanCreateCollection(FourAccounts(), op);
  }

  lemma OneMoreMinted(db: Db, k: nat)
    requires MintedToAlice(db, k)
    ensures MintedToAlice(ApplyNft(db, AliceMints().nft).db, k + 1)
  {
    assert CanMint(db, AliceMints().nft.mint);
  }

  lemma {:induction false} MintedUpTo(next: (Db, Step) -> Db, env: Env, k: nat)
    requires IsChain(next, env) && k <= 5
    ensures MintedToAlice(At(next, FourAccounts(), MintingSteps(), k + 1), k)
  {
    var steps := MintingSteps();
    var db := At(next, FourAccounts(), steps, k);
    assert next(db, steps[k]) == After(env, db, steps[k]);
    if k == 0 {
      CollectionListed();
    } else {
      MintedUpTo(next, env, k - 1);
      OneMoreMinted(db, k - 1);
    }
  }

  lemma MintedIsHeld(db: Db)
    requires MintedToAlice(db, 5)
    ensures AliceHoldsBoth(db) && AliceHoldsBoth(ViewOf(db).state)
  {
    assert 1 in db.nfts && 5 in db.nfts;
  }

  /** A run from genesis ends in a state in which the schedule fails. */
  lemma ScheduleFailureIsReached(next: (Db, Step) -> Db, env: Env)
    requires IsChain(next, env)
    ensures Genesis(FourAccounts())
    ensures var v := ViewOf(At(next, FourAccounts(), MintingSteps(), 6));
            && Run(Semantics(env, ThreeTransfers()), Iota(3), Some(v)).Some?
            && Run(Semantics(env, ThreeTransfers()), Flatten(LayersOf(ThreeTransfers()), 2), Some(v)).None?
  {
    MintedUpTo(next, env, 5);
    var db := At(next, FourAccounts(), MintingSteps(), 6);
    MintedIsHeld(db);
    ScheduleCanFail(env, ViewOf(db));
  }

  lemma RunThree<S>(step: (nat, S) -> Option<S>, i: nat, j: nat, k: nat, o: Option<S>)
    ensures Run(step, [i, j, k], o) == Then(step, Then(step, Then(step, o, i), j), k)
  {
    assert [i, j, k][1..] == [j, k] && [j, k][1..] == [k] && [k][1..] == [];
    assert Run(step, [i, j, k], o) == Run(step, [j, k], Then(step, o, i));
    assert Run(step, [j, k], Then(step, o, i)) == Run(step, [k], Then(step, Then(step, o, i), j));
  }
}
