/** Exactly which batches the scheduler runs as given, for the evaluators as they are
    (include/hive_native/perf/apply_scheduler.hpp). */
module ScheduleExactness {
  import opened Types
  import opened Chain
  import opened Wrappers
  import opened Traces
  import opened OpDependency
  import opened ScheduleOrder
  import opened ConflictOrder
  import opened ApplyScheduler
  import opened ReachedStates
  import HtlcRuns

  // ----- states in which every HTLC holds something

  ghost predicate Funded(db: Db) {
    forall id :: id in db.htlcs ==> db.htlcs[id].amount.amount > 0
  }

  /** Every reachable database is one. */
  lemma ReachableFunded(next: (Db, Step) -> Db, env: Env, genesis: Db, steps: seq<Step>, k: nat)
    requires IsChain(next, env) && Genesis(genesis) && k <= |steps|
    ensures Funded(At(next, genesis, steps, k))
  {
    HtlcRuns.ReachableEscrow(next, env, genesis, steps, k);
    var db := At(next, genesis, steps, k);
    forall id | id in db.htlcs ensures db.htlcs[id].amount.amount > 0 {
      assert HtlcRuns.WellFormed(db, id, db.htlcs[id]);
    }
  }

  lemma ReachedIsFunded(env: Env, db: Db)
    requires Reached(env, db)
    ensures Funded(db)
  {
    var genesis, steps :| ReachedBy(env, db, genesis, steps);
    ReachableFunded(Transition(env), env, genesis, steps, |steps|);
  }

  /** The evaluators, defined on funded states only. */
  ghost function OnFunded(env: Env, ops: seq<ScheduledOp>): (nat, View) -> Option<View> {
    (i: nat, v: View) => if i < |ops| && Funded(v.state) then ViewStep(env, ops[i], v) else None
  }

  lemma StepKeepsFunded(env: Env, op: ScheduledOp, v: View)
    requires Funded(v.state) && Ok(env, v.state, op)
    ensures Funded(Effect(env, v.state, op))
  {
  }

  lemma {:induction false} FundedRun(env: Env, ops: seq<ScheduledOp>, order: seq<nat>, o: Option<View>)
    requires o.Some? ==> Funded(o.value.state)
    ensures Run(OnFunded(env, ops), order, o) == Run(Semantics(env, ops), order, o)
    decreases |order|
  {
    if order == [] {
    } else {
      var i := order[0];
      if o.Some? && i < |ops| && Ok(env, o.value.state, ops[i]) { StepKeepsFunded(env, ops[i], o.value); }
      FundedRun(env, ops, order[1..], Then(Semantics(env, ops), o, i));
    }
  }

  // ----- which operations clash

  predicate Admissible(op: ScheduledOp) {
    match op
    case NftTransfer(t) => ValidTransfer(t)
    case HtlcRedeem(r) => ValidHtlcRedeem(r)
    case ContractCall(c) => ValidCall(c)
    case GlobalMarker(_) => true
  }

  /** Two different moves of one token, or two different calls of one contract. */
  predicate Clashes(x: ScheduledOp, y: ScheduledOp) {
    Admissible(x) && Admissible(y) &&
    match (x, y)
    case (NftTransfer(s), NftTransfer(t)) => s.nftId == t.nftId && (s.from != t.from || s.to != t.to)
    case (ContractCall(s), ContractCall(t)) => s.contractId == t.contractId && s != t
    case (_, _) => false
  }

  lemma RedeemedOnce(env: Env, db: Db, s: HtlcRedeemOp, t: HtlcRedeemOp)
    requires s.htlcId == t.htlcId && CanRedeem(env, db, s)
    ensures !CanRedeem(env, Effect(env, db, HtlcRedeem(s)), t)
  {
  }

  lemma RedemptionUndisturbed(env: Env, db: Db, s: HtlcRedeemOp, t: HtlcRedeemOp)
    requires s.htlcId != t.htlcId && Funded(db) && CanRedeem(env, db, t)
    ensures Undisturbed(env, HtlcRedeem(s), HtlcRedeem(t), db)
  {
    var db' := Effect(env, db, HtlcRedeem(t));
    assert db'.balances.Keys == db.balances.Keys;
    assert s.htlcId in db.htlcs ==> db'.htlcs[s.htlcId] == db.htlcs[s.htlcId];
  }

  lemma AdjustmentsCommute(balances: map<Name, Balance>, a: Name, p: Asset, b: Name, q: Asset)
    requires a in balances && b in balances
    ensures Adjust(Adjust(balances, a, p), b, q) == Adjust(Adjust(balances, b, q), a, p)
  {
  }

  lemma RedemptionEffects(env: Env, db: Db, s: HtlcRedeemOp, t: HtlcRedeemOp)
    requires s.htlcId != t.htlcId && Funded(db) && CanRedeem(env, db, s) && CanRedeem(env, db, t)
    ensures EffectsCommute(env, HtlcRedeem(s), HtlcRedeem(t), db)
  {
    RedemptionUndisturbed(env, db, s, t);
    RedemptionUndisturbed(env, db, t, s);
    var g, h := db.htlcs[s.htlcId], db.htlcs[t.htlcId];
    UpdatesCommute(db.htlcs, s.htlcId, g.(status := Redeemed), t.htlcId, h.(status := Redeemed));
    AdjustmentsCommute(db.balances, g.to, g.amount, h.to, h.amount);
  }

  /** Two redemptions commute on funded states, of one HTLC or to one account or not. */
  lemma RedemptionsCommute(env: Env, s: HtlcRedeemOp, t: HtlcRedeemOp, v: View)
    requires Funded(v.state)
    ensures Both(env, HtlcRedeem(s), HtlcRedeem(t), v) == Both(env, HtlcRedeem(t), HtlcRedeem(s), v)
  {
    var db, x, y := v.state, HtlcRedeem(s), HtlcRedeem(t);
    if s.htlcId == t.htlcId {
      if Ok(env, db, x) { RedeemedOnce(env, db, s, t); }
      if Ok(env, db, y) { RedeemedOnce(env, db, t, s); }
    } else {
      if Ok(env, db, x) { RedemptionUndisturbed(env, db, t, s); }
      if Ok(env, db, y) { RedemptionUndisturbed(env, db, s, t); }
      if Ok(env, db, x) && Ok(env, db, y) { RedemptionEffects(env, db, s, t); }
      UndisturbedCommute(env, x, y, v);
    }
  }

  lemma SameMove(env: Env, s: TransferOp, t: TransferOp, v: View)
    requires ValidTransfer(s) && ValidTransfer(t) && s.nftId == t.nftId && s.from == t.from && s.to == t.to
    ensures ViewStep(env, NftTransfer(s), v) == ViewStep(env, NftTransfer(t), v)
  {
    assert Ok(env, v.state, NftTransfer(s)) <==> Ok(env, v.state, NftTransfer(t));
  }

  lemma InadmissibleFails(env: Env, op: ScheduledOp, v: View)
    requires !Admissible(op)
    ensures ViewStep(env, op, v) == None
  {
  }

  /** Operations that do not clash commute on funded states. */
  lemma NonClashingBoth(env: Env, x: ScheduledOp, y: ScheduledOp, v: View)
    requires !Clashes(x, y) && Funded(v.state)
    ensures Both(env, x, y, v) == Both(env, y, x, v)
  {
    if !Interferes(x, y) {
      NonInterferingBoth(env, x, y, v);
    } else if !Admissible(x) {
      InadmissibleFails(env, x, v);
      if ViewStep(env, y, v).Some? { InadmissibleFails(env, x, ViewStep(env, y, v).value); }
    } else if !Admissible(y) {
      InadmissibleFails(env, y, v);
      if ViewStep(env, x, v).Some? { InadmissibleFails(env, y, ViewStep(env, x, v).value); }
    } else if x.HtlcRedeem? {
      RedemptionsCommute(env, x.redeem, y.redeem, v);
    } else if x.NftTransfer? {
      SameMove(env, x.transfer, y.transfer, v);
      if ViewStep(env, x, v).Some? { SameMove(env, x.transfer, y.transfer, ViewStep(env, x, v).value); }
    }
  }

  lemma NonClashingCommute(env: Env, ops: seq<ScheduledOp>, i: nat, j: nat)
    requires i < |ops| && j < |ops| && !Clashes(ops[i], ops[j])
    ensures Commute(OnFunded(env, ops), i, j)
  {
    var step, x, y := OnFunded(env, ops), ops[i], ops[j];
    forall v: View ensures Then(step, step(i, v), j) == Then(step, step(j, v), i) {
      if Funded(v.state) {
        NonClashingBoth(env, x, y, v);
        if Ok(env, v.state, x) { StepKeepsFunded(env, x, v); }
        if Ok(env, v.state, y) { StepKeepsFunded(env, y, v); }
      }
    }
  }

  // ----- the schedule on funded states

  /** If the schedule inverts no clashing pair, it agrees with the given order. */
  lemma KeptClashesAgree(env: Env, ops: seq<ScheduledOp>, count: nat, v: View)
    requires forall i :: 0 <= i < |ops| ==> LayersOf(ops)[i] < count
    requires NoInversion(On(Clashes, ops), LayersOf(ops)) && Funded(v.state)
    ensures Run(Semantics(env, ops), Flatten(LayersOf(ops), count), Some(v)) ==
            Run(Semantics(env, ops), Iota(|ops|), Some(v))
  {
    var a, dep, step := LayersOf(ops), On(Clashes, ops), OnFunded(env, ops);
    FlattenIsPermutation(a, count);
    InversionIsLostDependency(dep, a, count);
    IotaAt(|ops|);
    forall i, j | i in Iota(|ops|) && j in Iota(|ops|) && !dep(i, j) ensures Commute(step, i, j) {
      NonClashingCommute(env, ops, i, j);
    }
    OrdersAgree(dep, step, Iota(|ops|), Flatten(a, count), Some(v));
    FundedRun(env, ops, Iota(|ops|), Some(v));
    FundedRun(env, ops, Flatten(a, count), Some(v));
  }

  /** The admissible operation h holds back i and not j, and i and j clash. */
  ghost predicate Overtaking(ops: seq<ScheduledOp>, h: nat, i: nat, j: nat) {
    && h < i < j < |ops|
    && Admissible(ops[h]) && Conflicting(ops[h], ops[i]) && !Conflicting(ops[h], ops[j])
    && Clashes(ops[i], ops[j])
  }

  ghost predicate OvertakingFree(ops: seq<ScheduledOp>) {
    forall h: nat, i: nat, j: nat :: !Overtaking(ops, h, i, j)
  }

  lemma {:induction false} InadmissibleFailsRun(env: Env, ops: seq<ScheduledOp>, order: seq<nat>, k: nat,
                                                o: Option<View>)
    requires k < |ops| && !Admissible(ops[k]) && k in order
    ensures Run(Semantics(env, ops), order, o) == None
    decreases |order|
  {
    var step := Semantics(env, ops);
    if order[0] == k {
      if o.Some? { InadmissibleFails(env, ops[k], o.value); }
      RunNone(step, order[1..]);
    } else {
      InadmissibleFailsRun(env, ops, order[1..], k, Then(step, o, order[0]));
    }
  }

  lemma OvertakingFreeIsBypassFree(ops: seq<ScheduledOp>)
    requires OvertakingFree(ops) && forall k :: 0 <= k < |ops| ==> Admissible(ops[k])
    ensures BypassFree(Clashes, ops)
  {
    var t := Touches(ops);
    forall i, j | 0 <= i < j < |ops| && Clashes(ops[i], ops[j]) ensures !Bypass(t, i, j) {
      forall h | 0 <= h < i && Conflict(t[h], t[i]) ensures Conflict(t[h], t[j]) {
        TouchConflict(ops, h, i);
        TouchConflict(ops, h, j);
        assert !Overtaking(ops, h, i, j);
      }
    }
  }

  /** On every funded state, a batch without overtaking succeeds as scheduled exactly when
      it succeeds as given, and ends in the same state. */
  lemma OvertakingFreeAgrees(env: Env, ops: seq<ScheduledOp>, count: nat, v: View)
    requires forall i :: 0 <= i < |ops| ==> LayersOf(ops)[i] < count
    requires OvertakingFree(ops) && Funded(v.state)
    ensures Run(Semantics(env, ops), Flatten(LayersOf(ops), count), Some(v)) ==
            Run(Semantics(env, ops), Iota(|ops|), Some(v))
  {
    if k :| 0 <= k < |ops| && !Admissible(ops[k]) {
      IotaAt(|ops|);
      assert Iota(|ops|)[k] == k;
      FlattenSorted(LayersOf(ops), count);
      InadmissibleFailsRun(env, ops, Iota(|ops|), k, Some(v));
      InadmissibleFailsRun(env, ops, Flatten(LayersOf(ops), count), k, Some(v));
    } else {
      OvertakingFreeIsBypassFree(ops);
      BypassFreeKeepsOrder(Clashes, ops);
      KeptClashesAgree(env, ops, count, v);
    }
  }

  // ----- clashing operations can be told apart

  /** The grants that let two moves of one token disagree: when the receivers differ both
      orders succeed, and otherwise only the order s, t does. */
  ghost function Grants(s: TransferOp, t: TransferOp): map<OperatorKey, bool> {
    var first := Granting(map[], s.to, t.from);
    if s.to == t.to then first else Granting(Granting(first, s.from, t.from), t.to, s.from)
  }

  /** The sender of s owns the token of s and t. */
  ghost predicate Contested(db: Db, s: TransferOp, t: TransferOp) {
    && NftGate(db.config)
    && s.to in db.balances && t.to in db.balances
    && TokenOf(db, s.nftId, s.from)
    && db.operators == Grants(s, t)
  }

  lemma SameReceiverDiffers(env: Env, s: TransferOp, t: TransferOp, v: View)
    requires Clashes(NftTransfer(s), NftTransfer(t)) && s.to == t.to && Contested(v.state, s, t)
    ensures Both(env, NftTransfer(s), NftTransfer(t), v) != Both(env, NftTransfer(t), NftTransfer(s), v)
  {
    assert CanTransfer(v.state, s) && !CanTransfer(v.state, t);
    var w := Effect(env, v.state, NftTransfer(s));
    assert w.nfts[t.nftId].owner == s.to && w.nfts[t.nftId].collection == 1;
    assert OperatorKey(s.to, t.from, 1) in w.operators;
    assert CanTransfer(w, t);
  }

  lemma MovesTo(env: Env, s: TransferOp, v: View)
    requires CanTransfer(v.state, s)
    ensures ViewStep(env, NftTransfer(s), v).Some?
    ensures var w := ViewStep(env, NftTransfer(s), v).value.state;
            && w == v.state.(nfts := v.state.nfts[s.nftId := w.nfts[s.nftId]])
            && w.nfts[s.nftId] == v.state.nfts[s.nftId].(owner := s.to, approved := "")
  {
  }

  lemma OtherReceiverDiffers(env: Env, s: TransferOp, t: TransferOp, v: View)
    requires Clashes(NftTransfer(s), NftTransfer(t)) && s.to != t.to && Contested(v.state, s, t)
    ensures Both(env, NftTransfer(s), NftTransfer(t), v) != Both(env, NftTransfer(t), NftTransfer(s), v)
  {
    MovesTo(env, s, v);
    MovesTo(env, t, v);
    var vs, vt := ViewStep(env, NftTransfer(s), v).value, ViewStep(env, NftTransfer(t), v).value;
    assert CanTransfer(vs.state, t) && CanTransfer(vt.state, s);
    MovesTo(env, t, vs);
    MovesTo(env, s, vt);
  }

  lemma TransfersDiffer(env: Env, s: TransferOp, t: TransferOp, v: View)
    requires Clashes(NftTransfer(s), NftTransfer(t)) && Contested(v.state, s, t)
    ensures Both(env, NftTransfer(s), NftTransfer(t), v) != Both(env, NftTransfer(t), NftTransfer(s), v)
  {
    if s.to == t.to { SameReceiverDiffers(env, s, t, v); } else { OtherReceiverDiffers(env, s, t, v); }
  }

  function Note(s: CallOp, c: CallOp): Bytes {
    if c == s then [1] else [2]
  }

  /** An engine that notes in the storage whether s was the last call. */
  ghost function Noting(s: CallOp): Env {
    Env(b => seq(32, _ => 0), b => seq(20, _ => 0), (code, args, fuel) => CallResult(true, 0, map[]),
        (code: Bytes, exportName: string, args: Bytes, storage: Storage, fuel: nat, caller: Name) =>
          CallResult(true, 0, map["" := Note(s, CallOp(caller, s.contractId, exportName, args, fuel))]))
  }

  ghost predicate Callable(db: Db, c: CallOp) {
    ContractGate(db.config) && c.caller in db.balances && c.contractId in db.contracts
  }

  ghost predicate Noted(db: Db, id: nat, note: Bytes) {
    id in db.contractStorage && "" in db.contractStorage[id] && db.contractStorage[id][""] == note
  }

  lemma EngineNotes(s: CallOp, db: Db, c: CallOp)
    requires c.contractId in db.contracts && c.contractId == s.contractId
    ensures EngineResult(Noting(s), db, c) == CallResult(true, 0, map["" := Note(s, c)])
  {
  }

  lemma CallNotes(s: CallOp, c: CallOp, v: View)
    requires ValidCall(c) && Callable(v.state, c) && c.contractId == s.contractId
    ensures var o := ViewStep(Noting(s), ContractCall(c), v);
            && o.Some?
            && Noted(o.value.state, s.contractId, Note(s, c))
            && o.value.state.(contractStorage := v.state.contractStorage) == v.state
  {
    EngineNotes(s, v.state, c);
  }

  lemma CallsDiffer(s: CallOp, t: CallOp, v: View)
    requires Clashes(ContractCall(s), ContractCall(t)) && Callable(v.state, s) && Callable(v.state, t)
    ensures Both(Noting(s), ContractCall(s), ContractCall(t), v) != Both(Noting(s), ContractCall(t), ContractCall(s), v)
  {
    var env := Noting(s);
    CallNotes(s, s, v);
    CallNotes(s, t, v);
    var vs, vt := ViewStep(env, ContractCall(s), v).value, ViewStep(env, ContractCall(t), v).value;
    CallNotes(s, t, vs);
    CallNotes(s, s, vt);
  }

  // ----- a state in which the overtaken operation can be told apart

  ghost function NamesOf(op: ScheduledOp): set<Name> {
    match op
    case NftTransfer(t) => {t.from, t.to}
    case HtlcRedeem(r) => {r.to}
    case ContractCall(c) => {c.caller}
    case GlobalMarker(_) => {}
  }

  ghost function EngineFor(y: ScheduledOp): Env {
    Noting(if y.ContractCall? then y.call else CallOp("", 0, "", [], 0))
  }

  /** Accounts with something to lock and nothing else. */
  ghost function Accounts(names: set<Name>): Db {
    Db(0, Config(false, false, false, true, HARDFORK_CONTRACTS), 1, 1, 1, 1,
       map name | name in names :: Balance(1, 0), map[], map[], map[], map[], map[], map[], map[], [])
  }

  ghost function TokenId(op: ScheduledOp): nat {
    if op.NftTransfer? then op.transfer.nftId else 0
  }

  ghost function ContractId(op: ScheduledOp): nat {
    if op.ContractCall? then op.call.contractId else 0
  }

  /** The operation's token belongs to its sender, and its contract exists. */
  ghost predicate Equipped(db: Db, op: ScheduledOp) {
    && NamesOf(op) <= db.balances.Keys
    && (op.NftTransfer? ==> TokenOf(db, op.transfer.nftId, op.transfer.from))
    && (op.ContractCall? ==> op.call.contractId in db.contracts)
  }

  ghost function OwnerFor(x: ScheduledOp, y: ScheduledOp, other: Name): nat -> Name {
    (id: nat) =>
      if y.NftTransfer? && id == y.transfer.nftId then y.transfer.from
      else if x.NftTransfer? && id == x.transfer.nftId then x.transfer.from
      else other
  }

  lemma AdmissibleNames(op: ScheduledOp)
    requires Admissible(op)
    ensures forall name :: name in NamesOf(op) ==> ValidName(name)
    ensures op.NftTransfer? ==> TokenId(op) > 0
    ensures op.ContractCall? ==> ContractId(op) > 0
  {
  }

  /** A run lists a collection, makes the grants that let y and z disagree and mints the
      tokens of x and y. */
  lemma ReachTokens(env: Env, x: ScheduledOp, y: ScheduledOp, z: ScheduledOp, creator: Name) returns (db: Db)
    requires Admissible(x) && Clashes(y, z) && creator in NamesOf(y)
    ensures Reached(env, db) && Ready(db)
    ensures db.balances.Keys == NamesOf(x) + NamesOf(y) + NamesOf(z)
    ensures db.nextContractId == db.nextHtlcId == 1 && db.htlcs == map[]
    ensures y.NftTransfer? ==> db.operators == Grants(y.transfer, z.transfer)
    ensures HoldsTokens(db, OwnerFor(x, y, creator)) && db.nextNftId == TokenId(x) + TokenId(y) + 1
  {
    AdmissibleNames(x);
    AdmissibleNames(y);
    AdmissibleNames(z);
    db := Accounts(NamesOf(x) + NamesOf(y) + NamesOf(z));
    ReachedGenesis(env, db);
    db := ListOne(env, db, creator);
    if y.NftTransfer? {
      var s, t := y.transfer, z.transfer;
      db := GrantOne(env, db, s.to, t.from);
      if s.to != t.to {
        db := GrantOne(env, db, s.from, t.from);
        db := GrantOne(env, db, t.to, s.from);
      }
    }
    db := MintMany(env, db, creator, OwnerFor(x, y, creator), TokenId(x) + TokenId(y));
  }

  /** The run goes on to deploy the contracts of x and y. */
  lemma ReachEquipped(x: ScheduledOp, y: ScheduledOp, z: ScheduledOp) returns (db: Db)
    requires Admissible(x) && Clashes(y, z) && !Interferes(x, y)
    ensures Reached(EngineFor(y), db) && Ready(db)
    ensures db.nextHtlcId == 1 && db.htlcs == map[]
    ensures Equipped(db, x) && Equipped(db, y) && NamesOf(z) <= db.balances.Keys
    ensures y.NftTransfer? ==> db.operators == Grants(y.transfer, z.transfer)
  {
    var env := EngineFor(y);
    var creator := if y.NftTransfer? then y.transfer.from else y.call.caller;
    var owners := OwnerFor(x, y, creator);
    AdmissibleNames(x);
    AdmissibleNames(y);
    var before := ReachTokens(env, x, y, z, creator);
    db := DeployMany(env, before, creator, ContractId(x) + ContractId(y));
    assert db.nfts == before.nfts;
    if x.NftTransfer? { assert TokenOf(before, TokenId(x), owners(TokenId(x))); }
    if y.NftTransfer? { assert TokenOf(before, TokenId(y), owners(TokenId(y))); }
  }

  /** And to create the HTLC of x, so that x is accepted. */
  lemma ReachStage(x: ScheduledOp, y: ScheduledOp, z: ScheduledOp) returns (db: Db)
    requires Admissible(x) && Clashes(y, z) && !Interferes(x, y)
    ensures Reached(EngineFor(y), db) && Ok(EngineFor(y), db, x)
    ensures y.NftTransfer? ==> Contested(db, y.transfer, z.transfer)
    ensures y.ContractCall? ==> Callable(db, y.call) && Callable(db, z.call)
  {
    var env := EngineFor(y);
    db := ReachEquipped(x, y, z);
    if x.HtlcRedeem? {
      var r := x.redeem;
      db := RedeemMany(env, db, r.to, r.preimage, r.htlcId);
      db := LockOne(env, db, r.to, r.preimage);
    } else {
      EquippedIsOk(y, db, x);
    }
  }

  lemma EquippedIsOk(y: ScheduledOp, db: Db, x: ScheduledOp)
    requires Ready(db) && Equipped(db, x) && Admissible(x) && !x.HtlcRedeem?
    ensures Ok(EngineFor(y), db, x)
  {
  }

  lemma FirstKeepsStage(env: Env, x: ScheduledOp, db: Db)
    requires Ok(env, db, x)
    ensures var w := Effect(env, db, x);
            && w.config == db.config && w.operators == db.operators && w.contracts == db.contracts
            && w.balances.Keys == db.balances.Keys && w.nfts.Keys == db.nfts.Keys
            && forall id :: id in db.nfts && (x.NftTransfer? ==> x.transfer.nftId != id) ==> w.nfts[id] == db.nfts[id]
  {
  }

  /** Some run from genesis ends in a state in which, after x, the clashing y and z tell
      their order apart. */
  lemma StageDiffers(x: ScheduledOp, y: ScheduledOp, z: ScheduledOp) returns (db: Db)
    requires Admissible(x) && Clashes(y, z) && !Interferes(x, y)
    ensures var env := EngineFor(y);
            && Reached(env, db) && ViewStep(env, x, ViewOf(db)).Some?
            && var w := ViewStep(env, x, ViewOf(db)).value; Both(env, y, z, w) != Both(env, z, y, w)
  {
    var env := EngineFor(y);
    db := ReachStage(x, y, z);
    OkIgnoresLog(env, db, x);
    var v := ViewOf(db);
    FirstKeepsStage(env, x, v.state);
    var w := ViewStep(env, x, v).value;
    if y.NftTransfer? {
      TransfersDiffer(env, y.transfer, z.transfer, w);
    } else {
      CallsDiffer(y.call, z.call, w);
    }
  }

  // ----- the exact condition

  /** In every environment and every state reached from genesis, the schedule succeeds
      exactly when the given order does, and ends in the same state. */
  ghost predicate RunsAsGiven(ops: seq<ScheduledOp>) {
    forall env: Env, db: Db :: Reached(env, db) ==> AgreesOn(env, ops, ViewOf(db))
  }

  ghost predicate AgreesOn(env: Env, ops: seq<ScheduledOp>, v: View) {
    Run(Semantics(env, ops), Flatten(LayersOf(ops), |ops|), Some(v)) == Run(Semantics(env, ops), Iota(|ops|), Some(v))
  }

  ghost predicate SubBatchesRunAsGiven(ops: seq<ScheduledOp>) {
    forall pick :: Ascending(pick, |ops|) ==> RunsAsGiven(Pick(ops, pick))
  }

  /** The same on every funded state, reached or not. */
  ghost predicate SubBatchesRunAsGivenWhenFunded(ops: seq<ScheduledOp>) {
    forall pick, env: Env, v: View :: Ascending(pick, |ops|) && Funded(v.state) ==> AgreesOn(env, Pick(ops, pick), v)
  }

  lemma PickIsOvertakingFree(ops: seq<ScheduledOp>, pick: seq<nat>)
    requires OvertakingFree(ops) && Ascending(pick, |ops|)
    ensures OvertakingFree(Pick(ops, pick))
  {
    var sub := Pick(ops, pick);
    forall h: nat, i: nat, j: nat ensures !Overtaking(sub, h, i, j) {
      if h < i < j < |sub| { assert !Overtaking(ops, pick[h], pick[i], pick[j]); }
    }
  }

  /** What holds back y alone of a clashing pair does not interfere with it. */
  lemma HolderDoesNotInterfere(x: ScheduledOp, y: ScheduledOp, z: ScheduledOp)
    requires Clashes(y, z) && !Conflicting(x, z)
    ensures !Interferes(x, y)
  {
    if Interferes(x, y) { InterferenceIsConflict(x, z, 0, 0); }
  }

  lemma TripleDiffers(x: ScheduledOp, y: ScheduledOp, z: ScheduledOp)
    requires Admissible(x) && Clashes(y, z) && !Conflicting(x, z) && LayersOf([x, y, z]) == [0, 1, 0]
    ensures !RunsAsGiven([x, y, z])
  {
    var ops, env := [x, y, z], EngineFor(y);
    HolderDoesNotInterfere(x, y, z);
    var db := StageDiffers(x, y, z);
    TripleDiffersOn(env, x, y, z, ViewOf(db));
    assert !AgreesOn(env, ops, ViewOf(db));
  }

  lemma TripleDiffersOn(env: Env, x: ScheduledOp, y: ScheduledOp, z: ScheduledOp, v: View)
    requires LayersOf([x, y, z]) == [0, 1, 0] && ViewStep(env, x, v).Some?
    requires var w := ViewStep(env, x, v).value; Both(env, y, z, w) != Both(env, z, y, w)
    ensures !AgreesOn(env, [x, y, z], v)
  {
    var ops := [x, y, z];
    var step, w := Semantics(env, ops), ViewStep(env, x, v).value;
    OvertakenOrder(LayersOf(ops));
    RunThree(step, 0, 1, 2, Some(v));
    RunThree(step, 0, 2, 1, Some(v));
    assert step(0, v) == Some(w);
    assert Then(step, Then(step, Some(w), 1), 2) == Both(env, y, z, w);
    assert Then(step, Then(step, Some(w), 2), 1) == Both(env, z, y, w);
  }

  lemma OvertakingFreeRunsAsGiven(ops: seq<ScheduledOp>)
    requires OvertakingFree(ops)
    ensures SubBatchesRunAsGivenWhenFunded(ops)
  {
    forall pick, env: Env, v: View | Ascending(pick, |ops|) && Funded(v.state)
      ensures AgreesOn(env, Pick(ops, pick), v)
    {
      PickIsOvertakingFree(ops, pick);
      OvertakingFreeAgrees(env, Pick(ops, pick), |pick|, v);
    }
  }

  lemma FundedCoversReached(ops: seq<ScheduledOp>)
    requires SubBatchesRunAsGivenWhenFunded(ops)
    ensures SubBatchesRunAsGiven(ops)
  {
    forall pick, env: Env, db: Db | Ascending(pick, |ops|) && Reached(env, db)
      ensures AgreesOn(env, Pick(ops, pick), ViewOf(db))
    {
      ReachedIsFunded(env, db);
    }
  }

  /** A batch and all its sub-batches run as given, in every environment and every state
      reached from genesis, exactly when no admissible operation holds back the first of two
      later clashing operations and not the second; and then they do so in every state whose
      HTLCs hold something. */
  lemma RunsAsGivenExactly(ops: seq<ScheduledOp>)
    ensures SubBatchesRunAsGiven(ops) <==> OvertakingFree(ops)
    ensures SubBatchesRunAsGivenWhenFunded(ops) <==> OvertakingFree(ops)
  {
    if OvertakingFree(ops) {
      OvertakingFreeRunsAsGiven(ops);
      FundedCoversReached(ops);
    } else {
      var h: nat, i: nat, j: nat :| Overtaking(ops, h, i, j);
      BypassedTriple(ops, h, i, j);
      TripleDiffers(ops[h], ops[i], ops[j]);
      assert !SubBatchesRunAsGiven(ops);
      if SubBatchesRunAsGivenWhenFunded(ops) { FundedCoversReached(ops); }
    }
  }

  lemma ClashTellsApart(x: ScheduledOp, y: ScheduledOp) returns (db: Db)
    requires Clashes(x, y)
    ensures var env := EngineFor(x); Reached(env, db) && Both(env, x, y, ViewOf(db)) != Both(env, y, x, ViewOf(db))
  {
    var env := EngineFor(x);
    db := ReachStage(GlobalMarker(""), x, y);
    if x.NftTransfer? {
      TransfersDiffer(env, x.transfer, y.transfer, ViewOf(db));
    } else {
      CallsDiffer(x.call, y.call, ViewOf(db));
    }
  }

  /** Two operations commute in every environment and every state reached from genesis, and
      just as well in every funded state, exactly when they do not clash. */
  lemma CommuteExactly(x: ScheduledOp, y: ScheduledOp)
    ensures (forall env: Env, db: Db :: Reached(env, db) ==> Both(env, x, y, ViewOf(db)) == Both(env, y, x, ViewOf(db)))
            <==> !Clashes(x, y)
    ensures (forall env: Env, v: View :: Funded(v.state) ==> Both(env, x, y, v) == Both(env, y, x, v)) <==>
            !Clashes(x, y)
  {
    if Clashes(x, y) {
      var db := ClashTellsApart(x, y);
      ReachedIsFunded(EngineFor(x), db);
      assert Funded(ViewOf(db).state);
    } else {
      forall env: Env, v: View | Funded(v.state) ensures Both(env, x, y, v) == Both(env, y, x, v) {
        NonClashingBoth(env, x, y, v);
      }
      forall env: Env, db: Db | Reached(env, db) ensures Both(env, x, y, ViewOf(db)) == Both(env, y, x, ViewOf(db)) {
        ReachedIsFunded(env, db);
        assert Funded(ViewOf(db).state);
      }
    }
  }

  /** Two well formed transfers commute on every state exactly when they move different
      tokens or make the same move. */
  lemma TransfersCommuteExactly(env: Env, s: TransferOp, t: TransferOp)
    requires ValidTransfer(s) && ValidTransfer(t)
    ensures (forall v: View ::
               Both(env, NftTransfer(s), NftTransfer(t), v) == Both(env, NftTransfer(t), NftTransfer(s), v)) <==>
            s.nftId != t.nftId || (s.from == t.from && s.to == t.to)
  {
    var x, y := NftTransfer(s), NftTransfer(t);
    if s.nftId != t.nftId {
      forall v: View ensures Both(env, x, y, v) == Both(env, y, x, v) { NonInterferingBoth(env, x, y, v); }
    } else if s.from == t.from && s.to == t.to {
      forall v: View ensures Both(env, x, y, v) == Both(env, y, x, v) {
        SameMove(env, s, t, v);
        if ViewStep(env, x, v).Some? { SameMove(env, s, t, ViewStep(env, x, v).value); }
      }
    } else {
      var token := Nft(s.nftId, 1, 1, s.from, "", [], "", false, 0);
      var v := View(Accounts({s.to, t.to}).(nfts := map[s.nftId := token], operators := Grants(s, t)), multiset{});
      TransfersDiffer(env, s, t, v);
    }
  }
}
