/** The HTLC escrow read off the submitted operations: what every HTLC offers, when each
    operation is accepted, and who is paid. */
module HtlcHistory {
  import opened Types
  import opened Chain
  import opened Histories
  import opened HtlcRuns

  // ----- offers

  /** Step j is an accepted creation and hands out the identifier. */
  ghost predicate Offered(next: (Db, Step) -> Db, env: Env, genesis: Db, steps: seq<Step>, j: nat, op: HtlcCreateOp,
                          id: nat) {
    && j < |steps| && steps[j] == SubmitHtlc(Create(op))
    && Accepted(env, At(next, genesis, steps, j), steps[j])
    && At(next, genesis, steps, j).nextHtlcId == id
  }

  /** The record has the terms of the operation. */
  predicate Carries(h: Htlc, op: HtlcCreateOp, id: nat, created: nat) {
    && h.id == id && h.from == op.from && h.to == op.to && h.amount == op.amount
    && h.preimageHash == op.preimageHash && h.preimageSize == op.preimageSize
    && h.expiration == op.expiration && h.memo == op.memo && h.created == created
  }

  /** The balances with an amount added to one field of one account. */
  ghost function Credited(balances: map<Name, Balance>, name: Name, amount: int, sym: Symbol): map<Name, Balance>
    requires name in balances
  {
    var b := balances[name];
    balances[name := if sym == HIVE then Balance(b.hive + amount, b.hbd) else Balance(b.hive, b.hbd + amount)]
  }

  lemma CreationRecords(env: Env, db: Db, op: HtlcCreateOp)
    requires ApplyHtlc(env, db, Create(op)).ok
    ensures var db' := ApplyHtlc(env, db, Create(op)).db;
            && db.nextHtlcId in db'.htlcs && Carries(db'.htlcs[db.nextHtlcId], op, db.nextHtlcId, db.headTime)
            && db'.htlcs[db.nextHtlcId].status.Open?
            && op.from in db.balances
            && db'.balances == Credited(db.balances, op.from, -op.amount.amount, op.amount.symbol)
  {
  }

  /** An accepted creation takes the amount from the sender and opens an HTLC with the terms
      of the operation. */
  lemma OfferRecorded(next: (Db, Step) -> Db, env: Env, genesis: Db, steps: seq<Step>, j: nat, op: HtlcCreateOp,
                      id: nat)
    requires IsChain(next, env) && Offered(next, env, genesis, steps, j, op, id)
    ensures var db, db' := At(next, genesis, steps, j), At(next, genesis, steps, j + 1);
            && id in db'.htlcs && Carries(db'.htlcs[id], op, id, Clock(genesis.headTime, steps, j))
            && db'.htlcs[id].status.Open?
            && op.from in db.balances
            && db'.balances == Credited(db.balances, op.from, -op.amount.amount, op.amount.symbol)
  {
    var db := At(next, genesis, steps, j);
    assert next(db, steps[j]) == After(env, db, steps[j]);
    CreationRecords(env, db, op);
    Setting(next, env, genesis, steps, j);
  }

  /** The terms stand in every later state. */
  lemma {:induction false} OfferStands(next: (Db, Step) -> Db, env: Env, genesis: Db, steps: seq<Step>, j: nat,
                                       op: HtlcCreateOp, id: nat, k: nat)
    requires IsChain(next, env) && Genesis(genesis) && Offered(next, env, genesis, steps, j, op, id) && j < k <= |steps|
    ensures id in At(next, genesis, steps, k).htlcs
    ensures Carries(At(next, genesis, steps, k).htlcs[id], op, id, Clock(genesis.headTime, steps, j))
    decreases k
  {
    if k == j + 1 {
      OfferRecorded(next, env, genesis, steps, j, op, id);
    } else {
      OfferStands(next, env, genesis, steps, j, op, id, k - 1);
      var db := At(next, genesis, steps, k - 1);
      ReachableEscrow(next, env, genesis, steps, k - 1);
      StepMovesEscrow(next, env, db, steps[k - 1]);
      StepKeepsTerms(env, db, steps[k - 1], next(db, steps[k - 1]), id);
    }
  }

  lemma NewHtlcIsCreated(env: Env, db: Db, step: Step, db': Db, id: nat)
    requires EscrowStep(env, db, step, db') && id !in db.htlcs && id in db'.htlcs
    ensures step.SubmitHtlc? && step.htlc.Create? && ApplyHtlc(env, db, step.htlc).ok && id == db.nextHtlcId
  {
  }

  /** Every HTLC of a reachable state was offered by an accepted creation. */
  lemma {:induction false} EveryHtlcWasOffered(next: (Db, Step) -> Db, env: Env, genesis: Db, steps: seq<Step>,
                                               k: nat, id: nat)
    returns (j: nat, op: HtlcCreateOp)
    requires IsChain(next, env) && Genesis(genesis) && k <= |steps| && id in At(next, genesis, steps, k).htlcs
    ensures j < k && Offered(next, env, genesis, steps, j, op, id)
    decreases k
  {
    var db := At(next, genesis, steps, k - 1);
    if id in db.htlcs {
      j, op := EveryHtlcWasOffered(next, env, genesis, steps, k - 1, id);
    } else {
      StepMovesEscrow(next, env, db, steps[k - 1]);
      NewHtlcIsCreated(env, db, steps[k - 1], next(db, steps[k - 1]), id);
      j, op := k - 1, steps[k - 1].htlc.create;
    }
  }

  // ----- status

  ghost predicate Redeems(env: Env, db: Db, step: Step, id: nat) {
    step.SubmitHtlc? && step.htlc.Redeem? && step.htlc.redeem.htlcId == id && Accepted(env, db, step)
  }

  ghost predicate Refunds(env: Env, db: Db, step: Step, id: nat) {
    step.SubmitHtlc? && step.htlc.Refund? && step.htlc.refund.htlcId == id && Accepted(env, db, step)
  }

  /** One of the first k steps redeemed the HTLC. */
  ghost predicate RedeemedBefore(next: (Db, Step) -> Db, env: Env, genesis: Db, steps: seq<Step>, k: nat, id: nat)
    requires k <= |steps|
  {
    k > 0 && (Redeems(env, At(next, genesis, steps, k - 1), steps[k - 1], id)
              || RedeemedBefore(next, env, genesis, steps, k - 1, id))
  }

  /** One of the first k steps refunded the HTLC. */
  ghost predicate RefundedBefore(next: (Db, Step) -> Db, env: Env, genesis: Db, steps: seq<Step>, k: nat, id: nat)
    requires k <= |steps|
  {
    k > 0 && (Refunds(env, At(next, genesis, steps, k - 1), steps[k - 1], id)
              || RefundedBefore(next, env, genesis, steps, k - 1, id))
  }

  /** Only an open HTLC is redeemed or refunded, and its status changes in no other way. */
  ghost predicate StatusMoves(env: Env, db: Db, step: Step, db': Db, id: nat)
    requires id in db.htlcs
  {
    && id in db'.htlcs
    && var before, after := db.htlcs[id].status, db'.htlcs[id].status;
    if Redeems(env, db, step, id) then before.Open? && after.Redeemed?
    else if Refunds(env, db, step, id) then before.Open? && after.Refunded?
    else after == before
  }

  lemma HtlcStatusStep(env: Env, db: Db, op: HtlcOp, id: nat)
    requires id in db.htlcs && id != db.nextHtlcId
    ensures StatusMoves(env, db, SubmitHtlc(op), ApplyHtlc(env, db, op).db, id)
  {
  }

  lemma StatusStep(next: (Db, Step) -> Db, env: Env, db: Db, step: Step, id: nat)
    requires IsChain(next, env) && id in db.htlcs && id != db.nextHtlcId
    ensures StatusMoves(env, db, step, next(db, step), id)
  {
    assert next(db, step) == After(env, db, step);
    match step
    case SubmitNft(op) => NftKeepsEscrow(db, op);
    case SubmitHtlc(op) => HtlcStatusStep(env, db, op, id);
    case SubmitContract(op) => ContractsKeepEscrow(env, db, op);
    case SetTime(_) =>
  }

  /** Only a present HTLC is settled. */
  lemma {:induction false} AbsentIsUnsettled(next: (Db, Step) -> Db, env: Env, genesis: Db, steps: seq<Step>, k: nat,
                                             id: nat)
    requires IsChain(next, env) && Genesis(genesis) && k <= |steps| && id !in At(next, genesis, steps, k).htlcs
    ensures !RedeemedBefore(next, env, genesis, steps, k, id) && !RefundedBefore(next, env, genesis, steps, k, id)
  {
    if k == 0 {
    } else {
      var db := At(next, genesis, steps, k - 1);
      if id in db.htlcs {
        ReachableEscrow(next, env, genesis, steps, k - 1);
        assert WellFormed(db, id, db.htlcs[id]);
        StatusStep(next, env, db, steps[k - 1], id);
      }
      AbsentIsUnsettled(next, env, genesis, steps, k - 1, id);
    }
  }

  /** The status of an HTLC is told by the steps before state k. */
  ghost predicate StatusTold(next: (Db, Step) -> Db, env: Env, genesis: Db, steps: seq<Step>, k: nat, id: nat,
                             status: HtlcStatus)
    requires k <= |steps|
  {
    && (status.Redeemed? <==> RedeemedBefore(next, env, genesis, steps, k, id))
    && (status.Refunded? <==> RefundedBefore(next, env, genesis, steps, k, id))
  }

  /** An HTLC is redeemed or refunded exactly when an earlier accepted step redeemed or
      refunded it, and open otherwise. */
  lemma {:induction false} StatusByHistory(next: (Db, Step) -> Db, env: Env, genesis: Db, steps: seq<Step>, k: nat,
                                           id: nat)
    requires IsChain(next, env) && Genesis(genesis) && k <= |steps| && id in At(next, genesis, steps, k).htlcs
    ensures StatusTold(next, env, genesis, steps, k, id, At(next, genesis, steps, k).htlcs[id].status)
    decreases k
  {
    var db, step := At(next, genesis, steps, k - 1), steps[k - 1];
    if id in db.htlcs {
      ReachableEscrow(next, env, genesis, steps, k - 1);
      assert WellFormed(db, id, db.htlcs[id]);
      StatusByHistory(next, env, genesis, steps, k - 1, id);
      StatusStep(next, env, db, step, id);
    } else {
      AbsentIsUnsettled(next, env, genesis, steps, k - 1, id);
      StepMovesEscrow(next, env, db, step);
      NewHtlcIsCreated(env, db, step, next(db, step), id);
      OfferRecorded(next, env, genesis, steps, k - 1, step.htlc.create, id);
    }
  }

  // ----- when operations are accepted

  /** The offer of an HTLC that no earlier step has redeemed or refunded. */
  ghost predicate StandingOffer(next: (Db, Step) -> Db, env: Env, genesis: Db, steps: seq<Step>, k: nat, id: nat,
                                j: nat, op: HtlcCreateOp)
    requires k <= |steps|
  {
    && j < k && Offered(next, env, genesis, steps, j, op, id)
    && !RedeemedBefore(next, env, genesis, steps, k, id) && !RefundedBefore(next, env, genesis, steps, k, id)
  }

  /** The hash of the preimage under the algorithm of the digest is the digest. */
  predicate MatchesDigest(env: Env, hash: HashDigest, preimage: Bytes) {
    match hash.algo
    case Sha256 => env.sha256(preimage) == hash.bytes
    case Ripemd160 => env.ripemd160(preimage) == hash.bytes
  }

  /** The record and the status of an HTLC, from its standing offer, and the other way round. */
  lemma StandingOfferIsOpen(next: (Db, Step) -> Db, env: Env, genesis: Db, steps: seq<Step>, k: nat, id: nat)
    requires IsChain(next, env) && Genesis(genesis) && k <= |steps|
    ensures var db := At(next, genesis, steps, k);
            && ((id in db.htlcs && db.htlcs[id].status.Open?) <==>
                exists j, op :: StandingOffer(next, env, genesis, steps, k, id, j, op))
            && forall j, op :: StandingOffer(next, env, genesis, steps, k, id, j, op) ==>
                 Carries(db.htlcs[id], op, id, Clock(genesis.headTime, steps, j)) && WellFormed(db, id, db.htlcs[id])
  {
    var db := At(next, genesis, steps, k);
    ReachableEscrow(next, env, genesis, steps, k);
    if id in db.htlcs {
      StatusByHistory(next, env, genesis, steps, k, id);
      if db.htlcs[id].status.Open? {
        var j, op := EveryHtlcWasOffered(next, env, genesis, steps, k, id);
        assert StandingOffer(next, env, genesis, steps, k, id, j, op);
      }
    }
    forall j, op | StandingOffer(next, env, genesis, steps, k, id, j, op)
      ensures id in db.htlcs && db.htlcs[id].status.Open?
      ensures Carries(db.htlcs[id], op, id, Clock(genesis.headTime, steps, j)) && WellFormed(db, id, db.htlcs[id])
    {
      OfferStands(next, env, genesis, steps, j, op, id, k);
      StatusByHistory(next, env, genesis, steps, k, id);
    }
  }

  /** A redemption is accepted exactly when the HTLC's offer stands, names the redeemer as
      receiver and has not expired, and the preimage has the offered size and hash. */
  lemma RedemptionAcceptedExactly(next: (Db, Step) -> Db, env: Env, genesis: Db, steps: seq<Step>, k: nat,
                                  op: HtlcRedeemOp)
    requires IsChain(next, env) && Genesis(genesis) && k <= |steps|
    ensures ApplyHtlc(env, At(next, genesis, steps, k), Redeem(op)).ok <==>
            exists j, offer :: StandingOffer(next, env, genesis, steps, k, op.htlcId, j, offer)
              && op.to == offer.to && Clock(genesis.headTime, steps, k) < offer.expiration
              && |op.preimage| == offer.preimageSize && MatchesDigest(env, offer.preimageHash, op.preimage)
  {
    Setting(next, env, genesis, steps, k);
    StandingOfferIsOpen(next, env, genesis, steps, k, op.htlcId);
  }

  /** A refund is accepted exactly when the HTLC's offer stands, was made by the refunded
      and has expired. */
  lemma RefundAcceptedExactly(next: (Db, Step) -> Db, env: Env, genesis: Db, steps: seq<Step>, k: nat, op: HtlcRefundOp)
    requires IsChain(next, env) && Genesis(genesis) && k <= |steps|
    ensures ApplyHtlc(env, At(next, genesis, steps, k), Refund(op)).ok <==>
            exists j, offer :: StandingOffer(next, env, genesis, steps, k, op.htlcId, j, offer)
              && op.from == offer.from && Clock(genesis.headTime, steps, k) >= offer.expiration
  {
    Setting(next, env, genesis, steps, k);
    StandingOfferIsOpen(next, env, genesis, steps, k, op.htlcId);
  }

  /** What a creation needs, whatever the state. */
  predicate Creatable(config: Config, now: nat, op: HtlcCreateOp) {
    && config.hardfork >= 9002 && !config.htlcSkipState
    && AccountName(op.from) && AccountName(op.to)
    && |op.memo| <= 2048
    && op.amount.amount > 0
    && 1 <= op.preimageSize <= 1024
    && (match op.preimageHash.algo
        case Sha256 => |op.preimageHash.bytes| == 32
        case Ripemd160 => |op.preimageHash.bytes| == 20)
    && now + 60 <= op.expiration <= now + 2592000
  }

  ghost predicate StandsFor(next: (Db, Step) -> Db, env: Env, genesis: Db, steps: seq<Step>, k: nat, id: nat,
                            from: Name)
    requires k <= |steps|
  {
    exists j, op :: StandingOffer(next, env, genesis, steps, k, id, j, op) && op.from == from
  }

  /** A creation is accepted exactly when its terms are in bounds, both accounts exist, fewer
      than 256 offers of the sender stand and the sender's balance covers the amount. */
  lemma CreationAcceptedExactly(next: (Db, Step) -> Db, env: Env, genesis: Db, steps: seq<Step>, k: nat,
                                op: HtlcCreateOp, standing: set<nat>)
    requires IsChain(next, env) && Genesis(genesis) && k <= |steps|
    requires forall id: nat :: id in standing <==> StandsFor(next, env, genesis, steps, k, id, op.from)
    ensures var db := At(next, genesis, steps, k);
            ApplyHtlc(env, db, Create(op)).ok <==>
            && Creatable(genesis.config, Clock(genesis.headTime, steps, k), op)
            && op.from in genesis.balances && op.to in genesis.balances
            && |standing| < 256
            && op.from in db.balances
            && var b := db.balances[op.from];
            op.amount.amount <= if op.amount.symbol == HIVE then b.hive else b.hbd
  {
    var db := At(next, genesis, steps, k);
    Setting(next, env, genesis, steps, k);
    AccountNames(op.from);
    AccountNames(op.to);
    forall id: nat ensures id in standing <==> id in OpenHtlcs(db.htlcs, op.from) {
      StandingOfferIsOpen(next, env, genesis, steps, k, id);
    }
    assert standing == OpenHtlcs(db.htlcs, op.from);
  }

  // ----- who is paid

  lemma SettlementPays(env: Env, db: Db, op: HtlcOp, id: nat)
    requires Redeems(env, db, SubmitHtlc(op), id) || Refunds(env, db, SubmitHtlc(op), id)
    ensures id in db.htlcs
    ensures var h, db' := db.htlcs[id], ApplyHtlc(env, db, op).db;
            var payee := if op.Redeem? then h.to else h.from;
            payee in db.balances && db'.balances == Credited(db.balances, payee, h.amount.amount, h.amount.symbol)
  {
  }

  /** The step that closes an HTLC follows its offer: the offered receiver redeems before the
      offered expiration with a preimage of the offered size and hash and is paid the offered
      amount, or the sender is paid it back from the expiration on. */
  lemma PayoutFollowsOffer(next: (Db, Step) -> Db, env: Env, genesis: Db, steps: seq<Step>, j: nat,
                           offer: HtlcCreateOp, k: nat, id: nat)
    requires IsChain(next, env) && Genesis(genesis)
    requires Offered(next, env, genesis, steps, j, offer, id) && ClosesAt(next, genesis, steps, k, id)
    ensures var db, db' := At(next, genesis, steps, k), At(next, genesis, steps, k + 1);
            var now := Clock(genesis.headTime, steps, k);
            || (exists preimage ::
                  && steps[k] == SubmitHtlc(Redeem(HtlcRedeemOp(offer.to, id, preimage)))
                  && now < offer.expiration
                  && |preimage| == offer.preimageSize && MatchesDigest(env, offer.preimageHash, preimage)
                  && offer.to in db.balances
                  && db'.balances == Credited(db.balances, offer.to, offer.amount.amount, offer.amount.symbol))
            || (&& steps[k] == SubmitHtlc(Refund(HtlcRefundOp(offer.from, id)))
                && now >= offer.expiration
                && offer.from in db.balances
                && db'.balances == Credited(db.balances, offer.from, offer.amount.amount, offer.amount.symbol))
  {
    var db, step := At(next, genesis, steps, k), steps[k];
    ReachableEscrow(next, env, genesis, steps, k);
    assert WellFormed(db, id, db.htlcs[id]);
    StatusStep(next, env, db, step, id);
    assert Redeems(env, db, step, id) || Refunds(env, db, step, id);
    assert next(db, step) == After(env, db, step);
    SettlementPays(env, db, step.htlc, id);
    OfferBeforeState(next, env, genesis, steps, j, offer, id, k);
    OfferStands(next, env, genesis, steps, j, offer, id, k);
    Setting(next, env, genesis, steps, k);
    if Redeems(env, db, step, id) {
      assert step == SubmitHtlc(Redeem(HtlcRedeemOp(offer.to, id, step.htlc.redeem.preimage)));
    }
  }

  lemma {:induction false} IdentifiersGrow(next: (Db, Step) -> Db, env: Env, genesis: Db, steps: seq<Step>, i: nat,
                                           k: nat)
    requires IsChain(next, env) && i <= k <= |steps|
    ensures At(next, genesis, steps, i).nextHtlcId <= At(next, genesis, steps, k).nextHtlcId
    decreases k
  {
    if i == k {
    } else {
      IdentifiersGrow(next, env, genesis, steps, i, k - 1);
      StepMovesEscrow(next, env, At(next, genesis, steps, k - 1), steps[k - 1]);
    }
  }

  lemma OfferBeforeState(next: (Db, Step) -> Db, env: Env, genesis: Db, steps: seq<Step>, j: nat, op: HtlcCreateOp,
                         id: nat, k: nat)
    requires IsChain(next, env) && Genesis(genesis) && Offered(next, env, genesis, steps, j, op, id)
    requires k <= |steps| && id in At(next, genesis, steps, k).htlcs
    ensures j < k
  {
    ReachableEscrow(next, env, genesis, steps, k);
    assert WellFormed(At(next, genesis, steps, k), id, At(next, genesis, steps, k).htlcs[id]);
    if k <= j { IdentifiersGrow(next, env, genesis, steps, k, j); }
  }
}
