/** Whole-run properties of the HTLC escrow: conservation, single payout, no stuck
    funds and the cap on open HTLCs. */
module HtlcRuns {
  import opened Types
  import opened Chain
  import opened Sums

  // ----- what one step does to the escrow

  ghost predicate Untouched(db: Db, db': Db) {
    db'.balances == db.balances && db'.htlcs == db.htlcs && db'.nextHtlcId == db.nextHtlcId && db'.config == db.config
  }

  /** The sender pays and a new open HTLC holds the amount. */
  ghost predicate Opens(db: Db, db': Db, op: HtlcCreateOp) {
    && CanCreate(db, op)
    && db'.balances == DoCreate(db, op).balances
    && db'.htlcs == DoCreate(db, op).htlcs
    && db'.nextHtlcId == db.nextHtlcId + 1
    && db'.config == db.config
  }

  /** An open HTLC is closed and its amount goes to the payee. */
  ghost predicate Pays(db: Db, db': Db, id: nat, payee: Name, status: HtlcStatus) {
    && id in db.htlcs && db.htlcs[id].status.Open? && !status.Open?
    && CanAdjust(db.balances, payee, db.htlcs[id].amount)
    && db'.balances == Adjust(db.balances, payee, db.htlcs[id].amount)
    && db'.htlcs == db.htlcs[id := db.htlcs[id].(status := status)]
    && db'.nextHtlcId == db.nextHtlcId
    && db'.config == db.config
  }

  /** The receiver redeems before expiration with a preimage of the agreed size and digest. */
  ghost predicate Redemption(env: Env, db: Db, db': Db, step: Step, id: nat) {
    && step.SubmitHtlc? && step.htlc.Redeem? && step.htlc.redeem.htlcId == id
    && id in db.htlcs
    && var h := db.htlcs[id];
    && step.htlc.redeem.to == h.to
    && db.headTime < h.expiration
    && |step.htlc.redeem.preimage| == h.preimageSize
    && DigestOf(env, h.preimageHash.algo, step.htlc.redeem.preimage).bytes == h.preimageHash.bytes
    && Pays(db, db', id, h.to, Redeemed)
  }

  /** The sender takes the amount back from expiration on. */
  ghost predicate Refunding(db: Db, db': Db, step: Step, id: nat) {
    && step.SubmitHtlc? && step.htlc.Refund? && step.htlc.refund.htlcId == id
    && id in db.htlcs
    && var h := db.htlcs[id];
    && step.htlc.refund.from == h.from
    && db.headTime >= h.expiration
    && Pays(db, db', id, h.from, Refunded)
  }

  ghost predicate EscrowStep(env: Env, db: Db, step: Step, db': Db) {
    || Untouched(db, db')
    || (step.SubmitHtlc? && step.htlc.Create? && Opens(db, db', step.htlc.create))
    || (exists id :: Redemption(env, db, db', step, id))
    || (exists id :: Refunding(db, db', step, id))
  }

  lemma NftKeepsEscrow(db: Db, op: NftOp)
    ensures Untouched(db, ApplyNft(db, op).db)
  {
  }

  lemma ContractsKeepEscrow(env: Env, db: Db, op: ContractOp)
    ensures Untouched(db, ApplyContract(env, db, op).db)
  {
  }

  lemma HtlcMovesEscrow(env: Env, db: Db, op: HtlcOp)
    ensures EscrowStep(env, db, SubmitHtlc(op), ApplyHtlc(env, db, op).db)
  {
    var db', step := ApplyHtlc(env, db, op).db, SubmitHtlc(op);
    match op
    case Create(o) => if CanCreate(db, o) { assert Opens(db, db', o); }
    case Redeem(o) => if CanRedeem(env, db, o) { assert Redemption(env, db, db', step, o.htlcId); }
    case Refund(o) => if CanRefund(db, o) { assert Refunding(db, db', step, o.htlcId); }
  }

  /** Every step leaves the escrow alone, opens an HTLC, redeems one or refunds one. */
  lemma StepMovesEscrow(next: (Db, Step) -> Db, env: Env, db: Db, step: Step)
    requires IsChain(next, env)
    ensures EscrowStep(env, db, step, next(db, step))
  {
    assert next(db, step) == After(env, db, step);
    match step
    case SubmitNft(op) => NftKeepsEscrow(db, op);
    case SubmitHtlc(op) => HtlcMovesEscrow(env, db, op);
    case SubmitContract(op) => ContractsKeepEscrow(env, db, op);
    case SetTime(_) =>
  }

  // ----- reachable states

  ghost predicate WellFormed(db: Db, id: nat, h: Htlc) {
    && 0 < id < db.nextHtlcId && h.id == id
    && HtlcGate(db.config)
    && ValidName(h.from) && ValidName(h.to)
    && h.from in db.balances && h.to in db.balances
    && h.amount.amount > 0
    && 0 < h.preimageSize <= MAX_HTLC_PREIMAGE_LEN
    && |h.preimageHash.bytes| == (if h.preimageHash.algo.Sha256? then 32 else 20)
    && h.created + HTLC_MIN_DURATION_SEC <= h.expiration <= h.created + HTLC_MAX_DURATION_SEC
  }

  ghost predicate Escrow(db: Db) {
    && db.nextHtlcId > 0
    && (forall id :: id in db.htlcs ==> WellFormed(db, id, db.htlcs[id]))
    && (forall from :: |OpenHtlcs(db.htlcs, from)| <= HTLC_MAX_OPEN_PER_ACCOUNT)
  }

  lemma OpenCount(htlcs: map<nat, Htlc>, from: Name, id: nat, h: Htlc)
    ensures |OpenHtlcs(htlcs[id := h], from)| ==
            |OpenHtlcs(htlcs, from)|
            - (if id in htlcs && OpenFrom(htlcs[id], from) then 1 else 0)
            + (if OpenFrom(h, from) then 1 else 0)
  {
    OpenOthers(htlcs, from, id, h);
    CardinalityWithout(OpenHtlcs(htlcs, from), id);
    CardinalityWithout(OpenHtlcs(htlcs[id := h], from), id);
  }

  lemma OpenOthers(htlcs: map<nat, Htlc>, from: Name, id: nat, h: Htlc)
    ensures OpenHtlcs(htlcs[id := h], from) - {id} == OpenHtlcs(htlcs, from) - {id}
  {
  }

  lemma OpenKeepsEscrow(db: Db, db': Db, op: HtlcCreateOp)
    requires Escrow(db) && Opens(db, db', op)
    ensures Escrow(db')
  {
    forall from ensures |OpenHtlcs(db'.htlcs, from)| <= HTLC_MAX_OPEN_PER_ACCOUNT {
      OpenCount(db.htlcs, from, db.nextHtlcId, db'.htlcs[db.nextHtlcId]);
    }
    forall id | id in db'.htlcs ensures WellFormed(db', id, db'.htlcs[id]) {
      if id != db.nextHtlcId { assert WellFormed(db, id, db.htlcs[id]); }
    }
  }

  lemma PayKeepsEscrow(db: Db, db': Db, id: nat, payee: Name, status: HtlcStatus)
    requires Escrow(db) && Pays(db, db', id, payee, status)
    ensures Escrow(db')
  {
    forall from ensures |OpenHtlcs(db'.htlcs, from)| <= HTLC_MAX_OPEN_PER_ACCOUNT {
      OpenCount(db.htlcs, from, id, db.htlcs[id].(status := status));
    }
    forall i | i in db'.htlcs ensures WellFormed(db', i, db'.htlcs[i]) {
      assert WellFormed(db, i, db.htlcs[i]);
    }
  }

  lemma StepKeepsEscrow(env: Env, db: Db, step: Step, db': Db)
    requires Escrow(db) && EscrowStep(env, db, step, db')
    ensures Escrow(db')
  {
    if Untouched(db, db') {
      forall i | i in db'.htlcs ensures WellFormed(db', i, db'.htlcs[i]) { assert WellFormed(db, i, db.htlcs[i]); }
    } else if step.htlc.Create? {
      OpenKeepsEscrow(db, db', step.htlc.create);
    } else if id :| Redemption(env, db, db', step, id) {
      PayKeepsEscrow(db, db', id, db.htlcs[id].to, Redeemed);
    } else {
      var id :| Refunding(db, db', step, id);
      PayKeepsEscrow(db, db', id, db.htlcs[id].from, Refunded);
    }
  }

  /** In every reachable state every HTLC has existing, well named parties, a positive
      amount and a lifetime between one minute and thirty days, and no account has more
      than 256 open HTLCs as sender. */
  lemma {:induction false} ReachableEscrow(next: (Db, Step) -> Db, env: Env, genesis: Db, steps: seq<Step>, k: nat)
    requires IsChain(next, env) && Genesis(genesis) && k <= |steps|
    ensures Escrow(At(next, genesis, steps, k))
  {
    if k == 0 {
      forall from ensures OpenHtlcs(genesis.htlcs, from) == {} { }
    } else {
      ReachableEscrow(next, env, genesis, steps, k - 1);
      var db := At(next, genesis, steps, k - 1);
      StepMovesEscrow(next, env, db, steps[k - 1]);
      StepKeepsEscrow(env, db, steps[k - 1], next(db, steps[k - 1]));
    }
  }

  // ----- no stuck funds

  /** Refunding an open HTLC by its sender is possible exactly from its expiration on,
      and redeeming it by its receiver exactly before, with a preimage of the agreed
      size and digest. */
  lemma OpenHtlcCanBeClosed(next: (Db, Step) -> Db, env: Env, genesis: Db, steps: seq<Step>, k: nat, id: nat,
                            preimage: Bytes)
    requires IsChain(next, env) && Genesis(genesis) && k <= |steps|
    requires id in At(next, genesis, steps, k).htlcs
    requires At(next, genesis, steps, k).htlcs[id].status.Open?
    ensures var db := At(next, genesis, steps, k);
            var h := db.htlcs[id];
            && (CanRefund(db, HtlcRefundOp(h.from, id)) <==> db.headTime >= h.expiration)
            && (CanRedeem(env, db, HtlcRedeemOp(h.to, id, preimage)) <==>
                && db.headTime < h.expiration
                && |preimage| == h.preimageSize
                && DigestOf(env, h.preimageHash.algo, preimage).bytes == h.preimageHash.bytes)
  {
    var db := At(next, genesis, steps, k);
    ReachableEscrow(next, env, genesis, steps, k);
    assert WellFormed(db, id, db.htlcs[id]);
  }

  // ----- conservation

  function BalanceIn(sym: Symbol): Balance -> int {
    (b: Balance) => b.Of(sym)
  }

  function LockedIn(sym: Symbol): Htlc -> int {
    (h: Htlc) => if h.status.Open? && h.amount.symbol == sym then h.amount.amount else 0
  }

  /** Everything of one symbol: balances plus open HTLCs. */
  ghost function Holdings(db: Db, sym: Symbol): int {
    Total(db.balances, BalanceIn(sym)) + Total(db.htlcs, LockedIn(sym))
  }

  lemma AdjustTotal(balances: map<Name, Balance>, name: Name, delta: Asset, sym: Symbol)
    requires name in balances
    ensures Total(Adjust(balances, name, delta), BalanceIn(sym)) ==
            Total(balances, BalanceIn(sym)) + (if delta.symbol == sym then delta.amount else 0)
  {
    TotalUpdate(balances, BalanceIn(sym), name, balances[name].Plus(delta));
  }

  lemma OpenConserves(db: Db, db': Db, op: HtlcCreateOp, sym: Symbol)
    requires Escrow(db) && Opens(db, db', op)
    ensures Holdings(db', sym) == Holdings(db, sym)
  {
    var id := db.nextHtlcId;
    AdjustTotal(db.balances, op.from, Asset(-op.amount.amount, op.amount.symbol), sym);
    TotalUpdate(db.htlcs, LockedIn(sym), id, db'.htlcs[id]);
    assert id !in db.htlcs;
  }

  lemma PayConserves(db: Db, db': Db, id: nat, payee: Name, status: HtlcStatus, sym: Symbol)
    requires Pays(db, db', id, payee, status)
    ensures Holdings(db', sym) == Holdings(db, sym)
  {
    AdjustTotal(db.balances, payee, db.htlcs[id].amount, sym);
    TotalUpdate(db.htlcs, LockedIn(sym), id, db.htlcs[id].(status := status));
  }

  lemma StepConserves(env: Env, db: Db, step: Step, db': Db, sym: Symbol)
    requires Escrow(db) && EscrowStep(env, db, step, db')
    ensures Holdings(db', sym) == Holdings(db, sym)
  {
    if Untouched(db, db') {
    } else if step.htlc.Create? {
      OpenConserves(db, db', step.htlc.create, sym);
    } else if id :| Redemption(env, db, db', step, id) {
      PayConserves(db, db', id, db.htlcs[id].to, Redeemed, sym);
    } else {
      var id :| Refunding(db, db', step, id);
      PayConserves(db, db', id, db.htlcs[id].from, Refunded, sym);
    }
  }

  /** Balances plus open HTLC amounts of a symbol never change over a run. */
  lemma {:induction false} Conservation(next: (Db, Step) -> Db, env: Env, genesis: Db, steps: seq<Step>, k: nat,
                                        sym: Symbol)
    requires IsChain(next, env) && Genesis(genesis) && k <= |steps|
    ensures Holdings(At(next, genesis, steps, k), sym) == Holdings(genesis, sym)
  {
    if k == 0 {
    } else {
      Conservation(next, env, genesis, steps, k - 1, sym);
      ReachableEscrow(next, env, genesis, steps, k - 1);
      var db := At(next, genesis, steps, k - 1);
      StepMovesEscrow(next, env, db, steps[k - 1]);
      StepConserves(env, db, steps[k - 1], next(db, steps[k - 1]), sym);
    }
  }

  // ----- no overflow

  ghost predicate NonNegative(db: Db) {
    forall name :: name in db.balances ==> db.balances[name].hive >= 0 && db.balances[name].hbd >= 0
  }

  lemma OpenKeepsNonNegative(db: Db, db': Db, op: HtlcCreateOp)
    requires NonNegative(db) && Opens(db, db', op)
    ensures NonNegative(db')
  {
  }

  lemma PayKeepsNonNegative(db: Db, db': Db, id: nat, payee: Name, status: HtlcStatus)
    requires NonNegative(db) && Pays(db, db', id, payee, status) && db.htlcs[id].amount.amount > 0
    ensures NonNegative(db')
  {
  }

  lemma StepKeepsNonNegative(env: Env, db: Db, step: Step, db': Db)
    requires Escrow(db) && NonNegative(db) && EscrowStep(env, db, step, db')
    ensures NonNegative(db')
  {
    if Untouched(db, db') {
    } else if step.htlc.Create? {
      OpenKeepsNonNegative(db, db', step.htlc.create);
    } else if id :| Redemption(env, db, db', step, id) {
      assert WellFormed(db, id, db.htlcs[id]);
      PayKeepsNonNegative(db, db', id, db.htlcs[id].to, Redeemed);
    } else {
      var id :| Refunding(db, db', step, id);
      assert WellFormed(db, id, db.htlcs[id]);
      PayKeepsNonNegative(db, db', id, db.htlcs[id].from, Refunded);
    }
  }

  lemma {:induction false} ReachableNonNegative(next: (Db, Step) -> Db, env: Env, genesis: Db, steps: seq<Step>, k: nat)
    requires IsChain(next, env) && Genesis(genesis) && NonNegative(genesis) && k <= |steps|
    ensures NonNegative(At(next, genesis, steps, k))
  {
    if k == 0 {
    } else {
      ReachableNonNegative(next, env, genesis, steps, k - 1);
      ReachableEscrow(next, env, genesis, steps, k - 1);
      var db := At(next, genesis, steps, k - 1);
      StepMovesEscrow(next, env, db, steps[k - 1]);
      StepKeepsNonNegative(env, db, steps[k - 1], next(db, steps[k - 1]));
    }
  }

  ghost predicate InRange(db: Db) {
    && (forall name, sym: Symbol :: name in db.balances ==> 0 <= db.balances[name].Of(sym) <= INT64_MAX)
    && (forall id :: id in db.htlcs && db.htlcs[id].status.Open? ==> 0 < db.htlcs[id].amount.amount <= INT64_MAX)
  }

  lemma HoldingsBoundBalances(db: Db)
    requires Escrow(db) && NonNegative(db)
    requires forall sym: Symbol :: Holdings(db, sym) <= INT64_MAX
    ensures InRange(db)
  {
    forall id | id in db.htlcs ensures db.htlcs[id].amount.amount > 0 { assert WellFormed(db, id, db.htlcs[id]); }
    forall sym: Symbol
      ensures forall name :: name in db.balances ==> BalanceIn(sym)(db.balances[name]) <= INT64_MAX
      ensures forall id :: id in db.htlcs ==> LockedIn(sym)(db.htlcs[id]) <= INT64_MAX
    {
      TotalBound(db.balances, BalanceIn(sym));
      TotalBound(db.htlcs, LockedIn(sym));
      assert Holdings(db, sym) <= INT64_MAX;
    }
    forall name, sym: Symbol | name in db.balances ensures 0 <= db.balances[name].Of(sym) <= INT64_MAX {
      assert BalanceIn(sym)(db.balances[name]) <= INT64_MAX;
    }
    forall id | id in db.htlcs && db.htlcs[id].status.Open? ensures db.htlcs[id].amount.amount <= INT64_MAX {
      assert LockedIn(db.htlcs[id].amount.symbol)(db.htlcs[id]) <= INT64_MAX;
    }
  }

  /** From non-negative balances whose total fits a 64-bit integer, every balance and
      every locked amount stays in range, so 64-bit arithmetic never overflows. */
  lemma BalancesStayInRange(next: (Db, Step) -> Db, env: Env, genesis: Db, steps: seq<Step>, k: nat)
    requires IsChain(next, env) && Genesis(genesis) && NonNegative(genesis) && k <= |steps|
    requires forall sym: Symbol :: Holdings(genesis, sym) <= INT64_MAX
    ensures InRange(At(next, genesis, steps, k))
  {
    ReachableNonNegative(next, env, genesis, steps, k);
    ReachableEscrow(next, env, genesis, steps, k);
    forall sym: Symbol ensures Holdings(At(next, genesis, steps, k), sym) <= INT64_MAX {
      Conservation(next, env, genesis, steps, k, sym);
    }
    HoldingsBoundBalances(At(next, genesis, steps, k));
  }

  // ----- who is paid

  /** What an HTLC has moved out of an account: everything it locked there, less what it
      paid back or paid to it. */
  function Outflow(name: Name, sym: Symbol): Htlc -> int {
    (h: Htlc) =>
      if h.amount.symbol != sym then 0
      else (if h.from == name then h.amount.amount else 0)
           - (if (h.status.Redeemed? && h.to == name) || (h.status.Refunded? && h.from == name)
              then h.amount.amount else 0)
  }

  ghost function Account(db: Db, name: Name, sym: Symbol): int
    requires name in db.balances
  {
    db.balances[name].Of(sym) + Total(db.htlcs, Outflow(name, sym))
  }

  lemma OpenKeepsAccount(db: Db, db': Db, op: HtlcCreateOp, name: Name, sym: Symbol)
    requires Escrow(db) && Opens(db, db', op) && name in db.balances
    ensures name in db'.balances && Account(db', name, sym) == Account(db, name, sym)
  {
    assert db.nextHtlcId !in db.htlcs;
    TotalUpdate(db.htlcs, Outflow(name, sym), db.nextHtlcId, db'.htlcs[db.nextHtlcId]);
  }

  lemma PayKeepsAccount(db: Db, db': Db, id: nat, payee: Name, status: HtlcStatus, name: Name, sym: Symbol)
    requires Pays(db, db', id, payee, status) && name in db.balances
    requires payee == if status.Redeemed? then db.htlcs[id].to else db.htlcs[id].from
    ensures name in db'.balances && Account(db', name, sym) == Account(db, name, sym)
  {
    TotalUpdate(db.htlcs, Outflow(name, sym), id, db.htlcs[id].(status := status));
  }

  lemma StepKeepsAccount(env: Env, db: Db, step: Step, db': Db, name: Name, sym: Symbol)
    requires Escrow(db) && EscrowStep(env, db, step, db') && name in db.balances
    ensures name in db'.balances
    ensures Account(db', name, sym) == Account(db, name, sym)
  {
    if Untouched(db, db') {
    } else if step.htlc.Create? {
      OpenKeepsAccount(db, db', step.htlc.create, name, sym);
    } else if id :| Redemption(env, db, db', step, id) {
      PayKeepsAccount(db, db', id, db.htlcs[id].to, Redeemed, name, sym);
    } else {
      var id :| Refunding(db, db', step, id);
      PayKeepsAccount(db, db', id, db.htlcs[id].from, Refunded, name, sym);
    }
  }

  /** Every account's balance is its initial balance, less all it ever locked, plus every
      redemption made to it and every refund returned to it. */
  lemma {:induction false} AccountLaw(next: (Db, Step) -> Db, env: Env, genesis: Db, steps: seq<Step>, k: nat,
                                      name: Name, sym: Symbol)
    requires IsChain(next, env) && Genesis(genesis) && k <= |steps| && name in genesis.balances
    ensures name in At(next, genesis, steps, k).balances
    ensures At(next, genesis, steps, k).balances[name].Of(sym) ==
            genesis.balances[name].Of(sym) - Total(At(next, genesis, steps, k).htlcs, Outflow(name, sym))
  {
    if k == 0 {
      assert Weigh(genesis.htlcs, Outflow(name, sym)) == map[];
    } else {
      AccountLaw(next, env, genesis, steps, k - 1, name, sym);
      ReachableEscrow(next, env, genesis, steps, k - 1);
      var db := At(next, genesis, steps, k - 1);
      StepMovesEscrow(next, env, db, steps[k - 1]);
      StepKeepsAccount(env, db, steps[k - 1], next(db, steps[k - 1]), name, sym);
    }
  }

  // ----- single payout

  /** Step k takes HTLC id from open to closed. */
  ghost predicate ClosesAt(next: (Db, Step) -> Db, genesis: Db, steps: seq<Step>, k: nat, id: nat) {
    && k < |steps|
    && var db, db' := At(next, genesis, steps, k), At(next, genesis, steps, k + 1);
    && id in db.htlcs && db.htlcs[id].status.Open?
    && id in db'.htlcs && !db'.htlcs[id].status.Open?
  }

  /** The HTLC is still there with the same terms; a closed one has the same status too. */
  ghost predicate TermsKept(db: Db, db': Db, id: nat)
    requires id in db.htlcs
  {
    && id in db'.htlcs
    && db'.htlcs[id].(status := Open) == db.htlcs[id].(status := Open)
    && (!db.htlcs[id].status.Open? ==> db'.htlcs[id] == db.htlcs[id])
  }

  lemma OpenKeepsTerms(db: Db, db': Db, op: HtlcCreateOp, id: nat)
    requires Escrow(db) && Opens(db, db', op) && id in db.htlcs
    ensures TermsKept(db, db', id)
  {
    assert WellFormed(db, id, db.htlcs[id]);
  }

  lemma PayKeepsTerms(db: Db, db': Db, i: nat, payee: Name, status: HtlcStatus, id: nat)
    requires Pays(db, db', i, payee, status) && id in db.htlcs
    ensures TermsKept(db, db', id)
  {
  }

  /** HTLCs are never removed and keep all terms; a closed one keeps its status too. */
  lemma StepKeepsTerms(env: Env, db: Db, step: Step, db': Db, id: nat)
    requires Escrow(db) && EscrowStep(env, db, step, db') && id in db.htlcs
    ensures TermsKept(db, db', id)
  {
    if Untouched(db, db') {
    } else if step.htlc.Create? {
      OpenKeepsTerms(db, db', step.htlc.create, id);
    } else if i :| Redemption(env, db, db', step, i) {
      PayKeepsTerms(db, db', i, db.htlcs[i].to, Redeemed, id);
    } else {
      var i :| Refunding(db, db', step, i);
      PayKeepsTerms(db, db', i, db.htlcs[i].from, Refunded, id);
    }
  }

  lemma {:induction false} ClosedForever(next: (Db, Step) -> Db, env: Env, genesis: Db, steps: seq<Step>, j: nat,
                                         k: nat, id: nat)
    requires IsChain(next, env) && Genesis(genesis) && j <= k <= |steps|
    requires id in At(next, genesis, steps, j).htlcs && !At(next, genesis, steps, j).htlcs[id].status.Open?
    ensures id in At(next, genesis, steps, k).htlcs
    ensures At(next, genesis, steps, k).htlcs[id] == At(next, genesis, steps, j).htlcs[id]
    decreases k
  {
    if j < k {
      ClosedForever(next, env, genesis, steps, j, k - 1, id);
      ReachableEscrow(next, env, genesis, steps, k - 1);
      var db := At(next, genesis, steps, k - 1);
      StepMovesEscrow(next, env, db, steps[k - 1]);
      StepKeepsTerms(env, db, steps[k - 1], next(db, steps[k - 1]), id);
    }
  }

  /** Each HTLC is paid out at most once. */
  lemma PaidOnce(next: (Db, Step) -> Db, env: Env, genesis: Db, steps: seq<Step>, j: nat, k: nat, id: nat)
    requires IsChain(next, env) && Genesis(genesis)
    requires ClosesAt(next, genesis, steps, j, id) && ClosesAt(next, genesis, steps, k, id)
    ensures j == k
  {
    if j < k { ClosedForever(next, env, genesis, steps, j + 1, k, id); }
    if k < j { ClosedForever(next, env, genesis, steps, k + 1, j, id); }
  }

  /** A payout is a redemption by the receiver or a refund to the sender. */
  lemma PayoutIsRedemptionOrRefund(next: (Db, Step) -> Db, env: Env, genesis: Db, steps: seq<Step>, k: nat, id: nat)
    requires IsChain(next, env) && Genesis(genesis) && ClosesAt(next, genesis, steps, k, id)
    ensures var db, db' := At(next, genesis, steps, k), At(next, genesis, steps, k + 1);
            Redemption(env, db, db', steps[k], id) || Refunding(db, db', steps[k], id)
  {
    var db, db' := At(next, genesis, steps, k), At(next, genesis, steps, k + 1);
    ReachableEscrow(next, env, genesis, steps, k);
    assert WellFormed(db, id, db.htlcs[id]);
    StepMovesEscrow(next, env, db, steps[k]);
    assert db' == next(db, steps[k]);
  }

  /** Balances change only when an HTLC is created or paid out. */
  lemma BalancesChangeOnlyThroughHtlcs(next: (Db, Step) -> Db, env: Env, genesis: Db, steps: seq<Step>, k: nat)
    requires IsChain(next, env) && Genesis(genesis) && k < |steps|
    requires At(next, genesis, steps, k + 1).balances != At(next, genesis, steps, k).balances
    ensures var db, db' := At(next, genesis, steps, k), At(next, genesis, steps, k + 1);
            || (steps[k].SubmitHtlc? && steps[k].htlc.Create? && Opens(db, db', steps[k].htlc.create))
            || (exists id :: Redemption(env, db, db', steps[k], id) && ClosesAt(next, genesis, steps, k, id))
            || (exists id :: Refunding(db, db', steps[k], id) && ClosesAt(next, genesis, steps, k, id))
  {
    var db, db' := At(next, genesis, steps, k), At(next, genesis, steps, k + 1);
    StepMovesEscrow(next, env, db, steps[k]);
    assert db' == next(db, steps[k]);
    if id :| Redemption(env, db, db', steps[k], id) {
      assert ClosesAt(next, genesis, steps, k, id);
    } else if id :| Refunding(db, db', steps[k], id) {
      assert ClosesAt(next, genesis, steps, k, id);
    }
  }
}
