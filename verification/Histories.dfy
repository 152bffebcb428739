/** Reading a state of a run off the steps that led to it: the clock, and what never changes. */
module Histories {
  import opened Types
  import opened Chain

  ghost predicate Accepted(env: Env, db: Db, step: Step) {
    match step
    case SubmitNft(op) => ApplyNft(db, op).ok
    case SubmitHtlc(op) => ApplyHtlc(env, db, op).ok
    case SubmitContract(op) => ApplyContract(env, db, op).ok
    case SetTime(_) => true
  }

  /** The time after k steps. */
  function Clock(start: nat, steps: seq<Step>, k: nat): nat
    requires k <= |steps|
  {
    if k == 0 then start else if steps[k - 1].SetTime? then steps[k - 1].time else Clock(start, steps, k - 1)
  }

  ghost predicate SameSetting(db: Db, db': Db) {
    db'.config == db.config && db'.balances.Keys == db.balances.Keys && db'.headTime == db.headTime
  }

  lemma NftKeepsSetting(db: Db, op: NftOp)
    ensures SameSetting(db, ApplyNft(db, op).db)
  {
  }

  lemma HtlcKeepsSetting(env: Env, db: Db, op: HtlcOp)
    ensures SameSetting(db, ApplyHtlc(env, db, op).db)
  {
  }

  lemma ContractKeepsSetting(env: Env, db: Db, op: ContractOp)
    ensures SameSetting(db, ApplyContract(env, db, op).db)
  {
  }

  lemma StepKeepsSetting(next: (Db, Step) -> Db, env: Env, db: Db, step: Step)
    requires IsChain(next, env)
    ensures if step.SetTime? then next(db, step) == db.(headTime := step.time) else SameSetting(db, next(db, step))
  {
    assert next(db, step) == After(env, db, step);
    match step
    case SubmitNft(op) => NftKeepsSetting(db, op);
    case SubmitHtlc(op) => HtlcKeepsSetting(env, db, op);
    case SubmitContract(op) => ContractKeepsSetting(env, db, op);
    case SetTime(_) =>
  }

  /** Configuration and accounts are those of genesis, and the head time is the one set last. */
  lemma {:induction false} Setting(next: (Db, Step) -> Db, env: Env, genesis: Db, steps: seq<Step>, k: nat)
    requires IsChain(next, env) && k <= |steps|
    ensures var db := At(next, genesis, steps, k);
            && db.config == genesis.config && db.balances.Keys == genesis.balances.Keys
            && db.headTime == Clock(genesis.headTime, steps, k)
  {
    if k == 0 {
    } else {
      Setting(next, env, genesis, steps, k - 1);
      StepKeepsSetting(next, env, At(next, genesis, steps, k - 1), steps[k - 1]);
    }
  }

  /** One to sixteen characters, each a lower case letter, a digit, a dot or a dash. */
  predicate AccountName(name: string) {
    && 1 <= |name| <= 16
    && forall c :: c in name ==> 'a' <= c <= 'z' || '0' <= c <= '9' || c in ".-"
  }

  lemma AccountNames(name: string)
    ensures ValidName(name) <==> AccountName(name)
  {
    if ValidName(name) {
      forall c | c in name ensures NameChar(c) { }
    }
    if AccountName(name) {
      forall i | 0 <= i < |name| ensures NameChar(name[i]) { assert name[i] in name; }
    }
  }
}
