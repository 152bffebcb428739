/** States built by runs from genesis: any number of contracts, tokens and HTLCs. */
module ReachedStates {
  import opened Types
  import opened Chain

  ghost predicate ReachedBy(env: Env, db: Db, genesis: Db, steps: seq<Step>) {
    Genesis(genesis) && At(Transition(env), genesis, steps, |steps|) == db
  }

  /** Some run from genesis ends in the state. */
  ghost predicate Reached(env: Env, db: Db) {
    exists genesis, steps :: ReachedBy(env, db, genesis, steps)
  }

  lemma {:induction false} AtPrefix(next: (Db, Step) -> Db, genesis: Db, steps: seq<Step>, step: Step, k: nat)
    requires k <= |steps|
    ensures At(next, genesis, steps + [step], k) == At(next, genesis, steps, k)
  {
    if k == 0 {
    } else {
      AtPrefix(next, genesis, steps, step, k - 1);
    }
  }

  lemma ReachedGenesis(env: Env, genesis: Db)
    requires Genesis(genesis)
    ensures Reached(env, genesis)
  {
    assert ReachedBy(env, genesis, genesis, []);
  }

  lemma ReachedNext(env: Env, db: Db, step: Step)
    requires Reached(env, db)
    ensures Reached(env, After(env, db, step))
  {
    var genesis, steps :| ReachedBy(env, db, genesis, steps);
    AtPrefix(Transition(env), genesis, steps, step, |steps|);
    assert ReachedBy(env, After(env, db, step), genesis, steps + [step]);
  }

  // ----- a node with all features at time zero, where every account holds something

  ghost predicate Ready(db: Db) {
    && db.config == Config(false, false, false, true, HARDFORK_CONTRACTS) && db.headTime == 0
    && forall name :: name in db.balances ==> ValidName(name) && db.balances[name].hive >= 1
  }

  // ----- contracts

  ghost predicate Deployed(db: Db) {
    db.nextContractId > 0 && forall id :: 1 <= id < db.nextContractId ==> id in db.contracts
  }

  /** The states differ in contracts and the log only. */
  ghost predicate ContractsOnly(db: Db, db': Db) {
    db' == db.(nextContractId := db'.nextContractId, contracts := db'.contracts, contractStorage := db'.contractStorage,
               virtualOps := db'.virtualOps)
  }

  lemma DeployOne(env: Env, db: Db, owner: Name) returns (db': Db)
    requires Reached(env, db) && Ready(db) && Deployed(db) && owner in db.balances
    requires forall code, args, fuel :: env.deploy(code, args, fuel).success
    ensures Reached(env, db') && Ready(db') && Deployed(db') && ContractsOnly(db, db')
    ensures db'.nextContractId == db.nextContractId + 1
  {
    var op := DeployOp(owner, [0], [], 1, []);
    assert CanDeploy(env, db, op);
    ReachedNext(env, db, SubmitContract(Deploy(op)));
    db' := DoDeploy(env, db, op);
  }

  lemma {:induction false} DeployMany(env: Env, db: Db, owner: Name, n: nat) returns (db': Db)
    requires Reached(env, db) && Ready(db) && Deployed(db) && owner in db.balances && db.nextContractId <= n + 1
    requires forall code, args, fuel :: env.deploy(code, args, fuel).success
    ensures Reached(env, db') && Ready(db') && Deployed(db') && ContractsOnly(db, db')
    ensures db'.nextContractId == n + 1
    decreases n + 1 - db.nextContractId
  {
    if db.nextContractId == n + 1 {
      db' := db;
    } else {
      db' := DeployOne(env, db, owner);
      db' := DeployMany(env, db', owner, n);
    }
  }

  // ----- one collection, its operators and its tokens

  ghost predicate Listing(db: Db, creator: Name) {
    && creator in db.balances
    && 1 in db.collections
    && var c := db.collections[1]; c.creator == creator && c.maxSupply == 0 && c.transferable
  }

  lemma ListOne(env: Env, db: Db, creator: Name) returns (db': Db)
    requires Reached(env, db) && Ready(db) && Genesis(db) && creator in db.balances
    ensures Reached(env, db') && Ready(db') && Listing(db', creator)
    ensures db' == db.(nextCollectionId := 2, collections := db'.collections,
                       collectionBySymbol := db'.collectionBySymbol, virtualOps := db'.virtualOps)
  {
    var op := CreateCollectionOp(creator, "C", "", 0, true);
    assert CanCreateCollection(db, op);
    ReachedNext(env, db, SubmitNft(CreateCollection(op)));
    db' := DoCreateCollection(db, op);
  }

  /** The grants together with one more, where owner and operator differ. */
  ghost function Granting(grants: map<OperatorKey, bool>, owner: Name, operator: Name): map<OperatorKey, bool> {
    if owner == operator then grants else grants[OperatorKey(owner, operator, 1) := true]
  }

  lemma GrantOne(env: Env, db: Db, owner: Name, operator: Name) returns (db': Db)
    requires Reached(env, db) && Ready(db) && 1 in db.collections && owner in db.balances && operator in db.balances
    ensures Reached(env, db') && Ready(db')
    ensures db' == db.(operators := Granting(db.operators, owner, operator), virtualOps := db'.virtualOps)
  {
    if owner == operator {
      db' := db;
    } else {
      var op := ApproveAllOp(owner, operator, 1, true);
      assert CanApproveAll(db, op);
      ReachedNext(env, db, SubmitNft(ApproveAll(op)));
      db' := DoApproveAll(db, op);
    }
  }

  /** Token id is a movable one of the collection and belongs to its owner. */
  ghost predicate TokenOf(db: Db, id: nat, owner: Name) {
    && id in db.nfts
    && var n := db.nfts[id]; n.owner == owner && n.approved == "" && n.collection == 1 && !n.soulbound
  }

  ghost predicate HoldsTokens(db: Db, owners: nat -> Name) {
    db.nextNftId > 0 && forall id: nat :: 1 <= id < db.nextNftId ==> TokenOf(db, id, owners(id))
  }

  ghost predicate TokensOnly(db: Db, db': Db) {
    db' == db.(nextNftId := db'.nextNftId, nfts := db'.nfts, collections := db'.collections,
               virtualOps := db'.virtualOps)
  }

  lemma MintOne(env: Env, db: Db, creator: Name, owners: nat -> Name) returns (db': Db)
    requires Reached(env, db) && Ready(db) && Listing(db, creator) && HoldsTokens(db, owners)
    requires owners(db.nextNftId) in db.balances
    ensures Reached(env, db') && Ready(db') && Listing(db', creator) && HoldsTokens(db', owners) && TokensOnly(db, db')
    ensures db'.nextNftId == db.nextNftId + 1
  {
    var op := MintOp(creator, 1, owners(db.nextNftId), [], "", false);
    assert CanMint(db, op);
    ReachedNext(env, db, SubmitNft(Mint(op)));
    db' := DoMint(db, op);
    forall id: nat | 1 <= id < db'.nextNftId ensures TokenOf(db', id, owners(id)) {
      if id < db.nextNftId { assert TokenOf(db, id, owners(id)); }
    }
  }

  lemma {:induction false} MintMany(env: Env, db: Db, creator: Name, owners: nat -> Name, n: nat) returns (db': Db)
    requires Reached(env, db) && Ready(db) && Listing(db, creator) && HoldsTokens(db, owners) && db.nextNftId <= n + 1
    requires forall id: nat :: owners(id) in db.balances
    ensures Reached(env, db') && Ready(db') && HoldsTokens(db', owners) && TokensOnly(db, db')
    ensures db'.nextNftId == n + 1
    decreases n + 1 - db.nextNftId
  {
    if db.nextNftId == n + 1 {
      db' := db;
    } else {
      db' := MintOne(env, db, creator, owners);
      db' := MintMany(env, db', creator, owners, n);
    }
  }

  // ----- HTLCs

  ghost function LockOp(env: Env, to: Name, preimage: Bytes): HtlcCreateOp {
    HtlcCreateOp(to, to, Asset(1, HIVE), HashDigest(Sha256, env.sha256(preimage)), |preimage|, 60, "")
  }

  ghost predicate Lockable(env: Env, db: Db, to: Name, preimage: Bytes) {
    && to in db.balances && 0 < |preimage| <= MAX_HTLC_PREIMAGE_LEN && |env.sha256(preimage)| == 32
    && db.nextHtlcId > 0
    && forall id :: id in db.htlcs ==> !db.htlcs[id].status.Open?
  }

  ghost predicate EscrowOnly(db: Db, db': Db) {
    && db' == db.(balances := db'.balances, nextHtlcId := db'.nextHtlcId, htlcs := db'.htlcs,
                  virtualOps := db'.virtualOps)
    && db'.balances.Keys == db.balances.Keys
  }

  /** The next HTLC is created; its receiver can redeem it. */
  lemma LockOne(env: Env, db: Db, to: Name, preimage: Bytes) returns (db': Db)
    requires Reached(env, db) && Ready(db) && Lockable(env, db, to, preimage)
    ensures db' == DoCreate(db, LockOp(env, to, preimage))
    ensures Reached(env, db') && EscrowOnly(db, db')
    ensures CanRedeem(env, db', HtlcRedeemOp(to, db.nextHtlcId, preimage))
  {
    var op := LockOp(env, to, preimage);
    assert OpenHtlcs(db.htlcs, to) == {};
    assert CanCreate(db, op);
    ReachedNext(env, db, SubmitHtlc(Create(op)));
    db' := DoCreate(db, op);
  }

  lemma LockAndRedeem(env: Env, db: Db, to: Name, preimage: Bytes) returns (db': Db)
    requires Reached(env, db) && Ready(db) && Lockable(env, db, to, preimage)
    ensures Reached(env, db') && Ready(db') && Lockable(env, db', to, preimage) && EscrowOnly(db, db')
    ensures db'.nextHtlcId == db.nextHtlcId + 1
  {
    var locked := LockOne(env, db, to, preimage);
    var op := HtlcRedeemOp(to, db.nextHtlcId, preimage);
    ReachedNext(env, locked, SubmitHtlc(Redeem(op)));
    db' := DoRedeem(locked, op);
    assert db'.balances[to].hive == db.balances[to].hive;
  }

  /** Redeems HTLCs until the next one has number n. */
  lemma {:induction false} RedeemMany(env: Env, db: Db, to: Name, preimage: Bytes, n: nat) returns (db': Db)
    requires Reached(env, db) && Ready(db) && Lockable(env, db, to, preimage) && db.nextHtlcId <= n
    ensures Reached(env, db') && Ready(db') && Lockable(env, db', to, preimage) && EscrowOnly(db, db')
    ensures db'.nextHtlcId == n
    decreases n - db.nextHtlcId
  {
    if db.nextHtlcId == n {
      db' := db;
    } else {
      db' := LockAndRedeem(env, db, to, preimage);
      db' := RedeemMany(env, db', to, preimage, n);
    }
  }
}
