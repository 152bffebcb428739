/** Contract storage read off the submitted operations: the replay of a contract's calls. */
module ContractHistory {
  import opened Types
  import opened Chain
  import opened Histories

  // ----- deployments

  /** Step j is an accepted deployment and hands out the identifier. */
  ghost predicate DeployedAt(next: (Db, Step) -> Db, env: Env, genesis: Db, steps: seq<Step>, j: nat, op: DeployOp,
                             id: nat) {
    && j < |steps| && steps[j] == SubmitContract(Deploy(op))
    && Accepted(env, At(next, genesis, steps, j), steps[j])
    && At(next, genesis, steps, j).nextContractId == id
  }

  predicate ContractsOn(config: Config) {
    config.hardfork >= 9003 && (!config.contractsSkip || config.isConsensusNode)
  }

  /** What a call must meet for the engine to be asked, apart from the contract itself. */
  ghost predicate Callable(genesis: Db, op: CallOp) {
    && ContractsOn(genesis.config)
    && AccountName(op.caller) && op.caller in genesis.balances
    && op.fuelLimit != 0 && 1 <= |op.exportName| <= 64 && |op.args| <= 65536
  }

  /** The call run by the engine on the given code and storage. */
  ghost function EngineRun(env: Env, code: Bytes, storage: Storage, op: CallOp): CallResult {
    env.call(code, op.exportName, op.args, storage, op.fuelLimit, op.caller)
  }

  /** What a submitted step makes of a contract's storage: a call of the contract that
      reaches the engine and succeeds adds its writes. */
  ghost function StorageAfter(env: Env, genesis: Db, step: Step, code: Bytes, id: nat, storage: Storage): Storage {
    if step.SubmitContract? && step.contract.Call? && step.contract.call.contractId == id
       && Callable(genesis, step.contract.call)
    then
      var r := EngineRun(env, code, storage, step.contract.call);
      if r.success then storage + r.storageWrites else storage
    else storage
  }

  /** The storage of the contract after k steps, empty at its deployment at step j. */
  ghost function Replay(env: Env, genesis: Db, steps: seq<Step>, code: Bytes, id: nat, j: nat, k: nat): Storage
    requires j < k <= |steps|
    decreases k
  {
    if k == j + 1 then map[]
    else StorageAfter(env, genesis, steps[k - 1], code, id, Replay(env, genesis, steps, code, id, j, k - 1))
  }

  // ----- one step

  ghost predicate Registered(db: Db) {
    db.nextContractId > 0 && forall id :: id in db.contracts ==> 0 < id < db.nextContractId
  }

  /** The contract with its storage. */
  ghost predicate Stores(db: Db, id: nat, c: Contract, storage: Storage) {
    && id in db.contracts && db.contracts[id] == c
    && id in db.contractStorage && db.contractStorage[id] == storage
  }

  lemma DeployRegisters(env: Env, db: Db, op: DeployOp)
    requires ApplyContract(env, db, Deploy(op)).ok && Registered(db)
    ensures var id, db' := db.nextContractId, ApplyContract(env, db, Deploy(op)).db;
            && Stores(db', id, Contract(id, op.owner, env.sha256(op.code), op.code, db.headTime), map[])
            && Registered(db') && db'.nextContractId == id + 1
            && forall i, c, s :: i != id && Stores(db, i, c, s) ==> Stores(db', i, c, s)
  {
  }

  lemma OwnCallStores(env: Env, db: Db, op: CallOp, c: Contract, storage: Storage)
    requires Stores(db, op.contractId, c, storage) && op.contractId != 0
    ensures var o, r := ApplyContract(env, db, Call(op)), EngineRun(env, c.code, storage, op);
            && (o.ok <==> Callable(db, op) && r.success)
            && Stores(o.db, op.contractId, c, if o.ok then storage + r.storageWrites else storage)
            && o.db.virtualOps ==
               db.virtualOps + if Callable(db, op) then [ContractCalled(op.contractId, r.success, r.fuelUsed)] else []
  {
    AccountNames(op.caller);
    assert Callable(db, op) <==> ReachesEngine(db, op);
    if Callable(db, op) { assert EngineResult(env, db, op) == EngineRun(env, c.code, storage, op); }
  }

  lemma OtherCallStores(env: Env, db: Db, op: CallOp, id: nat, c: Contract, storage: Storage)
    requires Stores(db, id, c, storage) && op.contractId != id
    ensures Stores(ApplyContract(env, db, Call(op)).db, id, c, storage)
  {
  }

  ghost predicate SameContracts(db: Db, db': Db) {
    && db'.contracts == db.contracts && db'.contractStorage == db.contractStorage
    && db'.nextContractId == db.nextContractId
  }

  lemma NftKeepsContracts(db: Db, op: NftOp)
    ensures SameContracts(db, ApplyNft(db, op).db)
  {
  }

  lemma HtlcKeepsContracts(env: Env, db: Db, op: HtlcOp)
    ensures SameContracts(db, ApplyHtlc(env, db, op).db)
  {
  }

  lemma RefusedKeepsContracts(env: Env, db: Db, op: DeployOp)
    requires !ApplyContract(env, db, Deploy(op)).ok
    ensures ApplyContract(env, db, Deploy(op)).db == db
  {
  }

  lemma CallKeepsRegistry(env: Env, db: Db, op: CallOp)
    ensures var db' := ApplyContract(env, db, Call(op)).db;
            db'.contracts == db.contracts && db'.nextContractId == db.nextContractId
  {
  }

  /** Identifiers grow, and a new contract comes from an accepted deployment. */
  ghost predicate Registers(env: Env, db: Db, step: Step, db': Db) {
    && Registered(db') && db.nextContractId <= db'.nextContractId
    && forall id :: id in db'.contracts && id !in db.contracts ==>
         id == db.nextContractId && step.SubmitContract? && step.contract.Deploy? && Accepted(env, db, step)
  }

  lemma ContractRegisters(env: Env, db: Db, op: ContractOp)
    requires Registered(db)
    ensures Registers(env, db, SubmitContract(op), ApplyContract(env, db, op).db)
  {
    match op
    case Deploy(o) =>
      if ApplyContract(env, db, op).ok {
        DeployRegisters(env, db, o);
        assert ApplyContract(env, db, op).db.contracts.Keys == db.contracts.Keys + {db.nextContractId};
      } else {
        RefusedKeepsContracts(env, db, o);
      }
    case Call(o) => CallKeepsRegistry(env, db, o);
  }

  lemma StepRegistered(next: (Db, Step) -> Db, env: Env, db: Db, step: Step)
    requires IsChain(next, env) && Registered(db)
    ensures Registers(env, db, step, next(db, step))
  {
    assert next(db, step) == After(env, db, step);
    match step
    case SubmitNft(op) => NftKeepsContracts(db, op);
    case SubmitHtlc(op) => HtlcKeepsContracts(env, db, op);
    case SubmitContract(op) => ContractRegisters(env, db, op);
    case SetTime(_) =>
  }

  lemma ContractStores(env: Env, db: Db, op: ContractOp, id: nat, c: Contract, storage: Storage)
    requires Registered(db) && Stores(db, id, c, storage)
    ensures Stores(ApplyContract(env, db, op).db, id, c, StorageAfter(env, db, SubmitContract(op), c.code, id, storage))
  {
    match op
    case Deploy(o) =>
      if ApplyContract(env, db, op).ok { DeployRegisters(env, db, o); } else { RefusedKeepsContracts(env, db, o); }
    case Call(o) =>
      if o.contractId == id {
        OwnCallStores(env, db, o, c, storage);
      } else {
        OtherCallStores(env, db, o, id, c, storage);
      }
  }

  lemma StepStores(next: (Db, Step) -> Db, env: Env, db: Db, step: Step, id: nat, c: Contract, storage: Storage)
    requires IsChain(next, env) && Registered(db) && Stores(db, id, c, storage)
    ensures Stores(next(db, step), id, c, StorageAfter(env, db, step, c.code, id, storage))
  {
    assert next(db, step) == After(env, db, step);
    match step
    case SubmitNft(op) => NftKeepsContracts(db, op);
    case SubmitHtlc(op) => HtlcKeepsContracts(env, db, op);
    case SubmitContract(op) => ContractStores(env, db, op, id, c, storage);
    case SetTime(_) =>
  }

  // ----- whole runs

  lemma {:induction false} ReachableRegistered(next: (Db, Step) -> Db, env: Env, genesis: Db, steps: seq<Step>, k: nat)
    requires IsChain(next, env) && Genesis(genesis) && k <= |steps|
    ensures Registered(At(next, genesis, steps, k))
  {
    if k == 0 {
    } else {
      ReachableRegistered(next, env, genesis, steps, k - 1);
      StepRegistered(next, env, At(next, genesis, steps, k - 1), steps[k - 1]);
    }
  }

  /** In every state after its deployment a contract is what the deploying operation says,
      and its storage is the replay of its calls. */
  lemma {:induction false} StorageIsReplay(next: (Db, Step) -> Db, env: Env, genesis: Db, steps: seq<Step>, j: nat,
                                           op: DeployOp, id: nat, k: nat)
    requires IsChain(next, env) && Genesis(genesis) && j < k <= |steps|
    requires DeployedAt(next, env, genesis, steps, j, op, id)
    ensures Stores(At(next, genesis, steps, k), id,
                   Contract(id, op.owner, env.sha256(op.code), op.code, Clock(genesis.headTime, steps, j)),
                   Replay(env, genesis, steps, op.code, id, j, k))
    decreases k
  {
    var db := At(next, genesis, steps, k - 1);
    ReachableRegistered(next, env, genesis, steps, k - 1);
    Setting(next, env, genesis, steps, k - 1);
    if k == j + 1 {
      assert next(db, steps[j]) == After(env, db, steps[j]);
      DeployRegisters(env, db, op);
    } else {
      StorageIsReplay(next, env, genesis, steps, j, op, id, k - 1);
      var c := Contract(id, op.owner, env.sha256(op.code), op.code, Clock(genesis.headTime, steps, j));
      StepStores(next, env, db, steps[k - 1], id, c, Replay(env, genesis, steps, op.code, id, j, k - 1));
      assert forall o :: Callable(db, o) <==> Callable(genesis, o);
    }
  }

  lemma {:induction false} EveryContractWasDeployed(next: (Db, Step) -> Db, env: Env, genesis: Db, steps: seq<Step>,
                                                    k: nat, id: nat) returns (j: nat, op: DeployOp)
    requires IsChain(next, env) && Genesis(genesis) && k <= |steps| && id in At(next, genesis, steps, k).contracts
    ensures j < k && DeployedAt(next, env, genesis, steps, j, op, id)
    decreases k
  {
    var db := At(next, genesis, steps, k - 1);
    if id in db.contracts {
      j, op := EveryContractWasDeployed(next, env, genesis, steps, k - 1, id);
    } else {
      ReachableRegistered(next, env, genesis, steps, k - 1);
      StepRegistered(next, env, db, steps[k - 1]);
      j, op := k - 1, steps[k - 1].contract.deploy;
    }
  }

  /** A call of a deployed contract succeeds exactly when it is in bounds, its caller exists
      and the engine's run on the deployed code and the replayed storage succeeds; if the
      engine is asked, the log gains the outcome. */
  lemma CallAcceptedExactly(next: (Db, Step) -> Db, env: Env, genesis: Db, steps: seq<Step>, j: nat, op: DeployOp,
                            k: nat, c: CallOp)
    requires IsChain(next, env) && Genesis(genesis) && j < k <= |steps|
    requires DeployedAt(next, env, genesis, steps, j, op, c.contractId)
    ensures var db, o := At(next, genesis, steps, k), ApplyContract(env, At(next, genesis, steps, k), Call(c));
            var r := EngineRun(env, op.code, Replay(env, genesis, steps, op.code, c.contractId, j, k), c);
            && (o.ok <==> Callable(genesis, c) && r.success)
            && o.db.virtualOps ==
               db.virtualOps +
               if Callable(genesis, c) then [ContractCalled(c.contractId, r.success, r.fuelUsed)] else []
  {
    var db := At(next, genesis, steps, k);
    var id := c.contractId;
    StorageIsReplay(next, env, genesis, steps, j, op, id, k);
    ReachableRegistered(next, env, genesis, steps, k);
    Setting(next, env, genesis, steps, k);
    OwnCallStores(env, db, c, db.contracts[id], db.contractStorage[id]);
  }

  /** A call of a contract that was never deployed is refused without a trace. */
  lemma UnknownContractRefused(next: (Db, Step) -> Db, env: Env, genesis: Db, steps: seq<Step>, k: nat, c: CallOp)
    requires IsChain(next, env) && Genesis(genesis) && k <= |steps|
    requires forall j: nat, op :: j < k ==> !DeployedAt(next, env, genesis, steps, j, op, c.contractId)
    ensures var db := At(next, genesis, steps, k); ApplyContract(env, db, Call(c)) == Outcome(db, false)
  {
    if c.contractId in At(next, genesis, steps, k).contracts {
      var j, op := EveryContractWasDeployed(next, env, genesis, steps, k, c.contractId);
    }
  }

  /** A deployment is accepted exactly when it is in bounds, its owner exists, a non-zero code
      hash is that of the code, and the engine accepts it. */
  lemma DeploymentAcceptedExactly(next: (Db, Step) -> Db, env: Env, genesis: Db, steps: seq<Step>, k: nat, op: DeployOp)
    requires IsChain(next, env) && k <= |steps|
    ensures ApplyContract(env, At(next, genesis, steps, k), Deploy(op)).ok <==>
            && ContractsOn(genesis.config)
            && AccountName(op.owner) && op.owner in genesis.balances
            && op.fuelLimit != 0 && 1 <= |op.code| <= 524288 && |op.initArgs| <= 65536
            && ((forall b :: b in op.codeHash ==> b == 0) || op.codeHash == env.sha256(op.code))
            && env.deploy(op.code, op.initArgs, op.fuelLimit).success
  {
    Setting(next, env, genesis, steps, k);
    AccountNames(op.owner);
    if forall b :: b in op.codeHash ==> b == 0 {
      forall i | 0 <= i < |op.codeHash| ensures op.codeHash[i] == 0 { assert op.codeHash[i] in op.codeHash; }
    }
  }
}
