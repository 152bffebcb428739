/** The virtual operation log as a journal: reading it from the start rebuilds who holds
    which token, which approvals and grants stand, the symbols, the state of every HTLC and
    the owners of the contracts. */
module LogHistory {
  import opened Types
  import opened Chain
  import HtlcRuns
  import NftRuns

  datatype Offer = Offer(from: Name, to: Name, status: HtlcStatus)

  datatype Journal = Journal(owners: map<nat, Name>, approvals: map<nat, Name>, grants: set<OperatorKey>,
                             symbols: map<string, nat>, offers: map<nat, Offer>, deployed: map<nat, Name>)

  const EMPTY := Journal(map[], map[], {}, map[], map[], map[])

  /** What a record adds; one that does not fit what was read before is passed over. */
  ghost function Enter(j: Journal, v: VirtualOp): Journal {
    match v
    case Minted(id, to) => j.(owners := j.owners[id := to], approvals := j.approvals[id := ""])
    case Transferred(id, from, to) =>
      if id in j.owners && j.owners[id] == from
      then j.(owners := j.owners[id := to], approvals := j.approvals[id := ""]) else j
    case Approved(id, agent) => j.(approvals := j.approvals[id := agent])
    case ApprovalForAll(owner, operator, collection, granted) =>
      var key := OperatorKey(owner, operator, collection);
      j.(grants := if granted then j.grants + {key} else j.grants - {key})
    case Burned(id, owner) =>
      if id in j.owners && j.owners[id] == owner
      then j.(owners := j.owners - {id}, approvals := j.approvals - {id}) else j
    case CollectionCreated(id, symbol) => j.(symbols := j.symbols[symbol := id])
    case HtlcCreated(id, from, to) => j.(offers := j.offers[id := Offer(from, to, Open)])
    case HtlcRedeemed(id, to) =>
      if id in j.offers && j.offers[id].to == to
      then j.(offers := j.offers[id := j.offers[id].(status := Redeemed)]) else j
    case HtlcRefunded(id, from) =>
      if id in j.offers && j.offers[id].from == from
      then j.(offers := j.offers[id := j.offers[id].(status := Refunded)]) else j
    case ContractDeployed(id, owner) => j.(deployed := j.deployed[id := owner])
    case ContractCalled(_, _, _) => j
    case GlobalMarked(_) => j
  }

  ghost function ReadLog(log: seq<VirtualOp>): Journal {
    if log == [] then EMPTY else Enter(ReadLog(log[..|log| - 1]), log[|log| - 1])
  }

  /** What the journal should say of a state. */
  ghost function JournalOf(db: Db): Journal {
    Journal(map id | id in db.nfts :: db.nfts[id].owner, map id | id in db.nfts :: db.nfts[id].approved,
            db.operators.Keys, db.collectionBySymbol,
            map id | id in db.htlcs :: Offer(db.htlcs[id].from, db.htlcs[id].to, db.htlcs[id].status),
            map id | id in db.contracts :: db.contracts[id].owner)
  }

  lemma ReadAppend(log: seq<VirtualOp>, v: VirtualOp)
    ensures ReadLog(log + [v]) == Enter(ReadLog(log), v)
  {
    assert (log + [v])[..|log|] == log;
  }

  /** The step adds at most one record, which says what the step did. */
  ghost predicate Logs(db: Db, db': Db) {
    || (db'.virtualOps == db.virtualOps && JournalOf(db') == JournalOf(db))
    || (exists v :: db'.virtualOps == db.virtualOps + [v] && JournalOf(db') == Enter(JournalOf(db), v))
  }

  lemma LogsRecord(db: Db, db': Db, v: VirtualOp)
    requires db'.virtualOps == db.virtualOps + [v] && JournalOf(db') == Enter(JournalOf(db), v)
    ensures Logs(db, db')
  {
  }

  lemma MintLogs(db: Db, op: MintOp)
    requires CanMint(db, op)
    ensures Logs(db, DoMint(db, op))
  {
    var db', id := DoMint(db, op), db.nextNftId;
    assert JournalOf(db').owners == JournalOf(db).owners[id := op.to];
    assert JournalOf(db').approvals == JournalOf(db).approvals[id := ""];
    LogsRecord(db, db', Minted(id, op.to));
  }

  lemma TransferLogs(db: Db, op: TransferOp)
    requires CanTransfer(db, op) && db.nfts[op.nftId].id == op.nftId
    ensures Logs(db, DoTransfer(db, op))
  {
    var db' := DoTransfer(db, op);
    assert JournalOf(db').owners == JournalOf(db).owners[op.nftId := op.to];
    assert JournalOf(db').approvals == JournalOf(db).approvals[op.nftId := ""];
    LogsRecord(db, db', Transferred(op.nftId, db.nfts[op.nftId].owner, op.to));
  }

  lemma ApproveLogs(db: Db, op: ApproveOp)
    requires CanApprove(db, op)
    ensures Logs(db, DoApprove(db, op))
  {
    var db' := DoApprove(db, op);
    assert JournalOf(db').owners == JournalOf(db).owners;
    assert JournalOf(db').approvals == JournalOf(db).approvals[op.nftId := op.approved];
    LogsRecord(db, db', Approved(op.nftId, op.approved));
  }

  lemma BurnLogs(db: Db, op: BurnOp)
    requires CanBurn(db, op)
    ensures Logs(db, DoBurn(db, op))
  {
    var db' := DoBurn(db, op);
    assert JournalOf(db').owners == JournalOf(db).owners - {op.nftId};
    assert JournalOf(db').approvals == JournalOf(db).approvals - {op.nftId};
    LogsRecord(db, db', Burned(op.nftId, op.owner));
  }

  lemma GrantLogs(db: Db, op: ApproveAllOp)
    ensures Logs(db, DoApproveAll(db, op))
  {
    var db', key := DoApproveAll(db, op), OperatorKey(op.owner, op.operator, op.collection);
    assert db'.operators.Keys == if op.approved then db.operators.Keys + {key} else db.operators.Keys - {key};
    LogsRecord(db, db', ApprovalForAll(op.owner, op.operator, op.collection, op.approved));
  }

  lemma ListLogs(db: Db, op: CreateCollectionOp)
    ensures Logs(db, DoCreateCollection(db, op))
  {
    LogsRecord(db, DoCreateCollection(db, op), CollectionCreated(db.nextCollectionId, op.symbol));
  }

  lemma NftLogs(db: Db, op: NftOp)
    requires NftRuns.Sound(NftRuns.LedgerOf(db))
    ensures Logs(db, ApplyNft(db, op).db)
  {
    if ApplyNft(db, op).ok {
      match op
      case CreateCollection(o) => ListLogs(db, o);
      case Mint(o) => MintLogs(db, o);
      case Transfer(o) => assert NftRuns.TokenSound(NftRuns.LedgerOf(db), o.nftId); TransferLogs(db, o);
      case Approve(o) => ApproveLogs(db, o);
      case ApproveAll(o) => GrantLogs(db, o);
      case Burn(o) => BurnLogs(db, o);
    }
  }

  lemma OfferLogs(db: Db, op: HtlcCreateOp)
    requires op.from in db.balances
    ensures Logs(db, DoCreate(db, op))
  {
    var db', id := DoCreate(db, op), db.nextHtlcId;
    assert JournalOf(db').offers == JournalOf(db).offers[id := Offer(op.from, op.to, Open)];
    LogsRecord(db, db', HtlcCreated(id, op.from, op.to));
  }

  lemma RedeemLogs(env: Env, db: Db, op: HtlcRedeemOp)
    requires CanRedeem(env, db, op) && db.htlcs[op.htlcId].id == op.htlcId
    ensures Logs(db, DoRedeem(db, op))
  {
    var db', id := DoRedeem(db, op), op.htlcId;
    assert JournalOf(db').offers == JournalOf(db).offers[id := JournalOf(db).offers[id].(status := Redeemed)];
    LogsRecord(db, db', HtlcRedeemed(id, op.to));
  }

  lemma RefundLogs(db: Db, op: HtlcRefundOp)
    requires CanRefund(db, op) && db.htlcs[op.htlcId].id == op.htlcId
    ensures Logs(db, DoRefund(db, op))
  {
    var db', id := DoRefund(db, op), op.htlcId;
    assert JournalOf(db').offers == JournalOf(db).offers[id := JournalOf(db).offers[id].(status := Refunded)];
    LogsRecord(db, db', HtlcRefunded(id, op.from));
  }

  lemma HtlcLogs(env: Env, db: Db, op: HtlcOp)
    requires HtlcRuns.Escrow(db)
    ensures Logs(db, ApplyHtlc(env, db, op).db)
  {
    if ApplyHtlc(env, db, op).ok {
      match op
      case Create(o) => OfferLogs(db, o);
      case Redeem(o) => assert HtlcRuns.WellFormed(db, o.htlcId, db.htlcs[o.htlcId]); RedeemLogs(env, db, o);
      case Refund(o) => assert HtlcRuns.WellFormed(db, o.htlcId, db.htlcs[o.htlcId]); RefundLogs(db, o);
    }
  }

  lemma DeployLogs(env: Env, db: Db, op: DeployOp)
    ensures Logs(db, DoDeploy(env, db, op))
  {
    var db' := DoDeploy(env, db, op);
    assert JournalOf(db').deployed == JournalOf(db).deployed[db.nextContractId := op.owner];
    LogsRecord(db, db', ContractDeployed(db.nextContractId, op.owner));
  }

  lemma CallLogs(env: Env, db: Db, op: CallOp)
    requires ReachesEngine(db, op)
    ensures Logs(db, DoCall(env, db, op))
  {
    var r := EngineResult(env, db, op);
    LogsRecord(db, DoCall(env, db, op), ContractCalled(op.contractId, r.success, r.fuelUsed));
  }

  lemma ContractLogs(env: Env, db: Db, op: ContractOp)
    ensures Logs(db, ApplyContract(env, db, op).db)
  {
    match op
    case Deploy(o) => if CanDeploy(env, db, o) { DeployLogs(env, db, o); }
    case Call(o) => if ReachesEngine(db, o) { CallLogs(env, db, o); }
  }

  lemma StepLogs(next: (Db, Step) -> Db, env: Env, db: Db, step: Step)
    requires IsChain(next, env) && NftRuns.Sound(NftRuns.LedgerOf(db)) && HtlcRuns.Escrow(db)
    ensures Logs(db, next(db, step))
  {
    assert next(db, step) == After(env, db, step);
    match step
    case SubmitNft(op) => NftLogs(db, op);
    case SubmitHtlc(op) => HtlcLogs(env, db, op);
    case SubmitContract(op) => ContractLogs(env, db, op);
    case SetTime(_) =>
  }

  /** In every reachable state the log, read from the start, tells the owners and approvals
      of the live tokens, the operator grants, the symbols, the parties and status of every
      HTLC and the owners of the contracts. */
  lemma {:induction false} LogTellsState(next: (Db, Step) -> Db, env: Env, genesis: Db, steps: seq<Step>, k: nat)
    requires IsChain(next, env) && Genesis(genesis) && genesis.virtualOps == [] && k <= |steps|
    ensures ReadLog(At(next, genesis, steps, k).virtualOps) == JournalOf(At(next, genesis, steps, k))
  {
    if k == 0 {
      assert JournalOf(genesis) == EMPTY;
    } else {
      LogTellsState(next, env, genesis, steps, k - 1);
      NftRuns.ReachableSound(next, env, genesis, steps, k - 1);
      HtlcRuns.ReachableEscrow(next, env, genesis, steps, k - 1);
      var db := At(next, genesis, steps, k - 1);
      var db' := next(db, steps[k - 1]);
      StepLogs(next, env, db, steps[k - 1]);
      if v :| db'.virtualOps == db.virtualOps + [v] && JournalOf(db') == Enter(JournalOf(db), v) {
        ReadAppend(db.virtualOps, v);
      }
    }
  }
}
