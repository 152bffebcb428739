/** The chain state and the operations on it, as values: the records of
    include/hive_native/chain/database.hpp, the checks of src/protocol/validate.cpp
    and, for every operation, when it is accepted and what it then changes. */
module Chain {
  import opened Types

  // ----- records

  datatype Collection = Collection(id: nat, creator: Name, symbol: string, name: string, maxSupply: nat,
                                   supply: nat, transferable: bool, created: nat)

  /** An empty `approved` means no token approval. */
  datatype Nft = Nft(id: nat, collection: nat, serial: nat, owner: Name, approved: Name,
                     metadataHash: Bytes, uri: string, soulbound: bool, minted: nat)

  datatype OperatorKey = OperatorKey(owner: Name, operator: Name, collection: nat)

  datatype HtlcStatus = Open | Redeemed | Refunded

  datatype Htlc = Htlc(id: nat, from: Name, to: Name, amount: Asset, preimageHash: HashDigest, preimageSize: nat,
                       expiration: nat, created: nat, memo: string, status: HtlcStatus)

  datatype Contract = Contract(id: nat, owner: Name, codeHash: Bytes, code: Bytes, created: nat)

  type Storage = map<string, Bytes>

  datatype VirtualOp =
    | CollectionCreated(id: nat, symbol: string)
    | Minted(nft: nat, to: Name)
    | Transferred(nft: nat, from: Name, to: Name)
    | Approved(nft: nat, approved: Name)
    | ApprovalForAll(owner: Name, operator: Name, collection: nat, granted: bool)
    | Burned(nft: nat, owner: Name)
    | HtlcCreated(htlc: nat, from: Name, to: Name)
    | HtlcRedeemed(htlc: nat, to: Name)
    | HtlcRefunded(htlc: nat, from: Name)
    | ContractDeployed(contract: nat, owner: Name)
    | ContractCalled(contract: nat, success: bool, fuel: nat)
    | GlobalMarked(name: string)

  datatype Config = Config(nftSkipState: bool, htlcSkipState: bool, contractsSkip: bool, isConsensusNode: bool,
                           hardfork: nat)

  datatype Db = Db(headTime: nat, config: Config,
                   nextCollectionId: nat, nextNftId: nat, nextHtlcId: nat, nextContractId: nat,
                   balances: map<Name, Balance>, collections: map<nat, Collection>,
                   collectionBySymbol: map<string, nat>, nfts: map<nat, Nft>,
                   operators: map<OperatorKey, bool>, htlcs: map<nat, Htlc>,
                   contracts: map<nat, Contract>, contractStorage: map<nat, Storage>,
                   virtualOps: seq<VirtualOp>)

  // ----- what lies outside the model: the hash functions and the contract engine

  datatype CallResult = CallResult(success: bool, fuelUsed: nat, storageWrites: Storage)

  datatype Env = Env(sha256: Bytes -> Bytes, ripemd160: Bytes -> Bytes,
                     deploy: (Bytes, Bytes, nat) -> CallResult,
                     call: (Bytes, string, Bytes, Storage, nat, Name) -> CallResult)

  function DigestOf(env: Env, algo: HashAlgo, preimage: Bytes): HashDigest {
    HashDigest(algo, if algo.Sha256? then env.sha256(preimage) else env.ripemd160(preimage))
  }

  // ----- operations

  datatype CreateCollectionOp = CreateCollectionOp(creator: Name, symbol: string, name: string, maxSupply: nat,
                                                   transferable: bool)
  datatype MintOp = MintOp(creator: Name, collection: nat, to: Name, metadataHash: Bytes, uri: string, soulbound: bool)
  datatype TransferOp = TransferOp(from: Name, to: Name, nftId: nat, memo: string)
  datatype ApproveOp = ApproveOp(owner: Name, nftId: nat, approved: Name)
  datatype ApproveAllOp = ApproveAllOp(owner: Name, operator: Name, collection: nat, approved: bool)
  datatype BurnOp = BurnOp(owner: Name, nftId: nat)
  datatype HtlcCreateOp = HtlcCreateOp(from: Name, to: Name, amount: Asset, preimageHash: HashDigest, preimageSize: nat,
                                       expiration: nat, memo: string)
  datatype HtlcRedeemOp = HtlcRedeemOp(to: Name, htlcId: nat, preimage: Bytes)
  datatype HtlcRefundOp = HtlcRefundOp(from: Name, htlcId: nat)
  datatype DeployOp = DeployOp(owner: Name, code: Bytes, codeHash: Bytes, fuelLimit: nat, initArgs: Bytes)
  datatype CallOp = CallOp(caller: Name, contractId: nat, exportName: string, args: Bytes, fuelLimit: nat)

  datatype NftOp =
    | CreateCollection(collection: CreateCollectionOp)
    | Mint(mint: MintOp)
    | Transfer(transfer: TransferOp)
    | Approve(approve: ApproveOp)
    | ApproveAll(approveAll: ApproveAllOp)
    | Burn(burn: BurnOp)

  datatype HtlcOp = Create(create: HtlcCreateOp) | Redeem(redeem: HtlcRedeemOp) | Refund(refund: HtlcRefundOp)

  datatype ContractOp = Deploy(deploy: DeployOp) | Call(call: CallOp)

  // ----- checks that need no state

  predicate SymbolChar(c: char) {
    'A' <= c <= 'Z' || '0' <= c <= '9'
  }

  predicate ValidCreateCollection(op: CreateCollectionOp) {
    && ValidName(op.creator)
    && 0 < |op.symbol| <= MAX_NFT_SYMBOL_LEN
    && |op.name| <= MAX_NFT_NAME_LEN
    && forall i :: 0 <= i < |op.symbol| ==> SymbolChar(op.symbol[i])
  }

  predicate ValidMint(op: MintOp) {
    ValidName(op.creator) && ValidName(op.to) && |op.uri| <= MAX_NFT_URI_LEN && op.collection != 0
  }

  predicate ValidTransfer(op: TransferOp) {
    ValidName(op.from) && ValidName(op.to) && |op.memo| <= MAX_MEMO_LEN && op.nftId != 0 && op.from != op.to
  }

  predicate ValidApprove(op: ApproveOp) {
    ValidName(op.owner) && op.nftId != 0 && (op.approved != "" ==> ValidName(op.approved))
  }

  predicate ValidApproveAll(op: ApproveAllOp) {
    ValidName(op.owner) && ValidName(op.operator) && op.owner != op.operator
  }

  predicate ValidBurn(op: BurnOp) {
    ValidName(op.owner) && op.nftId != 0
  }

  predicate ValidHtlcCreate(op: HtlcCreateOp, now: nat) {
    && ValidName(op.from) && ValidName(op.to)
    && |op.memo| <= MAX_MEMO_LEN
    && op.amount.amount > 0
    && 0 < op.preimageSize <= MAX_HTLC_PREIMAGE_LEN
    && |op.preimageHash.bytes| == (if op.preimageHash.algo.Sha256? then 32 else 20)
    && now + HTLC_MIN_DURATION_SEC <= op.expiration <= now + HTLC_MAX_DURATION_SEC
  }

  predicate ValidHtlcRedeem(op: HtlcRedeemOp) {
    ValidName(op.to) && op.htlcId != 0 && 0 < |op.preimage| <= MAX_HTLC_PREIMAGE_LEN
  }

  predicate ValidHtlcRefund(op: HtlcRefundOp) {
    ValidName(op.from) && op.htlcId != 0
  }

  predicate ZeroBytes(b: Bytes) {
    forall i :: 0 <= i < |b| ==> b[i] == 0
  }

  predicate ValidDeploy(env: Env, op: DeployOp) {
    && ValidName(op.owner)
    && op.fuelLimit != 0
    && 0 < |op.code| <= MAX_CODE_BYTES
    && |op.initArgs| <= MAX_CONTRACT_ARGS
    && (ZeroBytes(op.codeHash) || env.sha256(op.code) == op.codeHash)
  }

  predicate ValidCall(op: CallOp) {
    && ValidName(op.caller)
    && op.contractId != 0
    && op.fuelLimit != 0
    && 0 < |op.exportName| <= MAX_CONTRACT_EXPORT
    && |op.args| <= MAX_CONTRACT_ARGS
  }

  // ----- gates and lookups

  predicate NftGate(c: Config) {
    c.hardfork >= HARDFORK_NFT && !c.nftSkipState
  }

  predicate HtlcGate(c: Config) {
    c.hardfork >= HARDFORK_HTLC && !c.htlcSkipState
  }

  predicate ContractGate(c: Config) {
    c.hardfork >= HARDFORK_CONTRACTS && !(c.contractsSkip && !c.isConsensusNode)
  }

  predicate CanAdjust(balances: map<Name, Balance>, name: Name, delta: Asset) {
    name in balances && (delta.amount < 0 ==> balances[name].Of(delta.symbol) >= -delta.amount)
  }

  function Adjust(balances: map<Name, Balance>, name: Name, delta: Asset): map<Name, Balance>
    requires name in balances
  {
    balances[name := balances[name].Plus(delta)]
  }

  predicate Granted(operators: map<OperatorKey, bool>, key: OperatorKey) {
    key in operators && operators[key]
  }

  predicate IsOperatorApproved(operators: map<OperatorKey, bool>, owner: Name, operator: Name, collection: nat) {
    Granted(operators, OperatorKey(owner, operator, collection)) || Granted(operators, OperatorKey(owner, operator, 0))
  }

  ghost predicate OpenFrom(h: Htlc, from: Name) {
    h.from == from && h.status.Open?
  }

  ghost function OpenHtlcs(htlcs: map<nat, Htlc>, from: Name): set<nat> {
    set id | id in htlcs && OpenFrom(htlcs[id], from)
  }

  // ----- NFT operations (src/chain/evaluators_nft.cpp)

  predicate CanCreateCollection(db: Db, op: CreateCollectionOp) {
    && NftGate(db.config)
    && ValidCreateCollection(op)
    && op.creator in db.balances
    && op.symbol !in db.collectionBySymbol
  }

  function DoCreateCollection(db: Db, op: CreateCollectionOp): Db {
    var id := db.nextCollectionId;
    var c := Collection(id, op.creator, op.symbol, op.name, op.maxSupply, 0, op.transferable, db.headTime);
    db.(nextCollectionId := id + 1,
        collections := db.collections[id := c],
        collectionBySymbol := db.collectionBySymbol[op.symbol := id],
        virtualOps := db.virtualOps + [CollectionCreated(id, op.symbol)])
  }

  predicate CanMint(db: Db, op: MintOp) {
    && NftGate(db.config)
    && ValidMint(op)
    && op.creator in db.balances && op.to in db.balances
    && op.collection in db.collections
    && var c := db.collections[op.collection];
    && c.creator == op.creator
    && (c.maxSupply != 0 ==> c.supply < c.maxSupply)
  }

  function DoMint(db: Db, op: MintOp): Db
    requires CanMint(db, op)
  {
    var id := db.nextNftId;
    var c := db.collections[op.collection];
    var n := Nft(id, op.collection, c.supply + 1, op.to, "", op.metadataHash, op.uri,
                 op.soulbound || !c.transferable, db.headTime);
    db.(nextNftId := id + 1,
        nfts := db.nfts[id := n],
        collections := db.collections[op.collection := c.(supply := c.supply + 1)],
        virtualOps := db.virtualOps + [Minted(id, op.to)])
  }

  predicate MayTransfer(operators: map<OperatorKey, bool>, n: Nft, from: Name) {
    n.owner == from || n.approved == from || IsOperatorApproved(operators, n.owner, from, n.collection)
  }

  predicate CanTransfer(db: Db, op: TransferOp) {
    && NftGate(db.config)
    && ValidTransfer(op)
    && op.to in db.balances
    && op.nftId in db.nfts
    && MayTransfer(db.operators, db.nfts[op.nftId], op.from)
    && !db.nfts[op.nftId].soulbound
  }

  function DoTransfer(db: Db, op: TransferOp): Db
    requires CanTransfer(db, op)
  {
    var n := db.nfts[op.nftId];
    db.(nfts := db.nfts[op.nftId := n.(owner := op.to, approved := "")],
        virtualOps := db.virtualOps + [Transferred(n.id, n.owner, op.to)])
  }

  predicate CanApprove(db: Db, op: ApproveOp) {
    && NftGate(db.config)
    && ValidApprove(op)
    && op.nftId in db.nfts
    && db.nfts[op.nftId].owner == op.owner
    && (op.approved != "" ==> op.approved in db.balances)
  }

  function DoApprove(db: Db, op: ApproveOp): Db
    requires CanApprove(db, op)
  {
    db.(nfts := db.nfts[op.nftId := db.nfts[op.nftId].(approved := op.approved)],
        virtualOps := db.virtualOps + [Approved(op.nftId, op.approved)])
  }

  predicate CanApproveAll(db: Db, op: ApproveAllOp) {
    && NftGate(db.config)
    && ValidApproveAll(op)
    && op.owner in db.balances && op.operator in db.balances
    && (op.collection != 0 ==> op.collection in db.collections)
  }

  function DoApproveAll(db: Db, op: ApproveAllOp): Db {
    var key := OperatorKey(op.owner, op.operator, op.collection);
    db.(operators := if op.approved then db.operators[key := true] else db.operators - {key},
        virtualOps := db.virtualOps + [ApprovalForAll(op.owner, op.operator, op.collection, op.approved)])
  }

  predicate CanBurn(db: Db, op: BurnOp) {
    && NftGate(db.config)
    && ValidBurn(op)
    && op.nftId in db.nfts
    && db.nfts[op.nftId].owner == op.owner
  }

  function DoBurn(db: Db, op: BurnOp): Db
    requires CanBurn(db, op)
  {
    var c := db.nfts[op.nftId].collection;
    db.(nfts := db.nfts - {op.nftId},
        collections := if c in db.collections && db.collections[c].supply > 0
                       then db.collections[c := db.collections[c].(supply := db.collections[c].supply - 1)]
                       else db.collections,
        virtualOps := db.virtualOps + [Burned(op.nftId, op.owner)])
  }

  // ----- HTLC operations (src/chain/evaluators_htlc.cpp)

  ghost predicate CanCreate(db: Db, op: HtlcCreateOp) {
    && HtlcGate(db.config)
    && ValidHtlcCreate(op, db.headTime)
    && op.from in db.balances && op.to in db.balances
    && |OpenHtlcs(db.htlcs, op.from)| < HTLC_MAX_OPEN_PER_ACCOUNT
    && CanAdjust(db.balances, op.from, Asset(-op.amount.amount, op.amount.symbol))
  }

  function DoCreate(db: Db, op: HtlcCreateOp): Db
    requires op.from in db.balances
  {
    var id := db.nextHtlcId;
    var h := Htlc(id, op.from, op.to, op.amount, op.preimageHash, op.preimageSize, op.expiration, db.headTime,
                  op.memo, Open);
    db.(balances := Adjust(db.balances, op.from, Asset(-op.amount.amount, op.amount.symbol)),
        nextHtlcId := id + 1,
        htlcs := db.htlcs[id := h],
        virtualOps := db.virtualOps + [HtlcCreated(id, op.from, op.to)])
  }

  predicate CanRedeem(env: Env, db: Db, op: HtlcRedeemOp) {
    && HtlcGate(db.config)
    && ValidHtlcRedeem(op)
    && op.htlcId in db.htlcs
    && var h := db.htlcs[op.htlcId];
    && h.status.Open?
    && h.to == op.to
    && db.headTime < h.expiration
    && |op.preimage| == h.preimageSize
    && DigestOf(env, h.preimageHash.algo, op.preimage).bytes == h.preimageHash.bytes
    && CanAdjust(db.balances, h.to, h.amount)
  }

  function DoRedeem(db: Db, op: HtlcRedeemOp): Db
    requires op.htlcId in db.htlcs && db.htlcs[op.htlcId].to in db.balances
  {
    var h := db.htlcs[op.htlcId];
    db.(balances := Adjust(db.balances, h.to, h.amount),
        htlcs := db.htlcs[op.htlcId := h.(status := Redeemed)],
        virtualOps := db.virtualOps + [HtlcRedeemed(h.id, h.to)])
  }

  predicate CanRefund(db: Db, op: HtlcRefundOp) {
    && HtlcGate(db.config)
    && ValidHtlcRefund(op)
    && op.htlcId in db.htlcs
    && var h := db.htlcs[op.htlcId];
    && h.status.Open?
    && h.from == op.from
    && db.headTime >= h.expiration
    && CanAdjust(db.balances, h.from, h.amount)
  }

  function DoRefund(db: Db, op: HtlcRefundOp): Db
    requires op.htlcId in db.htlcs && db.htlcs[op.htlcId].from in db.balances
  {
    var h := db.htlcs[op.htlcId];
    db.(balances := Adjust(db.balances, h.from, h.amount),
        htlcs := db.htlcs[op.htlcId := h.(status := Refunded)],
        virtualOps := db.virtualOps + [HtlcRefunded(h.id, h.from)])
  }

  // ----- contract operations (src/chain/evaluators_contracts.cpp)

  predicate CanDeploy(env: Env, db: Db, op: DeployOp) {
    && ContractGate(db.config)
    && ValidDeploy(env, op)
    && op.owner in db.balances
    && env.deploy(op.code, op.initArgs, op.fuelLimit).success
  }

  function DoDeploy(env: Env, db: Db, op: DeployOp): Db {
    var id := db.nextContractId;
    db.(nextContractId := id + 1,
        contracts := db.contracts[id := Contract(id, op.owner, env.sha256(op.code), op.code, db.headTime)],
        contractStorage := db.contractStorage[id := map[]],
        virtualOps := db.virtualOps + [ContractDeployed(id, op.owner)])
  }

  /** The engine is reached; it may still report failure. */
  predicate ReachesEngine(db: Db, op: CallOp) {
    && ContractGate(db.config)
    && ValidCall(op)
    && op.caller in db.balances
    && op.contractId in db.contracts
  }

  /** Looking up the storage of a contract creates an empty one if there is none. */
  function StorageOf(storage: map<nat, Storage>, id: nat): Storage {
    if id in storage then storage[id] else map[]
  }

  function EngineResult(env: Env, db: Db, op: CallOp): CallResult
    requires op.contractId in db.contracts
  {
    env.call(db.contracts[op.contractId].code, op.exportName, op.args,
             StorageOf(db.contractStorage, op.contractId), op.fuelLimit, op.caller)
  }

  predicate CanCall(env: Env, db: Db, op: CallOp) {
    ReachesEngine(db, op) && EngineResult(env, db, op).success
  }

  /** On success the staged writes are committed; on failure only the storage entry
      and the log record remain. */
  function DoCall(env: Env, db: Db, op: CallOp): Db
    requires ReachesEngine(db, op)
  {
    var r := EngineResult(env, db, op);
    var storage := StorageOf(db.contractStorage, op.contractId);
    var written := if r.success then storage + r.storageWrites else storage;
    db.(contractStorage := db.contractStorage[op.contractId := written],
        virtualOps := db.virtualOps + [ContractCalled(op.contractId, r.success, r.fuelUsed)])
  }

  // ----- one operation, accepted or not

  datatype Outcome = Outcome(db: Db, ok: bool)

  function ApplyNft(db: Db, op: NftOp): Outcome {
    match op
    case CreateCollection(o) =>
      if CanCreateCollection(db, o) then Outcome(DoCreateCollection(db, o), true) else Outcome(db, false)
    case Mint(o) => if CanMint(db, o) then Outcome(DoMint(db, o), true) else Outcome(db, false)
    case Transfer(o) => if CanTransfer(db, o) then Outcome(DoTransfer(db, o), true) else Outcome(db, false)
    case Approve(o) => if CanApprove(db, o) then Outcome(DoApprove(db, o), true) else Outcome(db, false)
    case ApproveAll(o) => if CanApproveAll(db, o) then Outcome(DoApproveAll(db, o), true) else Outcome(db, false)
    case Burn(o) => if CanBurn(db, o) then Outcome(DoBurn(db, o), true) else Outcome(db, false)
  }

  ghost function ApplyHtlc(env: Env, db: Db, op: HtlcOp): Outcome {
    match op
    case Create(o) => if CanCreate(db, o) then Outcome(DoCreate(db, o), true) else Outcome(db, false)
    case Redeem(o) => if CanRedeem(env, db, o) then Outcome(DoRedeem(db, o), true) else Outcome(db, false)
    case Refund(o) => if CanRefund(db, o) then Outcome(DoRefund(db, o), true) else Outcome(db, false)
  }

  function ApplyContract(env: Env, db: Db, op: ContractOp): Outcome {
    match op
    case Deploy(o) => if CanDeploy(env, db, o) then Outcome(DoDeploy(env, db, o), true) else Outcome(db, false)
    case Call(o) =>
      if ReachesEngine(db, o) then Outcome(DoCall(env, db, o), CanCall(env, db, o)) else Outcome(db, false)
  }

  // ----- runs

  /** One step of a run: an operation is submitted, or time is set. */
  datatype Step =
    | SubmitNft(nft: NftOp)
    | SubmitHtlc(htlc: HtlcOp)
    | SubmitContract(contract: ContractOp)
    | SetTime(time: nat)

  ghost function After(env: Env, db: Db, step: Step): Db {
    match step
    case SubmitNft(op) => ApplyNft(db, op).db
    case SubmitHtlc(op) => ApplyHtlc(env, db, op).db
    case SubmitContract(op) => ApplyContract(env, db, op).db
    case SetTime(t) => db.(headTime := t)
  }

  /** next is the transition function of the chain with this environment.  Statements about
      runs take the function as a parameter with this property: `Transition(env)` is the one
      function that has it, and as a parameter it lets a proof about a run look into a step
      only where it says so. */
  ghost predicate IsChain(next: (Db, Step) -> Db, env: Env) {
    forall db: Db, step: Step {:trigger After(env, db, step)} :: next(db, step) == After(env, db, step)
  }

  ghost function Transition(env: Env): (next: (Db, Step) -> Db)
    ensures IsChain(next, env)
  {
    (db: Db, step: Step) => After(env, db, step)
  }

  /** The state after the first k steps of a run. */
  ghost function At(next: (Db, Step) -> Db, genesis: Db, steps: seq<Step>, k: nat): Db
    requires k <= |steps|
  {
    if k == 0 then genesis else next(At(next, genesis, steps, k - 1), steps[k - 1])
  }

  /** Nothing has happened yet; accounts may already hold balances. */
  ghost predicate Genesis(db: Db) {
    && db.nextCollectionId == db.nextNftId == db.nextHtlcId == db.nextContractId == 1
    && db.collections == map[] && db.collectionBySymbol == map[] && db.nfts == map[] && db.operators == map[]
    && db.htlcs == map[] && db.contracts == map[] && db.contractStorage == map[]
  }
}
