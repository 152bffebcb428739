/** The mutable database and its evaluators (src/chain/database.cpp,
    src/chain/evaluators_nft.cpp, src/chain/evaluators_htlc.cpp,
    src/chain/evaluators_contracts.cpp).  Each evaluator updates the fields in
    place; `ok` is false where the source throws. */
module Evaluators {
  import opened Types
  import opened Chain

  ghost function OpenAmong(htlcs: map<nat, Htlc>, ids: set<nat>, from: Name): set<nat> {
    set id | id in ids && id in htlcs && OpenFrom(htlcs[id], from)
  }

  lemma OpenAmongAdd(htlcs: map<nat, Htlc>, ids: set<nat>, from: Name, id: nat)
    requires id in htlcs && id !in ids
    ensures |OpenAmong(htlcs, ids + {id}, from)| ==
            |OpenAmong(htlcs, ids, from)| + (if OpenFrom(htlcs[id], from) then 1 else 0)
  {
    var before, after := OpenAmong(htlcs, ids, from), OpenAmong(htlcs, ids + {id}, from);
    assert after == if OpenFrom(htlcs[id], from) then before + {id} else before;
  }

  /** Commits staged writes one key at a time. */
  method CommitWrites(storage: Storage, writes: Storage) returns (committed: Storage)
    ensures committed == storage + writes
  {
    committed := storage;
    var todo := writes.Keys;
    while todo != {}
      invariant todo <= writes.Keys
      invariant committed == storage + (map k | k in writes && k !in todo :: writes[k])
      decreases todo
    {
      var k :| k in todo;
      todo := todo - {k};
      committed := committed[k := writes[k]];
    }
    assert (map k | k in writes && k !in todo :: writes[k]) == writes;
  }

  class Database {
    var headTime: nat
    var config: Config
    var nextCollectionId: nat
    var nextNftId: nat
    var nextHtlcId: nat
    var nextContractId: nat
    var balances: map<Name, Balance>
    var collections: map<nat, Collection>
    var collectionBySymbol: map<string, nat>
    var nfts: map<nat, Nft>
    var operators: map<OperatorKey, bool>
    var htlcs: map<nat, Htlc>
    var contracts: map<nat, Contract>
    var contractStorage: map<nat, Storage>
    var virtualOps: seq<VirtualOp>

    /** The state as a value. */
    ghost function Value(): Db
      reads this
    {
      Db(headTime, config, nextCollectionId, nextNftId, nextHtlcId, nextContractId, balances, collections,
         collectionBySymbol, nfts, operators, htlcs, contracts, contractStorage, virtualOps)
    }

    constructor (config: Config)
      ensures Genesis(Value()) && balances == map[] && virtualOps == [] && this.config == config && headTime == 0
    {
      headTime := 0;
      this.config := config;
      nextCollectionId, nextNftId, nextHtlcId, nextContractId := 1, 1, 1, 1;
      balances, collections, collectionBySymbol, nfts := map[], map[], map[], map[];
      operators, htlcs, contracts, contractStorage := map[], map[], map[], map[];
      virtualOps := [];
    }

    method CreateAccount(name: Name, hive: int, hbd: int) returns (ok: bool)
      modifies this`balances
      ensures ok <==> ValidName(name)
      ensures balances == if ok then old(balances)[name := Balance(hive, hbd)] else old(balances)
    {
      ok := ValidName(name);
      if ok { balances := balances[name := Balance(hive, hbd)]; }
    }

    method AdjustBalance(name: Name, delta: Asset) returns (ok: bool)
      modifies this`balances
      ensures ok <==> CanAdjust(old(balances), name, delta)
      ensures balances == if ok then Adjust(old(balances), name, delta) else old(balances)
    {
      if name !in balances { return false; }
      var b := balances[name];
      var field := if delta.symbol.HIVE? then b.hive else b.hbd;
      if delta.amount < 0 && field < -delta.amount { return false; }
      field := field + delta.amount;
      balances := balances[name := if delta.symbol.HIVE? then b.(hive := field) else b.(hbd := field)];
      return true;
    }

    /** Counts the open HTLCs of a sender by visiting every HTLC once. */
    method OpenHtlcCount(from: Name) returns (n: nat)
      ensures n == |OpenHtlcs(htlcs, from)|
    {
      n := 0;
      var todo := htlcs.Keys;
      ghost var seen: set<nat> := {};
      while todo != {}
        invariant todo + seen == htlcs.Keys && todo !! seen
        invariant n == |OpenAmong(htlcs, seen, from)|
        decreases todo
      {
        var id :| id in todo;
        OpenAmongAdd(htlcs, seen, from, id);
        todo := todo - {id};
        seen := seen + {id};
        if htlcs[id].from == from && htlcs[id].status == Open { n := n + 1; }
      }
      assert OpenHtlcs(htlcs, from) == OpenAmong(htlcs, seen, from);
    }

    method PushVirtual(v: VirtualOp)
      modifies this`virtualOps
      ensures virtualOps == old(virtualOps) + [v]
    {
      virtualOps := virtualOps + [v];
    }

    // ----- NFT

    method ApplyCreateCollection(op: CreateCollectionOp) returns (ok: bool)
      modifies this
      ensures ok <==> CanCreateCollection(old(Value()), op)
      ensures Value() == if ok then DoCreateCollection(old(Value()), op) else old(Value())
    {
      if !NftGate(config) || !ValidCreateCollection(op) { return false; }
      if op.creator !in balances { return false; }
      if op.symbol in collectionBySymbol { return false; }
      var c := Collection(nextCollectionId, op.creator, op.symbol, op.name, op.maxSupply, 0, op.transferable, headTime);
      nextCollectionId := nextCollectionId + 1;
      collections := collections[c.id := c];
      collectionBySymbol := collectionBySymbol[c.symbol := c.id];
      PushVirtual(CollectionCreated(c.id, c.symbol));
      return true;
    }

    method CheckMint(op: MintOp) returns (ok: bool)
      ensures ok <==> CanMint(Value(), op)
    {
      if !NftGate(config) || !ValidMint(op) { return false; }
      if op.creator !in balances || op.to !in balances { return false; }
      if op.collection !in collections { return false; }
      var c := collections[op.collection];
      if c.creator != op.creator { return false; }
      if c.maxSupply != 0 && c.supply >= c.maxSupply { return false; }
      return true;
    }

    method ApplyMint(op: MintOp) returns (ok: bool)
      modifies this
      ensures ok <==> CanMint(old(Value()), op)
      ensures Value() == if ok then DoMint(old(Value()), op) else old(Value())
    {
      ok := CheckMint(op);
      if !ok { return; }
      var c := collections[op.collection];
      var n := Nft(nextNftId, op.collection, c.supply + 1, op.to, "", op.metadataHash, op.uri,
                   op.soulbound || !c.transferable, headTime);
      nextNftId, nfts := nextNftId + 1, nfts[n.id := n];
      collections := collections[op.collection := c.(supply := c.supply + 1)];
      PushVirtual(Minted(n.id, n.owner));
    }

    method ApplyTransfer(op: TransferOp) returns (ok: bool)
      modifies this
      ensures ok <==> CanTransfer(old(Value()), op)
      ensures Value() == if ok then DoTransfer(old(Value()), op) else old(Value())
    {
      if !NftGate(config) || !ValidTransfer(op) { return false; }
      if op.to !in balances { return false; }
      if op.nftId !in nfts { return false; }
      var n := nfts[op.nftId];
      var isOwner := n.owner == op.from;
      var isTokenApproved := n.approved == op.from;
      var isOperator := IsOperatorApproved(operators, n.owner, op.from, n.collection);
      if !isOwner && !isTokenApproved && !isOperator { return false; }
      if n.soulbound { return false; }
      var previous := n.owner;
      nfts := nfts[op.nftId := n.(owner := op.to, approved := "")];
      PushVirtual(Transferred(n.id, previous, op.to));
      return true;
    }

    method ApplyApprove(op: ApproveOp) returns (ok: bool)
      modifies this
      ensures ok <==> CanApprove(old(Value()), op)
      ensures Value() == if ok then DoApprove(old(Value()), op) else old(Value())
    {
      if !NftGate(config) || !ValidApprove(op) { return false; }
      if op.nftId !in nfts { return false; }
      if nfts[op.nftId].owner != op.owner { return false; }
      if op.approved != "" && op.approved !in balances { return false; }
      nfts := nfts[op.nftId := nfts[op.nftId].(approved := op.approved)];
      PushVirtual(Approved(op.nftId, op.approved));
      return true;
    }

    method ApplyApproveAll(op: ApproveAllOp) returns (ok: bool)
      modifies this
      ensures ok <==> CanApproveAll(old(Value()), op)
      ensures Value() == if ok then DoApproveAll(old(Value()), op) else old(Value())
    {
      if !NftGate(config) || !ValidApproveAll(op) { return false; }
      if op.owner !in balances || op.operator !in balances { return false; }
      if op.collection != 0 && op.collection !in collections { return false; }
      var key := OperatorKey(op.owner, op.operator, op.collection);
      if !op.approved {
        operators := operators - {key};
      } else {
        operators := operators[key := true];
      }
      PushVirtual(ApprovalForAll(op.owner, op.operator, op.collection, op.approved));
      return true;
    }

    method ApplyBurn(op: BurnOp) returns (ok: bool)
      modifies this
      ensures ok <==> CanBurn(old(Value()), op)
      ensures Value() == if ok then DoBurn(old(Value()), op) else old(Value())
    {
      if !NftGate(config) || !ValidBurn(op) { return false; }
      if op.nftId !in nfts { return false; }
      if nfts[op.nftId].owner != op.owner { return false; }
      var c := nfts[op.nftId].collection;
      nfts := nfts - {op.nftId};
      if c in collections && collections[c].supply > 0 {
        collections := collections[c := collections[c].(supply := collections[c].supply - 1)];
      }
      PushVirtual(Burned(op.nftId, op.owner));
      return true;
    }

    // ----- HTLC

    /** Everything creation checks before the sender pays. */
    method CheckHtlcCreate(op: HtlcCreateOp) returns (ok: bool)
      ensures ok <==>
              && HtlcGate(config) && ValidHtlcCreate(op, headTime)
              && op.from in balances && op.to in balances
              && |OpenHtlcs(htlcs, op.from)| < HTLC_MAX_OPEN_PER_ACCOUNT
    {
      if !HtlcGate(config) || !ValidHtlcCreate(op, headTime) { return false; }
      if op.from !in balances || op.to !in balances { return false; }
      var count := OpenHtlcCount(op.from);
      return count < HTLC_MAX_OPEN_PER_ACCOUNT;
    }

    method RecordHtlc(op: HtlcCreateOp)
      modifies this`nextHtlcId, this`htlcs, this`virtualOps
      ensures nextHtlcId == old(nextHtlcId) + 1
      ensures htlcs == old(htlcs)[old(nextHtlcId) :=
        Htlc(old(nextHtlcId), op.from, op.to, op.amount, op.preimageHash, op.preimageSize, op.expiration, headTime,
            op.memo, Open)]
      ensures virtualOps == old(virtualOps) + [HtlcCreated(old(nextHtlcId), op.from, op.to)]
    {
      var h := Htlc(nextHtlcId, op.from, op.to, op.amount, op.preimageHash, op.preimageSize,
                    op.expiration, headTime, op.memo, Open);
      nextHtlcId := nextHtlcId + 1;
      htlcs := htlcs[h.id := h];
      PushVirtual(HtlcCreated(h.id, h.from, h.to));
    }

    method ApplyHtlcCreate(op: HtlcCreateOp) returns (ok: bool)
      modifies this
      ensures ok <==> CanCreate(old(Value()), op)
      ensures Value() == if ok then DoCreate(old(Value()), op) else old(Value())
    {
      ok := CheckHtlcCreate(op);
      if ok {
        ok := AdjustBalance(op.from, Asset(-op.amount.amount, op.amount.symbol));
        if ok { RecordHtlc(op); }
      }
    }

    method ApplyHtlcRedeem(env: Env, op: HtlcRedeemOp) returns (ok: bool)
      modifies this
      ensures ok <==> CanRedeem(env, old(Value()), op)
      ensures Value() == if ok then DoRedeem(old(Value()), op) else old(Value())
    {
      if !HtlcGate(config) || !ValidHtlcRedeem(op) { return false; }
      if op.htlcId !in htlcs { return false; }
      var h := htlcs[op.htlcId];
      if h.status != Open { return false; }
      if h.to != op.to { return false; }
      if headTime >= h.expiration { return false; }
      if |op.preimage| != h.preimageSize { return false; }
      var digest := DigestOf(env, h.preimageHash.algo, op.preimage);
      var matches := ConstantTimeEqual(digest.bytes, h.preimageHash.bytes);
      if !matches { return false; }
      var paid := AdjustBalance(h.to, h.amount);
      if !paid { return false; }
      htlcs := htlcs[op.htlcId := h.(status := Redeemed)];
      PushVirtual(HtlcRedeemed(h.id, h.to));
      return true;
    }

    method ApplyHtlcRefund(op: HtlcRefundOp) returns (ok: bool)
      modifies this
      ensures ok <==> CanRefund(old(Value()), op)
      ensures Value() == if ok then DoRefund(old(Value()), op) else old(Value())
    {
      if !HtlcGate(config) || !ValidHtlcRefund(op) { return false; }
      if op.htlcId !in htlcs { return false; }
      var h := htlcs[op.htlcId];
      if h.status != Open { return false; }
      if h.from != op.from { return false; }
      if headTime < h.expiration { return false; }
      var paid := AdjustBalance(h.from, h.amount);
      if !paid { return false; }
      htlcs := htlcs[op.htlcId := h.(status := Refunded)];
      PushVirtual(HtlcRefunded(h.id, h.from));
      return true;
    }

    // ----- contracts

    method ApplyDeploy(env: Env, op: DeployOp) returns (ok: bool)
      modifies this
      ensures ok <==> CanDeploy(env, old(Value()), op)
      ensures Value() == if ok then DoDeploy(env, old(Value()), op) else old(Value())
    {
      if !ContractGate(config) || !ValidDeploy(env, op) { return false; }
      if op.owner !in balances { return false; }
      var res := env.deploy(op.code, op.initArgs, op.fuelLimit);
      if !res.success { return false; }
      var c := Contract(nextContractId, op.owner, env.sha256(op.code), op.code, headTime);
      nextContractId := nextContractId + 1;
      contracts := contracts[c.id := c];
      contractStorage := contractStorage[c.id := map[]];
      PushVirtual(ContractDeployed(c.id, c.owner));
      return true;
    }

    method CheckCall(op: CallOp) returns (ok: bool)
      ensures ok <==> ReachesEngine(Value(), op)
    {
      if !ContractGate(config) || !ValidCall(op) { return false; }
      if op.caller !in balances { return false; }
      return op.contractId in contracts;
    }

    /** Staged writes are committed only on success. */
    method CallEngine(env: Env, op: CallOp) returns (res: CallResult)
      requires ReachesEngine(Value(), op)
      modifies this`contractStorage
      ensures res == EngineResult(env, old(Value()), op)
      ensures contractStorage == DoCall(env, old(Value()), op).contractStorage
    {
      if op.contractId !in contractStorage {
        contractStorage := contractStorage[op.contractId := map[]];
      }
      var storage := contractStorage[op.contractId];
      res := env.call(contracts[op.contractId].code, op.exportName, op.args, storage, op.fuelLimit, op.caller);
      if res.success {
        var committed := CommitWrites(storage, res.storageWrites);
        contractStorage := contractStorage[op.contractId := committed];
      }
    }

    method ApplyCall(env: Env, op: CallOp) returns (ok: bool)
      modifies this
      ensures ok <==> CanCall(env, old(Value()), op)
      ensures Value() == if ReachesEngine(old(Value()), op) then DoCall(env, old(Value()), op) else old(Value())
    {
      ok := CheckCall(op);
      if !ok { return; }
      var res := CallEngine(env, op);
      ok := res.success;
      PushVirtual(ContractCalled(op.contractId, ok, res.fuelUsed));
    }
  }
}
