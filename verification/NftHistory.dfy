/** The NFT ledger read off the submitted operations: the terms of collections and tokens,
    and when each operation is accepted. */
module NftHistory {
  import opened Types
  import opened Chain
  import opened Histories
  import opened NftRuns

  // ----- collections

  /** Step j is an accepted creation and hands out the identifier. */
  ghost predicate ListedAt(next: (Db, Step) -> Db, env: Env, genesis: Db, steps: seq<Step>, j: nat,
                           op: CreateCollectionOp, id: nat)
  {
    && j < |steps| && steps[j] == SubmitNft(CreateCollection(op))
    && Accepted(env, At(next, genesis, steps, j), steps[j])
    && At(next, genesis, steps, j).nextCollectionId == id
  }

  /** The collection has the terms of the operation. */
  predicate HasTerms(c: Collection, op: CreateCollectionOp, id: nat, created: nat) {
    && c.id == id && c.creator == op.creator && c.symbol == op.symbol && c.name == op.name
    && c.maxSupply == op.maxSupply && c.transferable == op.transferable && c.created == created
  }

  /** No change alters anything of a collection but its supply. */
  lemma ChangeOfCollection(l: Ledger, ch: Change, id: nat)
    requires Sound(l) && Admits(l, ch) && id in l.collections
    ensures id in Perform(l, ch).collections
    ensures Perform(l, ch).collections[id].(supply := 0) == l.collections[id].(supply := 0)
  {
    assert CollectionSound(l, id);
  }

  lemma ListingRecorded(next: (Db, Step) -> Db, env: Env, genesis: Db, steps: seq<Step>, j: nat,
                        op: CreateCollectionOp, id: nat)
    requires IsChain(next, env) && ListedAt(next, env, genesis, steps, j, op, id)
    ensures id in At(next, genesis, steps, j + 1).collections
    ensures HasTerms(At(next, genesis, steps, j + 1).collections[id], op, id, Clock(genesis.headTime, steps, j))
  {
    var db := At(next, genesis, steps, j);
    var ch := StepChange(next, env, db, steps[j]);
    Setting(next, env, genesis, steps, j);
    assert ch.Listed?;
  }

  /** A collection keeps the terms of the operation that created it. */
  lemma {:induction false} ListingStands(next: (Db, Step) -> Db, env: Env, genesis: Db, steps: seq<Step>, j: nat,
                                         op: CreateCollectionOp, id: nat, k: nat)
    requires IsChain(next, env) && Genesis(genesis) && j < k <= |steps|
    requires ListedAt(next, env, genesis, steps, j, op, id)
    ensures id in At(next, genesis, steps, k).collections
    ensures HasTerms(At(next, genesis, steps, k).collections[id], op, id, Clock(genesis.headTime, steps, j))
    decreases k
  {
    if k == j + 1 {
      ListingRecorded(next, env, genesis, steps, j, op, id);
    } else {
      ListingStands(next, env, genesis, steps, j, op, id, k - 1);
      ReachableSound(next, env, genesis, steps, k - 1);
      var db := At(next, genesis, steps, k - 1);
      var ch := StepChange(next, env, db, steps[k - 1]);
      ChangeOfCollection(LedgerOf(db), ch, id);
    }
  }

  lemma NewCollectionIsListed(db: Db, step: Step, db': Db, ch: Change, id: nat)
    requires LedgerStep(db, step, db', ch) && id !in db.collections && id in db'.collections
    ensures id == db.nextCollectionId && step.SubmitNft? && step.nft.CreateCollection? && ApplyNft(db, step.nft).ok
  {
  }

  /** Every collection of a reachable state was created by an accepted operation. */
  lemma {:induction false} EveryCollectionWasListed(next: (Db, Step) -> Db, env: Env, genesis: Db, steps: seq<Step>,
                                                    k: nat, id: nat) returns (j: nat, op: CreateCollectionOp)
    requires IsChain(next, env) && Genesis(genesis) && k <= |steps| && id in At(next, genesis, steps, k).collections
    ensures j < k && ListedAt(next, env, genesis, steps, j, op, id)
    decreases k
  {
    var db := At(next, genesis, steps, k - 1);
    if id in db.collections {
      j, op := EveryCollectionWasListed(next, env, genesis, steps, k - 1, id);
    } else {
      var ch := StepChange(next, env, db, steps[k - 1]);
      NewCollectionIsListed(db, steps[k - 1], next(db, steps[k - 1]), ch, id);
      j, op := k - 1, steps[k - 1].nft.collection;
    }
  }

  // ----- what a listing promises about its tokens

  /** Tokens of a collection that is not transferable are soulbound. */
  ghost predicate BoundWhereFixed(l: Ledger) {
    forall id :: id in l.nfts ==>
      l.nfts[id].collection in l.collections
      && (!l.collections[l.nfts[id].collection].transferable ==> l.nfts[id].soulbound)
  }

  lemma ChangeKeepsBound(l: Ledger, ch: Change)
    requires Sound(l) && BoundWhereFixed(l) && Admits(l, ch)
    ensures BoundWhereFixed(Perform(l, ch))
  {
    var l' := Perform(l, ch);
    forall id | id in l'.nfts
      ensures l'.nfts[id].collection in l'.collections
      ensures !l'.collections[l'.nfts[id].collection].transferable ==> l'.nfts[id].soulbound
    {
      var c := l'.nfts[id].collection;
      if id in l.nfts { assert TokenSound(l, id) && l.nfts[id].collection == c; }
      ChangeOfCollection(l, ch, c);
    }
  }

  lemma {:induction false} ReachableBound(next: (Db, Step) -> Db, env: Env, genesis: Db, steps: seq<Step>, k: nat)
    requires IsChain(next, env) && Genesis(genesis) && k <= |steps|
    ensures BoundWhereFixed(LedgerOf(At(next, genesis, steps, k)))
  {
    if k == 0 {
    } else {
      ReachableBound(next, env, genesis, steps, k - 1);
      ReachableSound(next, env, genesis, steps, k - 1);
      var db := At(next, genesis, steps, k - 1);
      var ch := StepChange(next, env, db, steps[k - 1]);
      ChangeKeepsBound(LedgerOf(db), ch);
    }
  }

  /** In every later state a collection has at most as many live tokens as its creation
      allows, if that gives a maximum, and only soulbound ones if it is not transferable. */
  lemma ListingLimits(next: (Db, Step) -> Db, env: Env, genesis: Db, steps: seq<Step>, j: nat,
                      op: CreateCollectionOp, id: nat, k: nat)
    requires IsChain(next, env) && Genesis(genesis) && j < k <= |steps|
    requires ListedAt(next, env, genesis, steps, j, op, id)
    ensures var db := At(next, genesis, steps, k);
            && (op.maxSupply != 0 ==> |Live(db.nfts, id)| <= op.maxSupply)
            && (!op.transferable ==> forall t :: t in Live(db.nfts, id) ==> db.nfts[t].soulbound)
  {
    ListingStands(next, env, genesis, steps, j, op, id, k);
    ReachableSound(next, env, genesis, steps, k);
    ReachableBound(next, env, genesis, steps, k);
    assert CollectionSound(LedgerOf(At(next, genesis, steps, k)), id);
  }

  // ----- tokens

  ghost predicate MintedAt(next: (Db, Step) -> Db, env: Env, genesis: Db, steps: seq<Step>, j: nat, op: MintOp,
                           id: nat) {
    && j < |steps| && steps[j] == SubmitNft(Mint(op))
    && Accepted(env, At(next, genesis, steps, j), steps[j])
    && At(next, genesis, steps, j).nextNftId == id
  }

  lemma MintRecorded(next: (Db, Step) -> Db, env: Env, genesis: Db, steps: seq<Step>, j: nat, op: MintOp, id: nat)
    requires IsChain(next, env) && MintedAt(next, env, genesis, steps, j, op, id)
    ensures var db, db' := At(next, genesis, steps, j), At(next, genesis, steps, j + 1);
            && id in db'.nfts && MintsToken(db, steps[j], db'.nfts[id]) && db'.nfts[id].id == id
            && db'.nfts[id].approved == "" && db'.nextNftId == id + 1
  {
    var db := At(next, genesis, steps, j);
    var ch := StepChange(next, env, db, steps[j]);
    assert ch.Issued?;
  }

  /** As long as a token exists, its terms are those of the accepted mint: its collection,
      metadata and uri, the time, a serial after the live tokens, and soulbound if the mint
      says so or the collection was created as not transferable. */
  lemma MintStands(next: (Db, Step) -> Db, env: Env, genesis: Db, steps: seq<Step>, j: nat, op: MintOp, id: nat,
                   i: nat, listing: CreateCollectionOp, k: nat)
    requires IsChain(next, env) && Genesis(genesis) && j < k <= |steps|
    requires MintedAt(next, env, genesis, steps, j, op, id)
    requires i < j && ListedAt(next, env, genesis, steps, i, listing, op.collection)
    requires id in At(next, genesis, steps, k).nfts
    ensures var n := At(next, genesis, steps, k).nfts[id];
            && n.id == id && n.collection == op.collection && n.metadataHash == op.metadataHash && n.uri == op.uri
            && (n.soulbound <==> op.soulbound || !listing.transferable)
            && n.serial == |Live(At(next, genesis, steps, j).nfts, op.collection)| + 1
            && n.minted == Clock(genesis.headTime, steps, j)
            && listing.creator == op.creator
  {
    MintRecorded(next, env, genesis, steps, j, op, id);
    IdentifiersNotReused(next, env, genesis, steps, j + 1, k, id);
    ListingStands(next, env, genesis, steps, i, listing, op.collection, j);
    ReachableSound(next, env, genesis, steps, j);
    assert CollectionSound(LedgerOf(At(next, genesis, steps, j)), op.collection);
    Setting(next, env, genesis, steps, j);
  }

  /** Every token of a reachable state was minted by an accepted operation. */
  lemma {:induction false} EveryTokenWasMinted(next: (Db, Step) -> Db, env: Env, genesis: Db, steps: seq<Step>,
                                               k: nat, id: nat) returns (j: nat, op: MintOp)
    requires IsChain(next, env) && Genesis(genesis) && k <= |steps| && id in At(next, genesis, steps, k).nfts
    ensures j < k && MintedAt(next, env, genesis, steps, j, op, id)
    decreases k
  {
    var db := At(next, genesis, steps, k - 1);
    if id in db.nfts {
      j, op := EveryTokenWasMinted(next, env, genesis, steps, k - 1, id);
    } else {
      TokensComeAndGo(next, env, genesis, steps, k - 1, id);
      j, op := k - 1, steps[k - 1].nft.mint;
    }
  }

  // ----- custody

  /** Who holds a token, and for whom it is approved. */
  datatype Custody = Nobody | Holder(owner: Name, approved: Name)

  /** What an accepted operation makes of the custody of token id; a mint hands out `unused`. */
  ghost function CustodyAfter(c: Custody, op: NftOp, unused: nat, id: nat): Custody {
    match op
    case Mint(o) => if unused == id then Holder(o.to, "") else c
    case Transfer(o) => if o.nftId == id then Holder(o.to, "") else c
    case Approve(o) => if o.nftId == id then Holder(o.owner, o.approved) else c
    case Burn(o) => if o.nftId == id then Nobody else c
    case CreateCollection(_) => c
    case ApproveAll(_) => c
  }

  /** Custody of the token after k steps, told by the accepted operations alone. */
  ghost function CustodyAt(next: (Db, Step) -> Db, env: Env, genesis: Db, steps: seq<Step>, k: nat, id: nat): Custody
    requires k <= |steps|
  {
    if k == 0 then Nobody
    else
      var c, db, step := CustodyAt(next, env, genesis, steps, k - 1, id), At(next, genesis, steps, k - 1), steps[k - 1];
      if step.SubmitNft? && Accepted(env, db, step) then CustodyAfter(c, step.nft, db.nextNftId, id) else c
  }

  ghost function CustodyIn(db: Db, id: nat): Custody {
    if id in db.nfts then Holder(db.nfts[id].owner, db.nfts[id].approved) else Nobody
  }

  lemma MintCustody(db: Db, o: MintOp, id: nat)
    requires CanMint(db, o)
    ensures CustodyIn(DoMint(db, o), id) == CustodyAfter(CustodyIn(db, id), Mint(o), db.nextNftId, id)
  {
  }

  lemma BurnCustody(db: Db, o: BurnOp, id: nat)
    requires CanBurn(db, o)
    ensures CustodyIn(DoBurn(db, o), id) == CustodyAfter(CustodyIn(db, id), Burn(o), db.nextNftId, id)
  {
  }

  lemma CustodyStep(db: Db, op: NftOp, id: nat)
    ensures CustodyIn(ApplyNft(db, op).db, id) ==
            if ApplyNft(db, op).ok then CustodyAfter(CustodyIn(db, id), op, db.nextNftId, id) else CustodyIn(db, id)
  {
    if ApplyNft(db, op).ok {
      match op
      case Mint(o) => MintCustody(db, o, id);
      case Burn(o) => BurnCustody(db, o, id);
      case Transfer(_) =>
      case Approve(_) =>
      case CreateCollection(_) =>
      case ApproveAll(_) =>
    }
  }

  /** In every reachable state a token is held as the accepted operations tell. */
  lemma {:induction false} CustodyByHistory(next: (Db, Step) -> Db, env: Env, genesis: Db, steps: seq<Step>, k: nat,
                                            id: nat)
    requires IsChain(next, env) && Genesis(genesis) && k <= |steps|
    ensures CustodyIn(At(next, genesis, steps, k), id) == CustodyAt(next, env, genesis, steps, k, id)
  {
    if k == 0 {
    } else {
      CustodyByHistory(next, env, genesis, steps, k - 1, id);
      var db, step := At(next, genesis, steps, k - 1), steps[k - 1];
      assert next(db, step) == After(env, db, step);
      match step
      case SubmitNft(op) => CustodyStep(db, op, id);
      case SubmitHtlc(op) =>
        HtlcKeepsLedger(env, db, op);
        assert LedgerOf(next(db, step)).nfts == LedgerOf(db).nfts;
      case SubmitContract(op) =>
        ContractsKeepLedger(env, db, op);
        assert LedgerOf(next(db, step)).nfts == LedgerOf(db).nfts;
      case SetTime(_) =>
    }
  }

  // ----- grants

  lemma GrantStays(db: Db, step: Step, db': Db, ch: Change, key: OperatorKey)
    requires LedgerStep(db, step, db', ch)
    ensures SetsGrant(db, step, key, true) ==> Granted(db'.operators, key)
    ensures Granted(db.operators, key) && !SetsGrant(db, step, key, false) ==> Granted(db'.operators, key)
  {
  }

  /** A grant that no later accepted step revokes stands. */
  lemma {:induction false} GrantStands(next: (Db, Step) -> Db, env: Env, genesis: Db, steps: seq<Step>, j: nat, k: nat,
                                       key: OperatorKey)
    requires IsChain(next, env) && k <= |steps| && GrantedSince(next, genesis, steps, j, k, key)
    ensures Granted(At(next, genesis, steps, k).operators, key)
    decreases k
  {
    var db := At(next, genesis, steps, k - 1);
    var ch := StepChange(next, env, db, steps[k - 1]);
    if j < k - 1 { GrantStands(next, env, genesis, steps, j, k - 1, key); }
    GrantStays(db, steps[k - 1], next(db, steps[k - 1]), ch, key);
  }

  /** An operator is granted exactly when some step granted it and none since revoked it. */
  lemma GrantedExactly(next: (Db, Step) -> Db, env: Env, genesis: Db, steps: seq<Step>, k: nat, key: OperatorKey)
    requires IsChain(next, env) && Genesis(genesis) && k <= |steps|
    ensures Granted(At(next, genesis, steps, k).operators, key) <==>
            exists j :: GrantedSince(next, genesis, steps, j, k, key)
  {
    if key in At(next, genesis, steps, k).operators {
      var j := StandingGrant(next, env, genesis, steps, k, key);
    }
    forall j | GrantedSince(next, genesis, steps, j, k, key)
      ensures Granted(At(next, genesis, steps, k).operators, key)
    {
      GrantStands(next, env, genesis, steps, j, k, key);
    }
  }

  // ----- when operations are accepted

  predicate NftsOn(config: Config) {
    config.hardfork >= 9001 && !config.nftSkipState
  }

  /** A collection with the identifier was created before state k. */
  ghost predicate ListedBefore(next: (Db, Step) -> Db, env: Env, genesis: Db, steps: seq<Step>, k: nat, id: nat) {
    exists i: nat, listing :: i < k && ListedAt(next, env, genesis, steps, i, listing, id)
  }

  lemma ListedExactly(next: (Db, Step) -> Db, env: Env, genesis: Db, steps: seq<Step>, k: nat, id: nat)
    requires IsChain(next, env) && Genesis(genesis) && k <= |steps|
    ensures id in At(next, genesis, steps, k).collections <==> ListedBefore(next, env, genesis, steps, k, id)
  {
    if id in At(next, genesis, steps, k).collections {
      var i, listing := EveryCollectionWasListed(next, env, genesis, steps, k, id);
    }
    forall i: nat, listing | i < k && ListedAt(next, env, genesis, steps, i, listing, id)
      ensures id in At(next, genesis, steps, k).collections
    {
      ListingStands(next, env, genesis, steps, i, listing, id, k);
    }
  }

  /** Some collection created before state k has the symbol. */
  ghost predicate SymbolTaken(next: (Db, Step) -> Db, env: Env, genesis: Db, steps: seq<Step>, k: nat, symbol: string) {
    exists i: nat, listing, id ::
      i < k && ListedAt(next, env, genesis, steps, i, listing, id) && listing.symbol == symbol
  }

  lemma SymbolTakenExactly(next: (Db, Step) -> Db, env: Env, genesis: Db, steps: seq<Step>, k: nat, symbol: string)
    requires IsChain(next, env) && Genesis(genesis) && k <= |steps|
    ensures symbol in At(next, genesis, steps, k).collectionBySymbol <==>
            SymbolTaken(next, env, genesis, steps, k, symbol)
  {
    var db := At(next, genesis, steps, k);
    ReachableSound(next, env, genesis, steps, k);
    if symbol in db.collectionBySymbol {
      assert SymbolSound(LedgerOf(db), symbol);
      var i, listing := EveryCollectionWasListed(next, env, genesis, steps, k, db.collectionBySymbol[symbol]);
      ListingStands(next, env, genesis, steps, i, listing, db.collectionBySymbol[symbol], k);
    }
    forall i: nat, listing, id |
      i < k && ListedAt(next, env, genesis, steps, i, listing, id) && listing.symbol == symbol
      ensures symbol in db.collectionBySymbol
    {
      ListingStands(next, env, genesis, steps, i, listing, id, k);
      assert CollectionSound(LedgerOf(db), id);
    }
  }

  predicate SymbolText(symbol: string) {
    1 <= |symbol| <= 16 && forall c :: c in symbol ==> 'A' <= c <= 'Z' || '0' <= c <= '9'
  }

  lemma SymbolTexts(symbol: string)
    ensures SymbolText(symbol) <==> 0 < |symbol| <= 16 && forall i :: 0 <= i < |symbol| ==> SymbolChar(symbol[i])
  {
    if SymbolText(symbol) {
      forall i | 0 <= i < |symbol| ensures SymbolChar(symbol[i]) { assert symbol[i] in symbol; }
    }
  }

  /** A collection is created exactly when the names are in bounds, the creator exists and no
      earlier accepted creation took the symbol. */
  lemma CreationAcceptedExactly(next: (Db, Step) -> Db, env: Env, genesis: Db, steps: seq<Step>, k: nat,
                                op: CreateCollectionOp)
    requires IsChain(next, env) && Genesis(genesis) && k <= |steps|
    ensures ApplyNft(At(next, genesis, steps, k), CreateCollection(op)).ok <==>
            && NftsOn(genesis.config) && AccountName(op.creator) && SymbolText(op.symbol) && |op.name| <= 64
            && op.creator in genesis.balances
            && !SymbolTaken(next, env, genesis, steps, k, op.symbol)
  {
    Setting(next, env, genesis, steps, k);
    AccountNames(op.creator);
    SymbolTexts(op.symbol);
    SymbolTakenExactly(next, env, genesis, steps, k, op.symbol);
  }

  /** The creator of the collection may mint below the maximum its creation gave. */
  ghost predicate RoomFor(next: (Db, Step) -> Db, env: Env, genesis: Db, steps: seq<Step>, k: nat, op: MintOp)
    requires k <= |steps|
  {
    exists i: nat, listing :: i < k && ListedAt(next, env, genesis, steps, i, listing, op.collection)
      && listing.creator == op.creator
      && (listing.maxSupply == 0 || |Live(At(next, genesis, steps, k).nfts, op.collection)| < listing.maxSupply)
  }

  lemma CollectionByHistory(next: (Db, Step) -> Db, env: Env, genesis: Db, steps: seq<Step>, k: nat, id: nat)
    requires IsChain(next, env) && Genesis(genesis) && k <= |steps|
    ensures var db := At(next, genesis, steps, k);
            && (id in db.collections ==> id != 0 && db.collections[id].supply == |Live(db.nfts, id)|)
            && (id in db.collections ==> ListedBefore(next, env, genesis, steps, k, id))
            && forall i: nat, listing :: i < k && ListedAt(next, env, genesis, steps, i, listing, id) ==>
                 id in db.collections && HasTerms(db.collections[id], listing, id, Clock(genesis.headTime, steps, i))
  {
    var db := At(next, genesis, steps, k);
    ListedExactly(next, env, genesis, steps, k, id);
    ReachableSound(next, env, genesis, steps, k);
    if id in db.collections { assert CollectionSound(LedgerOf(db), id); }
    forall i: nat, listing | i < k && ListedAt(next, env, genesis, steps, i, listing, id)
      ensures id in db.collections && HasTerms(db.collections[id], listing, id, Clock(genesis.headTime, steps, i))
    {
      ListingStands(next, env, genesis, steps, i, listing, id, k);
    }
  }

  lemma RoomExactly(next: (Db, Step) -> Db, env: Env, genesis: Db, steps: seq<Step>, k: nat, op: MintOp)
    requires IsChain(next, env) && Genesis(genesis) && k <= |steps|
    ensures var db := At(next, genesis, steps, k);
            RoomFor(next, env, genesis, steps, k, op) <==>
            && op.collection != 0 && op.collection in db.collections
            && var c := db.collections[op.collection];
            c.creator == op.creator && (c.maxSupply != 0 ==> c.supply < c.maxSupply)
  {
    CollectionByHistory(next, env, genesis, steps, k, op.collection);
  }

  /** A mint is accepted exactly when it is in bounds, both accounts exist, and the creator of
      the collection mints it below the maximum. */
  lemma MintAcceptedExactly(next: (Db, Step) -> Db, env: Env, genesis: Db, steps: seq<Step>, k: nat, op: MintOp)
    requires IsChain(next, env) && Genesis(genesis) && k <= |steps|
    ensures ApplyNft(At(next, genesis, steps, k), Mint(op)).ok <==>
            && NftsOn(genesis.config) && AccountName(op.creator) && AccountName(op.to) && |op.uri| <= 256
            && op.creator in genesis.balances && op.to in genesis.balances
            && RoomFor(next, env, genesis, steps, k, op)
  {
    Setting(next, env, genesis, steps, k);
    AccountNames(op.creator);
    AccountNames(op.to);
    RoomExactly(next, env, genesis, steps, k, op);
  }

  /** The sender owns the token, was approved for it by the present owner who has held it
      since, or has an unrevoked grant from that owner for the collection or for all. */
  ghost predicate Authorised(next: (Db, Step) -> Db, genesis: Db, steps: seq<Step>, k: nat, id: nat, owner: Name,
                             collection: nat, from: Name)
    requires k <= |steps|
  {
    || from == owner
    || (exists j :: ApprovedSince(next, genesis, steps, j, k, id, owner, from))
    || (exists j :: GrantedSince(next, genesis, steps, j, k, OperatorKey(owner, from, collection)))
    || (exists j :: GrantedSince(next, genesis, steps, j, k, OperatorKey(owner, from, 0)))
  }

  lemma ApprovedExactly(next: (Db, Step) -> Db, env: Env, genesis: Db, steps: seq<Step>, k: nat, id: nat, agent: Name)
    requires IsChain(next, env) && Genesis(genesis) && k <= |steps| && agent != ""
    requires id in At(next, genesis, steps, k).nfts
    ensures var n := At(next, genesis, steps, k).nfts[id];
            n.approved == agent <==> exists j :: ApprovedSince(next, genesis, steps, j, k, id, n.owner, agent)
  {
    var n := At(next, genesis, steps, k).nfts[id];
    if n.approved == agent {
      var j := StandingApproval(next, env, genesis, steps, k, id);
    }
    forall j | ApprovedSince(next, genesis, steps, j, k, id, n.owner, agent) ensures n.approved == agent {
      assert Holds(LedgerOf(At(next, genesis, steps, k)), id, n.owner, agent);
    }
  }

  lemma AuthorisedExactly(next: (Db, Step) -> Db, env: Env, genesis: Db, steps: seq<Step>, k: nat, id: nat, from: Name)
    requires IsChain(next, env) && Genesis(genesis) && k <= |steps| && from != ""
    requires id in At(next, genesis, steps, k).nfts
    ensures var db := At(next, genesis, steps, k);
            var n := db.nfts[id];
            MayTransfer(db.operators, n, from) <==> Authorised(next, genesis, steps, k, id, n.owner, n.collection, from)
  {
    var n := At(next, genesis, steps, k).nfts[id];
    ApprovedExactly(next, env, genesis, steps, k, id, from);
    GrantedExactly(next, env, genesis, steps, k, OperatorKey(n.owner, from, n.collection));
    GrantedExactly(next, env, genesis, steps, k, OperatorKey(n.owner, from, 0));
  }

  /** A transfer is accepted exactly when it is in bounds, is to another existing account, and
      moves a token that is held, not soulbound, and that the sender is authorised to move. */
  lemma TransferAcceptedExactly(next: (Db, Step) -> Db, env: Env, genesis: Db, steps: seq<Step>, k: nat, op: TransferOp)
    requires IsChain(next, env) && Genesis(genesis) && k <= |steps|
    ensures var db, c := At(next, genesis, steps, k), CustodyAt(next, env, genesis, steps, k, op.nftId);
            ApplyNft(db, Transfer(op)).ok <==>
            && NftsOn(genesis.config) && AccountName(op.from) && AccountName(op.to) && |op.memo| <= 2048
            && op.from != op.to && op.to in genesis.balances
            && c.Holder? && op.nftId in db.nfts && !db.nfts[op.nftId].soulbound
            && Authorised(next, genesis, steps, k, op.nftId, c.owner, db.nfts[op.nftId].collection, op.from)
  {
    var db := At(next, genesis, steps, k);
    Setting(next, env, genesis, steps, k);
    AccountNames(op.from);
    AccountNames(op.to);
    HeldExactly(next, env, genesis, steps, k, op.nftId);
    if op.nftId in db.nfts && op.from != "" { AuthorisedExactly(next, env, genesis, steps, k, op.nftId, op.from); }
  }

  /** An approval is accepted exactly when the holder of the token approves an existing
      account or withdraws the approval. */
  lemma ApprovalAcceptedExactly(next: (Db, Step) -> Db, env: Env, genesis: Db, steps: seq<Step>, k: nat, op: ApproveOp)
    requires IsChain(next, env) && Genesis(genesis) && k <= |steps|
    ensures var c := CustodyAt(next, env, genesis, steps, k, op.nftId);
            ApplyNft(At(next, genesis, steps, k), Approve(op)).ok <==>
            && NftsOn(genesis.config) && AccountName(op.owner)
            && (op.approved == "" || (AccountName(op.approved) && op.approved in genesis.balances))
            && c.Holder? && c.owner == op.owner
  {
    Setting(next, env, genesis, steps, k);
    AccountNames(op.owner);
    AccountNames(op.approved);
    HeldExactly(next, env, genesis, steps, k, op.nftId);
  }

  /** A burn is accepted exactly when the holder of the token burns it. */
  lemma BurnAcceptedExactly(next: (Db, Step) -> Db, env: Env, genesis: Db, steps: seq<Step>, k: nat, op: BurnOp)
    requires IsChain(next, env) && Genesis(genesis) && k <= |steps|
    ensures var c := CustodyAt(next, env, genesis, steps, k, op.nftId);
            ApplyNft(At(next, genesis, steps, k), Burn(op)).ok <==>
            NftsOn(genesis.config) && AccountName(op.owner) && c.Holder? && c.owner == op.owner
  {
    Setting(next, env, genesis, steps, k);
    AccountNames(op.owner);
    HeldExactly(next, env, genesis, steps, k, op.nftId);
  }

  lemma HeldExactly(next: (Db, Step) -> Db, env: Env, genesis: Db, steps: seq<Step>, k: nat, id: nat)
    requires IsChain(next, env) && Genesis(genesis) && k <= |steps|
    ensures var db := At(next, genesis, steps, k);
            CustodyIn(db, id) == CustodyAt(next, env, genesis, steps, k, id) && (id in db.nfts ==> id != 0)
  {
    CustodyByHistory(next, env, genesis, steps, k, id);
    ReachableSound(next, env, genesis, steps, k);
    var db := At(next, genesis, steps, k);
    if id in db.nfts { assert TokenSound(LedgerOf(db), id); }
  }

  /** A grant or its revocation is accepted exactly when both accounts exist and differ and
      the collection, if one is given, was created. */
  lemma GrantAcceptedExactly(next: (Db, Step) -> Db, env: Env, genesis: Db, steps: seq<Step>, k: nat, op: ApproveAllOp)
    requires IsChain(next, env) && Genesis(genesis) && k <= |steps|
    ensures ApplyNft(At(next, genesis, steps, k), ApproveAll(op)).ok <==>
            && NftsOn(genesis.config) && AccountName(op.owner) && AccountName(op.operator) && op.owner != op.operator
            && op.owner in genesis.balances && op.operator in genesis.balances
            && (op.collection == 0 || ListedBefore(next, env, genesis, steps, k, op.collection))
  {
    Setting(next, env, genesis, steps, k);
    AccountNames(op.owner);
    AccountNames(op.operator);
    ListedExactly(next, env, genesis, steps, k, op.collection);
  }
}
