/** Whole-run properties of the NFT ledger: supply, identifiers, custody and soulbound
    tokens. */
module NftRuns {
  import opened Types
  import opened Chain
  import opened Sums

  // ----- the ledger and its changes

  datatype Ledger = Ledger(nfts: map<nat, Nft>, collections: map<nat, Collection>, bySymbol: map<string, nat>,
                           operators: map<OperatorKey, bool>, nextNftId: nat, nextCollectionId: nat)

  function LedgerOf(db: Db): Ledger {
    Ledger(db.nfts, db.collections, db.collectionBySymbol, db.operators, db.nextNftId, db.nextCollectionId)
  }

  datatype Change =
    | NoChange
    | Listed(collection: Collection)
    | Issued(nft: Nft)
    | Moved(id: nat, to: Name)
    | Delegated(id: nat, agent: Name)
    | Authorised(key: OperatorKey, on: bool)
    | Destroyed(id: nat)

  /** When the ledger admits the change. */
  predicate Admits(l: Ledger, ch: Change) {
    match ch
    case NoChange => true
    case Listed(c) => c.id == l.nextCollectionId && c.supply == 0 && c.symbol !in l.bySymbol
    case Issued(n) =>
      && n.id == l.nextNftId && n.approved == "" && n.collection in l.collections
      && var c := l.collections[n.collection];
      && (c.maxSupply != 0 ==> c.supply < c.maxSupply)
      && (!c.transferable ==> n.soulbound)
    case Moved(id, _) => id in l.nfts && !l.nfts[id].soulbound
    case Delegated(id, _) => id in l.nfts
    case Authorised(_, _) => true
    case Destroyed(id) => id in l.nfts
  }

  function Supply(collections: map<nat, Collection>, c: nat, delta: int): map<nat, Collection> {
    if c in collections && collections[c].supply + delta >= 0
    then collections[c := collections[c].(supply := collections[c].supply + delta)]
    else collections
  }

  function Perform(l: Ledger, ch: Change): Ledger
    requires Admits(l, ch)
  {
    match ch
    case NoChange => l
    case Listed(c) =>
      l.(collections := l.collections[c.id := c], bySymbol := l.bySymbol[c.symbol := c.id],
         nextCollectionId := c.id + 1)
    case Issued(n) =>
      l.(nfts := l.nfts[n.id := n], collections := Supply(l.collections, n.collection, 1), nextNftId := n.id + 1)
    case Moved(id, to) => l.(nfts := l.nfts[id := l.nfts[id].(owner := to, approved := "")])
    case Delegated(id, agent) => l.(nfts := l.nfts[id := l.nfts[id].(approved := agent)])
    case Authorised(key, on) => l.(operators := if on then l.operators[key := true] else l.operators - {key})
    case Destroyed(id) => l.(nfts := l.nfts - {id}, collections := Supply(l.collections, l.nfts[id].collection, -1))
  }

  function GrantOp(key: OperatorKey, approved: bool): ApproveAllOp {
    ApproveAllOp(key.owner, key.operator, key.collection, approved)
  }

  /** The step is an accepted transfer of the token. */
  predicate TransfersAway(db: Db, step: Step, id: nat) {
    step.SubmitNft? && step.nft.Transfer? && step.nft.transfer.nftId == id && CanTransfer(db, step.nft.transfer)
  }

  /** The owner approves the agent for the token. */
  predicate Approves(db: Db, step: Step, id: nat, owner: Name, agent: Name) {
    step == SubmitNft(Approve(ApproveOp(owner, id, agent))) && CanApprove(db, ApproveOp(owner, id, agent))
  }

  /** The owner grants or revokes the operator. */
  predicate SetsGrant(db: Db, step: Step, key: OperatorKey, on: bool) {
    step == SubmitNft(ApproveAll(GrantOp(key, on))) && CanApproveAll(db, GrantOp(key, on))
  }

  /** The creator of the collection mints the token to its first owner. */
  predicate MintsToken(db: Db, step: Step, n: Nft) {
    && step.SubmitNft? && step.nft.Mint? && CanMint(db, step.nft.mint)
    && var op := step.nft.mint;
    && db.collections[op.collection].creator == op.creator
    && n.collection == op.collection && n.owner == op.to && n.metadataHash == op.metadataHash && n.uri == op.uri
    && (n.soulbound <==> op.soulbound || !db.collections[op.collection].transferable)
    && n.serial == db.collections[op.collection].supply + 1
    && n.minted == db.headTime
  }

  /** The step is an accepted creation of the collection, which has its terms. */
  predicate ListsCollection(db: Db, step: Step, c: Collection) {
    && step.SubmitNft? && step.nft.CreateCollection? && CanCreateCollection(db, step.nft.collection)
    && var op := step.nft.collection;
    && c.creator == op.creator && c.symbol == op.symbol && c.name == op.name
    && c.maxSupply == op.maxSupply && c.transferable == op.transferable && c.created == db.headTime
  }

  /** The owner burns the token. */
  predicate BurnsToken(db: Db, step: Step, id: nat) {
    && step.SubmitNft? && step.nft.Burn? && CanBurn(db, step.nft.burn)
    && step.nft.burn.nftId == id && step.nft.burn.owner == db.nfts[id].owner
  }

  /** What the step must have been for the change to happen. */
  ghost predicate Caused(db: Db, step: Step, ch: Change) {
    match ch
    case Moved(id, to) => TransfersAway(db, step, id) && to == step.nft.transfer.to
    case Delegated(id, agent) => id in db.nfts && Approves(db, step, id, db.nfts[id].owner, agent)
    case Authorised(key, on) => SetsGrant(db, step, key, on)
    case Issued(n) => MintsToken(db, step, n)
    case Destroyed(id) => BurnsToken(db, step, id)
    case Listed(c) => ListsCollection(db, step, c)
    case NoChange => step.SubmitNft? ==> !ApplyNft(db, step.nft).ok
  }

  ghost predicate LedgerStep(db: Db, step: Step, db': Db, ch: Change) {
    Admits(LedgerOf(db), ch) && LedgerOf(db') == Perform(LedgerOf(db), ch) && Caused(db, step, ch)
  }

  lemma MintIssues(db: Db, o: MintOp)
    requires CanMint(db, o)
    ensures LedgerStep(db, SubmitNft(Mint(o)), DoMint(db, o), Issued(DoMint(db, o).nfts[db.nextNftId]))
  {
  }

  lemma BurnDestroys(db: Db, o: BurnOp)
    requires CanBurn(db, o)
    ensures LedgerStep(db, SubmitNft(Burn(o)), DoBurn(db, o), Destroyed(o.nftId))
  {
  }

  lemma NftChange(db: Db, op: NftOp) returns (ch: Change)
    ensures LedgerStep(db, SubmitNft(op), ApplyNft(db, op).db, ch)
  {
    ch := NoChange;
    match op
    case CreateCollection(o) =>
      if CanCreateCollection(db, o) { ch := Listed(DoCreateCollection(db, o).collections[db.nextCollectionId]); }
    case Mint(o) =>
      if CanMint(db, o) { MintIssues(db, o); ch := Issued(DoMint(db, o).nfts[db.nextNftId]); }
    case Transfer(o) =>
      if CanTransfer(db, o) { ch := Moved(o.nftId, o.to); }
    case Approve(o) =>
      if CanApprove(db, o) { ch := Delegated(o.nftId, o.approved); }
    case ApproveAll(o) =>
      if CanApproveAll(db, o) { ch := Authorised(OperatorKey(o.owner, o.operator, o.collection), o.approved); }
    case Burn(o) =>
      if CanBurn(db, o) { BurnDestroys(db, o); ch := Destroyed(o.nftId); }
  }

  lemma HtlcKeepsLedger(env: Env, db: Db, op: HtlcOp)
    ensures LedgerOf(ApplyHtlc(env, db, op).db) == LedgerOf(db)
  {
  }

  lemma ContractsKeepLedger(env: Env, db: Db, op: ContractOp)
    ensures LedgerOf(ApplyContract(env, db, op).db) == LedgerOf(db)
  {
  }

  /** Every step makes one of the ledger changes, and none only if it is no accepted
      operation of the ledger. */
  lemma StepChange(next: (Db, Step) -> Db, env: Env, db: Db, step: Step) returns (ch: Change)
    requires IsChain(next, env)
    ensures LedgerStep(db, step, next(db, step), ch)
  {
    assert next(db, step) == After(env, db, step);
    match step
    case SubmitNft(op) => ch := NftChange(db, op);
    case SubmitHtlc(op) => HtlcKeepsLedger(env, db, op); ch := NoChange;
    case SubmitContract(op) => ContractsKeepLedger(env, db, op); ch := NoChange;
    case SetTime(_) => ch := NoChange;
  }

  // ----- reachable states

  ghost function Live(nfts: map<nat, Nft>, collection: nat): set<nat> {
    set id | id in nfts && nfts[id].collection == collection
  }

  ghost predicate TokenSound(l: Ledger, id: nat)
    requires id in l.nfts
  {
    0 < id < l.nextNftId && l.nfts[id].id == id && l.nfts[id].collection in l.collections
  }

  ghost predicate CollectionSound(l: Ledger, c: nat)
    requires c in l.collections
  {
    var col := l.collections[c];
    && 0 < c < l.nextCollectionId && col.id == c
    && col.supply == |Live(l.nfts, c)|
    && (col.maxSupply != 0 ==> col.supply <= col.maxSupply)
    && col.symbol in l.bySymbol && l.bySymbol[col.symbol] == c
  }

  ghost predicate SymbolSound(l: Ledger, s: string)
    requires s in l.bySymbol
  {
    l.bySymbol[s] in l.collections && l.collections[l.bySymbol[s]].symbol == s
  }

  /** Supply counts the live tokens and respects a non-zero maximum, tokens belong to
      existing collections, and symbols and collections are in bijection. */
  ghost predicate Sound(l: Ledger) {
    && 0 < l.nextNftId && 0 < l.nextCollectionId
    && (forall id :: id in l.nfts ==> TokenSound(l, id))
    && (forall c :: c in l.collections ==> CollectionSound(l, c))
    && (forall s :: s in l.bySymbol ==> SymbolSound(l, s))
  }

  lemma LiveUpdate(nfts: map<nat, Nft>, id: nat, n: Nft, c: nat)
    ensures |Live(nfts[id := n], c)| ==
            |Live(nfts, c)| - (if id in nfts && nfts[id].collection == c then 1 else 0)
            + (if n.collection == c then 1 else 0)
  {
    assert Live(nfts[id := n], c) - {id} == Live(nfts, c) - {id};
    CardinalityWithout(Live(nfts, c), id);
    CardinalityWithout(Live(nfts[id := n], c), id);
  }

  lemma LiveRemove(nfts: map<nat, Nft>, id: nat, c: nat)
    requires id in nfts
    ensures |Live(nfts - {id}, c)| == |Live(nfts, c)| - (if nfts[id].collection == c then 1 else 0)
  {
    assert Live(nfts - {id}, c) == Live(nfts, c) - {id};
    CardinalityWithout(Live(nfts, c), id);
  }

  lemma ListKeepsSound(l: Ledger, c: Collection)
    requires Sound(l) && Admits(l, Listed(c))
    ensures Sound(Perform(l, Listed(c)))
  {
    var l' := Perform(l, Listed(c));
    forall id | id in l'.nfts ensures TokenSound(l', id) { assert TokenSound(l, id); }
    forall id | id in l.nfts ensures l.nfts[id].collection != c.id { assert TokenSound(l, id); }
    assert Live(l.nfts, c.id) == {};
    forall d | d in l'.collections ensures CollectionSound(l', d) {
      if d != c.id { assert CollectionSound(l, d); }
    }
    forall s | s in l'.bySymbol ensures SymbolSound(l', s) {
      if s != c.symbol { assert SymbolSound(l, s) && CollectionSound(l, l.bySymbol[s]); }
    }
  }

  lemma IssueKeepsSound(l: Ledger, n: Nft)
    requires Sound(l) && Admits(l, Issued(n))
    ensures Sound(Perform(l, Issued(n)))
  {
    var l' := Perform(l, Issued(n));
    forall id | id in l.nfts ensures id != n.id { assert TokenSound(l, id); }
    forall id | id in l'.nfts ensures TokenSound(l', id) {
      if id != n.id { assert TokenSound(l, id); }
    }
    forall c | c in l'.collections ensures CollectionSound(l', c) {
      assert CollectionSound(l, c);
      LiveUpdate(l.nfts, n.id, n, c);
    }
    forall s | s in l'.bySymbol ensures SymbolSound(l', s) { assert SymbolSound(l, s); }
  }

  /** Rewriting owner or approval of one token. */
  lemma RewriteKeepsSound(l: Ledger, id: nat, n: Nft)
    requires Sound(l) && id in l.nfts && n.id == l.nfts[id].id && n.collection == l.nfts[id].collection
    ensures Sound(l.(nfts := l.nfts[id := n]))
  {
    var l' := l.(nfts := l.nfts[id := n]);
    forall i | i in l'.nfts ensures TokenSound(l', i) { assert TokenSound(l, i); }
    forall c | c in l'.collections ensures CollectionSound(l', c) {
      assert CollectionSound(l, c);
      LiveUpdate(l.nfts, id, n, c);
    }
    forall s | s in l'.bySymbol ensures SymbolSound(l', s) { assert SymbolSound(l, s); }
  }

  /** The supply of a live token's collection is positive, so burning always lowers it. */
  lemma BurnGuardHolds(l: Ledger, id: nat)
    requires Sound(l) && id in l.nfts
    ensures l.nfts[id].collection in l.collections && l.collections[l.nfts[id].collection].supply > 0
  {
    assert TokenSound(l, id);
    var c := l.nfts[id].collection;
    assert CollectionSound(l, c);
    assert id in Live(l.nfts, c);
  }

  lemma DestroyKeepsSound(l: Ledger, id: nat)
    requires Sound(l) && Admits(l, Destroyed(id))
    ensures Sound(Perform(l, Destroyed(id)))
  {
    var l' := Perform(l, Destroyed(id));
    BurnGuardHolds(l, id);
    forall i | i in l'.nfts ensures TokenSound(l', i) { assert TokenSound(l, i); }
    forall c | c in l'.collections ensures CollectionSound(l', c) {
      assert CollectionSound(l, c);
      LiveRemove(l.nfts, id, c);
    }
    forall s | s in l'.bySymbol ensures SymbolSound(l', s) { assert SymbolSound(l, s); }
  }

  lemma AuthoriseKeepsSound(l: Ledger, key: OperatorKey, on: bool)
    requires Sound(l)
    ensures Sound(Perform(l, Authorised(key, on)))
  {
    var l' := Perform(l, Authorised(key, on));
    forall i | i in l'.nfts ensures TokenSound(l', i) { assert TokenSound(l, i); }
    forall c | c in l'.collections ensures CollectionSound(l', c) { assert CollectionSound(l, c); }
    forall s | s in l'.bySymbol ensures SymbolSound(l', s) { assert SymbolSound(l, s); }
  }

  lemma ChangeKeepsSound(l: Ledger, ch: Change)
    requires Sound(l) && Admits(l, ch)
    ensures Sound(Perform(l, ch))
  {
    match ch
    case NoChange =>
    case Listed(c) => ListKeepsSound(l, c);
    case Issued(n) => IssueKeepsSound(l, n);
    case Moved(id, to) => RewriteKeepsSound(l, id, l.nfts[id].(owner := to, approved := ""));
    case Delegated(id, agent) => RewriteKeepsSound(l, id, l.nfts[id].(approved := agent));
    case Authorised(key, on) => AuthoriseKeepsSound(l, key, on);
    case Destroyed(id) => DestroyKeepsSound(l, id);
  }

  lemma {:induction false} ReachableSound(next: (Db, Step) -> Db, env: Env, genesis: Db, steps: seq<Step>, k: nat)
    requires IsChain(next, env) && Genesis(genesis) && k <= |steps|
    ensures Sound(LedgerOf(At(next, genesis, steps, k)))
  {
    if k == 0 {
    } else {
      ReachableSound(next, env, genesis, steps, k - 1);
      var db := At(next, genesis, steps, k - 1);
      var ch := StepChange(next, env, db, steps[k - 1]);
      ChangeKeepsSound(LedgerOf(db), ch);
    }
  }

  // ----- identities

  /** Everything about a token but its owner and approval. */
  function Terms(n: Nft): Nft {
    n.(owner := "", approved := "")
  }

  /** No change brings back an old identifier, alters a token's terms or, unless it is a
      move of an unbound token, its owner. */
  lemma ChangeOfToken(l: Ledger, ch: Change, id: nat)
    requires Admits(l, ch)
    ensures var l' := Perform(l, ch);
            && l.nextNftId <= l'.nextNftId
            && (id < l.nextNftId && id in l'.nfts ==>
                && id in l.nfts
                && Terms(l'.nfts[id]) == Terms(l.nfts[id])
                && (l'.nfts[id].owner != l.nfts[id].owner ==>
                      ch == Moved(id, l'.nfts[id].owner) && !l.nfts[id].soulbound))
  {
  }

  /** A state and a later one of the same run, seen through one token. */
  ghost predicate Persists(l: Ledger, l': Ledger, id: nat) {
    && l.nextNftId <= l'.nextNftId
    && (id < l.nextNftId && id in l'.nfts ==>
        && id in l.nfts
        && Terms(l'.nfts[id]) == Terms(l.nfts[id])
        && (l.nfts[id].soulbound ==> l'.nfts[id].owner == l.nfts[id].owner))
  }

  lemma {:induction false} TokenPersists(next: (Db, Step) -> Db, env: Env, genesis: Db, steps: seq<Step>, j: nat,
                                         k: nat, id: nat)
    requires IsChain(next, env) && j <= k <= |steps|
    ensures Persists(LedgerOf(At(next, genesis, steps, j)), LedgerOf(At(next, genesis, steps, k)), id)
    decreases k
  {
    if j < k {
      TokenPersists(next, env, genesis, steps, j, k - 1, id);
      var db := At(next, genesis, steps, k - 1);
      var ch := StepChange(next, env, db, steps[k - 1]);
      ChangeOfToken(LedgerOf(db), ch, id);
    }
  }

  /** Identifiers handed out before state j and present in state k were present all along,
      with unchanged terms: none is ever reused. */
  lemma IdentifiersNotReused(next: (Db, Step) -> Db, env: Env, genesis: Db, steps: seq<Step>, j: nat, k: nat, id: nat)
    requires IsChain(next, env) && j <= k <= |steps|
    requires id < At(next, genesis, steps, j).nextNftId && id in At(next, genesis, steps, k).nfts
    ensures id in At(next, genesis, steps, j).nfts
    ensures Terms(At(next, genesis, steps, k).nfts[id]) == Terms(At(next, genesis, steps, j).nfts[id])
  {
    TokenPersists(next, env, genesis, steps, j, k, id);
  }

  /** A soulbound token keeps its owner for as long as it exists. */
  lemma SoulboundKeepsOwner(next: (Db, Step) -> Db, env: Env, genesis: Db, steps: seq<Step>, j: nat, k: nat, id: nat)
    requires IsChain(next, env) && Genesis(genesis) && j <= k <= |steps|
    requires id in At(next, genesis, steps, j).nfts && id in At(next, genesis, steps, k).nfts
    requires At(next, genesis, steps, j).nfts[id].soulbound
    ensures At(next, genesis, steps, k).nfts[id].owner == At(next, genesis, steps, j).nfts[id].owner
  {
    ReachableSound(next, env, genesis, steps, j);
    assert TokenSound(LedgerOf(At(next, genesis, steps, j)), id);
    TokenPersists(next, env, genesis, steps, j, k, id);
  }

  /** A token's owner changes only by an accepted transfer, which makes the receiver the owner. */
  lemma OwnerChangesOnlyByTransfer(next: (Db, Step) -> Db, env: Env, genesis: Db, steps: seq<Step>, k: nat, id: nat)
    requires IsChain(next, env) && Genesis(genesis) && k < |steps|
    requires id in At(next, genesis, steps, k).nfts && id in At(next, genesis, steps, k + 1).nfts
    requires At(next, genesis, steps, k + 1).nfts[id].owner != At(next, genesis, steps, k).nfts[id].owner
    ensures TransfersAway(At(next, genesis, steps, k), steps[k], id)
    ensures At(next, genesis, steps, k + 1).nfts[id].owner == steps[k].nft.transfer.to
  {
    var db := At(next, genesis, steps, k);
    ReachableSound(next, env, genesis, steps, k);
    assert TokenSound(LedgerOf(db), id);
    var ch := StepChange(next, env, db, steps[k]);
    assert At(next, genesis, steps, k + 1) == next(db, steps[k]);
    ChangeOfToken(LedgerOf(db), ch, id);
  }

  /** Tokens appear only by a mint of the collection's creator, under the next unused
      identifier, and disappear only when their owner burns them. */
  lemma TokensComeAndGo(next: (Db, Step) -> Db, env: Env, genesis: Db, steps: seq<Step>, k: nat, id: nat)
    requires IsChain(next, env) && k < |steps|
    ensures var db, db' := At(next, genesis, steps, k), At(next, genesis, steps, k + 1);
            && (id !in db.nfts && id in db'.nfts ==> id == db.nextNftId && MintsToken(db, steps[k], db'.nfts[id]))
            && (id in db.nfts && id !in db'.nfts ==> BurnsToken(db, steps[k], id))
  {
    var db := At(next, genesis, steps, k);
    var ch := StepChange(next, env, db, steps[k]);
    assert At(next, genesis, steps, k + 1) == next(db, steps[k]);
  }

  // ----- custody

  ghost predicate Holds(l: Ledger, id: nat, owner: Name, approved: Name) {
    id in l.nfts && l.nfts[id].owner == owner && l.nfts[id].approved == approved
  }

  /** At step j the owner approved the agent for the token, and has owned it, with that
      approval standing, from then until state k. */
  ghost predicate ApprovedSince(next: (Db, Step) -> Db, genesis: Db, steps: seq<Step>, j: nat, k: nat, id: nat,
                                owner: Name, agent: Name)
    requires k <= |steps|
  {
    && j < k
    && Approves(At(next, genesis, steps, j), steps[j], id, owner, agent)
    && forall i :: j < i <= k ==> Holds(LedgerOf(At(next, genesis, steps, i)), id, owner, agent)
  }

  /** At step j the owner granted the operator, and no accepted step since has revoked it. */
  ghost predicate GrantedSince(next: (Db, Step) -> Db, genesis: Db, steps: seq<Step>, j: nat, k: nat, key: OperatorKey)
    requires k <= |steps|
  {
    && j < k
    && SetsGrant(At(next, genesis, steps, j), steps[j], key, true)
    && forall i :: j < i < k ==> !SetsGrant(At(next, genesis, steps, i), steps[i], key, false)
  }

  lemma ApprovalOrigin(l: Ledger, ch: Change, id: nat)
    requires Admits(l, ch) && id in Perform(l, ch).nfts && Perform(l, ch).nfts[id].approved != ""
    ensures var n := Perform(l, ch).nfts[id];
            Holds(l, id, n.owner, n.approved) || (ch == Delegated(id, n.approved) && n.owner == l.nfts[id].owner)
  {
  }

  lemma {:induction false} StandingApproval(next: (Db, Step) -> Db, env: Env, genesis: Db, steps: seq<Step>, k: nat,
                                            id: nat) returns (j: nat)
    requires IsChain(next, env) && Genesis(genesis) && k <= |steps|
    requires id in At(next, genesis, steps, k).nfts && At(next, genesis, steps, k).nfts[id].approved != ""
    ensures var n := At(next, genesis, steps, k).nfts[id];
            ApprovedSince(next, genesis, steps, j, k, id, n.owner, n.approved)
    decreases k
  {
    var db, db' := At(next, genesis, steps, k - 1), At(next, genesis, steps, k);
    var ch := StepChange(next, env, db, steps[k - 1]);
    ApprovalOrigin(LedgerOf(db), ch, id);
    var n := db'.nfts[id];
    assert Holds(LedgerOf(db'), id, n.owner, n.approved);
    if Holds(LedgerOf(db), id, n.owner, n.approved) {
      j := StandingApproval(next, env, genesis, steps, k - 1, id);
    } else {
      j := k - 1;
    }
  }

  lemma GrantOrigin(db: Db, step: Step, db': Db, ch: Change, key: OperatorKey)
    requires LedgerStep(db, step, db', ch) && key in db'.operators
    ensures (key in db.operators && !SetsGrant(db, step, key, false)) || SetsGrant(db, step, key, true)
  {
    if ch.Authorised? {
      assert ch.key == key ==> ch.on;
    } else {
      assert !SetsGrant(db, step, key, false);
      assert db'.operators == db.operators;
    }
  }

  lemma {:induction false} StandingGrant(next: (Db, Step) -> Db, env: Env, genesis: Db, steps: seq<Step>, k: nat,
                                         key: OperatorKey) returns (j: nat)
    requires IsChain(next, env) && Genesis(genesis) && k <= |steps|
    requires key in At(next, genesis, steps, k).operators
    ensures GrantedSince(next, genesis, steps, j, k, key)
    decreases k
  {
    var db := At(next, genesis, steps, k - 1);
    var ch := StepChange(next, env, db, steps[k - 1]);
    GrantOrigin(db, steps[k - 1], next(db, steps[k - 1]), ch, key);
    if key in db.operators && !SetsGrant(db, steps[k - 1], key, false) {
      j := StandingGrant(next, env, genesis, steps, k - 1, key);
    } else {
      j := k - 1;
    }
  }

  /** Every accepted transfer is made by the owner, or by an account the present owner
      approved for the token since acquiring it, or by an operator whose grant from the
      present owner has not been revoked; and the token is not soulbound. */
  lemma TransferIsAuthorised(next: (Db, Step) -> Db, env: Env, genesis: Db, steps: seq<Step>, k: nat, op: TransferOp)
    requires IsChain(next, env) && Genesis(genesis) && k <= |steps|
    requires CanTransfer(At(next, genesis, steps, k), op)
    ensures var n := At(next, genesis, steps, k).nfts[op.nftId];
            && !n.soulbound
            && (|| op.from == n.owner
                || (exists j :: ApprovedSince(next, genesis, steps, j, k, op.nftId, n.owner, op.from))
                || (exists j :: GrantedSince(next, genesis, steps, j, k, OperatorKey(n.owner, op.from, n.collection)))
                || (exists j :: GrantedSince(next, genesis, steps, j, k, OperatorKey(n.owner, op.from, 0))))
  {
    var db := At(next, genesis, steps, k);
    var n := db.nfts[op.nftId];
    var own, all := OperatorKey(n.owner, op.from, n.collection), OperatorKey(n.owner, op.from, 0);
    if n.owner == op.from {
    } else if n.approved == op.from {
      var j := StandingApproval(next, env, genesis, steps, k, op.nftId);
    } else if own in db.operators {
      var j := StandingGrant(next, env, genesis, steps, k, own);
    } else {
      var j := StandingGrant(next, env, genesis, steps, k, all);
    }
  }
}
