/** The cache-aside account index over the database
    (include/hive_native/chain/account_index.hpp, include/hive_native/perf/account_cache.hpp). */
module AccountIndex {
  import opened Types
  import opened Wrappers
  import opened Chain
  import opened Evaluators
  import opened ProbeTable
  import opened FlatHashMap

  // ----- requests, with and without a cache

  datatype Request =
    | CreateAccount(name: Name, hive: int, hbd: int)
    | FindAccount(name: Name)
    | ReadBalance(name: Name, sym: Symbol)
    | Adjusting(name: Name, delta: Asset)
    | ClearAll
    | Toggle(on: bool)

  datatype Answer = Done(ok: bool) | Account(found: Option<Balance>) | Amount(amount: Option<int>)

  /** What the request does to the balances when there is no cache. */
  ghost function Effect(balances: map<Name, Balance>, r: Request): map<Name, Balance> {
    match r
    case CreateAccount(name, hive, hbd) => if ValidName(name) then balances[name := Balance(hive, hbd)] else balances
    case Adjusting(name, delta) => if CanAdjust(balances, name, delta) then Adjust(balances, name, delta) else balances
    case _ => balances
  }

  ghost function AmountIn(found: Option<Balance>, sym: Symbol): Option<int> {
    match found
    case None => None
    case Some(b) => Some(b.Of(sym))
  }

  /** What the request answers when there is no cache. */
  ghost function Reply(balances: map<Name, Balance>, r: Request): Answer {
    match r
    case CreateAccount(name, _, _) => Done(ValidName(name))
    case FindAccount(name) => Account(Get(balances, name))
    case ReadBalance(name, sym) => Amount(AmountIn(Get(balances, name), sym))
    case Adjusting(name, delta) => Done(CanAdjust(balances, name, delta))
    case ClearAll => Done(true)
    case Toggle(_) => Done(true)
  }

  /** The answers to a run when there is no cache. */
  ghost function Replies(balances: map<Name, Balance>, rs: seq<Request>): seq<Answer>
    decreases |rs|
  {
    if rs == [] then [] else [Reply(balances, rs[0])] + Replies(Effect(balances, rs[0]), rs[1..])
  }

  /** Database balances, cache slots and the switch. */
  datatype State = State(balances: map<Name, Balance>, slots: seq<Slot<Name, Balance>>, enabled: bool)

  /** What a lookup answers: the cached balance, or else the database's. */
  ghost function Seen(st: State, hash: Name -> nat, name: Name): Option<Balance> {
    var hit := Lookup(st.slots, hash, name);
    if st.enabled && hit.Some? then hit else Get(st.balances, name)
  }

  /** A lookup that misses the cache and finds the account fills the cache. */
  ghost function Filled(st: State, hash: Name -> nat, name: Name): State {
    if st.enabled && Lookup(st.slots, hash, name).None? && name in st.balances
    then st.(slots := Inserted(st.slots, hash, name, st.balances[name]))
    else st
  }

  ghost function Served(st: State, hash: Name -> nat, r: Request): State {
    match r
    case CreateAccount(name, hive, hbd) =>
      if !ValidName(name) then st
      else State(st.balances[name := Balance(hive, hbd)],
                 if st.enabled then Inserted(st.slots, hash, name, Balance(hive, hbd)) else st.slots, st.enabled)
    case FindAccount(name) => Filled(st, hash, name)
    case ReadBalance(name, _) => Filled(st, hash, name)
    case Adjusting(name, delta) =>
      if !CanAdjust(st.balances, name, delta) then st
      else State(Adjust(st.balances, name, delta),
                 if st.enabled then Erased(st.slots, hash, name) else st.slots, st.enabled)
    case ClearAll => st.(slots := Blank(|st.slots|))
    case Toggle(on) => State(st.balances, if on then st.slots else Blank(|st.slots|), on)
  }

  ghost function Said(st: State, hash: Name -> nat, r: Request): Answer {
    match r
    case FindAccount(name) => Account(Seen(st, hash, name))
    case ReadBalance(name, sym) => Amount(AmountIn(Seen(st, hash, name), sym))
    case _ => Reply(st.balances, r)
  }

  ghost function StateAfter(st: State, hash: Name -> nat, rs: seq<Request>): State
    decreases |rs|
  {
    if rs == [] then st else StateAfter(Served(st, hash, rs[0]), hash, rs[1..])
  }

  ghost function Answers(st: State, hash: Name -> nat, rs: seq<Request>): seq<Answer>
    decreases |rs|
  {
    if rs == [] then [] else [Said(st, hash, rs[0])] + Answers(Served(st, hash, rs[0]), hash, rs[1..])
  }

  class Index {
    const db: Database
    const cache: HashMap<Name, Balance>
    var cacheEnabled: bool

    ghost predicate Valid()
      reads this, cache, cache.slots
    {
      cache.Valid()
    }

    ghost function Value(): State
      reads this, db, cache, cache.slots
    {
      State(db.balances, cache.slots[..], cacheEnabled)
    }

    /** The cache's own array, or a new one. */
    twostate predicate SlotsKept()
      reads this, cache
    {
      cache.slots == old(cache.slots) || fresh(cache.slots)
    }

    constructor (db: Database, enabled: bool, hash: Name -> nat)
      ensures Valid() && this.db == db && cache.hash == hash
      ensures Value() == State(db.balances, Blank(64), enabled)
      ensures fresh(cache) && fresh(cache.slots)
    {
      this.db := db;
      cacheEnabled := enabled;
      cache := new HashMap<Name, Balance>(64, hash);
      new;
      SixtyFour();
    }

    method ClearCache()
      requires Valid()
      modifies cache, cache.slots
      ensures Valid() && SlotsKept()
      ensures Value() == Served(old(Value()), cache.hash, ClearAll)
    {
      cache.Clear();
    }

    method SetCacheEnabled(on: bool)
      requires Valid()
      modifies this, cache, cache.slots
      ensures Valid() && SlotsKept()
      ensures Value() == Served(old(Value()), cache.hash, Toggle(on))
    {
      cacheEnabled := on;
      if !on { cache.Clear(); }
    }

    /** Writes through and seeds the cache. */
    method Create(name: Name, hive: int, hbd: int) returns (ok: bool)
      requires Valid()
      modifies db`balances, cache, cache.slots
      ensures Valid() && SlotsKept()
      ensures Value() == Served(old(Value()), cache.hash, CreateAccount(name, hive, hbd))
      ensures ok <==> ValidName(name)
    {
      ok := db.CreateAccount(name, hive, hbd);
      if ok && cacheEnabled {
        var added := cache.Insert(name, Balance(hive, hbd));
      }
    }

    /** A hit answers from the cache; a miss answers from the database and fills the cache. */
    method Find(name: Name) returns (r: Option<Balance>)
      requires Valid()
      modifies cache, cache.slots
      ensures Valid() && SlotsKept()
      ensures Value() == Served(old(Value()), cache.hash, FindAccount(name))
      ensures r == Seen(old(Value()), cache.hash, name)
    {
      if cacheEnabled {
        var hit := cache.Lookup(name);
        if hit.Some? { return hit; }
      }
      if name !in db.balances { return None; }
      if cacheEnabled {
        var added := cache.Insert(name, db.balances[name]);
      }
      return Some(db.balances[name]);
    }

    method GetBalance(name: Name, sym: Symbol) returns (r: Option<int>)
      requires Valid()
      modifies cache, cache.slots
      ensures Valid() && SlotsKept()
      ensures Value() == Served(old(Value()), cache.hash, ReadBalance(name, sym))
      ensures r == AmountIn(Seen(old(Value()), cache.hash, name), sym)
      ensures var seen := Seen(old(Value()), cache.hash, name);
              r == if seen.None? then None else Some(if sym == HIVE then seen.value.hive else seen.value.hbd)
    {
      var found := Find(name);
      match found
      case None => r := None;
      case Some(b) => r := Some(if sym.HIVE? then b.hive else b.hbd);
    }

    /** Writes through and drops the cached entry. */
    method AdjustBalance(name: Name, delta: Asset) returns (ok: bool)
      requires Valid()
      modifies db`balances, cache, cache.slots
      ensures Valid() && SlotsKept()
      ensures Value() == Served(old(Value()), cache.hash, Adjusting(name, delta))
      ensures ok <==> CanAdjust(old(db.balances), name, delta)
    {
      ok := db.AdjustBalance(name, delta);
      if ok && cacheEnabled {
        var removed := cache.Erase(name);
      }
    }

    method Serve(r: Request) returns (a: Answer)
      requires Valid()
      modifies this, db`balances, cache, cache.slots
      ensures Valid() && SlotsKept()
      ensures Value() == Served(old(Value()), cache.hash, r)
      ensures a == Said(old(Value()), cache.hash, r)
    {
      match r
      case CreateAccount(name, hive, hbd) =>
        var ok := Create(name, hive, hbd);
        a := Done(ok);
      case FindAccount(name) =>
        var found := Find(name);
        a := Account(found);
      case ReadBalance(name, sym) =>
        var amount := GetBalance(name, sym);
        a := Amount(amount);
      case Adjusting(name, delta) =>
        var ok := AdjustBalance(name, delta);
        a := Done(ok);
      case ClearAll =>
        ClearCache();
        a := Done(true);
      case Toggle(on) =>
        SetCacheEnabled(on);
        a := Done(true);
    }

    /** Serves any run of requests. */
    method ServeAll(rs: seq<Request>) returns (answers: seq<Answer>)
      requires Valid()
      modifies this, db`balances, cache, cache.slots
      ensures Valid()
      ensures answers == Answers(old(Value()), cache.hash, rs)
      ensures Value() == StateAfter(old(Value()), cache.hash, rs)
    {
      ghost var start := Value();
      answers := [];
      assert rs[0..] == rs;
      for k := 0 to |rs|
        invariant Valid() && SlotsKept()
        invariant answers + Answers(Value(), cache.hash, rs[k..]) == Answers(start, cache.hash, rs)
        invariant StateAfter(Value(), cache.hash, rs[k..]) == StateAfter(start, cache.hash, rs)
      {
        RunUnfolds(Value(), cache.hash, rs, k);
        var a := Serve(rs[k]);
        answers := answers + [a];
      }
      assert rs[|rs|..] == [];
    }
  }

  lemma RunUnfolds(st: State, hash: Name -> nat, rs: seq<Request>, k: nat)
    requires k < |rs|
    ensures Answers(st, hash, rs[k..]) == [Said(st, hash, rs[k])] + Answers(Served(st, hash, rs[k]), hash, rs[k + 1..])
    ensures StateAfter(st, hash, rs[k..]) == StateAfter(Served(st, hash, rs[k]), hash, rs[k + 1..])
  {
    assert rs[k..][0] == rs[k] && rs[k..][1..] == rs[k + 1..];
  }

  lemma SixtyFour()
    ensures Doubled(1, 64) == 64
  {
    assert Doubled(1, 64) == Doubled(2, 64) == Doubled(4, 64) == Doubled(8, 64);
    assert Doubled(8, 64) == Doubled(16, 64) == Doubled(32, 64) == Doubled(64, 64);
  }

  // ----- coherence

  /** The cache is a map, empty when switched off, and every cached balance is the one the
      database holds. */
  ghost predicate Coherent(st: State, hash: Name -> nat) {
    && st.slots != [] && Reachable(st.slots, hash) && NoDuplicates(st.slots)
    && (!st.enabled ==> Contents(st.slots) == map[])
    && forall name :: name in Contents(st.slots) ==> Get(st.balances, name) == Some(Contents(st.slots)[name])
  }

  lemma NewIndexIsCoherent(balances: map<Name, Balance>, cap: nat, enabled: bool, hash: Name -> nat)
    requires cap > 0
    ensures Coherent(State(balances, Blank(cap), enabled), hash)
  {
    WipeIsEmpty<Name, Balance>(cap, hash);
  }

  /** The request creates an account whose name is cached behind a tombstone. */
  ghost predicate Shadows(st: State, hash: Name -> nat, r: Request) {
    r.CreateAccount? && ValidName(r.name) && st.enabled && !Crowded(st.slots) && BehindTomb(st.slots, hash, r.name)
  }

  lemma CreatedIsCoherent(st: State, hash: Name -> nat, name: Name, hive: int, hbd: int)
    requires Coherent(st, hash) && !Shadows(st, hash, CreateAccount(name, hive, hbd))
    ensures Coherent(Served(st, hash, CreateAccount(name, hive, hbd)), hash)
  {
    if ValidName(name) && st.enabled {
      InsertedRefines(st.slots, hash, name, Balance(hive, hbd));
      GrownHolds(st.slots, hash);
    }
  }

  lemma FilledIsCoherent(st: State, hash: Name -> nat, name: Name)
    requires Coherent(st, hash)
    ensures Coherent(Filled(st, hash, name), hash) && Seen(st, hash, name) == Get(st.balances, name)
  {
    LookupIsContents(st.slots, hash, name);
    if st.enabled && Lookup(st.slots, hash, name).None? && name in st.balances {
      AbsentIsSafe(st.slots, hash, Put(name, st.balances[name]), Contents(st.slots));
      InsertedRefines(st.slots, hash, name, st.balances[name]);
      GrownHolds(st.slots, hash);
    }
  }

  lemma AdjustedIsCoherent(st: State, hash: Name -> nat, name: Name, delta: Asset)
    requires Coherent(st, hash)
    ensures Coherent(Served(st, hash, Adjusting(name, delta)), hash)
  {
    if st.enabled { ErasedRefines(st.slots, hash, name); }
  }

  /** Every request on a coherent index is answered as by the database alone, and the index
      stays coherent unless an account cached behind a tombstone is created again. */
  lemma ServedIsCoherent(st: State, hash: Name -> nat, r: Request)
    requires Coherent(st, hash)
    ensures Said(st, hash, r) == Reply(st.balances, r)
    ensures Served(st, hash, r).balances == Effect(st.balances, r)
    ensures !Shadows(st, hash, r) ==> Coherent(Served(st, hash, r), hash)
  {
    match r
    case CreateAccount(name, hive, hbd) =>
      if !Shadows(st, hash, r) { CreatedIsCoherent(st, hash, name, hive, hbd); }
    case FindAccount(name) => FilledIsCoherent(st, hash, name);
    case ReadBalance(name, _) => FilledIsCoherent(st, hash, name);
    case Adjusting(name, delta) => AdjustedIsCoherent(st, hash, name, delta);
    case ClearAll => WipeIsEmpty<Name, Balance>(|st.slots|, hash);
    case Toggle(_) => WipeIsEmpty<Name, Balance>(|st.slots|, hash);
  }

  // ----- runs that create only new names

  ghost predicate CreatesOnlyFresh(balances: map<Name, Balance>, rs: seq<Request>)
    decreases |rs|
  {
    rs != [] ==>
      && (rs[0].CreateAccount? ==> rs[0].name !in balances)
      && CreatesOnlyFresh(Effect(balances, rs[0]), rs[1..])
  }

  lemma FreshDoesNotShadow(st: State, hash: Name -> nat, r: Request)
    requires Coherent(st, hash) && (r.CreateAccount? ==> r.name !in st.balances || r.name !in Contents(st.slots))
    ensures !Shadows(st, hash, r)
  {
    if r.CreateAccount? {
      AbsentIsSafe(st.slots, hash, Put(r.name, Balance(r.hive, r.hbd)), Contents(st.slots));
    }
  }

  /** No request of the run creates an account already cached behind a tombstone. */
  ghost predicate NeverShadows(st: State, hash: Name -> nat, rs: seq<Request>)
    decreases |rs|
  {
    rs != [] ==> !Shadows(st, hash, rs[0]) && NeverShadows(Served(st, hash, rs[0]), hash, rs[1..])
  }

  /** Every run on a coherent index that never shadows is answered as by the database alone,
      whether the cache is on, off, hit or missed. */
  lemma {:induction false} UnshadowedRunsAnswerRight(st: State, hash: Name -> nat, rs: seq<Request>)
    requires Coherent(st, hash) && NeverShadows(st, hash, rs)
    ensures Answers(st, hash, rs) == Replies(st.balances, rs)
    ensures Coherent(StateAfter(st, hash, rs), hash)
    decreases |rs|
  {
    if rs == [] {
    } else {
      ServedIsCoherent(st, hash, rs[0]);
      UnshadowedRunsAnswerRight(Served(st, hash, rs[0]), hash, rs[1..]);
    }
  }

  lemma {:induction false} FreshRunsNeverShadow(st: State, hash: Name -> nat, rs: seq<Request>)
    requires Coherent(st, hash) && CreatesOnlyFresh(st.balances, rs)
    ensures NeverShadows(st, hash, rs)
    decreases |rs|
  {
    if rs == [] {
    } else {
      FreshDoesNotShadow(st, hash, rs[0]);
      ServedIsCoherent(st, hash, rs[0]);
      FreshRunsNeverShadow(Served(st, hash, rs[0]), hash, rs[1..]);
    }
  }

  /** So is every run that creates only new names. */
  lemma FreshRunsAnswerRight(st: State, hash: Name -> nat, rs: seq<Request>)
    requires Coherent(st, hash) && CreatesOnlyFresh(st.balances, rs)
    ensures Answers(st, hash, rs) == Replies(st.balances, rs)
    ensures Coherent(StateAfter(st, hash, rs), hash)
  {
    FreshRunsNeverShadow(st, hash, rs);
    UnshadowedRunsAnswerRight(st, hash, rs);
  }

  // ----- what the answers say, field by field

  ghost function HiveIn(b: Option<Balance>): Option<int> {
    if b.Some? then Some(b.value.hive) else None
  }

  ghost function HbdIn(b: Option<Balance>): Option<int> {
    if b.Some? then Some(b.value.hbd) else None
  }

  /** The account's balance after the run, given the one before it: set by a creation under a
      valid name, and changed in one field by every adjustment that leaves it no debt. */
  ghost function AfterRun(b: Option<Balance>, name: Name, rs: seq<Request>): Option<Balance>
    decreases |rs|
  {
    if rs == [] then b else AfterRun(AfterRequest(b, name, rs[0]), name, rs[1..])
  }

  ghost function AfterRequest(b: Option<Balance>, name: Name, r: Request): Option<Balance> {
    match r
    case CreateAccount(n, hive, hbd) => if n == name && ValidName(n) then Some(Balance(hive, hbd)) else b
    case Adjusting(n, Asset(d, HIVE)) =>
      if n == name && b.Some? && (d >= 0 || b.value.hive + d >= 0)
      then Some(Balance(b.value.hive + d, b.value.hbd)) else b
    case Adjusting(n, Asset(d, HBD)) =>
      if n == name && b.Some? && (d >= 0 || b.value.hbd + d >= 0)
      then Some(Balance(b.value.hive, b.value.hbd + d)) else b
    case _ => b
  }

  lemma {:induction false} RunKeepsAccounts(st: State, hash: Name -> nat, rs: seq<Request>, name: Name)
    ensures Get(StateAfter(st, hash, rs).balances, name) == AfterRun(Get(st.balances, name), name, rs)
    decreases |rs|
  {
    if rs == [] {
    } else {
      assert Get(Served(st, hash, rs[0]).balances, name) == AfterRequest(Get(st.balances, name), name, rs[0]);
      RunKeepsAccounts(Served(st, hash, rs[0]), hash, rs[1..], name);
    }
  }

  /** After a run that never shadows, lookups and readings answer with the fields of the
      balance that the creations and adjustments of the account have led to, and an adjustment
      is accepted exactly when the account exists and a debit is covered. */
  lemma AnswersAreBalances(st: State, hash: Name -> nat, rs: seq<Request>, name: Name, d: int)
    requires Coherent(st, hash) && NeverShadows(st, hash, rs)
    ensures var b, st' := AfterRun(Get(st.balances, name), name, rs), StateAfter(st, hash, rs);
            && Said(st', hash, FindAccount(name)) == Account(b)
            && Said(st', hash, ReadBalance(name, HIVE)) == Amount(HiveIn(b))
            && Said(st', hash, ReadBalance(name, HBD)) == Amount(HbdIn(b))
            && Said(st', hash, Adjusting(name, Asset(d, HIVE))) == Done(b.Some? && (d >= 0 || b.value.hive + d >= 0))
            && Said(st', hash, Adjusting(name, Asset(d, HBD))) == Done(b.Some? && (d >= 0 || b.value.hbd + d >= 0))
  {
    UnshadowedRunsAnswerRight(st, hash, rs);
    RunKeepsAccounts(st, hash, rs, name);
    FilledIsCoherent(StateAfter(st, hash, rs), hash, name);
  }

  // ----- what the cache holds

  /** A lookup that finds an account leaves it in the cache, so that the next one is a hit. */
  lemma FindFillsCache(st: State, hash: Name -> nat, name: Name)
    requires Coherent(st, hash) && st.enabled && name in st.balances
    ensures Lookup(Served(st, hash, FindAccount(name)).slots, hash, name) == Some(st.balances[name])
  {
    LookupIsContents(st.slots, hash, name);
    InsertedRefines(st.slots, hash, name, st.balances[name]);
  }

  /** An accepted adjustment takes the account out of the cache. */
  lemma AdjustmentDropsEntry(st: State, hash: Name -> nat, name: Name, delta: Asset)
    requires Coherent(st, hash) && st.enabled && Said(st, hash, Adjusting(name, delta)) == Done(true)
    ensures Lookup(Served(st, hash, Adjusting(name, delta)).slots, hash, name).None?
  {
    ErasedLookup(st.slots, hash, name, name);
  }

  /** Clearing the cache and switching it off empty it. */
  lemma ClearingEmpties(st: State, hash: Name -> nat)
    ensures Contents(Served(st, hash, ClearAll).slots) == map[] == Contents(Served(st, hash, Toggle(false)).slots)
  {
    WipeIsEmpty<Name, Balance>(|st.slots|, hash);
  }

  // ----- creating an existing name

  /** Where the balance changes by d in an account just created behind a tombstone, a
      lookup still answers with the balance from before the creation. */
  lemma StaleAfterCreate(st: State, hash: Name -> nat, name: Name, hive: int, hbd: int, d: nat)
    requires Coherent(st, hash) && Shadows(st, hash, CreateAccount(name, hive, hbd))
    ensures var created := Served(st, hash, CreateAccount(name, hive, hbd));
            var adjusted := Served(created, hash, Adjusting(name, Asset(d, HIVE)));
            && name in st.balances
            && adjusted.balances[name] == Balance(hive + d, hbd)
            && Seen(adjusted, hash, name) == Some(st.balances[name])
  {
    StaleValueReturns(st.slots, hash, name, Balance(hive, hbd));
    LookupIsContents(st.slots, hash, name);
  }

  /** The index answers every run from here that creates only new names as the database
      alone would. */
  ghost predicate StaysRight(st: State, hash: Name -> nat) {
    forall rs :: CreatesOnlyFresh(st.balances, rs) ==> Answers(st, hash, rs) == Replies(st.balances, rs)
  }

  lemma TwoRequests(st: State, hash: Name -> nat, p: Request, q: Request)
    requires !p.CreateAccount? && !q.CreateAccount?
    ensures CreatesOnlyFresh(st.balances, [p, q])
    ensures Answers(st, hash, [p, q])[1..] == [Said(Served(st, hash, p), hash, q)]
    ensures Replies(st.balances, [p, q])[1..] == [Reply(Effect(st.balances, p), q)]
  {
    assert [p, q][1..] == [q] && [q][1..] == [];
    assert CreatesOnlyFresh(Effect(st.balances, p), [q]);
    assert Answers(Served(st, hash, p), hash, [q]) == [Said(Served(st, hash, p), hash, q)];
    assert Replies(Effect(st.balances, p), [q]) == [Reply(Effect(st.balances, p), q)];
  }

  /** After creating an account the index is right on all runs that create only new names
      exactly when the name was not cached behind a tombstone. */
  lemma CreateExactly(st: State, hash: Name -> nat, name: Name, hive: int, hbd: int)
    requires Coherent(st, hash)
    ensures StaysRight(Served(st, hash, CreateAccount(name, hive, hbd)), hash) <==>
            !Shadows(st, hash, CreateAccount(name, hive, hbd))
  {
    var r := CreateAccount(name, hive, hbd);
    var created := Served(st, hash, r);
    if Shadows(st, hash, r) {
      StaleAfterCreate(st, hash, name, hive, hbd, 0);
      var d := if st.balances[name].hive == hive then 1 else 0;
      StaleAfterCreate(st, hash, name, hive, hbd, d);
      TwoRequests(created, hash, Adjusting(name, Asset(d, HIVE)), FindAccount(name));
    } else {
      ServedIsCoherent(st, hash, r);
      forall rs | CreatesOnlyFresh(created.balances, rs)
        ensures Answers(created, hash, rs) == Replies(created.balances, rs)
      {
        FreshRunsAnswerRight(created, hash, rs);
      }
    }
  }

  /** The index is right at the start of the run and after each of its requests. */
  ghost predicate StaysRightAlong(st: State, hash: Name -> nat, rs: seq<Request>)
    decreases |rs|
  {
    StaysRight(st, hash) && (rs != [] ==> StaysRightAlong(Served(st, hash, rs[0]), hash, rs[1..]))
  }

  /** Along any run, of whatever requests, a coherent index stays right exactly when no
      request creates an account already cached behind a tombstone. */
  lemma {:induction false} StaysRightExactly(st: State, hash: Name -> nat, rs: seq<Request>)
    requires Coherent(st, hash)
    ensures StaysRightAlong(st, hash, rs) <==> NeverShadows(st, hash, rs)
    decreases |rs|
  {
    forall more | CreatesOnlyFresh(st.balances, more) ensures Answers(st, hash, more) == Replies(st.balances, more) {
      FreshRunsAnswerRight(st, hash, more);
    }
    if rs == [] {
    } else {
      ServedIsCoherent(st, hash, rs[0]);
      if Shadows(st, hash, rs[0]) {
        CreateExactly(st, hash, rs[0].name, rs[0].hive, rs[0].hbd);
      } else {
        StaysRightExactly(Served(st, hash, rs[0]), hash, rs[1..]);
      }
    }
  }

  // ----- every hash function lets a new index go stale

  /** Letters two by two: sixty-five names and more. */
  function NameNo(k: nat): (name: Name)
    requires k < 72
    ensures ValidName(name)
  {
    [('a' as int + k / 8) as char, ('a' as int + k % 8) as char]
  }

  lemma NamesDiffer(i: nat, j: nat)
    requires i < j < 72
    ensures NameNo(i) != NameNo(j)
  {
    assert NameNo(i)[0] != NameNo(j)[0] || NameNo(i)[1] != NameNo(j)[1];
  }

  ghost function Image(f: nat -> nat, n: nat): set<nat> {
    if n == 0 then {} else Image(f, n - 1) + {f(n - 1)}
  }

  lemma {:induction false} InImage(f: nat -> nat, n: nat, x: nat)
    ensures x in Image(f, n) <==> exists k: nat :: k < n && f(k) == x
  {
    if n == 0 {
    } else {
      InImage(f, n - 1, x);
    }
  }

  lemma {:induction false} BoundedSet(s: set<nat>, n: nat)
    requires forall x :: x in s ==> x < n
    ensures |s| <= n
  {
    if n == 0 {
    } else {
      BoundedSet(s - {n - 1}, n - 1);
      if n - 1 in s { assert s == (s - {n - 1}) + {n - 1}; } else { assert s == s - {n - 1}; }
    }
  }

  /** Either the first n values of f are different or two of them are the same. */
  lemma {:induction false} RepeatedValue(f: nat -> nat, n: nat)
    ensures |Image(f, n)| == n || exists i: nat, j: nat :: i < j < n && f(i) == f(j)
  {
    if n == 0 {
    } else {
      RepeatedValue(f, n - 1);
      InImage(f, n - 1, f(n - 1));
    }
  }

  lemma Pigeonhole(f: nat -> nat, n: nat) returns (i: nat, j: nat)
    requires forall k: nat :: f(k) < n
    ensures i < j <= n && f(i) == f(j)
  {
    RepeatedValue(f, n + 1);
    var image := Image(f, n + 1);
    forall x | x in image ensures x < n { InImage(f, n + 1, x); }
    BoundedSet(image, n);
    i, j :| i < j < n + 1 && f(i) == f(j);
  }

  /** Every hash function sends two of sixty-five names to one slot of sixty-four. */
  lemma CollidingNames(hash: Name -> nat) returns (a: Name, b: Name)
    ensures ValidName(a) && ValidName(b) && a != b && Home(hash, a, 64) == Home(hash, b, 64)
  {
    var f := (k: nat) => if k < 72 then Home(hash, NameNo(k), 64) else 0;
    var i, j := Pigeonhole(f, 64);
    NamesDiffer(i, j);
    a, b := NameNo(i), NameNo(j);
  }

  lemma {:induction false} ServedInTurn(st: State, hash: Name -> nat, rs: seq<Request>, r: Request)
    ensures StateAfter(st, hash, rs + [r]) == Served(StateAfter(st, hash, rs), hash, r)
    ensures Answers(st, hash, rs + [r]) == Answers(st, hash, rs) + [Said(StateAfter(st, hash, rs), hash, r)]
    ensures Replies(st.balances, rs + [r]) == Replies(st.balances, rs) + [Reply(StateAfter(st, hash, rs).balances, r)]
    decreases |rs|
  {
    if rs == [] {
      assert rs + [r] == [r] && [r][1..] == [];
      assert Answers(Served(st, hash, r), hash, []) == [];
      assert Replies(Effect(st.balances, r), []) == [];
    } else {
      assert Served(st, hash, rs[0]).balances == Effect(st.balances, rs[0]);
      assert (rs + [r])[0] == rs[0] && (rs + [r])[1..] == rs[1..] + [r];
      ServedInTurn(Served(st, hash, rs[0]), hash, rs[1..], r);
    }
  }

  /** b is created, a is created, and b is adjusted by nothing. */
  function Hiding(a: Name, b: Name, v: Balance): seq<Request> {
    [CreateAccount(b, 0, 0), CreateAccount(a, v.hive, v.hbd), Adjusting(b, Asset(0, HIVE))]
  }

  lemma HidingState(balances: map<Name, Balance>, cap: nat, hash: Name -> nat, a: Name, b: Name, v: Balance)
    requires ValidName(a) && ValidName(b) && a != b
    ensures StateAfter(State(balances, Blank(cap), true), hash, Hiding(a, b, v)) ==
            State(Adjust(balances[b := Balance(0, 0)][a := v], b, Asset(0, HIVE)),
                  Erased(Inserted(Inserted(Blank(cap), hash, b, Balance(0, 0)), hash, a, v), hash, b), true)
  {
    var st := State(balances, Blank(cap), true);
    var p, q, r := CreateAccount(b, 0, 0), CreateAccount(a, v.hive, v.hbd), Adjusting(b, Asset(0, HIVE));
    ServedInTurn(st, hash, [], p);
    ServedInTurn(st, hash, [p], q);
    ServedInTurn(st, hash, [p, q], r);
    assert [] + [p] == [p] && [p] + [q] == [p, q] && [p, q] + [r] == Hiding(a, b, v);
  }

  lemma HidingIsCoherent(balances: map<Name, Balance>, cap: nat, hash: Name -> nat, a: Name, b: Name, v: Balance)
    requires cap > 0 && ValidName(b) && a != b
    ensures Coherent(StateAfter(State(balances, Blank(cap), true), hash, Hiding(a, b, v)), hash)
  {
    var st0 := State(balances, Blank(cap), true);
    var rs := Hiding(a, b, v);
    NewIndexIsCoherent(balances, cap, true, hash);
    WipeIsEmpty<Name, Balance>(cap, hash);
    FreshDoesNotShadow(st0, hash, rs[0]);
    ServedIsCoherent(st0, hash, rs[0]);
    var st1 := Served(st0, hash, rs[0]);
    InsertedRefines(st0.slots, hash, b, Balance(0, 0));
    FreshDoesNotShadow(st1, hash, rs[1]);
    ServedIsCoherent(st1, hash, rs[1]);
    var st2 := Served(st1, hash, rs[1]);
    ServedIsCoherent(st2, hash, rs[2]);
    assert rs[1..][0] == rs[1] && rs[1..][1..] == [rs[2]];
    assert StateAfter(st2, hash, [rs[2]]) == Served(st2, hash, rs[2]);
  }

  /** Two names with one home bring a new index into a coherent state in which the one
      created last is cached behind a tombstone. */
  lemma HidingShadows(balances: map<Name, Balance>, cap: nat, hash: Name -> nat, a: Name, b: Name, v: Balance,
                      w: Balance)
    requires cap >= 8 && ValidName(a) && ValidName(b) && a != b && Home(hash, a, cap) == Home(hash, b, cap)
    ensures var st := StateAfter(State(balances, Blank(cap), true), hash, Hiding(a, b, v));
            && Coherent(st, hash) && Get(st.balances, a) == Some(v)
            && Shadows(st, hash, CreateAccount(a, w.hive, w.hbd))
  {
    HidingIsCoherent(balances, cap, hash, a, b, v);
    HidingState(balances, cap, hash, a, b, v);
    CollisionHidesKey(cap, hash, a, b, v, Balance(0, 0));
  }

  /** The run in which a is created anew as w and adjusted by nothing, and then looked up. */
  function StaleRun(a: Name, b: Name, v: Balance, w: Balance): seq<Request> {
    Hiding(a, b, v) + [CreateAccount(a, w.hive, w.hbd)] + [Adjusting(a, Asset(0, HIVE))] + [FindAccount(a)]
  }

  lemma LastAnswer(st: State, hash: Name -> nat, rs: seq<Request>, r: Request)
    ensures |Answers(st, hash, rs + [r])| == |rs| + 1 == |Replies(st.balances, rs + [r])|
    ensures Answers(st, hash, rs + [r])[|rs|] == Said(StateAfter(st, hash, rs), hash, r)
    ensures Replies(st.balances, rs + [r])[|rs|] == Reply(StateAfter(st, hash, rs).balances, r)
  {
    ServedInTurn(st, hash, rs, r);
    AnswersEach(st, hash, rs);
  }

  lemma StateInTurn(st: State, hash: Name -> nat, rs: seq<Request>, p: Request, q: Request)
    ensures StateAfter(st, hash, rs + [p] + [q]) == Served(Served(StateAfter(st, hash, rs), hash, p), hash, q)
  {
    ServedInTurn(st, hash, rs, p);
    ServedInTurn(st, hash, rs + [p], q);
  }

  /** The same from the coherent state, without the run that led to it. */
  lemma StaleServed(st: State, hash: Name -> nat, a: Name, v: Balance, w: Balance)
    requires Coherent(st, hash) && Get(st.balances, a) == Some(v) && Shadows(st, hash, CreateAccount(a, w.hive, w.hbd))
    ensures var st' := Served(Served(st, hash, CreateAccount(a, w.hive, w.hbd)), hash, Adjusting(a, Asset(0, HIVE)));
            && Said(st', hash, FindAccount(a)) == Account(Some(v))
            && Reply(st'.balances, FindAccount(a)) == Account(Some(w))
  {
    StaleAfterCreate(st, hash, a, w.hive, w.hbd, 0);
  }

  lemma StaleEnd(st: State, hash: Name -> nat, rs: seq<Request>, a: Name, v: Balance, w: Balance)
    requires Coherent(StateAfter(st, hash, rs), hash) && Get(StateAfter(st, hash, rs).balances, a) == Some(v)
    requires Shadows(StateAfter(st, hash, rs), hash, CreateAccount(a, w.hive, w.hbd))
    ensures var all := rs + [CreateAccount(a, w.hive, w.hbd)] + [Adjusting(a, Asset(0, HIVE))] + [FindAccount(a)];
            && |Answers(st, hash, all)| == |Replies(st.balances, all)| == |rs| + 3
            && Answers(st, hash, all)[|rs| + 2] == Account(Some(v))
            && Replies(st.balances, all)[|rs| + 2] == Account(Some(w))
  {
    var create, adjust, find := CreateAccount(a, w.hive, w.hbd), Adjusting(a, Asset(0, HIVE)), FindAccount(a);
    var front := rs + [create] + [adjust];
    StaleServed(StateAfter(st, hash, rs), hash, a, v, w);
    StateInTurn(st, hash, rs, create, adjust);
    LastAnswer(st, hash, front, find);
    assert |front| == |rs| + 2;
  }

  /** Whatever the hash function, there are two names for which this run makes a new index
      answer with the old balance of a, where the database alone would with the new one. */
  lemma EveryHashGoesStale(balances: map<Name, Balance>, hash: Name -> nat, v: Balance, w: Balance)
    returns (a: Name, b: Name)
    ensures ValidName(a) && ValidName(b) && a != b
    ensures var st, rs := State(balances, Blank(64), true), StaleRun(a, b, v, w);
            && |Answers(st, hash, rs)| == |Replies(balances, rs)| == 6
            && Answers(st, hash, rs)[5] == Account(Some(v)) && Replies(balances, rs)[5] == Account(Some(w))
  {
    a, b := CollidingNames(hash);
    var st := State(balances, Blank(64), true);
    HidingShadows(balances, 64, hash, a, b, v, w);
    StaleEnd(st, hash, Hiding(a, b, v), a, v, w);
  }

  lemma {:induction false} AnswersEach(st: State, hash: Name -> nat, rs: seq<Request>)
    ensures |Answers(st, hash, rs)| == |rs| == |Replies(st.balances, rs)|
    decreases |rs|
  {
    if rs == [] {
    } else {
      assert Served(st, hash, rs[0]).balances == Effect(st.balances, rs[0]);
      AnswersEach(Served(st, hash, rs[0]), hash, rs[1..]);
    }
  }
}
