/** Field-level undo of balance changes (include/hive_native/perf/selective_undo.hpp). */
module SelectiveUndo {
  import opened Types

  /** The account's values before a change. */
  datatype Change = Change(account: string, oldHive: int, oldHbd: int) {
    function Old(): Balance { Balance(oldHive, oldHbd) }
  }

  type Balances = map<string, Balance>

  /** An absent account reads as zero, and indexing it creates it so. */
  function Read(m: Balances, account: string): Balance {
    if account in m then m[account] else Balance(0, 0)
  }

  function Restored(m: Balances, c: Change): Balances {
    m[c.account := c.Old()]
  }

  /** The changes undone, the latest first. */
  function Unwound(m: Balances, stack: seq<Change>): Balances
    decreases |stack|
  {
    if stack == [] then m else Unwound(Restored(m, stack[|stack| - 1]), stack[..|stack| - 1])
  }

  function Touched(stack: seq<Change>): set<string> {
    set c | c in stack :: c.account
  }

  // ----- sessions

  /** The bound balances and the undo records. */
  datatype Session = Session(balances: Balances, stack: seq<Change>)

  /** A note is a record of given values that comes without a change of the bound balances:
      a direct push, or the adjustment of some other map. */
  datatype Event =
    | Adjust(account: string, hive: int, hbd: int)
    | Note(account: string, hive: int, hbd: int)
    | Commit
    | Rollback

  function Changed(m: Balances, account: string, hive: int, hbd: int): Balances {
    m[account := Balance(Read(m, account).hive + hive, Read(m, account).hbd + hbd)]
  }

  function RecordOf(m: Balances, account: string): Change {
    Change(account, Read(m, account).hive, Read(m, account).hbd)
  }

  function Step(s: Session, ev: Event): Session {
    match ev
    case Adjust(account, hive, hbd) =>
      Session(Changed(s.balances, account, hive, hbd), s.stack + [RecordOf(s.balances, account)])
    case Note(account, hive, hbd) => s.(stack := s.stack + [Change(account, hive, hbd)])
    case Commit => s.(stack := [])
    case Rollback => Session(Unwound(s.balances, s.stack), [])
  }

  /** A map of balances that several sessions may share. */
  class BalanceMap {
    var m: Balances

    constructor (m: Balances)
      ensures this.m == m
    {
      this.m := m;
    }
  }

  class UndoSession {
    const bound: BalanceMap
    var stack: seq<Change>

    ghost function Value(): Session
      reads this, bound
    {
      Session(bound.m, stack)
    }

    constructor (balances: BalanceMap)
      ensures bound == balances && Value() == Session(balances.m, [])
    {
      bound := balances;
      stack := [];
    }

    method PushBalanceChange(account: string, oldHive: int, oldHbd: int)
      modifies this
      ensures Value() == Step(old(Value()), Note(account, oldHive, oldHbd))
    {
      stack := stack + [Change(account, oldHive, oldHbd)];
    }

    /** Restores the records from the latest to the earliest, then drops them. */
    method RollbackAll()
      modifies this, bound
      ensures Value() == Step(old(Value()), Rollback)
    {
      var i := |stack|;
      assert stack[..i] == stack;
      while i > 0
        invariant 0 <= i <= |stack| && stack == old(stack)
        invariant Unwound(bound.m, stack[..i]) == Unwound(old(bound.m), stack)
      {
        i := i - 1;
        assert stack[..i + 1][..i] == stack[..i];
        var c := stack[i];
        bound.m := bound.m[c.account := Balance(c.oldHive, c.oldHbd)];
      }
      stack := [];
    }

    method CommitAll()
      modifies this
      ensures Value() == Step(old(Value()), Commit)
    {
      stack := [];
    }
  }

  /** Records the readings of the map in the session, then adds the deltas to the map, which
      need not be the one the session is bound to. */
  method AdjustBalance(session: UndoSession, balances: BalanceMap, account: string, hive: int, hbd: int)
    modifies session, balances
    ensures balances.m == Changed(old(balances.m), account, hive, hbd)
    ensures session.Value() == Step(old(session.Value()),
                                    if balances == session.bound then Adjust(account, hive, hbd)
                                    else
                                      var c := RecordOf(old(balances.m), account);
                                      Note(account, c.oldHive, c.oldHbd))
  {
    if account !in balances.m { balances.m := balances.m[account := Balance(0, 0)]; }
    var b := balances.m[account];
    session.PushBalanceChange(account, b.hive, b.hbd);
    balances.m := balances.m[account := Balance(b.hive + hive, b.hbd + hbd)];
    assert balances.m == Changed(old(balances.m), account, hive, hbd);
  }

  // ----- what the records restore

  ghost predicate FirstAt(stack: seq<Change>, account: string, f: nat) {
    f < |stack| && stack[f].account == account && forall g :: 0 <= g < f ==> stack[g].account != account
  }

  /** Unwinding leaves an account with its earliest record. */
  lemma {:induction false} UnwoundToFirst(m: Balances, stack: seq<Change>, account: string, f: nat)
    requires FirstAt(stack, account, f)
    ensures Read(Unwound(m, stack), account) == stack[f].Old()
    decreases |stack|
  {
    var n := |stack| - 1;
    if f < n {
      UnwoundToFirst(Restored(m, stack[n]), stack[..n], account, f);
    } else {
      UnwoundUntouched(Restored(m, stack[n]), stack[..n], account);
    }
  }

  lemma {:induction false} UnwoundUntouched(m: Balances, stack: seq<Change>, account: string)
    requires forall g :: 0 <= g < |stack| ==> stack[g].account != account
    ensures Read(Unwound(m, stack), account) == Read(m, account)
    decreases |stack|
  {
    if stack == [] {
    } else {
      UnwoundUntouched(Restored(m, stack[|stack| - 1]), stack[..|stack| - 1], account);
    }
  }

  // ----- runs

  /** The session after the first k events. */
  function At(start: Balances, evs: seq<Event>, k: nat): Session
    requires k <= |evs|
  {
    if k == 0 then Session(start, []) else Step(At(start, evs, k - 1), evs[k - 1])
  }

  predicate Records(ev: Event) {
    ev.Adjust? || ev.Note?
  }

  /** Events j to k - 1 record, and event j is the first, or follows a commit or a rollback. */
  ghost predicate Stretch(evs: seq<Event>, j: nat, k: nat) {
    && j <= k <= |evs|
    && (j == 0 || evs[j - 1].Commit? || evs[j - 1].Rollback?)
    && forall i :: j <= i < k ==> Records(evs[i])
  }

  function RecordAt(start: Balances, evs: seq<Event>, i: nat): Change
    requires i < |evs| && Records(evs[i])
  {
    if evs[i].Adjust? then RecordOf(At(start, evs, i).balances, evs[i].account)
    else Change(evs[i].account, evs[i].hive, evs[i].hbd)
  }

  lemma {:induction false} StretchStack(start: Balances, evs: seq<Event>, j: nat, k: nat)
    requires Stretch(evs, j, k)
    ensures |At(start, evs, k).stack| == k - j
    ensures forall i :: j <= i < k ==> At(start, evs, k).stack[i - j] == RecordAt(start, evs, i)
    decreases k
  {
    if j < k { StretchStack(start, evs, j, k - 1); }
  }

  /** Event i is the first of the stretch to record the account. */
  ghost predicate FirstTouch(evs: seq<Event>, j: nat, i: nat, account: string) {
    && j <= i < |evs| && Records(evs[i]) && evs[i].account == account
    && forall h :: j <= h < i && Records(evs[h]) ==> evs[h].account != account
  }

  lemma {:induction false} UntouchedSoFar(start: Balances, evs: seq<Event>, j: nat, i: nat, account: string)
    requires Stretch(evs, j, i) && forall h :: j <= h < i ==> evs[h].account != account
    ensures Read(At(start, evs, i).balances, account) == Read(At(start, evs, j).balances, account)
    ensures account in At(start, evs, i).balances <==> account in At(start, evs, j).balances
    decreases i
  {
    if j < i { UntouchedSoFar(start, evs, j, i - 1, account); }
  }

  /** The sums of the deltas of an account's adjustments among events j to k - 1. */
  function HiveDeltas(evs: seq<Event>, j: nat, k: nat, account: string): int
    requires j <= k <= |evs|
    decreases k
  {
    if j == k then 0
    else HiveDeltas(evs, j, k - 1, account)
         + if evs[k - 1].Adjust? && evs[k - 1].account == account then evs[k - 1].hive else 0
  }

  function HbdDeltas(evs: seq<Event>, j: nat, k: nat, account: string): int
    requires j <= k <= |evs|
    decreases k
  {
    if j == k then 0
    else HbdDeltas(evs, j, k - 1, account)
         + if evs[k - 1].Adjust? && evs[k - 1].account == account then evs[k - 1].hbd else 0
  }

  /** During a stretch each field of an account is its reading at the checkpoint plus the sum
      of the deltas of that field. */
  lemma {:induction false} AdjustmentsAddUp(start: Balances, evs: seq<Event>, j: nat, k: nat, account: string)
    requires Stretch(evs, j, k)
    ensures var before, now := Read(At(start, evs, j).balances, account), Read(At(start, evs, k).balances, account);
            && now.hive == before.hive + HiveDeltas(evs, j, k, account)
            && now.hbd == before.hbd + HbdDeltas(evs, j, k, account)
    decreases k
  {
    if j == k {
    } else {
      AdjustmentsAddUp(start, evs, j, k - 1, account);
    }
  }

  /** What a rollback after the stretch makes of an account. */
  lemma RollbackReads(start: Balances, evs: seq<Event>, j: nat, k: nat, account: string)
    requires Stretch(evs, j, k) && k < |evs| && evs[k].Rollback?
    ensures forall i: nat :: FirstTouch(evs, j, i, account) && i < k ==>
              Read(At(start, evs, k + 1).balances, account) ==
              if evs[i].Adjust? then Read(At(start, evs, j).balances, account) else Balance(evs[i].hive, evs[i].hbd)
    ensures (forall i :: j <= i < k ==> evs[i].account != account) ==>
              Read(At(start, evs, k + 1).balances, account) == Read(At(start, evs, j).balances, account)
  {
    var s := At(start, evs, k);
    StretchStack(start, evs, j, k);
    forall i: nat | FirstTouch(evs, j, i, account) && i < k
      ensures Read(Unwound(s.balances, s.stack), account) ==
              if evs[i].Adjust? then Read(At(start, evs, j).balances, account) else Balance(evs[i].hive, evs[i].hbd)
    {
      FirstRecord(start, evs, j, k, i, account);
      UnwoundToFirst(s.balances, s.stack, account, i - j);
      UntouchedSoFar(start, evs, j, i, account);
    }
    if forall i :: j <= i < k ==> evs[i].account != account {
      UntouchedSoFar(start, evs, j, k, account);
      forall g | 0 <= g < |s.stack| ensures s.stack[g].account != account {
        assert s.stack[(g + j) - j] == RecordAt(start, evs, g + j);
      }
      UnwoundUntouched(s.balances, s.stack, account);
    }
  }

  lemma FirstRecord(start: Balances, evs: seq<Event>, j: nat, k: nat, i: nat, account: string)
    requires Stretch(evs, j, k) && FirstTouch(evs, j, i, account) && i < k
    ensures FirstAt(At(start, evs, k).stack, account, i - j)
    ensures At(start, evs, k).stack[i - j] == RecordAt(start, evs, i)
  {
    StretchStack(start, evs, j, k);
    var stack := At(start, evs, k).stack;
    forall g | 0 <= g < i - j ensures stack[g].account != account {
      assert stack[(g + j) - j] == RecordAt(start, evs, g + j);
    }
  }

  ghost predicate SameReadings(a: Balances, b: Balances) {
    forall account :: Read(a, account) == Read(b, account)
  }

  /** Where a note is the first record of an account, it has the reading at the checkpoint. */
  ghost predicate FirstNotesRight(start: Balances, evs: seq<Event>, j: nat, k: nat)
    requires j <= k <= |evs|
  {
    forall i :: j <= i < k && evs[i].Note? && FirstTouch(evs, j, i, evs[i].account) ==>
      Balance(evs[i].hive, evs[i].hbd) == Read(At(start, evs, j).balances, evs[i].account)
  }

  lemma {:induction false} FindFirstTouch(evs: seq<Event>, j: nat, k: nat, account: string) returns (i: nat)
    requires Stretch(evs, j, k) && exists h :: j <= h < k && evs[h].account == account
    ensures i < k && FirstTouch(evs, j, i, account)
    decreases k
  {
    if h :| j <= h < k - 1 && evs[h].account == account {
      i := FindFirstTouch(evs, j, k - 1, account);
    } else {
      i := k - 1;
    }
  }

  /** A rollback restores every account's readings at the last commit, rollback or session
      start exactly when every note that is the first record of its account has the reading
      of that time. */
  lemma RollbackExactly(start: Balances, evs: seq<Event>, j: nat, k: nat)
    requires Stretch(evs, j, k) && k < |evs| && evs[k].Rollback?
    ensures SameReadings(At(start, evs, k + 1).balances, At(start, evs, j).balances) <==>
            FirstNotesRight(start, evs, j, k)
    ensures At(start, evs, k + 1).stack == []
  {
    var before, after := At(start, evs, j).balances, At(start, evs, k + 1).balances;
    if FirstNotesRight(start, evs, j, k) {
      forall account ensures Read(after, account) == Read(before, account) {
        RollbackReads(start, evs, j, k, account);
        if exists h :: j <= h < k && evs[h].account == account {
          var i := FindFirstTouch(evs, j, k, account);
        }
      }
    } else {
      var i :| j <= i < k && evs[i].Note? && FirstTouch(evs, j, i, evs[i].account)
               && Balance(evs[i].hive, evs[i].hbd) != Read(before, evs[i].account);
      RollbackReads(start, evs, j, k, evs[i].account);
    }
  }

  /** When all changes were adjustments of the bound map, a rollback restores every account's
      readings, however often accounts were touched. */
  lemma RollbackRestores(start: Balances, evs: seq<Event>, j: nat, k: nat)
    requires Stretch(evs, j, k) && k < |evs| && evs[k].Rollback?
    requires forall i :: j <= i < k ==> evs[i].Adjust?
    ensures SameReadings(At(start, evs, k + 1).balances, At(start, evs, j).balances)
    ensures At(start, evs, k + 1).stack == []
  {
    RollbackExactly(start, evs, j, k);
  }

  // ----- the map itself

  lemma {:induction false} UnwoundKeys(m: Balances, stack: seq<Change>)
    ensures Unwound(m, stack).Keys == m.Keys + Touched(stack)
    decreases |stack|
  {
    if stack == [] {
    } else {
      var n := |stack| - 1;
      assert stack == stack[..n] + [stack[n]];
      UnwoundKeys(Restored(m, stack[n]), stack[..n]);
      assert Touched(stack) == Touched(stack[..n]) + {stack[n].account};
    }
  }

  lemma StretchKeys(start: Balances, evs: seq<Event>, j: nat, k: nat, account: string)
    requires Stretch(evs, j, k) && account !in Touched(At(start, evs, k).stack)
    ensures account in At(start, evs, k).balances <==> account in At(start, evs, j).balances
  {
    StretchStack(start, evs, j, k);
    var stack := At(start, evs, k).stack;
    forall h | j <= h < k ensures evs[h].account != account {
      assert stack[h - j] in stack && stack[h - j] == RecordAt(start, evs, h);
    }
    UntouchedSoFar(start, evs, j, k, account);
  }

  /** A rollback gives back the very same map exactly when it restores the readings and every
      account touched since the checkpoint already existed there; otherwise it leaves entries
      behind. */
  lemma RollbackRestoresMapExactly(start: Balances, evs: seq<Event>, j: nat, k: nat)
    requires Stretch(evs, j, k) && k < |evs| && evs[k].Rollback?
    ensures At(start, evs, k + 1).balances == At(start, evs, j).balances <==>
            FirstNotesRight(start, evs, j, k) && Touched(At(start, evs, k).stack) <= At(start, evs, j).balances.Keys
  {
    var s, before, after := At(start, evs, k), At(start, evs, j).balances, At(start, evs, k + 1).balances;
    RollbackExactly(start, evs, j, k);
    forall account | account !in Touched(s.stack) ensures account in s.balances <==> account in before {
      StretchKeys(start, evs, j, k, account);
    }
    UnwoundKeys(s.balances, s.stack);
    assert after.Keys == before.Keys + Touched(s.stack);
    if SameReadings(after, before) && Touched(s.stack) <= before.Keys {
      forall account | account in before ensures after[account] == before[account] {
        assert Read(after, account) == Read(before, account);
      }
    }
  }

  // ----- neither holds of all sessions

  /** An account first touched in the session stays behind as a zero entry. */
  lemma RollbackLeavesEntry()
    ensures var evs := [Adjust("alice", 1, 0), Rollback];
            At(map[], evs, 2).balances == map["alice" := Balance(0, 0)] != At(map[], evs, 0).balances
  {
    var evs := [Adjust("alice", 1, 0), Rollback];
    var start: Balances := map[];
    var s := At(start, evs, 1);
    assert s == Step(At(start, evs, 0), evs[0]) && s.stack == [Change("alice", 0, 0)];
    assert s.stack[..0] == [];
    assert Unwound(s.balances, s.stack) == Unwound(Restored(s.balances, s.stack[0]), []);
  }

  /** A note of other values becomes the account's reading. */
  lemma RollbackAssignsNote()
    ensures var evs := [Note("alice", 7, 0), Rollback];
            && Read(At(map[], evs, 0).balances, "alice") == Balance(0, 0)
            && Read(At(map[], evs, 2).balances, "alice") == Balance(7, 0)
  {
    var evs := [Note("alice", 7, 0), Rollback];
    var start: Balances := map[];
    var s := At(start, evs, 1);
    assert s == Step(At(start, evs, 0), evs[0]) && s.stack == [Change("alice", 7, 0)];
    assert s.stack[..0] == [];
    assert Unwound(s.balances, s.stack) == Unwound(Restored(s.balances, s.stack[0]), []);
  }
}
