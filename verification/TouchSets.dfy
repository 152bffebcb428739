/** What the touch sets of the scheduler say about two operations
    (include/hive_native/perf/apply_scheduler.hpp). */
module TouchSets {
  import opened Types
  import opened OpDependency
  import opened ApplyScheduler
  import opened ScheduleExactness

  // ----- decimal numerals

  function Numeral(s: string): int {
    if s == "" then 0 else 10 * Numeral(s[..|s| - 1]) + (s[|s| - 1] as int - '0' as int)
  }

  lemma DigitValue(d: nat)
    requires d < 10
    ensures DIGITS[d] as int - '0' as int == d
  {
    assert DIGITS[0] == '0' && DIGITS[1] == '1' && DIGITS[2] == '2' && DIGITS[3] == '3' && DIGITS[4] == '4';
    assert DIGITS[5] == '5' && DIGITS[6] == '6' && DIGITS[7] == '7' && DIGITS[8] == '8' && DIGITS[9] == '9';
  }

  lemma NumeralAppend(s: string, c: char)
    ensures Numeral(s + [c]) == 10 * Numeral(s) + (c as int - '0' as int)
  {
    assert (s + [c])[..|s|] == s;
  }

  lemma {:induction false} DecimalIsNumeral(n: nat)
    ensures Numeral(Decimal(n)) == n
  {
    DigitValue(n % 10);
    if n < 10 {
      NumeralAppend("", DIGITS[n]);
      assert "" + [DIGITS[n]] == [DIGITS[n]];
    } else {
      DecimalIsNumeral(n / 10);
      NumeralAppend(Decimal(n / 10), DIGITS[n % 10]);
    }
  }

  lemma DecimalInjective(m: nat, n: nat)
    ensures Decimal(m) == Decimal(n) <==> m == n
  {
    DecimalIsNumeral(m);
    DecimalIsNumeral(n);
  }

  // ----- names and object keys

  /** The key of the token, HTLC or contract the operation acts on. */
  function ObjectKey(op: ScheduledOp): string
    requires !op.GlobalMarker?
  {
    match op
    case NftTransfer(t) => "nft:" + Decimal(t.nftId)
    case HtlcRedeem(r) => "htlc:" + Decimal(r.htlcId)
    case ContractCall(c) => "contract:" + Decimal(c.contractId)
  }

  /** Both move one token, redeem one HTLC or call one contract. */
  predicate SameObject(x: ScheduledOp, y: ScheduledOp) {
    match (x, y)
    case (NftTransfer(s), NftTransfer(t)) => s.nftId == t.nftId
    case (HtlcRedeem(s), HtlcRedeem(t)) => s.htlcId == t.htlcId
    case (ContractCall(s), ContractCall(t)) => s.contractId == t.contractId
    case (_, _) => false
  }

  lemma SuffixEqual(p: string, s: string, t: string)
    ensures p + s == p + t <==> s == t
  {
    assert (p + s)[|p|..] == s && (p + t)[|p|..] == t;
  }

  lemma FirstLetter(op: ScheduledOp)
    requires !op.GlobalMarker?
    ensures ObjectKey(op)[0] == if op.NftTransfer? then 'n' else if op.HtlcRedeem? then 'h' else 'c'
    ensures ':' in ObjectKey(op)
  {
    var k := ObjectKey(op);
    match op
    case NftTransfer(_) => assert k[3] == ':';
    case HtlcRedeem(_) => assert k[4] == ':';
    case ContractCall(_) => assert k[8] == ':';
  }

  lemma KeysEqual(x: ScheduledOp, y: ScheduledOp)
    requires !x.GlobalMarker? && !y.GlobalMarker?
    ensures ObjectKey(x) == ObjectKey(y) <==> SameObject(x, y)
  {
    FirstLetter(x);
    FirstLetter(y);
    match (x, y)
    case (NftTransfer(s), NftTransfer(t)) =>
      SuffixEqual("nft:", Decimal(s.nftId), Decimal(t.nftId));
      DecimalInjective(s.nftId, t.nftId);
    case (HtlcRedeem(s), HtlcRedeem(t)) =>
      SuffixEqual("htlc:", Decimal(s.htlcId), Decimal(t.htlcId));
      DecimalInjective(s.htlcId, t.htlcId);
    case (ContractCall(s), ContractCall(t)) =>
      SuffixEqual("contract:", Decimal(s.contractId), Decimal(t.contractId));
      DecimalInjective(s.contractId, t.contractId);
    case (_, _) =>
  }

  lemma NameIsNoKey(name: Name, op: ScheduledOp)
    requires ValidName(name) && !op.GlobalMarker?
    ensures name != ObjectKey(op)
  {
    FirstLetter(op);
    assert ':' !in name;
  }

  lemma AccountsAre(op: ScheduledOp)
    requires !op.GlobalMarker?
    ensures forall z :: z in Classify(0, op).accounts <==> z in NamesOf(op) || z == ObjectKey(op)
    ensures !Classify(0, op).touchesGlobal
  {
  }

  /** One is global, they name a common account, or they act on the same token, HTLC or
      contract. */
  ghost predicate Overlap(x: ScheduledOp, y: ScheduledOp) {
    x.GlobalMarker? || y.GlobalMarker? || NamesOf(x) * NamesOf(y) != {} || SameObject(x, y)
  }

  /** Two valid operations conflict exactly when they overlap. */
  lemma ConflictExactly(x: ScheduledOp, y: ScheduledOp)
    requires Admissible(x) && Admissible(y)
    ensures Conflicting(x, y) <==> Overlap(x, y)
  {
    if !x.GlobalMarker? && !y.GlobalMarker? {
      AdmissibleNames(x);
      AdmissibleNames(y);
      AccountsAre(x);
      AccountsAre(y);
      KeysEqual(x, y);
      forall name | name in NamesOf(x) ensures name != ObjectKey(y) { NameIsNoKey(name, y); }
      forall name | name in NamesOf(y) ensures name != ObjectKey(x) { NameIsNoKey(name, x); }
      if SameObject(x, y) {
        assert ObjectKey(x) in Classify(0, x).accounts && ObjectKey(x) in Classify(0, y).accounts;
      } else if z :| z in NamesOf(x) * NamesOf(y) {
        assert z in Classify(0, x).accounts && z in Classify(0, y).accounts;
      } else {
        forall z | z in Classify(0, x).accounts ensures z !in Classify(0, y).accounts {
          assert z in NamesOf(x) ==> z !in NamesOf(x) * NamesOf(y);
        }
      }
    }
  }
}
