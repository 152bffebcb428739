/** Names, amounts, digests and limits (include/hive_native/util/types.hpp). */
module Types {

  type Name = string
  type Bytes = seq<bv8>

  const HARDFORK_NFT := 9001
  const HARDFORK_HTLC := 9002
  const HARDFORK_CONTRACTS := 9003

  const MAX_ACCOUNT_NAME_LEN := 16
  const MAX_NFT_SYMBOL_LEN := 16
  const MAX_NFT_NAME_LEN := 64
  const MAX_NFT_URI_LEN := 256
  const MAX_MEMO_LEN := 2048
  const MAX_HTLC_PREIMAGE_LEN := 1024
  const MAX_CONTRACT_EXPORT := 64
  const MAX_CONTRACT_ARGS := 64 * 1024
  const MAX_CODE_BYTES := 512 * 1024

  const HTLC_MIN_DURATION_SEC := 60
  const HTLC_MAX_DURATION_SEC := 30 * 24 * 3600
  const HTLC_MAX_OPEN_PER_ACCOUNT := 256

  const INT64_MAX := 0x7fff_ffff_ffff_ffff

  datatype Symbol = HIVE | HBD

  datatype Asset = Asset(amount: int, symbol: Symbol)

  datatype Balance = Balance(hive: int, hbd: int) {
    function Of(sym: Symbol): int {
      if sym.HIVE? then hive else hbd
    }
    function Plus(delta: Asset): Balance {
      if delta.symbol.HIVE? then Balance(hive + delta.amount, hbd) else Balance(hive, hbd + delta.amount)
    }
  }

  datatype HashAlgo = Sha256 | Ripemd160

  datatype HashDigest = HashDigest(algo: HashAlgo, bytes: Bytes)

  predicate NameChar(c: char) {
    'a' <= c <= 'z' || '0' <= c <= '9' || c == '.' || c == '-'
  }

  predicate ValidName(name: Name) {
    0 < |name| <= MAX_ACCOUNT_NAME_LEN && forall i :: 0 <= i < |name| ==> NameChar(name[i])
  }

  lemma XorZero(a: bv8, b: bv8)
    ensures a ^ b == 0 <==> a == b
  {
  }

  /** The accumulated difference of two byte strings is zero exactly when they are equal. */
  method ConstantTimeEqual(a: Bytes, b: Bytes) returns (equal: bool)
    ensures equal <==> a == b
  {
    if |a| != |b| { return false; }
    var diff: bv8 := 0;
    for i := 0 to |a|
      invariant diff == 0 <==> a[..i] == b[..i]
    {
      XorZero(a[i], b[i]);
      OrZero(diff, a[i] ^ b[i]);
      diff := diff | (a[i] ^ b[i]);
      assert a[..i + 1] == a[..i] + [a[i]] && b[..i + 1] == b[..i] + [b[i]];
    }
    assert a[..|a|] == a && b[..|a|] == b;
    return diff == 0;
  }

  lemma OrZero(a: bv8, b: bv8)
    ensures a | b == 0 <==> a == 0 && b == 0
  {
  }
}
