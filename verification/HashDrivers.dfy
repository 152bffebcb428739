/** The message padding and block loop of SHA-256 and RIPEMD-160 (src/util/crypto.cpp),
    for any compression function. */
module HashDrivers {

  /** A byte as a number. */
  type Octet = x: int | 0 <= x < 256
  type Octets = seq<Octet>

  const BLOCK := 64
  const TWO_64 := 0x1_0000_0000_0000_0000

  // ----- the standard

  function Zeros(n: nat): (z: Octets)
    ensures |z| == n && forall i :: 0 <= i < n ==> z[i] == 0
  {
    seq(n, _ => 0)
  }

  /** The number of zero bytes between the marker and the length. */
  function ZeroCount(n: nat): nat {
    if n % BLOCK <= 55 then 55 - n % BLOCK else 119 - n % BLOCK
  }

  /** n shifted right by 8 * i bits. */
  function ShiftedBytes(n: nat, i: nat): nat {
    if i == 0 then n else ShiftedBytes(n / 256, i - 1)
  }

  function ByteAt(n: nat, i: nat): Octet {
    (ShiftedBytes(n, i) % 256)
  }

  /** k bytes of n, most significant first. */
  function BigEndian(n: nat, k: nat): (b: Octets)
    ensures |b| == k
  {
    if k == 0 then [] else BigEndian(n / 256, k - 1) + [(n % 256)]
  }

  /** k bytes of n, least significant first. */
  function LittleEndian(n: nat, k: nat): (b: Octets)
    ensures |b| == k
  {
    if k == 0 then [] else [(n % 256)] + LittleEndian(n / 256, k - 1)
  }

  /** A message, a marker, zeros and eight bytes of length. */
  function Padded(m: Octets, length: Octets): Octets {
    m + [0x80] + Zeros(ZeroCount(|m|)) + length
  }

  /** Compresses a sequence of whole blocks. */
  function Fold<S>(compress: (S, Octets) -> S, state: S, bytes: Octets): S
    decreases |bytes|
  {
    if |bytes| < BLOCK then state else Fold(compress, compress(state, bytes[..BLOCK]), bytes[BLOCK..])
  }

  // ----- the padding is the standard's

  /** The zero count is the least that makes the padded length a multiple of the block size. */
  lemma PaddingIsLeast(n: nat, k: nat)
    ensures (n + 1 + ZeroCount(n) + 8) % BLOCK == 0
    ensures (n + 1 + k + 8) % BLOCK == 0 ==> ZeroCount(n) <= k
  {
    var q, r := n / BLOCK, n % BLOCK;
    assert n == BLOCK * q + r;
    if r <= 55 {
      assert n + 1 + ZeroCount(n) + 8 == BLOCK * (q + 1);
    } else {
      assert n + 1 + ZeroCount(n) + 8 == BLOCK * (q + 2);
    }
    if (n + 1 + k + 8) % BLOCK == 0 {
      var p := (n + 9 + k) / BLOCK;
      assert BLOCK * p == BLOCK * q + r + 9 + k;
    }
  }

  /** Different messages are padded differently, whatever their length fields. */
  lemma PaddingInjective(a: Octets, b: Octets, la: Octets, lb: Octets)
    requires |la| == |lb| && Padded(a, la) == Padded(b, lb)
    ensures a == b
  {
    if |a| <= |b| { MarkerDecides(a, b, la, lb); } else { MarkerDecides(b, a, lb, la); }
  }

  lemma MarkerDecides(a: Octets, b: Octets, la: Octets, lb: Octets)
    requires |la| == |lb| && Padded(a, la) == Padded(b, lb) && |a| <= |b|
    ensures a == b
  {
    var p := Padded(a, la);
    forall i | |a| < i < |p| - |la| ensures p[i] == 0 {
      assert p[i] == Zeros(ZeroCount(|a|))[i - |a| - 1];
    }
    assert p[|b|] == 0x80 && |b| < |p| - |la|;
    assert |a| == |b|;
    assert a == p[..|a|] && b == p[..|a|];
  }

  lemma {:induction false} BigEndianAt(n: nat, k: nat, i: nat)
    requires i < k
    ensures BigEndian(n, k)[k - 1 - i] == ByteAt(n, i)
  {
    if i == 0 {
    } else {
      BigEndianAt(n / 256, k - 1, i - 1);
    }
  }

  lemma {:induction false} LittleEndianAt(n: nat, k: nat, i: nat)
    requires i < k
    ensures LittleEndian(n, k)[i] == ByteAt(n, i)
  {
    if i == 0 {
    } else {
      LittleEndianAt(n / 256, k - 1, i - 1);
    }
  }

  function Value(b: Octets): nat {
    if b == [] then 0 else Value(b[..|b| - 1]) * 256 + b[|b| - 1]
  }

  function Power256(k: nat): nat {
    if k == 0 then 1 else 256 * Power256(k - 1)
  }

  lemma DivisionBound(n: nat, bound: nat)
    requires n < 256 * bound
    ensures n / 256 < bound
  {
  }

  /** The length field determines the length. */
  lemma {:induction false} BigEndianValue(n: nat, k: nat)
    requires n < Power256(k)
    ensures Value(BigEndian(n, k)) == n
  {
    if k == 0 {
    } else {
      DivisionBound(n, Power256(k - 1));
      BigEndianValue(n / 256, k - 1);
      AppendValue(BigEndian(n / 256, k - 1), (n % 256));
    }
  }

  lemma AppendValue(b: Octets, x: Octet)
    ensures Value(b + [x]) == Value(b) * 256 + x
  {
    assert (b + [x])[..|b|] == b;
  }

  function ValueLow(b: Octets): nat {
    if b == [] then 0 else b[0] + 256 * ValueLow(b[1..])
  }

  lemma {:induction false} LittleEndianValue(n: nat, k: nat)
    requires n < Power256(k)
    ensures ValueLow(LittleEndian(n, k)) == n
  {
    if k == 0 {
    } else {
      DivisionBound(n, Power256(k - 1));
      LittleEndianValue(n / 256, k - 1);
      assert LittleEndian(n, k)[1..] == LittleEndian(n / 256, k - 1);
    }
  }

  lemma EightBytes()
    ensures Power256(8) == TWO_64
  {
    assert Power256(2) == 0x1_0000;
    assert Power256(4) == 0x1_0000_0000;
    assert Power256(6) == 0x1_0000_0000_0000;
  }

  lemma LengthFields(bits: nat)
    requires bits < TWO_64
    ensures Value(BigEndian(bits, 8)) == bits && ValueLow(LittleEndian(bits, 8)) == bits
  {
    EightBytes();
    BigEndianValue(bits, 8);
    LittleEndianValue(bits, 8);
  }

  lemma BitLengthExact(n: nat)
    requires n < TWO_64 / 8
    ensures BitLength(n) == 8 * n < TWO_64
  {
  }

  /** Below 2^61 bytes both length fields hold eight times the number of bytes. */
  lemma LengthFieldsExact(n: nat)
    requires n < TWO_64 / 8
    ensures Value(BigEndian(BitLength(n), 8)) == 8 * n
    ensures ValueLow(LittleEndian(BitLength(n), 8)) == 8 * n
  {
    BitLengthExact(n);
    LengthFields(BitLength(n));
  }

  // ----- folding

  lemma {:induction false} FoldConcat<S>(compress: (S, Octets) -> S, s: S, a: Octets, b: Octets)
    requires |a| % BLOCK == 0
    ensures Fold(compress, s, a + b) == Fold(compress, Fold(compress, s, a), b)
    decreases |a|
  {
    if |a| == 0 {
      assert a + b == b;
    } else {
      assert |a| >= BLOCK;
      assert (a + b)[..BLOCK] == a[..BLOCK] && (a + b)[BLOCK..] == a[BLOCK..] + b;
      assert |a[BLOCK..]| % BLOCK == 0;
      FoldConcat(compress, compress(s, a[..BLOCK]), a[BLOCK..], b);
    }
  }

  lemma FoldBlock<S>(compress: (S, Octets) -> S, s: S, a: Octets)
    requires |a| == BLOCK
    ensures Fold(compress, s, a) == compress(s, a)
  {
    assert a[..BLOCK] == a && a[BLOCK..] == [];
    assert Fold(compress, s, a) == Fold(compress, compress(s, a), []);
  }

  /** What is left to compress after the whole blocks of the message. */
  lemma FoldTail<S>(compress: (S, Octets) -> S, s: S, m: Octets, q: nat, length: Octets)
    requires q <= |m| && q % BLOCK == 0
    ensures Fold(compress, s, Padded(m, length)) == Fold(compress, Fold(compress, s, m[..q]), Padded(m[q..], length))
  {
    assert ZeroCount(|m|) == ZeroCount(|m| - q) by { ZeroCountModulo(|m| - q, q / BLOCK); }
    assert Padded(m, length) == m[..q] + Padded(m[q..], length);
    FoldConcat(compress, s, m[..q], Padded(m[q..], length));
  }

  lemma ZeroCountModulo(n: nat, q: nat)
    ensures ZeroCount(n + BLOCK * q) == ZeroCount(n)
  {
    assert (n + BLOCK * q) % BLOCK == n % BLOCK;
  }

  /** The remainder, its marker and the length fill one block, or two when the length no
      longer fits behind the marker. */
  lemma TailBlocks<S>(compress: (S, Octets) -> S, s: S, rem: Octets, length: Octets)
    requires |rem| < BLOCK && |length| == 8
    ensures Fold(compress, s, Padded(rem, length)) ==
            if |rem| < 56 then compress(s, rem + [0x80] + Zeros(55 - |rem|) + length)
            else compress(compress(s, rem + [0x80] + Zeros(63 - |rem|)), Zeros(56) + length)
  {
    if |rem| < 56 {
      FoldBlock(compress, s, Padded(rem, length));
    } else {
      var first, second := rem + [0x80] + Zeros(63 - |rem|), Zeros(56) + length;
      assert Zeros(119 - |rem|) == Zeros(63 - |rem|) + Zeros(56);
      assert Padded(rem, length) == first + second;
      FoldConcat(compress, s, first, second);
      FoldBlock(compress, s, first);
      FoldBlock(compress, compress(s, first), second);
    }
  }

  // ----- the drivers

  /** Compresses the whole blocks of the message. */
  method WholeBlocks<S>(compress: (S, Octets) -> S, init: S, data: Octets) returns (state: S, offset: nat)
    ensures offset <= |data| < offset + BLOCK && offset % BLOCK == 0
    ensures state == Fold(compress, init, data[..offset])
  {
    state, offset := init, 0;
    assert data[..0] == [];
    while |data| - offset >= BLOCK
      invariant offset <= |data| && offset % BLOCK == 0
      invariant state == Fold(compress, init, data[..offset])
    {
      var block := data[offset..offset + BLOCK];
      assert data[..offset + BLOCK] == data[..offset] + block;
      FoldConcat(compress, init, data[..offset], block);
      FoldBlock(compress, state, block);
      state := compress(state, block);
      offset := offset + BLOCK;
    }
  }

  /** Fills the last block or two from the remainder, leaving room for the length. */
  method LastBlock<S>(compress: (S, Octets) -> S, init: S, rem: Octets) returns (state: S, block: array<Octet>)
    requires |rem| < BLOCK
    ensures fresh(block) && block.Length == BLOCK
    ensures if |rem| < 56 then state == init && block[..56] == rem + [0x80] + Zeros(55 - |rem|)
            else state == compress(init, rem + [0x80] + Zeros(63 - |rem|)) && block[..56] == Zeros(56)
  {
    state := init;
    block := new Octet[BLOCK](_ => 0);
    for i := 0 to |rem|
      invariant forall j :: 0 <= j < i ==> block[j] == rem[j]
      invariant forall j :: i <= j < BLOCK ==> block[j] == 0
    {
      block[i] := rem[i];
    }
    block[|rem|] := 0x80;
    if |rem| >= 56 {
      assert block[..] == rem + [0x80] + Zeros(63 - |rem|);
      state := compress(state, block[..]);
      for i := 0 to BLOCK
        invariant forall j :: 0 <= j < i ==> block[j] == 0
      {
        block[i] := 0;
      }
    }
  }

  /** The length of a message in bits, in 64-bit arithmetic. */
  function BitLength(n: nat): nat {
    (n * 8) % TWO_64
  }

  method StoreBigEndian(block: array<Octet>, bits: nat)
    requires block.Length == BLOCK
    modifies block
    ensures block[..] == old(block[..56]) + BigEndian(bits, 8)
  {
    ghost var front, length := block[..56], BigEndian(bits, 8);
    for i := 0 to 8
      invariant block[..56] == front
      invariant forall k :: 8 - i <= k < 8 ==> block[56 + k] == length[k]
    {
      BigEndianAt(bits, 8, i);
      block[63 - i] := ByteAt(bits, i);
    }
  }

  method StoreLittleEndian(block: array<Octet>, bits: nat)
    requires block.Length == BLOCK
    modifies block
    ensures block[..] == old(block[..56]) + LittleEndian(bits, 8)
  {
    ghost var front, length := block[..56], LittleEndian(bits, 8);
    for i := 0 to 8
      invariant block[..56] == front
      invariant forall k :: 0 <= k < i ==> block[56 + k] == length[k]
    {
      LittleEndianAt(bits, 8, i);
      block[56 + i] := ByteAt(bits, i);
    }
  }

  /** Everything up to the length: one compression of the returned block, completed by any
      eight length bytes, is left to do. */
  method UpToLength<S>(compress: (S, Octets) -> S, init: S, data: Octets, ghost length: Octets)
    returns (state: S, block: array<Octet>)
    requires |length| == 8
    ensures fresh(block) && block.Length == BLOCK
    ensures Fold(compress, init, Padded(data, length)) == compress(state, block[..56] + length)
  {
    var offset;
    state, offset := WholeBlocks(compress, init, data);
    var rem := data[offset..];
    FoldTail(compress, init, data, offset, length);
    TailBlocks(compress, state, rem, length);
    state, block := LastBlock(compress, state, rem);
  }

  /** SHA-256: folds the compression function over the blocks of the message padded as in
      section 5.1.1 of FIPS 180-4, the length most significant byte first. */
  method Sha256Driver<S>(compress: (S, Octets) -> S, init: S, data: Octets) returns (state: S)
    ensures state == Fold(compress, init, Padded(data, BigEndian(BitLength(|data|), 8)))
  {
    var bits := BitLength(|data|);
    state := WithBigEndian(compress, init, data, bits);
  }

  method WithBigEndian<S>(compress: (S, Octets) -> S, init: S, data: Octets, bits: nat) returns (state: S)
    ensures state == Fold(compress, init, Padded(data, BigEndian(bits, 8)))
  {
    var block;
    ghost var length := BigEndian(bits, 8);
    state, block := UpToLength(compress, init, data, length);
    StoreBigEndian(block, bits);
    state := compress(state, block[..]);
  }

  /** RIPEMD-160: the same, the length least significant byte first. */
  method Ripemd160Driver<S>(compress: (S, Octets) -> S, init: S, data: Octets) returns (state: S)
    ensures state == Fold(compress, init, Padded(data, LittleEndian(BitLength(|data|), 8)))
  {
    var bits := BitLength(|data|);
    state := WithLittleEndian(compress, init, data, bits);
  }

  method WithLittleEndian<S>(compress: (S, Octets) -> S, init: S, data: Octets, bits: nat) returns (state: S)
    ensures state == Fold(compress, init, Padded(data, LittleEndian(bits, 8)))
  {
    var block;
    ghost var length := LittleEndian(bits, 8);
    state, block := UpToLength(compress, init, data, length);
    StoreLittleEndian(block, bits);
    state := compress(state, block[..]);
  }

  // ----- hashing different messages compresses different block sequences

  /** The padded forms of two messages differ, so only the compression function can collide. */
  lemma DriversSeparateMessages(a: Octets, b: Octets)
    requires a != b
    ensures Padded(a, BigEndian(BitLength(|a|), 8)) != Padded(b, BigEndian(BitLength(|b|), 8))
    ensures Padded(a, LittleEndian(BitLength(|a|), 8)) != Padded(b, LittleEndian(BitLength(|b|), 8))
  {
    var x, y := BigEndian(BitLength(|a|), 8), BigEndian(BitLength(|b|), 8);
    if Padded(a, x) == Padded(b, y) { PaddingInjective(a, b, x, y); }
    x, y := LittleEndian(BitLength(|a|), 8), LittleEndian(BitLength(|b|), 8);
    if Padded(a, x) == Padded(b, y) { PaddingInjective(a, b, x, y); }
  }

  // ----- the padding in bits, as the standard words it

  /** The w low bits of n, most significant first. */
  function NumberBits(n: nat, w: nat): (b: seq<bool>)
    ensures |b| == w
  {
    if w == 0 then [] else NumberBits(n / 2, w - 1) + [n % 2 == 1]
  }

  function BitsOf(bytes: Octets): (b: seq<bool>)
    ensures |b| == 8 * |bytes|
  {
    if bytes == [] then [] else BitsOf(bytes[..|bytes| - 1]) + NumberBits(bytes[|bytes| - 1], 8)
  }

  function ZeroBits(n: nat): (b: seq<bool>)
    ensures |b| == n && forall i :: 0 <= i < n ==> !b[i]
  {
    seq(n, _ => false)
  }

  lemma {:induction false} BitsConcat(a: Octets, b: Octets)
    ensures BitsOf(a + b) == BitsOf(a) + BitsOf(b)
  {
    if b == [] {
      assert a + b == a;
    } else {
      var n := |b| - 1;
      assert (a + b)[..|a + b| - 1] == a + b[..n] && (a + b)[|a + b| - 1] == b[n];
      BitsConcat(a, b[..n]);
    }
  }

  function Power2(k: nat): (p: nat)
    ensures p > 0
  {
    if k == 0 then 1 else 2 * Power2(k - 1)
  }

  /** The bits of a number are those of its high part followed by those of its low part. */
  lemma {:induction false} BitsSplit(q: nat, r: nat, w: nat, v: nat)
    requires r < Power2(v)
    ensures NumberBits(Power2(v) * q + r, w + v) == NumberBits(q, w) + NumberBits(r, v)
    decreases v
  {
    if v == 0 {
    } else {
      var t := Power2(v - 1) * q;
      assert Power2(v) * q == 2 * t;
      assert (2 * t + r) / 2 == t + r / 2 && (2 * t + r) % 2 == r % 2;
      BitsSplit(q, r / 2, w, v - 1);
    }
  }

  lemma OctetSplit(n: nat, w: nat)
    ensures NumberBits(n, w + 8) == NumberBits(n / 256, w) + NumberBits(n % 256, 8)
  {
    assert Power2(4) == 16;
    assert Power2(8) == 256;
    BitsSplit(n / 256, n % 256, w, 8);
  }

  lemma {:induction false} BigEndianBits(n: nat, k: nat)
    ensures BitsOf(BigEndian(n, k)) == NumberBits(n, 8 * k)
  {
    if k == 0 {
    } else {
      BigEndianBits(n / 256, k - 1);
      OctetSplit(n, 8 * (k - 1));
      assert BigEndian(n, k)[..k - 1] == BigEndian(n / 256, k - 1);
    }
  }

  lemma {:induction false} NoBits(w: nat)
    ensures NumberBits(0, w) == ZeroBits(w)
  {
    if w == 0 {
    } else {
      NoBits(w - 1);
      assert ZeroBits(w) == ZeroBits(w - 1) + [false];
    }
  }

  lemma {:induction false} ZeroBytesBits(n: nat)
    ensures BitsOf(Zeros(n)) == ZeroBits(8 * n)
  {
    if n == 0 {
    } else {
      ZeroBytesBits(n - 1);
      NoBits(8);
      assert Zeros(n)[..n - 1] == Zeros(n - 1);
      assert ZeroBits(8 * n) == ZeroBits(8 * (n - 1)) + ZeroBits(8);
    }
  }

  lemma OneByte(x: Octet)
    ensures BitsOf([x]) == NumberBits(x, 8)
  {
    assert [x][..0] == [] && [x][0] == x;
  }

  lemma HighBit(w: nat, v: nat)
    requires w == 1
    ensures NumberBits(Power2(v), w + v) == [true] + ZeroBits(v)
  {
    BitsSplit(1, 0, w, v);
    NoBits(v);
    assert NumberBits(1, w) == NumberBits(0, 0) + [true];
  }

  lemma MarkerBits()
    ensures BitsOf([0x80]) == [true] + ZeroBits(7)
  {
    assert Power2(3) == 8;
    assert Power2(7) == 128;
    HighBit(1, 7);
    OneByte(0x80);
  }

  lemma MarkedBits(m: Octets, z: nat)
    ensures BitsOf(m + [0x80] + Zeros(z)) == BitsOf(m) + [true] + ZeroBits(7 + 8 * z)
  {
    var marked := m + [0x80];
    BitsConcat(marked, Zeros(z));
    BitsConcat(m, [0x80]);
    MarkerBits();
    ZeroBytesBits(z);
    Regroup(BitsOf(m), [true], ZeroBits(7), ZeroBits(8 * z));
    assert ZeroBits(7 + 8 * z) == ZeroBits(7) + ZeroBits(8 * z);
  }

  lemma Regroup(a: seq<bool>, b: seq<bool>, c: seq<bool>, d: seq<bool>)
    ensures (a + (b + c)) + d == (a + b) + (c + d)
  {
  }

  lemma PaddedBits(m: Octets, length: Octets)
    ensures StandardPadding(BitsOf(Padded(m, length)), BitsOf(m), 7 + 8 * ZeroCount(|m|), BitsOf(length))
  {
    MarkedBits(m, ZeroCount(|m|));
    BitsConcat(m + [0x80] + Zeros(ZeroCount(|m|)), length);
  }

  /** The message, the bit 1, k zero bits and the bits of the length. */
  ghost predicate StandardPadding(bits: seq<bool>, message: seq<bool>, k: nat, length: seq<bool>) {
    bits == message + [true] + ZeroBits(k) + length
  }

  /** Section 5.1.1 of FIPS 180-4: the message of l bits is followed by the bit 1, by k zero
      bits, where k is the smallest solution of l + 1 + k = 448 modulo 512, and by l as a
      number of eight bytes, that is 64 bits. */
  lemma PaddingIsStandard(m: Octets, length: Octets, bytes: nat) returns (k: nat)
    requires |m| < TWO_64 / 8 && bytes == 8 && length == BigEndian(BitLength(|m|), bytes)
    ensures k < 512 && (8 * |m| + 1 + k) % 512 == 448
    ensures StandardPadding(BitsOf(Padded(m, length)), BitsOf(m), k, NumberBits(8 * |m|, 8 * bytes))
  {
    k := ZeroBitCount(|m|);
    PaddedBits(m, length);
    LengthBits(|m|, bytes);
  }

  lemma LengthBits(n: nat, k: nat)
    requires n < TWO_64 / 8
    ensures BitsOf(BigEndian(BitLength(n), k)) == NumberBits(8 * n, 8 * k)
  {
    BitLengthExact(n);
    BigEndianBits(8 * n, k);
  }

  lemma ZeroBitCount(n: nat) returns (k: nat)
    ensures k == 7 + 8 * ZeroCount(n) && k < 512 && (8 * n + 1 + k) % 512 == 448
  {
    k := 7 + 8 * ZeroCount(n);
    PaddingIsLeast(n, 0);
    var p := (n + 1 + ZeroCount(n) + 8) / BLOCK;
    assert n + 1 + ZeroCount(n) + 8 == BLOCK * p;
    assert 8 * n + 1 + k == 512 * (p - 1) + 448;
  }

  /** The little-endian length field is the big-endian one backwards. */
  lemma {:induction false} LittleEndianIsReversed(n: nat, k: nat, i: nat)
    requires i < k
    ensures LittleEndian(n, k)[i] == BigEndian(n, k)[k - 1 - i]
  {
    LittleEndianAt(n, k, i);
    BigEndianAt(n, k, i);
  }

  // ----- the fold, block by block

  function Joined(blocks: seq<Octets>): Octets {
    if blocks == [] then [] else Joined(blocks[..|blocks| - 1]) + blocks[|blocks| - 1]
  }

  /** The state after compressing the blocks in turn. */
  function Compressed<S>(compress: (S, Octets) -> S, init: S, blocks: seq<Octets>): S {
    if blocks == [] then init else compress(Compressed(compress, init, blocks[..|blocks| - 1]), blocks[|blocks| - 1])
  }

  lemma {:induction false} JoinedLength(blocks: seq<Octets>)
    requires forall b :: b in blocks ==> |b| == BLOCK
    ensures |Joined(blocks)| == BLOCK * |blocks|
  {
    if blocks == [] {
    } else {
      JoinedLength(blocks[..|blocks| - 1]);
    }
  }

  /** Folding over joined blocks of 64 bytes compresses every block once, in order. */
  lemma {:induction false} FoldIsBlockwise<S>(compress: (S, Octets) -> S, init: S, blocks: seq<Octets>)
    requires forall b :: b in blocks ==> |b| == 64
    ensures Fold(compress, init, Joined(blocks)) == Compressed(compress, init, blocks)
  {
    if blocks == [] {
    } else {
      var front, last := blocks[..|blocks| - 1], blocks[|blocks| - 1];
      FoldIsBlockwise(compress, init, front);
      JoinedLength(front);
      FoldConcat(compress, init, Joined(front), last);
      FoldBlock(compress, Compressed(compress, init, front), last);
    }
  }
}
