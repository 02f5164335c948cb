// lfs_crc of middleware/littlefs/lfs_util.c: a loop over nibbles with a sixteen-entry table computes
// the reflected CRC-32 of section 8 of RFC 1952 (without its inversions), one bit at a time.

module Crc {

  type Word32 = bv32

  // A byte as it is promoted to the width of the checksum.
  type Byte = b: Word32 | b <= 0xFF

  const POLYNOMIAL: Word32 := 0xEDB8_8320

  // ---- the reference ------------------------------------------------------------------------------------

  // One bit: shift right, and subtract the polynomial if a one fell out.
  function BitStep(c: Word32): Word32 {
    if c & 1 == 1 then (c >> 1) ^ POLYNOMIAL else c >> 1
  }

  function FourBits(c: Word32): Word32 {
    BitStep(BitStep(BitStep(BitStep(c))))
  }

  function ByteStep(c: Word32, d: Byte): Word32 {
    FourBits(FourBits(c ^ d))
  }

  function Fold(step: (Word32, Byte) -> Word32, c: Word32, data: seq<Byte>): Word32 {
    if data == [] then c else step(Fold(step, c, data[..|data| - 1]), data[|data| - 1])
  }

  function CrcOf(c: Word32, data: seq<Byte>): Word32 {
    Fold(ByteStep, c, data)
  }

  // ---- the table --------------------------------------------------------------------------------------------

  // rtable, by its four-bit index.
  function Table(n: Word32): Word32 {
    if n == 0x0 then 0x0000_0000 else if n == 0x1 then 0x1DB7_1064
    else if n == 0x2 then 0x3B6E_20C8 else if n == 0x3 then 0x26D9_30AC
    else if n == 0x4 then 0x76DC_4190 else if n == 0x5 then 0x6B6B_51F4
    else if n == 0x6 then 0x4DB2_6158 else if n == 0x7 then 0x5005_713C
    else if n == 0x8 then 0xEDB8_8320 else if n == 0x9 then 0xF00F_9344
    else if n == 0xA then 0xD6D6_A3E8 else if n == 0xB then 0xCB61_B38C
    else if n == 0xC then 0x9B64_C2B0 else if n == 0xD then 0x86D3_D2D4
    else if n == 0xE then 0xA00A_E278 else 0xBDBD_F21C
  }

  lemma TableIsFourBits(n: Word32)
    requires n <= 0xF
    ensures Table(n) == FourBits(n)
  {
  }

  // The bits above the nibble only move down.
  lemma FourBitsSplit(c: Word32)
    ensures FourBits(c) == (c >> 4) ^ FourBits(c & 0xF)
  {
  }

  // The high nibble of a byte waits: four steps only shift it down.
  lemma HighNibblePasses(c: Word32, w: Word32)
    requires w <= 0xFF
    ensures FourBits(c ^ w) == FourBits(c ^ (w & 0xF)) ^ (w >> 4)
  {
  }

  // ---- the loop ---------------------------------------------------------------------------------------------

  // One table step consumes one nibble.
  method ConsumeNibble(crc: Word32, n: Word32) returns (r: Word32)
    ensures r == FourBits(crc ^ (n & 0xF))
  {
    TableIsFourBits((crc ^ n) & 0xF);
    FourBitsSplit(crc ^ (n & 0xF));
    assert (crc ^ (n & 0xF)) >> 4 == crc >> 4 && (crc ^ (n & 0xF)) & 0xF == (crc ^ n) & 0xF;
    r := (crc >> 4) ^ Table((crc ^ n) & 0xF);
  }

  // What is left of the byte after the first nibble.
  lemma SecondNibble(c: Word32, w: Word32, r: Word32, f: Word32)
    requires w <= 0xFF && r == FourBits(c ^ (w & 0xF)) && f == FourBits(c ^ w)
    ensures r ^ ((w >> 4) & 0xF) == f
  {
    HighNibblePasses(c, w);
  }

  // s is c after the low nibble of d, and the nibble n is still to come.
  ghost predicate Halfway(c: Word32, d: Byte, s: Word32, n: Word32) {
    s ^ (n & 0xF) == FourBits(c ^ d)
  }

  method FirstNibble(crc: Word32, d: Byte) returns (r: Word32, n: Word32)
    ensures Halfway(crc, d, r, n)
  {
    r := ConsumeNibble(crc, d);
    n := d >> 4;
    SecondNibble(crc, d, r, FourBits(crc ^ d));
  }

  method LastNibble(crc: Word32, n: Word32, ghost c: Word32, ghost d: Byte) returns (r: Word32)
    requires Halfway(c, d, crc, n)
    ensures r == ByteStep(c, d)
  {
    ghost var f := crc ^ (n & 0xF);
    r := ConsumeNibble(crc, n);
    assert r == FourBits(f);
  }

  // The two table steps of the loop body.
  method ConsumeByte(crc: Word32, d: Byte) returns (r: Word32)
    ensures r == ByteStep(crc, d)
  {
    var n;
    r, n := FirstNibble(crc, d);
    r := LastNibble(r, n, crc, d);
  }

  method LfsCrc(seed: Word32, data: array<Byte>) returns (crc: Word32)
    ensures crc == CrcOf(seed, data[..])
  {
    crc := seed;
    for i := 0 to data.Length
      invariant crc == CrcOf(seed, data[..i])
    {
      assert data[..i + 1][..i] == data[..i];
      crc := ConsumeByte(crc, data[i]);
    }
    assert data[..data.Length] == data[..];
  }

  // ---- what the file system relies on -----------------------------------------------------------------------

  lemma {:induction false} FoldConcat(step: (Word32, Byte) -> Word32, c: Word32, a: seq<Byte>, b: seq<Byte>)
    ensures Fold(step, c, a + b) == Fold(step, Fold(step, c, a), b)
  {
    if b == [] {
      assert a + b == a;
    } else {
      assert (a + b)[..|a + b| - 1] == a + b[..|b| - 1];
      FoldConcat(step, c, a, b[..|b| - 1]);
    }
  }

  // A checksum may be computed piece by piece.
  lemma CrcOfConcatenation(c: Word32, a: seq<Byte>, b: seq<Byte>)
    ensures CrcOf(c, a + b) == CrcOf(CrcOf(c, a), b)
  {
    FoldConcat(ByteStep, c, a, b);
  }

  lemma BitStepInjective(a: Word32, b: Word32)
    requires BitStep(a) == BitStep(b)
    ensures a == b
  {
  }

  lemma FourBitsInjective(a: Word32, b: Word32)
    requires FourBits(a) == FourBits(b)
    ensures a == b
  {
    BitStepInjective(BitStep(BitStep(BitStep(a))), BitStep(BitStep(BitStep(b))));
    BitStepInjective(BitStep(BitStep(a)), BitStep(BitStep(b)));
    BitStepInjective(BitStep(a), BitStep(b));
    BitStepInjective(a, b);
  }

  lemma XorCancels(a: Word32, b: Word32, d: Word32)
    ensures a ^ d == b ^ d <==> a == b
    ensures d ^ a == d ^ b <==> a == b
  {
    assert (a ^ d) ^ d == a && (b ^ d) ^ d == b;
  }

  // A byte step loses nothing: not the checksum so far, not the byte.
  lemma ByteStepInjective(a: Word32, x: Byte, b: Word32, y: Byte)
    requires ByteStep(a, x) == ByteStep(b, y)
    ensures a ^ x == b ^ y
  {
    EightBitsInjective(a ^ x, b ^ y);
  }

  lemma EightBitsInjective(u: Word32, v: Word32)
    requires FourBits(FourBits(u)) == FourBits(FourBits(v))
    ensures u == v
  {
    FourBitsInjective(FourBits(u), FourBits(v));
    FourBitsInjective(u, v);
  }

  lemma SameByte(a: Word32, b: Word32, x: Byte)
    requires ByteStep(a, x) == ByteStep(b, x)
    ensures a == b
  {
    ByteStepInjective(a, x, b, x);
    XorCancels(a, b, x);
  }

  lemma SameSum(a: Word32, x: Byte, y: Byte)
    requires ByteStep(a, x) == ByteStep(a, y)
    ensures x == y
  {
    ByteStepInjective(a, x, a, y);
    XorCancels(x, y, a);
  }

  lemma {:induction false} FoldInjective(step: (Word32, Byte) -> Word32, c1: Word32, c2: Word32, data: seq<Byte>)
    requires forall a, b, d :: step(a, d) == step(b, d) ==> a == b
    requires c1 != c2
    ensures Fold(step, c1, data) != Fold(step, c2, data)
  {
    if data != [] { FoldInjective(step, c1, c2, data[..|data| - 1]); }
  }

  // The same bytes never bring two different checksums together.
  lemma DifferenceSurvives(c1: Word32, c2: Word32, data: seq<Byte>)
    requires c1 != c2
    ensures CrcOf(c1, data) != CrcOf(c2, data)
  {
    forall a, b, d | ByteStep(a, d) == ByteStep(b, d) ensures a == b { SameByte(a, b, d); }
    FoldInjective(ByteStep, c1, c2, data);
  }

  lemma FoldLast(step: (Word32, Byte) -> Word32, c: Word32, a: seq<Byte>, x: Byte)
    ensures Fold(step, c, a + [x]) == step(Fold(step, c, a), x)
  {
    assert (a + [x])[..|a|] == a;
  }

  // A change confined to one byte, wherever it is, is always detected.
  lemma OneByteIsDetected(c: Word32, a: seq<Byte>, x: Byte, y: Byte, b: seq<Byte>)
    requires x != y
    ensures CrcOf(c, a + [x] + b) != CrcOf(c, a + [y] + b)
  {
    CrcOfConcatenation(c, a + [x], b);
    CrcOfConcatenation(c, a + [y], b);
    FoldLast(ByteStep, c, a, x);
    FoldLast(ByteStep, c, a, y);
    var s := CrcOf(c, a);
    assert ByteStep(s, x) != ByteStep(s, y) by {
      if ByteStep(s, x) == ByteStep(s, y) { SameSum(s, x, y); }
    }
    DifferenceSurvives(ByteStep(s, x), ByteStep(s, y), b);
  }
}
