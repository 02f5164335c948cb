// The public object handles of core/src/kdynobjs.c: 32-bit tokens of tag, type, generation and slot
// (constants of core/inc/kcommondefs.h), and the per-slot generation counter.
//
// The fields do not overlap, so the code's masks and shifts are written as sums, quotients and
// remainders of natural numbers; MasksAreArithmetic and FieldsAreArithmetic show the two agree on
// every 32-bit word.

module Handles {
  import opened Basics

  // The or of the four fields is their sum.
  lemma MasksAreArithmetic(kind: bv32, gen: bv32, slot: bv32)
    ensures 0xA000_0000 | ((kind & 0xF) << 24) | ((gen & 0xFFFF) << 8) | (slot & 0xFF)
         == 0xA000_0000 + (kind % 0x10) * 0x100_0000 + (gen % 0x1_0000) * 0x100 + slot % 0x100
  {
  }

  // Masked and shifted fields are quotients and remainders.
  lemma FieldsAreArithmetic(h: bv32)
    ensures (h & 0xF000_0000 == 0xA000_0000) <==> h / 0x1000_0000 == 0xA
    ensures (h & 0x0F00_0000) >> 24 == h / 0x100_0000 % 0x10
    ensures (h >> 8) & 0xFFFF == h / 0x100 % 0x1_0000
    ensures h & 0xFF == h % 0x100
  {
  }

  const TAG: nat := 0xA
  const WORD_LIMIT: nat := 0x1_0000_0000

  type Kind = k: nat | 1 <= k <= 8 witness 1

  type Slot = s: nat | s < 0x100

  type Generation = g: nat | g < 0x1_0000

  // kDynObjHandleEncode_; the word of MasksAreArithmetic
  function Encode(kind: Kind, gen: Generation, slot: Slot): (h: nat)
    ensures 0 < h < WORD_LIMIT && h == 0xA000_0000 + kind * 0x100_0000 + gen * 0x100 + slot
  {
    TAG * 0x1000_0000 + kind * 0x100_0000 + gen * 0x100 + slot
  }

  // kDynObjHandleIsEncoded
  predicate IsEncoded(h: nat) {
    h / 0x1000_0000 == TAG
  }

  // kDynObjHandleDecode_, before the bound on the slot is checked.
  function Decode(kind: Kind, h: nat): Option<(Generation, Slot)> {
    if !IsEncoded(h) || h / 0x100_0000 % 0x10 != kind then None
    else Some((h / 0x100 % 0x1_0000, h % 0x100))
  }

  // Decoding inverts encoding, for the encoded type only; every handle carries the tag.
  lemma DecodeEncode(kind: Kind, gen: Generation, slot: Slot, other: Kind)
    ensures Decode(other, Encode(kind, gen, slot)) == if other == kind then Some((gen, slot)) else None
    ensures IsEncoded(Encode(kind, gen, slot))
  {
    var h := Encode(kind, gen, slot);
    assert h / 0x100 == TAG * 0x10_0000 + kind * 0x1_0000 + gen;
    assert h / 0x100_0000 == TAG * 0x10 + kind;
  }

  // And encoding inverts decoding: a word decodes as the one handle it is, or not at all.
  lemma EncodeDecode(kind: Kind, h: nat)
    ensures match Decode(kind, h)
            case Some((gen, slot)) => Encode(kind, gen, slot) == h
            case None => forall gen: Generation, slot: Slot :: Encode(kind, gen, slot) != h
  {
    match Decode(kind, h)
    case Some((gen, slot)) =>
      assert h == h / 0x100 * 0x100 + slot;
      assert h / 0x100 == h / 0x100_0000 * 0x1_0000 + gen;
      assert h / 0x100_0000 == h / 0x1000_0000 * 0x10 + kind;
    case None =>
      forall gen: Generation, slot: Slot ensures Encode(kind, gen, slot) != h {
        DecodeEncode(kind, gen, slot, kind);
      }
  }

  // ---- generations ------------------------------------------------------------------------------------

  const CYCLE: nat := 65535

  // kDynObjGenerationBump_: a 16-bit increment that skips zero.
  function Bump(g: Generation): (r: Generation)
    ensures r != 0
  {
    var next := (g + 1) % 0x1_0000;
    if next == 0 then 1 else next
  }

  // The generation of a slot after n bumps; the tables start at zero.
  function GenAfter(n: nat): Generation {
    if n == 0 then 0 else Bump(GenAfter(n - 1))
  }

  lemma ModIs(x: nat, q: nat, r: nat)
    requires x == q * CYCLE + r && r < CYCLE
    ensures x % CYCLE == r
  {
  }

  lemma ModSum(a: nat, d: nat)
    ensures (a + d) % CYCLE == var r := a % CYCLE + d % CYCLE; if r < CYCLE then r else r - CYCLE
  {
    var r := a % CYCLE + d % CYCLE;
    var q := a / CYCLE + d / CYCLE;
    if r < CYCLE { ModIs(a + d, q, r); } else { ModIs(a + d, q + 1, r - CYCLE); }
  }

  lemma BumpIs(v: nat)
    ensures Bump(v % CYCLE + 1) == (v + 1) % CYCLE + 1
  {
    ModSum(v, 1);
    var g: Generation := v % CYCLE + 1;
    if g + 1 < 0x1_0000 { assert (g + 1) % 0x1_0000 == g + 1; }
  }

  // Generations count 1, 2, ..., 65535 over and over; zero only comes before the first bump.
  lemma {:induction false} GenAfterIs(n: nat)
    ensures GenAfter(n) == if n == 0 then 0 else (n - 1) % CYCLE + 1
  {
    if n > 1 {
      GenAfterIs(n - 1);
      BumpIs(n - 2);
    }
  }

  // After d more bumps a generation recurs exactly when d is a multiple of the cycle; the zero a slot
  // starts with never recurs.
  lemma GenRecurs(n: nat, d: nat)
    ensures GenAfter(n + d) == GenAfter(n) <==> d == 0 || (n > 0 && d % CYCLE == 0)
  {
    GenAfterIs(n);
    GenAfterIs(n + d);
    if n > 0 { ModSum(n - 1, d); }
  }
}
