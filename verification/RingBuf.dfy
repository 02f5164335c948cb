// The word ring of core/src/kringbuf.c: elements of dataSize words, two pointers that wrap at the
// end of the backing buffer, and a count. It refines a bounded deque.

module RingBuf {
  import opened Basics

  type Word = nat

  // Distinct elements never overlap in the buffer.
  lemma SlotsApart(a: nat, b: nat, size: nat)
    requires a != b
    ensures a * size + size <= b * size || b * size + size <= a * size
  {
    if a < b { MulMono(a, b, size); } else { MulMono(b, a, size); }
  }

  // Slot e of buffer b holds v.
  ghost predicate Holds(b: seq<Word>, size: nat, e: nat, v: seq<Word>) {
    |v| == size && 0 <= e * size <= e * size + size <= |b| && b[e * size..e * size + size] == v
  }

  // b1 is b with v copied into slot e.
  ghost predicate Copied(b: seq<Word>, b1: seq<Word>, size: nat, e: nat, v: seq<Word>) {
    && |b1| == |b| && Holds(b1, size, e, v)
    && forall w :: 0 <= w < |b| && !(e * size <= w < e * size + size) ==> b1[w] == b[w]
  }

  // A copy into one slot leaves every other slot as it was.
  lemma OtherSlotStays(b: seq<Word>, b1: seq<Word>, size: nat, e: nat, v: seq<Word>, o: nat, x: seq<Word>)
    requires Copied(b, b1, size, e, v) && o != e && Holds(b, size, o, x)
    ensures Holds(b1, size, o, x)
  {
    SlotsApart(o, e, size);
    assert b1[o * size..o * size + size] == b[o * size..o * size + size];
  }

  // The slots of n elements from index first on, as the buffer holds them.
  ghost predicate HoldsAll(b: seq<Word>, size: nat, depth: nat, first: nat, elems: seq<seq<Word>>) {
    forall i :: 0 <= i < |elems| ==> Holds(b, size, Wrap(first + i, depth), elems[i])
  }

  function Wrap(e: nat, depth: nat): nat {
    if e < depth then e else e - depth
  }

  lemma Appended(b: seq<Word>, b1: seq<Word>, size: nat, depth: nat, first: nat, elems: seq<seq<Word>>, v: seq<Word>)
    requires HoldsAll(b, size, depth, first, elems) && first < depth && |elems| < depth
    requires Copied(b, b1, size, Wrap(first + |elems|, depth), v)
    ensures HoldsAll(b1, size, depth, first, elems + [v])
  {
    forall i | 0 <= i < |elems| ensures Holds(b1, size, Wrap(first + i, depth), elems[i]) {
      OtherSlotStays(b, b1, size, Wrap(first + |elems|, depth), v, Wrap(first + i, depth), elems[i]);
    }
  }

  lemma Prepended(b: seq<Word>, b1: seq<Word>, size: nat, depth: nat, first: nat, elems: seq<seq<Word>>, v: seq<Word>)
    requires first < depth && |elems| < depth && HoldsAll(b, size, depth, Wrap(first + 1, depth), elems)
    requires Copied(b, b1, size, first, v)
    ensures HoldsAll(b1, size, depth, first, [v] + elems)
  {
    forall i | 0 <= i < |elems| ensures Holds(b1, size, Wrap(first + 1 + i, depth), elems[i]) {
      assert Wrap(first + 1 + i, depth) == Wrap(Wrap(first + 1, depth) + i, depth);
      OtherSlotStays(b, b1, size, first, v, Wrap(first + 1 + i, depth), elems[i]);
    }
  }

  lemma Removed(b: seq<Word>, size: nat, depth: nat, first: nat, elems: seq<seq<Word>>)
    requires HoldsAll(b, size, depth, first, elems) && first < depth && 0 < |elems| <= depth
    ensures HoldsAll(b, size, depth, Wrap(first + 1, depth), elems[1..])
  {
    var rest := elems[1..];
    forall i | 0 <= i < |rest| ensures Holds(b, size, Wrap(Wrap(first + 1, depth) + i, depth), rest[i]) {
      assert Holds(b, size, Wrap(first + (i + 1), depth), elems[i + 1]);
    }
  }

  class Ring {
    var buf: array<Word>
    var dataSize: nat
    var maxBuf: nat
    var readPtr: nat  // word offsets from bufPtr
    var writePtr: nat
    var nFull: nat
    ghost var first: nat           // element index of readPtr
    ghost var elems: seq<seq<Word>>

    // kRingBufInit
    constructor (buffer: array<Word>, size: nat, depth: nat)
      requires size > 0 && depth > 0 && buffer.Length == size * depth
      ensures Valid() && Contents() == [] && buf == buffer && dataSize == size && maxBuf == depth
    {
      buf, dataSize, maxBuf := buffer, size, depth;
      nFull, writePtr, readPtr, first, elems := 0, 0, 0, 0, [];
    }

    ghost predicate Shape()
      reads this
    {
      && dataSize > 0 && maxBuf > 0 && buf.Length == dataSize * maxBuf
      && first < maxBuf && nFull <= maxBuf
      && readPtr == first * dataSize && writePtr == Wrap(first + nFull, maxBuf) * dataSize
    }

    ghost predicate Valid()
      reads this, buf
    {
      Shape() && |elems| == nFull && HoldsAll(buf[..], dataSize, maxBuf, first, elems)
    }

    ghost function Contents(): seq<seq<Word>>
      reads this
    {
      elems
    }

    lemma SlotFits(e: nat)
      requires Shape() && e < maxBuf
      ensures 0 <= e * dataSize && e * dataSize + dataSize <= buf.Length
    {
      MulMono(e, maxBuf, dataSize);
    }

    // kRingBufAdvance_
    method Advance(ptr: nat, ghost e: nat) returns (next: nat)
      requires Shape() && e < maxBuf && ptr == e * dataSize
      ensures next == Wrap(e + 1, maxBuf) * dataSize
    {
      next := ptr + dataSize;
      assert next == (e + 1) * dataSize;
      if e + 1 < maxBuf { MulMono(e + 1, maxBuf, dataSize); }
      if next == buf.Length { next := 0; }
    }

    // kRingBufRetreat_
    method Retreat(ptr: nat, ghost e: nat) returns (prev: nat)
      requires Shape() && e < maxBuf && ptr == e * dataSize
      ensures prev == (if e > 0 then e - 1 else maxBuf - 1) * dataSize
    {
      var p := ptr;
      if e > 0 { MulMono(0, e, dataSize); }
      assert (maxBuf - 1) * dataSize == buf.Length - dataSize;
      if p == 0 { p := buf.Length; }
      assert e > 0 ==> (e - 1) * dataSize == p - dataSize;
      prev := p - dataSize;
    }

    // K_RINGBUF_CPY into slot e: one word per test of the counter, and the last one after it.
    method CopyIn(at: nat, src: seq<Word>, ghost e: nat)
      requires |src| == dataSize > 0 && at == e * dataSize && at + dataSize <= buf.Length
      modifies buf
      ensures Copied(old(buf[..]), buf[..], dataSize, e, src)
    {
      var words: nat := dataSize - 1;
      var d, s := at, 0;
      while words != 0
        invariant s + words + 1 == dataSize && d == at + s
        invariant buf[at..d] == src[..s]
        invariant forall w :: 0 <= w < buf.Length && !(at <= w < d) ==> buf[w] == old(buf[w])
      {
        buf[d] := src[s];
        d, s := d + 1, s + 1;
        words := words - 1;
      }
      buf[d] := src[s];
    }

    // K_RINGBUF_CPY out of the buffer.
    method CopyOut(at: nat) returns (dst: seq<Word>)
      requires dataSize > 0 && at + dataSize <= buf.Length
      ensures dst == buf[at..at + dataSize]
    {
      var words: nat := dataSize - 1;
      var s := at;
      dst := [];
      while words != 0
        invariant s + words + 1 == at + dataSize && at <= s
        invariant dst == buf[at..s]
      {
        dst := dst + [buf[s]];
        s, words := s + 1, words - 1;
      }
      dst := dst + [buf[s]];
    }

    // kRingBufReset
    method Reset()
      requires Valid()
      modifies this`nFull, this`writePtr, this`readPtr, this`first, this`elems
      ensures Valid() && Contents() == []
    {
      nFull, writePtr, readPtr, first, elems := 0, 0, 0, 0, [];
    }

    // kRingBufWrite: append.
    method Write(src: seq<Word>)
      requires Valid() && |src| == dataSize && nFull < maxBuf
      modifies this`nFull, this`writePtr, this`elems, buf
      ensures Valid() && Contents() == old(Contents()) + [src]
    {
      ghost var e := Wrap(first + nFull, maxBuf);
      SlotFits(e);
      CopyIn(writePtr, src, e);
      writePtr := Advance(writePtr, e);
      nFull := nFull + 1;
      Appended(old(buf[..]), buf[..], dataSize, maxBuf, first, elems, src);
      elems := elems + [src];
    }

    // kRingBufRead: take the front element.
    method Read() returns (dst: seq<Word>)
      requires Valid() && nFull > 0
      modifies this`nFull, this`readPtr, this`first, this`elems
      ensures Valid() && old(Contents()) == [dst] + Contents()
    {
      SlotFits(first);
      assert Holds(buf[..], dataSize, Wrap(first + 0, maxBuf), elems[0]);
      dst := CopyOut(readPtr);
      readPtr := Advance(readPtr, first);
      nFull := nFull - 1;
      Removed(buf[..], dataSize, maxBuf, first, elems);
      first, elems := Wrap(first + 1, maxBuf), elems[1..];
    }

    // kRingBufPeek: look at the front element.
    method Peek() returns (dst: seq<Word>)
      requires Valid() && nFull > 0
      ensures dst == Contents()[0]
    {
      SlotFits(first);
      assert Holds(buf[..], dataSize, Wrap(first + 0, maxBuf), elems[0]);
      dst := CopyOut(readPtr);
    }

    // kRingBufJam: insert at the front.
    method Jam(src: seq<Word>)
      requires Valid() && |src| == dataSize && nFull < maxBuf
      modifies this`nFull, this`readPtr, this`first, this`elems, buf
      ensures Valid() && Contents() == [src] + old(Contents())
    {
      ghost var e := if first > 0 then first - 1 else maxBuf - 1;
      SlotFits(e);
      var at := Retreat(readPtr, first);
      CopyIn(at, src, e);
      readPtr := at;
      nFull := nFull + 1;
      Prepended(old(buf[..]), buf[..], dataSize, maxBuf, e, elems, src);
      first, elems := e, [src] + elems;
    }

    // kRingBufOverwrite: the new element replaces everything. It leaves a ring exactly when there
    // is one slot: with more, both pointers sit on slot 0 while the count is one.
    method Overwrite(src: seq<Word>)
      requires Valid() && |src| == dataSize
      modifies this`nFull, this`readPtr, this`writePtr, this`first, this`elems, buf
      ensures Valid() <==> maxBuf == 1
      ensures maxBuf == 1 ==> Contents() == [src]
    {
      ghost var e := Wrap(first + nFull, maxBuf);
      SlotFits(e);
      CopyIn(writePtr, src, e);
      nFull, writePtr, readPtr := 1, 0, 0;
      first, elems := 0, [src];
    }
  }
}
