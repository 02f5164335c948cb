// The fixed-block partition allocator of core/src/kmem.c.
//
// `Pool` is the abstract value of a partition: which block numbers are free, in list order.
// `MemPartition` is the code's own form: the free list is threaded through the first word of
// every free block, and the kernel sees only a head address and two counters.

module Mem {
  import opened Basics

  const WORD: nat := 4
  const ULONG_MAX: nat := 0xFFFF_FFFF

  datatype Err = Success | ObjNull | DoubleInit | InvalidParam | InvalidObj | MemFree

  // ---- the abstract partition -------------------------------------------------------------

  datatype Pool = Pool(nMax: nat, free: seq<nat>) {
    ghost predicate Valid() {
      Distinct(free) && forall b <- free :: b < nMax
    }

    predicate Held(b: nat) {
      b < nMax && b !in free
    }

    function HeldSet(): set<nat> {
      UpTo(nMax) - set b | b in free
    }

    // kMemPartitionAlloc: the head of the free list, if any.
    function Take(): (Pool, Option<nat>) {
      if free == [] then (this, None) else (this.(free := free[1..]), Some(free[0]))
    }

    // kMemPartitionFree of a block the pool accepts: pushed on the head of the list.
    function Give(b: nat): Pool {
      this.(free := [b] + free)
    }
  }

  function FreshPool(n: nat): Pool {
    Pool(n, seq(n, i => i))
  }

  // Conservation: free blocks and held blocks partition the pool.
  lemma PoolConserves(p: Pool)
    requires p.Valid()
    ensures |p.free| + |p.HeldSet()| == p.nMax
  {
    var fr := set x | x in p.free;
    CardinalityOfDistinct(p.free);
    assert UpTo(p.nMax) == fr + p.HeldSet();
    assert fr !! p.HeldSet();
  }

  lemma NoneHeld(p: Pool)
    requires p.Valid() && |p.free| == p.nMax
    ensures forall b: nat :: !p.Held(b)
  {
    PoolConserves(p);
    forall b: nat ensures !p.Held(b) { assert b !in p.HeldSet(); }
  }

  lemma TakeKeeps(p: Pool)
    requires p.Valid()
    ensures var (q, got) := p.Take();
      && q.Valid() && q.nMax == p.nMax
      && (got.None? <==> p.free == [])
      && (forall b: nat :: q.Held(b) <==> p.Held(b) || got == Some(b))
      && (got.Some? ==> !p.Held(got.value) && got.value < p.nMax && q.Give(got.value) == p)
  {
    if p.free != [] {
      assert p.free[0] in p.free;
      assert p.free == [p.free[0]] + p.free[1..];
      assert forall b <- p.free[1..] :: b in p.free;
    }
  }

  lemma GiveKeeps(p: Pool, b: nat)
    requires p.Valid() && p.Held(b)
    ensures p.Give(b).Valid() && p.Give(b).nMax == p.nMax
    ensures forall c: nat :: p.Give(b).Held(c) <==> p.Held(c) && c != b
    ensures p.Give(b).Take() == (p, Some(b))
  {
    var q := p.Give(b);
    assert q.free[1..] == p.free;
    assert forall x <- q.free :: x == b || x in p.free;
    assert forall x <- p.free :: x in q.free;
  }

  // ---- whole runs of allocations and frees --------------------------------------------------

  datatype PoolCall = AllocCall | FreeCall(block: nat)

  // A free of anything but a held block is refused.
  function PoolStep(p: Pool, c: PoolCall): Pool {
    match c
    case AllocCall => p.Take().0
    case FreeCall(b) => if p.Held(b) then p.Give(b) else p
  }

  function PoolRun(p: Pool, calls: seq<PoolCall>): Pool {
    if calls == [] then p else PoolStep(PoolRun(p, calls[..|calls| - 1]), calls[|calls| - 1])
  }

  // How often a run handed block b out, minus how often it accepted it back.
  function Outstanding(p: Pool, calls: seq<PoolCall>, b: nat): int {
    if calls == [] then 0
    else
      var before := PoolRun(p, calls[..|calls| - 1]);
      Outstanding(p, calls[..|calls| - 1], b) +
      match calls[|calls| - 1]
      case AllocCall => if before.Take().1 == Some(b) then 1 else 0
      case FreeCall(f) => if f == b && before.Held(b) then -1 else 0
  }

  // Over every run, each block has been handed out exactly once more than it came back while
  // it is held, and as often while it is free: no block is ever handed out twice.
  lemma {:induction false} RunHandsOutOnce(n: nat, calls: seq<PoolCall>)
    ensures PoolRun(FreshPool(n), calls).Valid() && PoolRun(FreshPool(n), calls).nMax == n
    ensures forall b: nat ::
      Outstanding(FreshPool(n), calls, b) == if PoolRun(FreshPool(n), calls).Held(b) then 1 else 0
  {
    var p := FreshPool(n);
    if calls != [] {
      var pre, c := calls[..|calls| - 1], calls[|calls| - 1];
      RunHandsOutOnce(n, pre);
      var before := PoolRun(p, pre);
      forall b: nat
        ensures Outstanding(p, calls, b) == if PoolRun(p, calls).Held(b) then 1 else 0
      {
        match c
        case AllocCall => TakeKeeps(before);
        case FreeCall(f) => if before.Held(f) { GiveKeeps(before, f); }
      }
      match c
      case AllocCall => TakeKeeps(before);
      case FreeCall(f) => if before.Held(f) { GiveKeeps(before, f); }
    } else {
      forall b: nat | b < n ensures b in p.free { assert p.free[b] == b; }
    }
  }

  function AddrsOf(poolPtr: nat, blkSize: nat, blocks: seq<nat>): (r: seq<nat>)
    ensures |r| == |blocks| && forall k :: 0 <= k < |blocks| ==> r[k] == poolPtr + blocks[k] * blkSize
  {
    seq(|blocks|, k requires 0 <= k < |blocks| => poolPtr + blocks[k] * blkSize)
  }

  lemma AddrsHave(poolPtr: nat, blkSize: nat, blocks: seq<nat>, b: nat)
    requires blkSize > 0
    ensures poolPtr + b * blkSize in AddrsOf(poolPtr, blkSize, blocks) <==> b in blocks
  {
    var addrs := AddrsOf(poolPtr, blkSize, blocks);
    if k :| 0 <= k < |addrs| && addrs[k] == poolPtr + b * blkSize {
      if blocks[k] < b { MulMono(blocks[k], b, blkSize); } else if b < blocks[k] { MulMono(b, blocks[k], blkSize); }
      assert blocks[k] == b;
    }
    if k :| 0 <= k < |blocks| && blocks[k] == b { assert addrs[k] == poolPtr + b * blkSize; }
  }

  // ---- lists threaded through memory ----------------------------------------------------------

  // What at most n links from address p on lead to: ptr itself, or an address that is no block.
  // `words` has the first word of every block, by address; 0 is NULL.
  predicate Leads(words: map<nat, nat>, p: nat, n: nat, ptr: nat)
    decreases n
  {
    n > 0 && p != 0 && (p !in words || p == ptr || Leads(words, words[p], n - 1, ptr))
  }

  function AddrFrom(addrs: seq<nat>, k: nat): nat {
    if k < |addrs| then addrs[k] else 0
  }

  ghost predicate LinkedAt(words: map<nat, nat>, addrs: seq<nat>, k: nat)
    requires k < |addrs|
  {
    addrs[k] in words && addrs[k] != 0 && words[addrs[k]] == AddrFrom(addrs, k + 1)
  }

  // Each listed block begins with the address of the next, the last one with NULL.
  ghost predicate Linked(words: map<nat, nat>, addrs: seq<nat>) {
    forall k :: 0 <= k < |addrs| ==> LinkedAt(words, addrs, k)
  }

  // The links of a well-formed list lead to exactly the listed blocks.
  lemma {:induction false} LeadsAlong(words: map<nat, nat>, addrs: seq<nat>, k: nat, ptr: nat)
    requires Linked(words, addrs) && k <= |addrs|
    ensures Leads(words, AddrFrom(addrs, k), |addrs| - k, ptr) <==> ptr in addrs[k..]
    decreases |addrs| - k
  {
    if k < |addrs| {
      assert LinkedAt(words, addrs, k);
      LeadsAlong(words, addrs, k + 1, ptr);
      assert addrs[k..] == [addrs[k]] + addrs[k + 1..];
    }
  }

  // ---- the partition in place ---------------------------------------------------------------

  function RoundUp(n: nat): (r: nat)
    ensures r % WORD == 0 && n <= r < n + WORD
  {
    (n + WORD - 1) / WORD * WORD
  }

  class MemPartition {
    var init: bool
    var poolPtr: nat         // byte address; 0 is NULL
    var blkSize: nat
    var nMaxBlocks: nat
    var nFreeBlocks: nat
    var freeListPtr: nat
    var mem: array<nat>      // word w of the pool is at byte address poolPtr + 4 * w
    ghost var free: seq<nat> // block numbers in list order

    constructor ()
      ensures !init && fresh(mem)
    {
      init := false;
      poolPtr, blkSize, nMaxBlocks, nFreeBlocks, freeListPtr := 0, 0, 0, 0, 0;
      mem := new nat[0];
      free := [];
    }

    ghost function Addr(b: nat): nat reads this {
      poolPtr + b * blkSize
    }

    // The word holding the link of free block b.
    ghost function LinkAt(b: nat): nat reads this {
      b * (blkSize / WORD)
    }

    ghost function NextAddr(k: nat): nat
      requires k < |free|
      reads this
    {
      if k + 1 < |free| then Addr(free[k + 1]) else 0
    }

    ghost predicate Shape() reads this {
      && init && poolPtr > 0 && poolPtr % WORD == 0
      && blkSize >= WORD && blkSize % WORD == 0 && nMaxBlocks > 0
      && nMaxBlocks * (blkSize / WORD) <= mem.Length
    }

    ghost predicate Valid() reads this, mem {
      && Shape()
      && Contents().Valid()
      && nFreeBlocks == |free|
      && freeListPtr == (if free == [] then 0 else Addr(free[0]))
      && (forall b <- free :: LinkAt(b) < mem.Length)
      && (forall k :: 0 <= k < |free| ==> mem[LinkAt(free[k])] == NextAddr(k))
    }

    ghost function Contents(): Pool reads this {
      Pool(nMaxBlocks, free)
    }

    // The pool lies inside the 32-bit address space, as the code checks it.
    predicate Fits() reads this
      requires nMaxBlocks > 0
    {
      blkSize <= ULONG_MAX / nMaxBlocks && poolPtr <= ULONG_MAX - blkSize * nMaxBlocks
    }

    // ptr is the address of some block of the pool.
    ghost predicate IsBlock(ptr: nat) reads this {
      exists b: nat :: b < nMaxBlocks && ptr == Addr(b)
    }

    // ptr is the address of a held block.
    ghost predicate IsHeld(ptr: nat) reads this {
      exists b: nat :: Contents().Held(b) && ptr == Addr(b)
    }

    lemma BlockFacts(b: nat)
      requires Shape() && b < nMaxBlocks
      ensures LinkAt(b) < mem.Length && Addr(b) > 0
      ensures Addr(b) == poolPtr + WORD * LinkAt(b)
      ensures (Addr(b) - poolPtr) % blkSize == 0
      ensures Addr(b) < poolPtr + blkSize * nMaxBlocks
    {
      var bw := blkSize / WORD;
      MulMono(b, nMaxBlocks, bw);
      MulMono(b, nMaxBlocks, blkSize);
      DivOfProduct(b, blkSize);
      assert blkSize == WORD * bw;
      assert b * (WORD * bw) == WORD * (b * bw);
    }

    lemma BlocksDiffer(a: nat, b: nat)
      requires Shape() && a != b
      ensures Addr(a) != Addr(b) && LinkAt(a) != LinkAt(b)
    {
      var bw := blkSize / WORD;
      if a < b { MulMono(a, b, blkSize); MulMono(a, b, bw); }
      else { MulMono(b, a, blkSize); MulMono(b, a, bw); }
    }

    // kMemPartitionBlockValid_: exactly the block addresses of a pool inside the address space.
    method BlockValid(ptr: nat) returns (ok: bool)
      requires Shape()
      ensures ok <==> Fits() && IsBlock(ptr)
    {
      if ptr == 0 || blkSize > ULONG_MAX / nMaxBlocks {
        assert forall b: nat :: Addr(b) > 0;
        return false;
      }
      var poolSize := blkSize * nMaxBlocks;
      if poolPtr > ULONG_MAX - poolSize { return false; }
      if ptr < poolPtr || ptr >= poolPtr + poolSize {
        forall b: nat | b < nMaxBlocks ensures ptr != Addr(b) { BlockFacts(b); }
        return false;
      }
      var diff := ptr - poolPtr;
      ok := diff % blkSize == 0;
      if ok {
        var b := diff / blkSize;
        assert b * blkSize == diff;
        if b >= nMaxBlocks { MulMono(nMaxBlocks, b + 1, blkSize); }
        assert ptr == Addr(b);
      } else {
        forall b: nat | b < nMaxBlocks ensures ptr != Addr(b) { BlockFacts(b); }
      }
    }

    // The word each block begins with, by address: in a free block its link.
    ghost function Words(): map<nat, nat>
      reads this, mem
      requires Shape()
    {
      map p: nat | p < poolPtr + blkSize * nMaxBlocks && IsBlock(p) :: FirstWord(p)
    }

    ghost function FirstWord(p: nat): nat
      reads this, mem
    {
      if p >= poolPtr && (p - poolPtr) / WORD < mem.Length then mem[(p - poolPtr) / WORD] else 0
    }

    lemma WordsAre(p: nat)
      requires Shape()
      ensures p in Words() <==> IsBlock(p)
      ensures p in Words() ==>
        p >= poolPtr && (p - poolPtr) / WORD < mem.Length && Words()[p] == mem[(p - poolPtr) / WORD]
    {
      if IsBlock(p) {
        var b: nat :| b < nMaxBlocks && p == Addr(b);
        BlockFacts(b);
      }
    }

    ghost function FreeAddrs(): (r: seq<nat>)
      reads this
    {
      AddrsOf(poolPtr, blkSize, free)
    }

    lemma FreeIsLinked()
      requires Valid()
      ensures Linked(Words(), FreeAddrs())
    {
      forall k | 0 <= k < |free|
        ensures LinkedAt(Words(), FreeAddrs(), k)
      {
        assert free[k] in free;
        BlockFacts(free[k]);
        WordsAre(Addr(free[k]));
        assert (Addr(free[k]) - poolPtr) / WORD == LinkAt(free[k]);
        assert mem[LinkAt(free[k])] == NextAddr(k);
      }
    }

    // On an uncorrupted list that is membership in the free list.
    lemma LeadsIsMembership(b: nat)
      requires Valid() && b < nMaxBlocks
      ensures Leads(Words(), freeListPtr, nFreeBlocks, Addr(b)) <==> b in free
    {
      FreeIsLinked();
      var addrs := FreeAddrs();
      assert freeListPtr == AddrFrom(addrs, 0) && addrs[0..] == addrs;
      LeadsAlong(Words(), addrs, 0, Addr(b));
      AddrsHave(poolPtr, blkSize, free, b);
    }

    // kMemPartitionFreeListContains_: every link is checked before it is followed, and a link that leads
    // out of the pool counts as a hit, so that a free on a corrupted list is refused.
    method FreeListContains(ptr: nat) returns (found: bool)
      requires Shape()
      ensures found <==> if Fits() then Leads(Words(), freeListPtr, nFreeBlocks, ptr) else nFreeBlocks > 0 && freeListPtr > 0
    {
      ghost var words := Words();
      var p: nat := freeListPtr;
      var i: nat := 0;
      while i < nFreeBlocks && p != 0
        invariant i <= nFreeBlocks
        invariant if Fits() then Leads(words, p, nFreeBlocks - i, ptr) == Leads(words, freeListPtr, nFreeBlocks, ptr)
                  else i == 0 && p == freeListPtr
      {
        var valid := BlockValid(p);
        WordsAre(p);
        if !valid || p == ptr { return true; }
        p := mem[(p - poolPtr) / WORD];
        i := i + 1;
      }
      found := false;
    }

    // The loop of kMemPartitionInitImpl_: block k links to block k + 1, the last to NULL.
    static method ThreadBlocks(memPool: array<nat>, start: nat, blk: nat, numBlocks: nat)
      requires numBlocks > 0 && blk >= WORD && blk % WORD == 0
      requires blk / WORD * numBlocks <= memPool.Length
      modifies memPool
      ensures forall k :: 0 <= k < numBlocks ==> 0 <= k * (blk / WORD) < memPool.Length
      ensures forall k :: 0 <= k < numBlocks ==>
        memPool[k * (blk / WORD)] == if k + 1 < numBlocks then start + (k + 1) * blk else 0
    {
      var incSizeWord := blk / WORD;
      forall k | 0 <= k < numBlocks ensures 0 <= k * incSizeWord < memPool.Length {
        MulMono(k, numBlocks, incSizeWord);
      }
      var blockPtr, next := start, 0;
      var i := 0;
      while i < numBlocks - 1
        invariant 0 <= i <= numBlocks - 1 && next == i * incSizeWord && blockPtr == start + i * blk
        invariant forall k :: 0 <= k < i ==> memPool[k * incSizeWord] == start + (k + 1) * blk
      {
        forall k | 0 <= k < i ensures k * incSizeWord < next { MulMono(k, i, incSizeWord); }
        assert (i + 1) * blk == i * blk + blk && (i + 1) * incSizeWord == next + incSizeWord;
        blockPtr := blockPtr + WORD * incSizeWord;
        memPool[next] := blockPtr;
        next := next + incSizeWord;
        i := i + 1;
      }
      forall k | 0 <= k < i ensures k * incSizeWord < next { MulMono(k, i, incSizeWord); }
      memPool[next] := 0;
    }

    // kMemPartitionInitImpl_: threads every block on the free list, lowest address first.
    method Init(memPool: array<nat>, memPoolPtr: nat, size: nat, numBlocks: nat) returns (err: Err)
      requires memPoolPtr > 0 ==> RoundUp(size) / WORD * numBlocks <= memPool.Length
      modifies this, memPool
      ensures err == Success ==>
        && Valid() && Contents() == FreshPool(numBlocks)
        && blkSize == RoundUp(size) && poolPtr == memPoolPtr && mem == memPool
      ensures err == Success <==>
        memPoolPtr > 0 && !old(init) && size > 0 && numBlocks > 0
        && size <= ULONG_MAX - (WORD - 1) && memPoolPtr % WORD == 0
      ensures err != Success ==> unchanged(this) && unchanged(memPool)
    {
      if memPoolPtr == 0 { return ObjNull; }
      if init { return DoubleInit; }
      if size == 0 || numBlocks == 0 || size > ULONG_MAX - (WORD - 1) || memPoolPtr % WORD != 0 {
        return InvalidParam;
      }
      var blk := RoundUp(size);
      ThreadBlocks(memPool, memPoolPtr, blk, numBlocks);
      blkSize, nMaxBlocks, nFreeBlocks := blk, numBlocks, numBlocks;
      freeListPtr, poolPtr := memPoolPtr, memPoolPtr;
      mem := memPool;
      init := true;
      free := seq(numBlocks, b => b);
      assert free[0] == 0 && forall k | 0 <= k < |free| :: free[k] == k;
      forall b <- free ensures LinkAt(b) < mem.Length { BlockFacts(b); }
      return Success;
    }

    // kMemPartitionAlloc: NULL exactly when the list is empty or the pool is out of range.
    method Alloc() returns (ptr: nat)
      requires Valid()
      modifies this`nFreeBlocks, this`freeListPtr, this`free
      ensures Valid() && Fits() == old(Fits())
      ensures !Fits() ==> ptr == 0 && unchanged(this)
      ensures Fits() ==> Contents() == old(Contents()).Take().0
      ensures Fits() ==> match old(Contents()).Take().1
                         case None => ptr == 0
                         case Some(b) => ptr == Addr(b) && ptr > 0
    {
      ptr := 0;
      if nFreeBlocks > 0 {
        assert free[0] in free;
        BlockFacts(free[0]);
        var headValid := BlockValid(freeListPtr);
        if !headValid { return 0; }
        var nextPtr := mem[(freeListPtr - poolPtr) / WORD];
        var nextValid := BlockValid(nextPtr);
        if |free| > 1 { assert free[1] in free; BlockFacts(free[1]); }
        if (nFreeBlocks == 1 && nextPtr != 0) || (nFreeBlocks > 1 && !nextValid) {
          assert false;
          return;
        }
        ptr := freeListPtr;
        TakeKeeps(Contents());
        nFreeBlocks := nFreeBlocks - 1;
        freeListPtr := nextPtr;
        free := free[1..];
      }
    }

    // A block address names one block.
    lemma OneBlock(b: nat, ptr: nat)
      requires Shape() && b < nMaxBlocks && ptr == Addr(b)
      ensures forall c: nat :: ptr == Addr(c) ==> c == b
      ensures IsHeld(ptr) <==> Contents().Held(b)
    {
      forall c: nat | ptr == Addr(c) ensures c == b { if c != b { BlocksDiffer(b, c); } }
    }

    // Pushing held block b in front of the list keeps every other link where it was.
    twostate lemma PushKeepsLinks(b: nat)
      requires old(Valid()) && old(Contents()).Held(b) && Shape() && unchanged(`poolPtr, `blkSize, `mem, `nMaxBlocks)
      requires nFreeBlocks == old(nFreeBlocks) + 1 && free == [b] + old(free) && freeListPtr == Addr(b)
      requires LinkAt(b) < mem.Length && mem[LinkAt(b)] == old(freeListPtr)
      requires forall w :: 0 <= w < mem.Length && w != LinkAt(b) ==> mem[w] == old(mem[w])
      ensures Valid()
    {
      GiveKeeps(old(Contents()), b);
      assert Contents() == old(Contents()).Give(b);
      forall c | c in old(free) ensures LinkAt(c) != LinkAt(b) { BlocksDiffer(c, b); }
      forall k | 0 <= k < |free| ensures mem[LinkAt(free[k])] == NextAddr(k) {
        if k > 0 { assert free[k] == old(free)[k - 1] && free[k] in old(free); }
      }
    }

    // The relinking of kMemPartitionFree.
    method Push(ptr: nat, ghost b: nat)
      requires Valid() && Contents().Held(b) && ptr == Addr(b)
      modifies this`nFreeBlocks, this`freeListPtr, this`free, mem
      ensures Valid() && Contents() == old(Contents()).Give(b)
      ensures forall w :: 0 <= w < mem.Length && w != LinkAt(b) ==> mem[w] == old(mem[w])
    {
      BlockFacts(b);
      mem[(ptr - poolPtr) / WORD] := freeListPtr;
      freeListPtr := ptr;
      nFreeBlocks := nFreeBlocks + 1;
      free := [b] + free;
      PushKeepsLinks(b);
    }

    // kMemPartitionFree: succeeds exactly on the address of a held block; every foreign,
    // misaligned or already free pointer is refused and changes nothing.
    method Free(ptr: nat) returns (err: Err, ghost b: nat)
      requires Valid()
      modifies this`nFreeBlocks, this`freeListPtr, this`free, mem
      ensures Valid() && Fits() == old(Fits())
      ensures err == Success <==> Fits() && old(IsHeld(ptr))
      ensures err == Success ==>
        && ptr == Addr(b) && old(Contents()).Held(b)
        && Contents() == old(Contents()).Give(b)
        && (forall w :: 0 <= w < mem.Length && w != LinkAt(b) ==> mem[w] == old(mem[w]))
      ensures err != Success ==> unchanged(this) && unchanged(mem)
    {
      b := 0;
      if ptr == 0 {
        assert !IsHeld(ptr) by {
          forall c: nat | c < nMaxBlocks ensures Addr(c) != 0 { BlockFacts(c); }
        }
        return ObjNull, b;
      }
      var allFree := nFreeBlocks == nMaxBlocks;
      var valid := BlockValid(ptr);
      if !valid {
        assert IsHeld(ptr) ==> IsBlock(ptr);
        return MemFree, b;
      }
      b :| b < nMaxBlocks && ptr == Addr(b);
      OneBlock(b, ptr);
      if allFree { NoneHeld(Contents()); return MemFree, b; }
      var contains := FreeListContains(ptr);
      LeadsIsMembership(b);
      if contains { return MemFree, b; }
      assert IsHeld(ptr);
      Push(ptr, b);
      return Success, b;
    }

    // The holder of a block may write every word of it: no link lives in a held block.
    method HolderWrite(b: nat, w: nat, value: nat)
      requires Valid() && Contents().Held(b) && w < blkSize / WORD
      modifies mem
      ensures Valid() && mem.Length == old(mem.Length)
    {
      BlockFacts(b);
      MulMono(b, nMaxBlocks, blkSize / WORD);
      forall c <- free ensures LinkAt(c) != LinkAt(b) + w {
        if c < b { MulMono(c, b, blkSize / WORD); }
        else { assert c > b; MulMono(b, c, blkSize / WORD); }
      }
      mem[b * (blkSize / WORD) + w] := value;
    }
  }
}
