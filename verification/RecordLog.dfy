// The record server of app/src/record_server.c: four slots, a wrapping one-byte sequence number, and
// the scans that choose a slot by it. Whatever the number of writes, the slots are the last four of them.

module RecordLog {
  import opened Basics

  const SLOT_COUNT: nat := 4

  type Byte = b: nat | b < 0x100
  type Ushort = w: nat | w < 0x1_0000

  datatype Record = Record(seqNo: Byte, nome: Byte, valor: Ushort)

  type Slots = seq<Option<Record>>

  // ---- the order of sequence numbers --------------------------------------------------------------------

  // RecordSeqNewer_
  predicate Newer(candidate: Byte, current: Byte) {
    var diff := (candidate + 0x100 - current) % 0x100;
    diff != 0 && diff < 128
  }

  // s1 > s2 as section 3.2 of RFC 1982 defines it for SERIAL_BITS 8.
  predicate SerialGreater(s1: Byte, s2: Byte) {
    (s1 < s2 && s2 - s1 > 128) || (s1 > s2 && s1 - s2 < 128)
  }

  lemma NewerIsSerialGreater(a: Byte, b: Byte)
    ensures Newer(a, b) <==> SerialGreater(a, b)
  {
  }

  // The sequence number of write i, the first being write 0.
  function SeqOf(i: nat): Byte {
    (i + 1) % 0x100
  }

  // Within half the number space the order of writes is the order of their numbers, across wraps.
  lemma NewerIsLater(i: nat, j: nat)
    requires i < j + 128 && j < i + 128
    ensures Newer(SeqOf(i), SeqOf(j)) <==> i > j
    ensures SeqOf(i) == SeqOf(j) ==> i == j
  {
  }

  // ---- the scans ------------------------------------------------------------------------------------------

  // The sequence number RecordNextSeq_ finds newest in the first n slots.
  function NewestSeq(slots: Slots, n: nat): Option<Byte>
    requires n <= |slots|
  {
    if n == 0 then None
    else
      var before := NewestSeq(slots, n - 1);
      if slots[n - 1].Some? && (before.None? || Newer(slots[n - 1].value.seqNo, before.value))
      then Some(slots[n - 1].value.seqNo) else before
  }

  function NextSeq(slots: Slots): Byte {
    match NewestSeq(slots, |slots|)
    case None => 1
    case Some(s) => (s + 1) % 0x100
  }

  function FirstFree(slots: Slots, i: nat := 0): (r: nat)
    requires i <= |slots|
    ensures i <= r <= |slots|
    ensures r < |slots| ==> slots[r].None?
    ensures forall j :: i <= j < r ==> slots[j].Some?
    decreases |slots| - i
  {
    if i == |slots| || slots[i].None? then i else FirstFree(slots, i + 1)
  }

  // The slot the second loop of RecordOldestSlot_ has selected before index n.
  function OldestBefore(slots: Slots, n: nat): (r: nat)
    requires 0 < n <= |slots| && forall j :: 0 <= j < |slots| ==> slots[j].Some?
    ensures r < n
  {
    if n == 1 then 0
    else
      var sel := OldestBefore(slots, n - 1);
      if Newer(slots[sel].value.seqNo, slots[n - 1].value.seqNo) then n - 1 else sel
  }

  // RecordOldestSlot_
  function OldestSlot(slots: Slots): (r: nat)
    requires |slots| > 0
    ensures r < |slots|
  {
    var i := FirstFree(slots);
    if i < |slots| then i else OldestBefore(slots, |slots|)
  }

  // The slot RecordFindNewest_ has selected before index n.
  function NewestNamed(slots: Slots, name: Byte, n: nat): (r: Option<nat>)
    requires n <= |slots|
    ensures r.Some? ==> r.value < n && slots[r.value].Some? && slots[r.value].value.nome == name
  {
    if n == 0 then None
    else
      var before := NewestNamed(slots, name, n - 1);
      if slots[n - 1].Some? && slots[n - 1].value.nome == name
         && (before.None? || Newer(slots[n - 1].value.seqNo, slots[before.value].value.seqNo))
      then Some(n - 1) else before
  }

  // ---- what the slots stand for ---------------------------------------------------------------------------

  // The write that slot j holds after n writes: the last one that is j modulo 4.
  function WriteAt(n: nat, j: nat): (i: int)
    requires j < SLOT_COUNT
    ensures n - SLOT_COUNT <= i < n
  {
    n - 1 - (n - 1 - j) % SLOT_COUNT
  }

  lemma WriteAtNext(n: nat, j: nat)
    requires j < SLOT_COUNT
    ensures WriteAt(n + 1, j) == if j == n % SLOT_COUNT then n else WriteAt(n, j)
  {
    var x := n - j;
    assert x % 4 == 0 <==> j == n % 4;
    assert (x - 1) % 4 == if x % 4 == 0 then 3 else x % 4 - 1;
  }

  lemma WritesDiffer(n: nat, j: nat, k: nat)
    requires j < SLOT_COUNT && k < SLOT_COUNT
    ensures WriteAt(n, j) == WriteAt(n, k) ==> j == k
  {
    if WriteAt(n, j) == WriteAt(n, k) { SameResidue(n - 1 - j, n - 1 - k); }
  }

  lemma SameResidue(x: int, y: int)
    requires x % 4 == y % 4 && -4 < x - y < 4
    ensures x == y
  {
    assert x == 4 * (x / 4) + x % 4 && y == 4 * (y / 4) + y % 4;
  }

  lemma {:induction false} Written(n: nat, j: nat)
    requires j < SLOT_COUNT
    ensures WriteAt(n, j) >= 0 <==> j < n
  {
    if n > 0 {
      WriteAtNext(n - 1, j);
      Written(n - 1, j);
    } else {
      assert (-1 - j) % 4 == 3 - j;
    }
  }

  // Every one of the last four writes has a slot.
  lemma {:induction false} SlotOfWrite(n: nat, i: nat)
    requires i < n <= i + SLOT_COUNT
    ensures WriteAt(n, i % SLOT_COUNT) == i
    decreases n - i
  {
    WriteAtNext(n - 1, i % SLOT_COUNT);
    if i < n - 1 {
      SlotOfWrite(n - 1, i);
      assert 0 < n - 1 - i < 4;
      assert i % 4 != (n - 1) % 4;
    }
  }

  // The slots hold exactly the last four of the writes, each with the number of its place in history.
  ghost predicate Holds(slots: Slots, writes: seq<Record>) {
    && |slots| == SLOT_COUNT
    && (forall i :: 0 <= i < |writes| ==> writes[i].seqNo == SeqOf(i))
    && (forall j :: 0 <= j < SLOT_COUNT ==> slots[j] == Held(writes, j))
  }

  ghost function Held(writes: seq<Record>, j: nat): Option<Record>
    requires j < SLOT_COUNT
  {
    if WriteAt(|writes|, j) < 0 then None else Some(writes[WriteAt(|writes|, j)])
  }

  lemma HeldSeq(slots: Slots, writes: seq<Record>, j: nat)
    requires Holds(slots, writes) && j < SLOT_COUNT && slots[j].Some?
    ensures 0 <= WriteAt(|writes|, j) < |writes|
    ensures slots[j].value.seqNo == SeqOf(WriteAt(|writes|, j)) && slots[j].value == writes[WriteAt(|writes|, j)]
  {
  }

  // The next write overwrites the oldest of four, or takes the first free slot.
  lemma OldestIsNextSlot(slots: Slots, writes: seq<Record>)
    requires Holds(slots, writes)
    ensures OldestSlot(slots) == |writes| % SLOT_COUNT
  {
    var n := |writes|;
    var i := FirstFree(slots);
    if i < SLOT_COUNT {
      Written(n, i);
      if i > 0 { Written(n, i - 1); assert slots[i - 1].Some?; }
    } else {
      Written(n, 3);
      assert slots[3].Some?;
      OldestIsMinimal(slots, writes, SLOT_COUNT);
      var r := OldestBefore(slots, SLOT_COUNT);
      SlotOfWrite(n, n - SLOT_COUNT);
      assert (n - 4) % 4 == n % 4;
      WritesDiffer(n, r, n % SLOT_COUNT);
    }
  }

  lemma {:induction false} OldestIsMinimal(slots: Slots, writes: seq<Record>, k: nat)
    requires Holds(slots, writes) && 0 < k <= SLOT_COUNT && forall j :: 0 <= j < |slots| ==> slots[j].Some?
    ensures forall j :: 0 <= j < k ==> WriteAt(|writes|, OldestBefore(slots, k)) <= WriteAt(|writes|, j)
  {
    if k > 1 {
      OldestIsMinimal(slots, writes, k - 1);
      var sel := OldestBefore(slots, k - 1);
      HeldSeq(slots, writes, sel);
      HeldSeq(slots, writes, k - 1);
      NewerIsLater(WriteAt(|writes|, sel), WriteAt(|writes|, k - 1));
    }
  }

  // m is the latest of the held records before slot k that pass a test on names.
  ghost predicate LatestOf(slots: Slots, n: nat, k: nat, name: Option<Byte>, m: nat)
    requires k <= |slots| == SLOT_COUNT
  {
    && m < k && Candidate(slots, name, m)
    && forall j :: 0 <= j < k && Candidate(slots, name, j) ==> WriteAt(n, j) <= WriteAt(n, m)
  }

  // A scan for a name considers the records of that name; the scan for the sequence number considers all.
  ghost predicate Candidate(slots: Slots, name: Option<Byte>, j: nat)
    requires j < |slots|
  {
    slots[j].Some? && (name.None? || slots[j].value.nome == name.value)
  }

  lemma {:induction false} NewestSeqIs(slots: Slots, writes: seq<Record>, k: nat) returns (m: nat)
    requires Holds(slots, writes) && k <= SLOT_COUNT
    ensures NewestSeq(slots, k).None? ==> forall j :: 0 <= j < k ==> slots[j].None?
    ensures NewestSeq(slots, k).Some? ==>
      LatestOf(slots, |writes|, k, None, m) && NewestSeq(slots, k).value == slots[m].value.seqNo
  {
    m := 0;
    if k > 0 {
      m := NewestSeqIs(slots, writes, k - 1);
      if slots[k - 1].Some? {
        HeldSeq(slots, writes, k - 1);
        if NewestSeq(slots, k - 1).Some? {
          HeldSeq(slots, writes, m);
          NewerIsLater(WriteAt(|writes|, k - 1), WriteAt(|writes|, m));
        }
        if NewestSeq(slots, k - 1).None? || Newer(slots[k - 1].value.seqNo, slots[m].value.seqNo) { m := k - 1; }
      }
    }
  }

  // After a restart the numbering goes on where it stopped.
  lemma NextSeqContinues(slots: Slots, writes: seq<Record>)
    requires Holds(slots, writes)
    ensures NextSeq(slots) == SeqOf(|writes|)
  {
    var m := NewestSeqIs(slots, writes, SLOT_COUNT);
    var n := |writes|;
    if n > 0 {
      SlotOfWrite(n, n - 1);
      var last := (n - 1) % SLOT_COUNT;
      assert slots[last] == Held(writes, last);
      assert Candidate(slots, None, last);
      HeldSeq(slots, writes, m);
      SeqAfter(n);
    } else {
      forall j | 0 <= j < SLOT_COUNT ensures slots[j].None? { Written(0, j); assert slots[j] == Held(writes, j); }
    }
  }

  lemma SeqAfter(n: nat)
    requires n > 0
    ensures (SeqOf(n - 1) + 1) % 0x100 == SeqOf(n)
  {
  }

  lemma {:induction false} NewestNamedIs(slots: Slots, writes: seq<Record>, name: Byte, k: nat)
    requires Holds(slots, writes) && k <= SLOT_COUNT
    ensures NewestNamed(slots, name, k).None? ==> forall j :: 0 <= j < k ==> !Candidate(slots, Some(name), j)
    ensures NewestNamed(slots, name, k).Some? ==>
      LatestOf(slots, |writes|, k, Some(name), NewestNamed(slots, name, k).value)
  {
    if k > 0 {
      NewestNamedIs(slots, writes, name, k - 1);
      var before := NewestNamed(slots, name, k - 1);
      if Candidate(slots, Some(name), k - 1) && before.Some? {
        HeldSeq(slots, writes, k - 1);
        HeldSeq(slots, writes, before.value);
        NewerIsLater(WriteAt(|writes|, k - 1), WriteAt(|writes|, before.value));
      }
    }
  }

  // One of the last four writes has the name, at index i.
  ghost predicate RecentNamed(writes: seq<Record>, name: Byte, i: nat) {
    i < |writes| <= i + SLOT_COUNT && writes[i].nome == name
  }

  // A read finds the newest of that name among the last four writes, and fails only if there is none.
  lemma ReadFindsNewest(slots: Slots, writes: seq<Record>, name: Byte)
    requires Holds(slots, writes)
    ensures NewestNamed(slots, name, SLOT_COUNT).None? <==> forall i: nat :: !RecentNamed(writes, name, i)
    ensures NewestNamed(slots, name, SLOT_COUNT).Some? ==>
      var m := NewestNamed(slots, name, SLOT_COUNT).value;
      var w := WriteAt(|writes|, m);
      && w >= 0 && RecentNamed(writes, name, w) && slots[m] == Some(writes[w])
      && forall i: nat :: RecentNamed(writes, name, i) ==> i <= w
  {
    NewestNamedIs(slots, writes, name, SLOT_COUNT);
    forall i: nat | RecentNamed(writes, name, i)
      ensures Candidate(slots, Some(name), i % SLOT_COUNT) && WriteAt(|writes|, i % SLOT_COUNT) == i
    {
      SlotOfWrite(|writes|, i);
      assert slots[i % SLOT_COUNT] == Held(writes, i % SLOT_COUNT);
    }
    if NewestNamed(slots, name, SLOT_COUNT).Some? {
      var m := NewestNamed(slots, name, SLOT_COUNT).value;
      HeldSeq(slots, writes, m);
      assert RecentNamed(writes, name, WriteAt(|writes|, m));
    }
  }

  // One more write keeps the slots the last four.
  lemma WriteKeeps(slots: Slots, writes: seq<Record>, r: Record)
    requires Holds(slots, writes) && r.seqNo == SeqOf(|writes|)
    ensures Holds(slots[OldestSlot(slots) := Some(r)], writes + [r])
  {
    var n := |writes|;
    OldestIsNextSlot(slots, writes);
    var slots1, writes1 := slots[n % SLOT_COUNT := Some(r)], writes + [r];
    forall j | 0 <= j < SLOT_COUNT
      ensures slots1[j] == Held(writes1, j)
    {
      WriteAtNext(n, j);
      assert slots[j] == Held(writes, j);
    }
  }
}
