// The state of the record task (app/src/record_server.c): four slots in memory, the next sequence number,
// and a file for each slot. Requests are served one at a time.

module RecordServer {
  import opened Basics
  import opened RecordLog
  import opened RecordText

  datatype Status = Ok | NotFound | Invalid | Storage

  predicate Separator(ch: Byte) {
    ch in {' ' as int, '\t' as int, ',' as int, '=' as int}
  }

  predicate NameValid(name: Byte) {
    '!' as int <= name <= '~' as int && !Separator(name)
  }

  // What a restart reads back: a slot whose file is missing or unreadable stays as it was.
  function Loaded(slots: Slots, files: seq<Option<string>>): (r: Slots)
    requires |slots| == |files|
    ensures |r| == |slots|
  {
    seq(|slots|, i requires 0 <= i < |slots| => LoadedSlot(slots[i], files[i]))
  }

  function LoadedSlot(slot: Option<Record>, file: Option<string>): Option<Record> {
    if file.Some? && FromText(file.value).Some? then FromText(file.value) else slot
  }

  const NO_SLOTS: Slots := [None, None, None, None]

  // Each file holds the text of its slot, and there is no file for a free slot.
  ghost predicate Persisted(slots: Slots, files: seq<Option<string>>) {
    && |files| == |slots|
    && forall j :: 0 <= j < |slots| ==>
         files[j] == if slots[j].None? then None else Some(ToText(slots[j].value))
  }

  // Faithful files bring back the same slots, and numbering continues where it stopped.
  lemma RestartRestores(slots: Slots, writes: seq<Record>, files: seq<Option<string>>)
    requires Holds(slots, writes) && Persisted(slots, files)
    ensures Loaded(NO_SLOTS, files) == slots
    ensures NextSeq(slots) == SeqOf(|writes|)
  {
    NextSeqContinues(slots, writes);
    forall j | 0 <= j < SLOT_COUNT
      ensures LoadedSlot(None, files[j]) == slots[j]
    {
      if slots[j].Some? { TextRoundTrip(slots[j].value); }
    }
    assert forall j :: 0 <= j < SLOT_COUNT ==> Loaded(NO_SLOTS, files)[j] == LoadedSlot(None, files[j]);
  }

  // A device that never wrote anything has no files.
  lemma FirstBoot()
    ensures Consistent(NO_SLOTS, 1, [None, None, None, None], [])
  {
    forall j | 0 <= j < SLOT_COUNT ensures Held([], j) == None { Written(0, j); }
  }

  // The state after a history of writes: the slots are its last four, and so are the files.
  ghost predicate Consistent(slots: Slots, nextSeq: Byte, files: seq<Option<string>>, writes: seq<Record>) {
    && Holds(slots, writes)
    && nextSeq == SeqOf(|writes|)
    && Persisted(slots, files)
  }

  lemma WritesStayConsistent(slots: Slots, nextSeq: Byte, files: seq<Option<string>>, writes: seq<Record>, r: Record)
    requires |slots| == |files| == SLOT_COUNT && r.seqNo == nextSeq
    ensures Consistent(slots, nextSeq, files, writes) ==>
      var k := OldestSlot(slots);
      Consistent(slots[k := Some(r)], (nextSeq + 1) % 0x100, files[k := Some(ToText(r))], writes + [r])
  {
    if Consistent(slots, nextSeq, files, writes) {
      WriteKeeps(slots, writes, r);
      SeqAfter(|writes| + 1);
    }
  }

  class RecordState {
    const slots: array<Option<Record>>
    const files: array<Option<string>>
    var nextSeq: Byte
    ghost var writes: seq<Record> // every write that succeeded, the first one first

    ghost predicate Shape()
      reads this
    {
      slots.Length == SLOT_COUNT && files.Length == SLOT_COUNT
    }

    // The slots and the files are the last four writes.
    ghost predicate Valid()
      reads this, slots, files
    {
      Shape() && Consistent(slots[..], nextSeq, files[..], writes)
    }

    // RecordLoad_, over the files a former life left.
    constructor (stored: seq<Option<string>>, ghost history: seq<Record>)
      requires |stored| == SLOT_COUNT
      ensures Shape() && fresh(slots) && fresh(files)
      ensures files[..] == stored && writes == history
      ensures slots[..] == Loaded(NO_SLOTS, stored) && nextSeq == NextSeq(slots[..])
      ensures forall before: Slots :: Holds(before, history) && Persisted(before, stored) ==>
        slots[..] == before && Valid()
    {
      slots := new Option<Record>[SLOT_COUNT](_ => None);
      files := new Option<string>[SLOT_COUNT](i requires 0 <= i < |stored| => stored[i]);
      nextSeq := 0;
      writes := history;
      new;
      for i := 0 to SLOT_COUNT
        modifies slots
        invariant files[..] == stored
        invariant forall j :: 0 <= j < i ==> slots[j] == LoadedSlot(None, stored[j])
        invariant forall j :: i <= j < SLOT_COUNT ==> slots[j] == None
      {
        if files[i].Some? {
          var record := FromText(files[i].value);
          if record.Some? { slots[i] := record; }
        }
      }
      nextSeq := ScanNextSeq();
      assert slots[..] == Loaded(NO_SLOTS, stored);
      forall before: Slots | Holds(before, history) && Persisted(before, stored)
        ensures slots[..] == before && Valid()
      {
        RestartRestores(before, history, stored);
      }
    }

    // RecordNextSeq_
    method ScanNextSeq() returns (s: Byte)
      requires Shape()
      ensures s == NextSeq(slots[..])
    {
      var newestSeq: Byte, found := 0, false;
      for i := 0 to SLOT_COUNT
        invariant NewestSeq(slots[..], i) == if found then Some(newestSeq) else None
      {
        if slots[i].Some? && (!found || Newer(slots[i].value.seqNo, newestSeq)) {
          newestSeq := slots[i].value.seqNo;
          found := true;
        }
      }
      s := if found then (newestSeq + 1) % 0x100 else 1;
    }

    // RecordOldestSlot_
    method ScanOldest() returns (selected: nat)
      requires Shape()
      ensures selected < slots.Length && selected == OldestSlot(slots[..])
    {
      for i := 0 to SLOT_COUNT
        invariant FirstFree(slots[..]) == FirstFree(slots[..], i)
        invariant forall j :: 0 <= j < i ==> slots[j].Some?
      {
        if slots[i].None? { return i; }
      }
      selected := 0;
      for i := 1 to SLOT_COUNT
        invariant selected < slots.Length && selected == OldestBefore(slots[..], i)
      {
        if Newer(slots[selected].value.seqNo, slots[i].value.seqNo) { selected := i; }
      }
    }

    // RecordFindNewest_
    method FindNewest(name: Byte) returns (found: bool, slot: nat)
      requires Shape()
      ensures NewestNamed(slots[..], name, SLOT_COUNT) == if found then Some(slot) else None
    {
      found, slot := false, 0;
      for i := 0 to SLOT_COUNT
        invariant NewestNamed(slots[..], name, i) == if found then Some(slot) else None
        invariant found ==> slot < slots.Length && slots[slot].Some?
      {
        if slots[i].Some? && slots[i].value.nome == name
           && (!found || Newer(slots[i].value.seqNo, slots[slot].value.seqNo)) {
          found, slot := true, i;
        }
      }
    }

    // RecordHandleWrite_; whether the file system takes the text is its choice.
    method HandleWrite(request: Record, storageOk: bool) returns (status: Status, reply: Record)
      requires Shape()
      modifies this, slots, files
      ensures status == if !NameValid(request.nome) then Invalid else if !storageOk then Storage else Ok
      ensures status == Invalid <==> !(0x21 <= request.nome <= 0x7E && request.nome != 0x2C && request.nome != 0x3D)
      ensures status != Ok ==>
        nextSeq == old(nextSeq) && slots[..] == old(slots[..]) && files[..] == old(files[..]) && writes == old(writes)
      ensures status == Ok ==>
        && reply == request.(seqNo := old(nextSeq))
        && slots[..] == old(slots[..])[OldestSlot(old(slots[..])) := Some(reply)]
        && files[..] == old(files[..])[OldestSlot(old(slots[..])) := Some(ToText(reply))]
        && nextSeq == (old(nextSeq) + 1) % 0x100
        && writes == old(writes) + [reply]
      ensures Shape() && (old(Valid()) ==> Valid())
    {
      reply := Record(0, 0, 0);
      var slot := ScanOldest();
      if !NameValid(request.nome) { return Invalid, reply; }
      var record := request.(seqNo := nextSeq);
      if !storageOk { return Storage, reply; }
      files[slot] := Some(ToText(record));
      slots[slot] := Some(record);
      nextSeq := (nextSeq + 1) % 0x100;
      writes := writes + [record];
      status, reply := Ok, record;
      assert slots[..] == old(slots[..])[slot := Some(record)];
      assert files[..] == old(files[..])[slot := Some(ToText(record))];
      WritesStayConsistent(old(slots[..]), old(nextSeq), old(files[..]), old(writes), record);
    }

    // RecordHandleRead_
    method HandleRead(name: Byte) returns (status: Status, reply: Record)
      requires Shape()
      ensures status == Invalid <==> !NameValid(name)
      ensures status == Invalid <==> !(0x21 <= name <= 0x7E && name != 0x2C && name != 0x3D)
      ensures NameValid(name) ==>
        var m := NewestNamed(slots[..], name, SLOT_COUNT);
        if m.None? then status == NotFound && reply == Record(0, name, 0)
        else status == Ok && Some(reply) == slots[m.value]
      ensures Valid() && status == NotFound ==> forall i: nat :: !RecentNamed(writes, name, i)
      ensures Valid() && status == Ok ==>
        exists i: nat :: RecentNamed(writes, name, i) && reply == writes[i]
          && forall k: nat :: RecentNamed(writes, name, k) ==> k <= i
    {
      reply := Record(0, 0, 0);
      if !NameValid(name) { return Invalid, reply; }
      var found, slot := FindNewest(name);
      if Valid() { ReadFindsNewest(slots[..], writes, name); }
      if !found { return NotFound, reply.(nome := name); }
      status, reply := Ok, slots[slot].value;
    }
  }
}
