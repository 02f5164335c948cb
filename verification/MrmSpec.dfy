// The most-recent-message protocol of core/src/kmrm.c on values: every service call is one
// critical section, so a run is a sequence of calls by any tasks in any order.
//
// A buffer is a metadata block of the MRM's first partition, paired with a payload block of its
// second partition. The lease table is shared by all MRMs and all tasks.

module MrmSpec {
  import opened Basics
  import opened Mem

  type Word = nat

  const GET_MAX: nat := 0xFFFF // getCount is a USHORT

  datatype Key = Key(tid: Tid, mrm: nat, buf: nat)

  // An entry whose mrmPtr is NULL has no key.
  datatype Lease = Lease(key: Option<Key>, getCount: nat, reserved: bool) {
    predicate On(m: nat, b: nat) {
      key.Some? && key.value.mrm == m && key.value.buf == b
    }

    // The references this lease contributes to the user count of (m, b).
    function Gets(m: nat, b: nat): nat {
      if On(m, b) then getCount else 0
    }
  }

  const FREE_LEASE := Lease(None, 0, false)

  datatype Buf = Buf(nUsers: nat, data: nat)

  // `bufs` and `words` are the contents of the two pools, block by block; a free block holds junk.
  datatype Mrm = Mrm(size: nat, curr: Option<nat>, meta: Pool, dataMem: Pool,
                     bufs: seq<Buf>, words: seq<seq<Word>>) {
    function At(b: nat): Buf {
      if b < |bufs| then bufs[b] else Buf(0, 0)
    }

    function Put(b: nat, x: Buf): Mrm {
      if b < |bufs| then this.(bufs := bufs[b := x]) else this
    }

    function WordsOf(b: nat): seq<Word> {
      if At(b).data < |words| then words[At(b).data] else []
    }

    function PutWords(b: nat, ws: seq<Word>): Mrm {
      if At(b).data < |words| then this.(words := words[At(b).data := ws]) else this
    }

    ghost predicate Shaped() {
      && meta.Valid() && dataMem.Valid()
      && |bufs| == meta.nMax && |words| == dataMem.nMax && dataMem.nMax == meta.nMax
      && (curr.Some? ==> curr.value < |bufs|)
      && (forall d :: 0 <= d < |words| ==> |words[d]| == size)
    }
  }

  datatype State = State(leases: seq<Lease>, mrms: map<nat, Mrm>, alive: set<Tid>)

  // ---- the lease table --------------------------------------------------------------------

  // First entry at or after i with the given key; |ls| when there is none. With `None` this is
  // the search for a free entry.
  function IndexOf(ls: seq<Lease>, key: Option<Key>, i: nat := 0): (r: nat)
    requires i <= |ls|
    ensures i <= r <= |ls|
    ensures r < |ls| ==> ls[r].key == key
    ensures forall j :: i <= j < r ==> ls[j].key != key
    decreases |ls| - i
  {
    if i == |ls| || ls[i].key == key then i else IndexOf(ls, key, i + 1)
  }

  // The task's own entry for the buffer, else a free one.
  function Slot(ls: seq<Lease>, k: Key): (r: nat)
    ensures r <= |ls|
    ensures r < |ls| ==> ls[r].key == Some(k) || ls[r].key == None
  {
    var i := IndexOf(ls, Some(k));
    if i < |ls| then i else IndexOf(ls, None)
  }

  predicate Leased(ls: seq<Lease>, m: nat, b: nat) {
    exists i :: 0 <= i < |ls| && ls[i].On(m, b)
  }

  // kMRMBufferReserved_: some live task holds the reservation.
  predicate Reserved(s: State, m: nat, b: nat) {
    exists i :: 0 <= i < |s.leases| && s.leases[i].On(m, b) && s.leases[i].reserved
      && s.leases[i].key.value.tid in s.alive
  }

  // kMRMLeaseReservedByOther_
  predicate ReservedByOther(s: State, t: Tid, m: nat, b: nat) {
    exists i :: 0 <= i < |s.leases| && s.leases[i].On(m, b) && s.leases[i].reserved
      && s.leases[i].key.value.tid != t && s.leases[i].key.value.tid in s.alive
  }

  // kMRMHasActiveLease
  predicate HasActiveLease(s: State, m: nat) {
    exists i :: 0 <= i < |s.leases| && s.leases[i].key.Some? && s.leases[i].key.value.mrm == m
      && s.leases[i].key.value.tid in s.alive && (s.leases[i].reserved || s.leases[i].getCount != 0)
  }

  // kMRMLeaseClearIfIdle_
  function Settle(l: Lease): Lease {
    if l.getCount == 0 && !l.reserved then FREE_LEASE else l
  }

  function ReserveTrack(s: State, k: Key): Option<seq<Lease>> {
    var i := Slot(s.leases, k);
    if i == |s.leases| then None
    else if ReservedByOther(s, k.tid, k.mrm, k.buf) || s.leases[i].reserved then None
    else Some(s.leases[i := Lease(Some(k), s.leases[i].getCount, true)])
  }

  function ReserveDrop(ls: seq<Lease>, k: Key): Option<seq<Lease>> {
    var i := IndexOf(ls, Some(k));
    if i == |ls| || !ls[i].reserved then None
    else Some(ls[i := Settle(ls[i].(reserved := false))])
  }

  function GetTrack(ls: seq<Lease>, k: Key): Option<seq<Lease>> {
    var i := Slot(ls, k);
    if i == |ls| || ls[i].getCount == GET_MAX then None
    else Some(ls[i := Lease(Some(k), ls[i].getCount + 1, ls[i].reserved)])
  }

  function GetDrop(ls: seq<Lease>, k: Key): Option<seq<Lease>> {
    var i := IndexOf(ls, Some(k));
    if i == |ls| || ls[i].getCount == 0 then None
    else Some(ls[i := Settle(ls[i].(getCount := ls[i].getCount - 1))])
  }

  // ---- buffers ------------------------------------------------------------------------------

  // kMRMBufferValid_
  predicate BufferValid(M: Mrm, b: nat) {
    M.meta.Held(b) && M.dataMem.Held(M.At(b).data)
  }

  // kMRMBufferAlloc_
  function BufferAlloc(M: Mrm): (Mrm, Option<nat>) {
    var (meta, got) := M.meta.Take();
    match got
    case None => (M, None)
    case Some(b) =>
      var (dataMem, gotData) := M.dataMem.Take();
      match gotData
      case None => (M.Put(b, Buf(0, 0)), None)
      case Some(d) => (M.(meta := meta, dataMem := dataMem).Put(b, Buf(0, d)), Some(b))
  }

  // kMRMReleaseBuffer_: the payload block first; an error stops the sequence.
  function BufferRelease(M: Mrm, b: nat): (Mrm, Err) {
    var d := M.At(b).data;
    if !M.dataMem.Held(d) then (M, MemFree)
    else
      var M1 := M.(dataMem := M.dataMem.Give(d));
      if !M1.meta.Held(b) then (M1, MemFree) else (M1.(meta := M1.meta.Give(b)), Success)
  }

  // kMRMBufferGetRelease_: drops references; a buffer that is not current goes with its last one.
  // The flag says whether it went.
  function GetRelease(M: Mrm, b: nat, count: nat): (Mrm, Err, bool) {
    var x := M.At(b);
    if count > x.nUsers then (M, MemFree, false)
    else
      var M1 := M.Put(b, x.(nUsers := x.nUsers - count));
      if x.nUsers == count && M1.curr != Some(b) then
        var (M2, err) := BufferRelease(M1, b);
        (M2, err, true)
      else (M1, Success, false)
  }

  // ---- the service calls --------------------------------------------------------------------

  // The current buffer may be reserved again: nobody reads it, nobody reserved it.
  predicate Reusable(s: State, m: nat)
    requires m in s.mrms
  {
    var M := s.mrms[m];
    M.curr.Some? && M.At(M.curr.value).nUsers == 0 && !Reserved(s, m, M.curr.value)
  }

  // The buffer kMRMReserve will try to lease: the current one if reusable, else a new one.
  function Pick(s: State, m: nat): (Mrm, Option<nat>)
    requires m in s.mrms
  {
    if Reusable(s, m) then (s.mrms[m], s.mrms[m].curr) else BufferAlloc(s.mrms[m])
  }

  function Reserve(s: State, t: Tid, m: nat): (State, Option<nat>)
    requires m in s.mrms
  {
    var (M1, got) := Pick(s, m);
    match got
    case None => (s.(mrms := s.mrms[m := M1]), None)
    case Some(b) =>
      match ReserveTrack(s, Key(t, m, b))
      case Some(ls) => (s.(leases := ls, mrms := s.mrms[m := M1]), got)
      case None =>
        var M2 := if M1.curr != Some(b) then BufferRelease(M1, b).0 else M1;
        (s.(mrms := s.mrms[m := M2]), None)
  }

  function Publish(s: State, t: Tid, m: nat, b: nat, payload: seq<Word>): (State, Err)
    requires m in s.mrms && |payload| == s.mrms[m].size
  {
    var M := s.mrms[m];
    if !BufferValid(M, b) || M.At(b).nUsers != 0 then (s, MemFree)
    else
      match ReserveDrop(s.leases, Key(t, m, b))
      case None => (s, MemFree)
      case Some(ls) =>
        var s1 := s.(leases := ls);
        var (M1, err) := if M.curr != Some(b) && Reusable(s1, m)
                         then BufferRelease(M, M.curr.value) else (M, Success);
        var M2 := if err == Success then M1.PutWords(b, payload).(curr := Some(b)) else M1;
        (s1.(mrms := s.mrms[m := M2]), err)
  }

  function Get(s: State, t: Tid, m: nat): (State, Option<(nat, seq<Word>)>)
    requires m in s.mrms
  {
    var M := s.mrms[m];
    if M.curr == None || Reserved(s, m, M.curr.value) then (s, None)
    else
      var b := M.curr.value;
      match GetTrack(s.leases, Key(t, m, b))
      case None => (s, None)
      case Some(ls) =>
        var M1 := M.Put(b, M.At(b).(nUsers := M.At(b).nUsers + 1));
        (s.(leases := ls, mrms := s.mrms[m := M1]), Some((b, M.WordsOf(b))))
  }

  function Unget(s: State, t: Tid, m: nat, b: nat): (State, Err)
    requires m in s.mrms
  {
    var M := s.mrms[m];
    if !BufferValid(M, b) || M.At(b).nUsers == 0 then (s, MemFree)
    else
      match GetDrop(s.leases, Key(t, m, b))
      case None => (s, MemFree)
      case Some(ls) =>
        var (M1, err, _) := GetRelease(M, b, 1);
        (s.(leases := ls, mrms := s.mrms[m := M1]), err)
  }

  // One iteration of kMRMTaskCleanup, on a lease of the dead task: its references, then its
  // reservation, go back; with the last of either a buffer that is not current is released.
  function CleanLease(M: Mrm, l: Lease): (Mrm, Err)
    requires l.key.Some?
  {
    var b := l.key.value.buf;
    if !BufferValid(M, b) then (M, InvalidObj)
    else
      var (M1, err, released) :=
        if l.getCount != 0 then GetRelease(M, b, l.getCount) else (M, Success, false);
      if l.reserved && l.getCount == 0 && !released && M1.curr != Some(b)
      then BufferRelease(M, b) else (M1, err)
  }

  // Entry i of the table: skipped unless it is the dead task's, else returned and cleared.
  function CleanOne(s: State, t: Tid, i: nat): (State, Err)
    requires i < |s.leases|
  {
    var l := s.leases[i];
    if l.key.None? || l.key.value.tid != t then (s, Success)
    else
      var m := l.key.value.mrm;
      var cleared := s.(leases := s.leases[i := FREE_LEASE]);
      if m !in s.mrms then (cleared, InvalidObj)
      else
        var (M1, err) := CleanLease(s.mrms[m], l);
        (cleared.(mrms := s.mrms[m := M1]), err)
  }

  function CleanFrom(s: State, t: Tid, i: nat, err: Err := Success): (State, Err)
    requires i <= |s.leases|
    decreases |s.leases| - i
  {
    if i == |s.leases| then (s, err)
    else
      var (s1, e) := CleanOne(s, t, i);
      CleanFrom(s1, t, i + 1, if e != Success then e else err)
  }

  // The task leaves the registry before its leases are cleaned, inside one critical section.
  function Cleanup(s: State, t: Tid): (State, Err) {
    CleanFrom(s.(alive := s.alive - {t}), t, 0)
  }

  // kMRMInit
  function FreshMrm(nBufs: nat, size: nat): Mrm {
    Mrm(size, None, FreshPool(nBufs), FreshPool(nBufs),
        seq(nBufs, _ => Buf(0, 0)), seq(nBufs, _ => seq(size, _ => 0)))
  }

  // The guard of kMRMDestroy: nothing may be out but the idle current buffer.
  predicate DestroyRefused(s: State, m: nat)
    requires m in s.mrms
  {
    var M := s.mrms[m];
    var currentHeld := if M.curr.Some? then 1 else 0;
    || (M.curr.Some? && M.At(M.curr.value).nUsers > 0)
    || HasActiveLease(s, m)
    || M.meta.nMax - |M.meta.free| != currentHeld
    || M.dataMem.nMax - |M.dataMem.free| != currentHeld
  }

  // ---- runs ---------------------------------------------------------------------------------

  datatype Op =
    | DoReserve(t: Tid, m: nat)
    | DoPublish(t: Tid, m: nat, b: nat, payload: seq<Word>)
    | DoGet(t: Tid, m: nat)
    | DoUnget(t: Tid, m: nat, b: nat)
    | DoCleanup(t: Tid)
    | DoSpawn(t: Tid)
    | DoCreate(m: nat, nBufs: nat, size: nat)
    | DoDestroy(m: nat)

  // Calls that can happen: by a live task, on an MRM that exists, with a full payload.
  predicate Enabled(s: State, op: Op) {
    match op
    case DoReserve(t, m) => t in s.alive && m in s.mrms
    case DoPublish(t, m, _, payload) => t in s.alive && m in s.mrms && |payload| == s.mrms[m].size
    case DoGet(t, m) => t in s.alive && m in s.mrms
    case DoUnget(t, m, _) => t in s.alive && m in s.mrms
    case DoCleanup(t) => t in s.alive
    case DoSpawn(t) => t !in s.alive
    case DoCreate(m, nBufs, size) => m !in s.mrms && nBufs > 0 && size > 0
    case DoDestroy(m) => m in s.mrms
  }

  function Step(s: State, op: Op): State {
    if !Enabled(s, op) then s
    else match op
      case DoReserve(t, m) => Reserve(s, t, m).0
      case DoPublish(t, m, b, payload) => Publish(s, t, m, b, payload).0
      case DoGet(t, m) => Get(s, t, m).0
      case DoUnget(t, m, b) => Unget(s, t, m, b).0
      case DoCleanup(t) => Cleanup(s, t).0
      case DoSpawn(t) => s.(alive := s.alive + {t})
      case DoCreate(m, nBufs, size) => s.(mrms := s.mrms[m := FreshMrm(nBufs, size)])
      case DoDestroy(m) => if DestroyRefused(s, m) then s else s.(mrms := s.mrms - {m})
  }

  function Run(s: State, ops: seq<Op>): State {
    if ops == [] then s else Step(Run(s, ops[..|ops| - 1]), ops[|ops| - 1])
  }

  function Boot(nLeases: nat): State {
    State(seq(nLeases, _ => FREE_LEASE), map[], {})
  }
}
