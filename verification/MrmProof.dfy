// What every run of the most-recent-message service keeps.

module MrmProof {
  import opened Basics
  import opened Mem
  import opened MrmSpec

  // ---- counting references ------------------------------------------------------------------

  // The outstanding gets on (m, b), summed over the lease table.
  function Users(ls: seq<Lease>, m: nat, b: nat): nat {
    if ls == [] then 0 else Users(ls[..|ls| - 1], m, b) + ls[|ls| - 1].Gets(m, b)
  }

  lemma {:induction false} UsersUpdate(ls: seq<Lease>, i: nat, l: Lease, m: nat, b: nat)
    requires i < |ls|
    ensures Users(ls[i := l], m, b) == Users(ls, m, b) - ls[i].Gets(m, b) + l.Gets(m, b)
  {
    var n := |ls| - 1;
    if i == n {
      assert ls[i := l][..n] == ls[..n];
    } else {
      UsersUpdate(ls[..n], i, l, m, b);
      assert ls[i := l][..n] == ls[..n][i := l];
    }
  }

  lemma {:induction false} UnleasedHasNoUsers(ls: seq<Lease>, m: nat, b: nat)
    requires !Leased(ls, m, b)
    ensures Users(ls, m, b) == 0
  {
    if ls != [] {
      assert forall i :: 0 <= i < |ls| - 1 ==> ls[..|ls| - 1][i] == ls[i];
      UnleasedHasNoUsers(ls[..|ls| - 1], m, b);
    }
  }

  lemma UsersCoverLease(ls: seq<Lease>, i: nat, m: nat, b: nat)
    requires i < |ls|
    ensures Users(ls, m, b) >= ls[i].Gets(m, b)
  {
    UsersUpdate(ls, i, FREE_LEASE, m, b);
  }

  // ---- the invariant --------------------------------------------------------------------------

  ghost predicate EntryOk(l: Lease, alive: set<Tid>) {
    && (l.key.None? ==> l == FREE_LEASE)
    && (l.key.Some? ==>
          && l.key.value.tid in alive && l.getCount <= GET_MAX
          && (l.reserved <==> l.getCount == 0))
  }

  // One lease per (task, MRM, buffer); a reservation excludes every other lease on the buffer.
  ghost predicate TableOk(ls: seq<Lease>, alive: set<Tid>) {
    && (forall i :: 0 <= i < |ls| ==> EntryOk(ls[i], alive))
    && (forall i, j :: 0 <= i < |ls| && 0 <= j < |ls| && i != j && ls[i].key.Some?
          ==> ls[i].key != ls[j].key)
    && (forall i, j :: 0 <= i < |ls| && 0 <= j < |ls| && i != j && ls[i].reserved && ls[j].key.Some?
          ==> !ls[j].On(ls[i].key.value.mrm, ls[i].key.value.buf))
  }

  // Each allocated metadata block is paired with its own allocated payload block.
  ghost predicate PoolsOk(M: Mrm) {
    && M.Shaped() && |M.meta.free| == |M.dataMem.free|
    && (forall b: nat :: M.meta.Held(b) ==> M.dataMem.Held(M.bufs[b].data))
    && (forall b: nat, c: nat :: M.meta.Held(b) && M.meta.Held(c) && b != c
          ==> M.bufs[b].data != M.bufs[c].data)
  }

  // Allocated is exactly current or leased, and user counts are the references held.
  ghost predicate LinkOk(ls: seq<Lease>, m: nat, M: Mrm) {
    && (forall b: nat :: M.meta.Held(b) <==> M.curr == Some(b) || Leased(ls, m, b))
    && (forall b: nat :: M.meta.Held(b) ==> M.At(b).nUsers == Users(ls, m, b))
  }

  ghost predicate MrmOk(ls: seq<Lease>, m: nat, M: Mrm) {
    PoolsOk(M) && LinkOk(ls, m, M)
  }

  ghost predicate Inv(s: State) {
    && TableOk(s.leases, s.alive)
    && (forall i :: 0 <= i < |s.leases| && s.leases[i].key.Some?
          ==> s.leases[i].key.value.mrm in s.mrms)
    && (forall m <- s.mrms :: MrmOk(s.leases, m, s.mrms[m]))
  }

  // ---- pools ------------------------------------------------------------------------------------

  // b keeps its payload block and every word of it.
  ghost predicate Kept(M: Mrm, M1: Mrm, b: nat) {
    M1.meta.Held(b) && M1.At(b).data == M.At(b).data && M1.WordsOf(b) == M.WordsOf(b)
  }

  lemma AllocOk(M: Mrm)
    requires PoolsOk(M)
    ensures var (M1, got) := BufferAlloc(M);
      && (got.None? <==> M.meta.free == [])
      && (got.None? ==> M1 == M)
      && (got.Some? ==>
            var b := got.value;
            && PoolsOk(M1) && !M.meta.Held(b) && M1.meta.Held(b) && M1.At(b).nUsers == 0
            && (forall c: nat :: M1.meta.Held(c) <==> M.meta.Held(c) || c == b)
            && (forall c: nat :: c != b ==> M1.At(c) == M.At(c))
            && M1.curr == M.curr && M1.words == M.words
            && M1.meta.Give(b) == M.meta && M1.dataMem.Give(M1.At(b).data) == M.dataMem)
  {
    TakeKeeps(M.meta);
    TakeKeeps(M.dataMem);
    var (M1, got) := BufferAlloc(M);
    if got.Some? {
      assert forall c: nat :: M.meta.Held(c) ==> M1.bufs[c] == M.bufs[c];
    }
  }

  lemma ReleaseOk(M: Mrm, b: nat)
    requires PoolsOk(M) && M.meta.Held(b)
    ensures BufferRelease(M, b).1 == Success
    ensures var M1 := BufferRelease(M, b).0;
      && PoolsOk(M1) && M1 == M.(meta := M.meta.Give(b), dataMem := M.dataMem.Give(M.At(b).data))
      && forall x: nat :: M1.meta.Held(x) <==> M.meta.Held(x) && x != b
  {
    GiveKeeps(M.meta, b);
    GiveKeeps(M.dataMem, M.At(b).data);
  }

  // A buffer allocated and released at once leaves both pools as they were.
  lemma AllocReleaseOk(M: Mrm)
    requires PoolsOk(M) && BufferAlloc(M).1.Some?
    ensures var (b, M2) := (BufferAlloc(M).1.value, BufferRelease(BufferAlloc(M).0, BufferAlloc(M).1.value).0);
      && PoolsOk(M2) && M2.meta == M.meta && M2.words == M.words && M2.curr == M.curr
      && (forall c: nat :: c != b ==> M2.At(c) == M.At(c))
  {
    AllocOk(M);
    ReleaseOk(BufferAlloc(M).0, BufferAlloc(M).1.value);
  }

  // ---- leases -----------------------------------------------------------------------------------

  // Changing entry i of MRM m says nothing about other MRMs.
  lemma OtherMrms(s: State, i: nat, l: Lease, m: nat)
    requires Inv(s) && i < |s.leases|
    requires s.leases[i].key.Some? ==> s.leases[i].key.value.mrm == m
    requires l.key.Some? ==> l.key.value.mrm == m
    ensures forall m2 <- s.mrms :: m2 != m ==> MrmOk(s.leases[i := l], m2, s.mrms[m2])
  {
    var ls := s.leases[i := l];
    forall m2 <- s.mrms | m2 != m ensures MrmOk(ls, m2, s.mrms[m2]) {
      forall b: nat
        ensures Users(ls, m2, b) == Users(s.leases, m2, b)
        ensures Leased(ls, m2, b) <==> Leased(s.leases, m2, b)
      {
        UsersUpdate(s.leases, i, l, m2, b);
        if Leased(s.leases, m2, b) {
          var j :| 0 <= j < |s.leases| && s.leases[j].On(m2, b);
          assert ls[j].On(m2, b);
        }
      }
    }
  }

  // Within MRM m, changing entry i on buffer b says nothing about the other buffers.
  lemma OtherBuffers(ls: seq<Lease>, i: nat, l: Lease, m: nat, b: nat)
    requires i < |ls|
    requires ls[i].key.Some? ==> ls[i].On(m, b)
    requires l.key.Some? ==> l.On(m, b)
    ensures forall c: nat :: c != b ==>
      && Users(ls[i := l], m, c) == Users(ls, m, c)
      && (Leased(ls[i := l], m, c) <==> Leased(ls, m, c))
    ensures Users(ls[i := l], m, b) == Users(ls, m, b) - ls[i].Gets(m, b) + l.Gets(m, b)
    ensures l.key.Some? ==> Leased(ls[i := l], m, b)
  {
    var ls1 := ls[i := l];
    forall c: nat | c != b
      ensures Users(ls1, m, c) == Users(ls, m, c) && (Leased(ls1, m, c) <==> Leased(ls, m, c))
    {
      UsersUpdate(ls, i, l, m, c);
      if Leased(ls, m, c) {
        var j :| 0 <= j < |ls| && ls[j].On(m, c);
        assert ls1[j].On(m, c);
      }
    }
    UsersUpdate(ls, i, l, m, b);
    if l.key.Some? { assert ls1[i].On(m, b); }
  }

  // A buffer nobody reads and nobody reserved is not leased.
  lemma IdleIsUnleased(s: State, m: nat, b: nat)
    requires TableOk(s.leases, s.alive) && Users(s.leases, m, b) == 0 && !Reserved(s, m, b)
    ensures !Leased(s.leases, m, b)
  {
    if Leased(s.leases, m, b) {
      var i :| 0 <= i < |s.leases| && s.leases[i].On(m, b);
      assert EntryOk(s.leases[i], s.alive);
      UsersCoverLease(s.leases, i, m, b);
    }
  }

  // A reserved buffer has one lease, and no users.
  lemma ReservedIsSole(ls: seq<Lease>, alive: set<Tid>, i: nat)
    requires TableOk(ls, alive) && i < |ls| && ls[i].reserved
    ensures ls[i].key.Some?
    ensures var k := ls[i].key.value;
      Users(ls, k.mrm, k.buf) == 0 && !Leased(ls[i := FREE_LEASE], k.mrm, k.buf)
  {
    assert EntryOk(ls[i], alive);
    var k := ls[i].key.value;
    UsersUpdate(ls, i, FREE_LEASE, k.mrm, k.buf);
    UnleasedHasNoUsers(ls[i := FREE_LEASE], k.mrm, k.buf);
  }

  // A step on MRM m and at most one lease of it keeps the invariant if m itself is in order.
  lemma Stitch(s: State, s1: State, m: nat, i: nat, l: Lease)
    requires Inv(s) && m in s.mrms && s1.alive == s.alive
    requires (i < |s.leases| && s1.leases == s.leases[i := l]) || s1.leases == s.leases
    requires s1.leases == s.leases || (s.leases[i].key.Some? ==> s.leases[i].key.value.mrm == m)
    requires l.key.Some? ==> l.key.value.mrm == m
    requires m in s1.mrms && s1.mrms == s.mrms[m := s1.mrms[m]]
    requires TableOk(s1.leases, s.alive) && MrmOk(s1.leases, m, s1.mrms[m])
    ensures Inv(s1)
  {
    if s1.leases != s.leases { OtherMrms(s, i, l, m); }
  }

  // Data and words of the other buffers follow from equal contents.
  lemma KeptAll(M: Mrm, M1: Mrm)
    requires M1.words == M.words
    requires forall b: nat :: M.meta.Held(b) ==> M1.meta.Held(b) && M1.At(b).data == M.At(b).data
    ensures forall b: nat :: M.meta.Held(b) ==> Kept(M, M1, b)
  {
  }

  // ---- reserve --------------------------------------------------------------------------------

  ghost predicate HasFreeEntry(ls: seq<Lease>) {
    exists i :: 0 <= i < |ls| && ls[i].key.None?
  }

  // Tracking the reservation of an unleased buffer: takes a free entry, or fails.
  lemma ReserveTrackOk(s: State, k: Key)
    requires Inv(s) && k.tid in s.alive && k.mrm in s.mrms && !Leased(s.leases, k.mrm, k.buf)
    ensures var r := ReserveTrack(s, k);
      && (r.Some? <==> HasFreeEntry(s.leases))
      && (r.Some? ==> exists i: nat ::
            && i < |s.leases| && s.leases[i] == FREE_LEASE
            && r.value == s.leases[i := Lease(Some(k), 0, true)]
            && TableOk(r.value, s.alive))
  {
    var ls := s.leases;
    assert forall i :: 0 <= i < |ls| ==> EntryOk(ls[i], s.alive);
    assert IndexOf(ls, Some(k)) == |ls|;
    var i := IndexOf(ls, None);
    if i < |ls| {
      assert !ReservedByOther(s, k.tid, k.mrm, k.buf);
      assert ls[i] == FREE_LEASE;
      var ls1 := ls[i := Lease(Some(k), 0, true)];
      assert TableOk(ls1, s.alive);
    }
  }

  // Granting an unleased, unread buffer that is allocated in M1.
  lemma GrantOk(s: State, k: Key, M1: Mrm, i: nat)
    requires Inv(s) && k.mrm in s.mrms && !Leased(s.leases, k.mrm, k.buf)
    requires i < |s.leases| && s.leases[i] == FREE_LEASE
    requires var M := s.mrms[k.mrm];
      && PoolsOk(M1) && M1.curr == M.curr && M1.meta.Held(k.buf) && M1.At(k.buf).nUsers == 0
      && (forall c: nat :: c != k.buf ==>
            && (M1.meta.Held(c) <==> M.meta.Held(c)) && M1.At(c) == M.At(c))
    ensures MrmOk(s.leases[i := Lease(Some(k), 0, true)], k.mrm, M1)
  {
    assert MrmOk(s.leases, k.mrm, s.mrms[k.mrm]);
    OtherBuffers(s.leases, i, Lease(Some(k), 0, true), k.mrm, k.buf);
    UnleasedHasNoUsers(s.leases, k.mrm, k.buf);
  }

  ghost predicate Granted(s: State, s1: State, k: Key) {
    exists i: nat :: i < |s.leases| && s.leases[i] == FREE_LEASE
      && s1.leases == s.leases[i := Lease(Some(k), 0, true)]
  }

  lemma PickOk(s: State, m: nat)
    requires Inv(s) && m in s.mrms
    ensures var (M, (M1, got)) := (s.mrms[m], Pick(s, m));
      && (got.Some? <==> Reusable(s, m) || M.meta.free != [])
      && (got.None? ==> M1 == M)
      && (got.Some? ==>
            var b := got.value;
            && !Leased(s.leases, m, b) && PoolsOk(M1) && M1.curr == M.curr && M1.words == M.words
            && M1.meta.Held(b) && M1.At(b).nUsers == 0
            && (forall c: nat :: c != b ==>
                  && (M1.meta.Held(c) <==> M.meta.Held(c)) && M1.At(c) == M.At(c))
            && (Reusable(s, m) ==> M1 == M && M.curr == Some(b))
            && (!Reusable(s, m) ==> !M.meta.Held(b) && M1.curr != Some(b)))
  {
    assert MrmOk(s.leases, m, s.mrms[m]);
    AllocOk(s.mrms[m]);
    if Reusable(s, m) { IdleIsUnleased(s, m, s.mrms[m].curr.value); }
  }

  // A fresh buffer that cannot be leased goes straight back.
  lemma GivenStraightBack(s: State, m: nat)
    requires Inv(s) && m in s.mrms && !Reusable(s, m) && Pick(s, m).1.Some?
    ensures var (M, (M1, got)) := (s.mrms[m], Pick(s, m)); var M2 := BufferRelease(M1, got.value).0;
      && M1.curr != got && M2.curr == M.curr && MrmOk(s.leases, m, M2)
      && (forall b: nat :: M.meta.Held(b) ==> Kept(M, M2, b))
  {
    var M := s.mrms[m];
    assert MrmOk(s.leases, m, M);
    PickOk(s, m);
    AllocReleaseOk(M);
    var M2 := BufferRelease(Pick(s, m).0, Pick(s, m).1.value).0;
    assert LinkOk(s.leases, m, M2);
    KeptAll(M, M2);
  }

  // A failed reservation leaves the accounting and every buffer in use as they were.
  lemma ReserveRefused(s: State, t: Tid, m: nat)
    requires Inv(s) && t in s.alive && m in s.mrms && Reserve(s, t, m).1.None?
    ensures var s1 := Reserve(s, t, m).0;
      && Inv(s1) && s1.alive == s.alive && s1.mrms.Keys == s.mrms.Keys && s1.leases == s.leases
      && s1.mrms == s.mrms[m := s1.mrms[m]] && s1.mrms[m].curr == s.mrms[m].curr
      && (forall b: nat :: s.mrms[m].meta.Held(b) ==> Kept(s.mrms[m], s1.mrms[m], b))
  {
    var (M1, got) := Pick(s, m);
    var s1 := Reserve(s, t, m).0;
    PickOk(s, m);
    if got.None? || Reusable(s, m) {
      assert s1.mrms == s.mrms;
    } else {
      GivenStraightBack(s, m);
      assert s1.mrms[m] == BufferRelease(M1, got.value).0;
      Stitch(s, s1, m, 0, FREE_LEASE);
    }
  }

  lemma ReserveGranted(s: State, t: Tid, m: nat)
    requires Inv(s) && t in s.alive && m in s.mrms && Reserve(s, t, m).1.Some?
    ensures var (s1, got) := Reserve(s, t, m);
      && Inv(s1) && s1.alive == s.alive && s1.mrms.Keys == s.mrms.Keys
      && !Leased(s.leases, m, got.value) && Granted(s, s1, Key(t, m, got.value))
      && s1.mrms == s.mrms[m := s1.mrms[m]] && s1.mrms[m].curr == s.mrms[m].curr
      && (forall b: nat :: s.mrms[m].meta.Held(b) ==> Kept(s.mrms[m], s1.mrms[m], b))
  {
    var (M, (M1, got), s1) := (s.mrms[m], Pick(s, m), Reserve(s, t, m).0);
    PickOk(s, m);
    var k := Key(t, m, got.value);
    ReserveTrackOk(s, k);
    var i: nat :| i < |s.leases| && s.leases[i] == FREE_LEASE
      && s1.leases == s.leases[i := Lease(Some(k), 0, true)];
    GrantOk(s, k, M1, i);
    Stitch(s, s1, m, i, Lease(Some(k), 0, true));
    KeptAll(M, M1);
  }

  // Reserve succeeds exactly when an entry is free and a buffer can be had.
  lemma ReserveSucceedsIff(s: State, t: Tid, m: nat)
    requires Inv(s) && t in s.alive && m in s.mrms
    ensures Reserve(s, t, m).1.Some? <==>
      HasFreeEntry(s.leases) && (Reusable(s, m) || s.mrms[m].meta.free != [])
  {
    PickOk(s, m);
    var got := Pick(s, m).1;
    if got.Some? { ReserveTrackOk(s, Key(t, m, got.value)); }
  }

  // ---- publish ----------------------------------------------------------------------------------

  ghost predicate HoldsReservation(s: State, k: Key) {
    exists i :: 0 <= i < |s.leases| && s.leases[i].key == Some(k) && s.leases[i].reserved
  }

  // Dropping an entry keeps the table in order.
  lemma DropEntryOk(ls: seq<Lease>, alive: set<Tid>, i: nat)
    requires TableOk(ls, alive) && i < |ls|
    ensures TableOk(ls[i := FREE_LEASE], alive)
  {
  }

  // In MRM m, with b no longer leased, the new current buffer is b and an idle old one is gone.
  lemma SwitchCurrent(s1: State, m: nat, b: nat, M1: Mrm, payload: seq<Word>)
    requires TableOk(s1.leases, s1.alive) && m in s1.mrms && |payload| == s1.mrms[m].size
    requires var M := s1.mrms[m];
      && PoolsOk(M) && M.meta.Held(b) && M.At(b).nUsers == 0
      && !Leased(s1.leases, m, b)
      && (forall x: nat :: x != b ==> (M.meta.Held(x) <==> M.curr == Some(x) || Leased(s1.leases, m, x)))
      && (forall x: nat :: M.meta.Held(x) ==> M.At(x).nUsers == Users(s1.leases, m, x))
      && (M.curr.Some? ==> M.meta.Held(M.curr.value))
      && M1 == (if M.curr != Some(b) && Reusable(s1, m) then BufferRelease(M, M.curr.value).0 else M)
    ensures var (M, M2) := (s1.mrms[m], M1.PutWords(b, payload).(curr := Some(b)));
      && MrmOk(s1.leases, m, M2) && M2.WordsOf(b) == payload && M2.curr == Some(b) && M2.size == M.size
      && (forall x: nat :: x != b && M.meta.Held(x) && M2.meta.Held(x) ==> Kept(M, M2, x))
    ensures s1.mrms[m].curr != Some(b) && Reusable(s1, m) ==>
      BufferRelease(s1.mrms[m], s1.mrms[m].curr.value).1 == Success
  {
    var M := s1.mrms[m];
    if M.curr.Some? && M.curr != Some(b) {
      var c := M.curr.value;
      if Reusable(s1, m) {
        IdleIsUnleased(s1, m, c);
        ReleaseOk(M, c);
      } else {
        if !Leased(s1.leases, m, c) { UnleasedHasNoUsers(s1.leases, m, c); }
      }
    }
    var M2 := M1.PutWords(b, payload).(curr := Some(b));
    assert LinkOk(s1.leases, m, M2);
  }

  lemma PublishOk(s: State, t: Tid, m: nat, b: nat, payload: seq<Word>)
    requires Inv(s) && t in s.alive && m in s.mrms && |payload| == s.mrms[m].size
    ensures var (s1, err) := Publish(s, t, m, b, payload);
      && (err == Success <==> HoldsReservation(s, Key(t, m, b)))
      && (err != Success ==> s1 == s)
  {
    var ls, k := s.leases, Key(t, m, b);
    assert MrmOk(ls, m, s.mrms[m]);
    if HoldsReservation(s, k) {
      var i: nat :| i < |ls| && ls[i].key == Some(k) && ls[i].reserved;
      assert IndexOf(ls, Some(k)) == i;
      PublishGranted(s, t, m, b, payload, i);
    }
  }

  lemma PublishGranted(s: State, t: Tid, m: nat, b: nat, payload: seq<Word>, i: nat)
    requires Inv(s) && t in s.alive && m in s.mrms && |payload| == s.mrms[m].size
    requires i < |s.leases| && s.leases[i].key == Some(Key(t, m, b)) && s.leases[i].reserved
    ensures var (s1, err) := Publish(s, t, m, b, payload);
      && err == Success && Inv(s1) && s1.alive == s.alive
      && s1.leases == s.leases[i := FREE_LEASE] && s1.mrms == s.mrms[m := s1.mrms[m]]
      && s1.mrms[m].curr == Some(b) && s1.mrms[m].WordsOf(b) == payload
      && s1.mrms[m].size == s.mrms[m].size
      && (forall x: nat :: x != b && s.mrms[m].meta.Held(x) && s1.mrms[m].meta.Held(x)
            ==> Kept(s.mrms[m], s1.mrms[m], x))
  {
    var ls, k, M := s.leases, Key(t, m, b), s.mrms[m];
    assert MrmOk(ls, m, M);
    assert IndexOf(ls, Some(k)) == i;
    ReservedIsSole(ls, s.alive, i);
    assert ls[i].On(m, b);
    assert BufferValid(M, b) && M.At(b).nUsers == 0;
    var ls1 := ls[i := FREE_LEASE];
    assert ReserveDrop(ls, k) == Some(ls1);
    DropEntryOk(ls, s.alive, i);
    OtherBuffers(ls, i, FREE_LEASE, m, b);
    var s1 := s.(leases := ls1);
    var M1 := if M.curr != Some(b) && Reusable(s1, m) then BufferRelease(M, M.curr.value).0 else M;
    SwitchCurrent(s1, m, b, M1, payload);
    Stitch(s, Publish(s, t, m, b, payload).0, m, i, FREE_LEASE);
  }

  // ---- get ----------------------------------------------------------------------------------------

  // The references task k.tid holds on the buffer.
  function GetCount(ls: seq<Lease>, k: Key): nat {
    var i := IndexOf(ls, Some(k));
    if i < |ls| then ls[i].getCount else 0
  }

  lemma GetLink(ls: seq<Lease>, alive: set<Tid>, i: nat, k: Key, M: Mrm)
    requires TableOk(ls, alive) && k.tid in alive && i == Slot(ls, k) && i < |ls| && ls[i].getCount < GET_MAX
    requires forall j :: 0 <= j < |ls| && ls[j].reserved ==> !ls[j].On(k.mrm, k.buf)
    requires MrmOk(ls, k.mrm, M) && M.curr == Some(k.buf)
    ensures var ls1 := ls[i := Lease(Some(k), ls[i].getCount + 1, false)];
      TableOk(ls1, alive) && MrmOk(ls1, k.mrm, M.Put(k.buf, M.At(k.buf).(nUsers := M.At(k.buf).nUsers + 1)))
  {
    assert EntryOk(ls[i], alive);
    TrackGetTable(ls, alive, i, k);
    OtherBuffers(ls, i, Lease(Some(k), ls[i].getCount + 1, false), k.mrm, k.buf);
  }

  lemma GetOk(s: State, t: Tid, m: nat)
    requires Inv(s) && t in s.alive && m in s.mrms && Get(s, t, m).1.Some?
    ensures var (s1, got) := Get(s, t, m);
      var b := got.value.0;
      && s.mrms[m].curr == Some(b) && got.value.1 == s.mrms[m].WordsOf(b)
      && Inv(s1) && s1.alive == s.alive && s1.mrms == s.mrms[m := s1.mrms[m]]
      && s1.mrms[m].curr == Some(b)
      && Referenced(s, s1, Key(t, m, b))
      && (forall x: nat :: s.mrms[m].meta.Held(x) ==> Kept(s.mrms[m], s1.mrms[m], x))
  {
    var (ls, M, (s1, got)) := (s.leases, s.mrms[m], Get(s, t, m));
    assert MrmOk(ls, m, M);
    var k := Key(t, m, got.value.0);
    var i := Slot(ls, k);
    assert EntryOk(ls[i], s.alive);
    UnreservedCurrent(s, k);
    assert ls[i].key == Some(k) ==> ls[i].On(m, k.buf);
    GetLink(ls, s.alive, i, k, M);
    Stitch(s, s1, m, i, Lease(Some(k), ls[i].getCount + 1, false));
    KeptAll(M, s1.mrms[m]);
  }

  // One more reference for k: in its own entry, or in a free one.
  ghost predicate Referenced(s: State, s1: State, k: Key) {
    var i := Slot(s.leases, k);
    && i < |s.leases| && (s.leases[i].key == None || s.leases[i].key == Some(k))
    && s1.leases == s.leases[i := Lease(Some(k), s.leases[i].getCount + 1, false)]
  }

  lemma UnreservedCurrent(s: State, k: Key)
    requires TableOk(s.leases, s.alive) && !Reserved(s, k.mrm, k.buf)
    ensures forall j :: 0 <= j < |s.leases| && s.leases[j].reserved ==> !s.leases[j].On(k.mrm, k.buf)
  {
    forall j | 0 <= j < |s.leases| && s.leases[j].reserved ensures !s.leases[j].On(k.mrm, k.buf) {
      assert EntryOk(s.leases[j], s.alive);
    }
  }

  lemma TrackGetTable(ls: seq<Lease>, alive: set<Tid>, i: nat, k: Key)
    requires TableOk(ls, alive) && k.tid in alive && i == Slot(ls, k) && i < |ls| && ls[i].getCount < GET_MAX
    requires forall j :: 0 <= j < |ls| && ls[j].reserved ==> !ls[j].On(k.mrm, k.buf)
    ensures TableOk(ls[i := Lease(Some(k), ls[i].getCount + 1, false)], alive)
  {
    var ls1 := ls[i := Lease(Some(k), ls[i].getCount + 1, false)];
    forall a, c | 0 <= a < |ls| && 0 <= c < |ls| && a != c && ls1[a].key.Some?
      ensures ls1[a].key != ls1[c].key
    {
      if a == i || c == i {
        var o := if a == i then c else a;
        if ls[i].key == None { assert IndexOf(ls, Some(k)) == |ls|; }
        assert ls[o].key != Some(k);
      }
    }
  }

  // ---- unget ---------------------------------------------------------------------------------------

  // A buffer whose references are all gone and that had one unreserved lease is not leased.
  lemma LastReferenceGone(ls: seq<Lease>, alive: set<Tid>, i: nat, l: Lease, m: nat, b: nat)
    requires TableOk(ls, alive) && i < |ls| && ls[i].On(m, b) && !ls[i].reserved
    requires l == FREE_LEASE || (l.key == ls[i].key && l.getCount > 0)
    requires Users(ls[i := l], m, b) == 0
    ensures !Leased(ls[i := l], m, b)
  {
    var ls1 := ls[i := l];
    forall j | 0 <= j < |ls1| ensures !ls1[j].On(m, b) {
      assert EntryOk(ls[j], alive);
      UsersCoverLease(ls1, j, m, b);
    }
  }

  // The counts after entry i gave back `count` references and before any release.
  lemma DropLink(ls: seq<Lease>, alive: set<Tid>, i: nat, count: nat, l: Lease, m: nat, M: Mrm)
    requires TableOk(ls, alive) && i < |ls| && 0 < count <= ls[i].getCount
    requires ls[i].key.Some? && ls[i].key.value.mrm == m && !ls[i].reserved
    requires l == Settle(ls[i].(getCount := ls[i].getCount - count))
    requires MrmOk(ls, m, M)
    ensures BufferValid(M, ls[i].key.value.buf) && M.At(ls[i].key.value.buf).nUsers >= count
    ensures var b := ls[i].key.value.buf; var M1 := M.Put(b, M.At(b).(nUsers := M.At(b).nUsers - count));
      && PoolsOk(M1)
      && (forall x: nat :: M.meta.Held(x) ==> M1.At(x).nUsers == Users(ls[i := l], m, x))
      && (forall x: nat :: x != b ==> (M.meta.Held(x) <==> M.curr == Some(x) || Leased(ls[i := l], m, x)))
      && (Leased(ls[i := l], m, b) <==> M1.At(b).nUsers > 0)
    ensures TableOk(ls[i := l], alive)
  {
    var b := ls[i].key.value.buf;
    assert ls[i].On(m, b);
    UsersCoverLease(ls, i, m, b);
    OtherBuffers(ls, i, l, m, b);
    var ls1 := ls[i := l];
    if Users(ls1, m, b) == 0 {
      LastReferenceGone(ls, alive, i, l, m, b);
    } else if !Leased(ls1, m, b) {
      UnleasedHasNoUsers(ls1, m, b);
    }
  }

  // Entry i gives back `count` of its references; the last reference takes the buffer with it.
  lemma DropRefs(s: State, i: nat, count: nat, l: Lease)
    requires TableOk(s.leases, s.alive) && i < |s.leases| && 0 < count <= s.leases[i].getCount
    requires s.leases[i].key.Some? && s.leases[i].key.value.mrm in s.mrms
    requires l == Settle(s.leases[i].(getCount := s.leases[i].getCount - count))
    requires var k := s.leases[i].key.value; MrmOk(s.leases, k.mrm, s.mrms[k.mrm])
    ensures var k := s.leases[i].key.value; var M, M1 := s.mrms[k.mrm], GetRelease(s.mrms[k.mrm], k.buf, count).0;
      && GetRelease(M, k.buf, count).1 == Success && M1.curr == M.curr
      && MrmOk(s.leases[i := l], k.mrm, M1)
      && BufferValid(M, k.buf) && M.At(k.buf).nUsers >= count
      && (forall x: nat :: M1.meta.Held(x) ==> M.meta.Held(x) && Kept(M, M1, x))
    ensures TableOk(s.leases[i := l], s.alive)
  {
    var ls, k := s.leases, s.leases[i].key.value;
    var M, m, b := s.mrms[k.mrm], k.mrm, k.buf;
    assert EntryOk(ls[i], s.alive) && ls[i].On(m, b);
    DropLink(ls, s.alive, i, count, l, m, M);
    var M1 := M.Put(b, M.At(b).(nUsers := M.At(b).nUsers - count));
    if M1.At(b).nUsers == 0 && M.curr != Some(b) {
      ReleaseOk(M1, b);
      assert GetRelease(M, b, count).0 == BufferRelease(M1, b).0;
    } else {
      assert GetRelease(M, b, count).0 == M1;
    }
    assert LinkOk(ls[i := l], m, GetRelease(M, b, count).0);
  }

  lemma UngetOk(s: State, t: Tid, m: nat, b: nat)
    requires Inv(s) && t in s.alive && m in s.mrms && GetCount(s.leases, Key(t, m, b)) > 0
    ensures var (s1, err) := Unget(s, t, m, b);
      && err == Success && Inv(s1) && s1.alive == s.alive && s1.mrms == s.mrms[m := s1.mrms[m]]
      && s1.mrms[m].curr == s.mrms[m].curr
      && (var i := IndexOf(s.leases, Some(Key(t, m, b)));
          s1.leases == s.leases[i := Settle(s.leases[i].(getCount := s.leases[i].getCount - 1))])
      && (forall x: nat :: s.mrms[m].meta.Held(x) && s1.mrms[m].meta.Held(x)
            ==> Kept(s.mrms[m], s1.mrms[m], x))
  {
    var ls, k := s.leases, Key(t, m, b);
    var i := IndexOf(ls, Some(k));
    var l := Settle(ls[i].(getCount := ls[i].getCount - 1));
    DropRefs(s, i, 1, l);
    Stitch(s, Unget(s, t, m, b).0, m, i, l);
  }

  // Unget succeeds exactly for a task that holds a reference; otherwise nothing changes.
  lemma UngetSucceedsIff(s: State, t: Tid, m: nat, b: nat)
    requires Inv(s) && t in s.alive && m in s.mrms
    ensures Unget(s, t, m, b).1 == Success <==> GetCount(s.leases, Key(t, m, b)) > 0
    ensures Unget(s, t, m, b).1 != Success ==> Unget(s, t, m, b).0 == s
  {
    if GetCount(s.leases, Key(t, m, b)) > 0 { UngetOk(s, t, m, b); }
  }

  // ---- task death --------------------------------------------------------------------------------

  ghost predicate BelongsTo(l: Lease, t: Tid) {
    l.key.Some? && l.key.value.tid == t
  }

  // Nothing new is allocated, and what stays keeps its payload.
  ghost predicate Shrunk(M: Mrm, M1: Mrm) {
    M1.curr == M.curr && forall x: nat :: M1.meta.Held(x) ==> M.meta.Held(x) && Kept(M, M1, x)
  }

  lemma CleanLeaseOk(s: State, i: nat)
    requires Inv(s) && i < |s.leases| && s.leases[i].key.Some?
    ensures var m := s.leases[i].key.value.mrm;
      var (M1, err) := CleanLease(s.mrms[m], s.leases[i]);
      && err == Success && Shrunk(s.mrms[m], M1)
      && Inv(s.(leases := s.leases[i := FREE_LEASE], mrms := s.mrms[m := M1]))
  {
    var ls, l := s.leases, s.leases[i];
    var m, b := l.key.value.mrm, l.key.value.buf;
    var M := s.mrms[m];
    assert MrmOk(ls, m, M) && EntryOk(l, s.alive) && l.On(m, b);
    var M1 := CleanLease(M, l).0;
    if l.getCount != 0 {
      DropRefs(s, i, l.getCount, FREE_LEASE);
      assert GetRelease(M, b, l.getCount) == (M1, Success, GetRelease(M, b, l.getCount).2);
    } else {
      ReservedIsSole(ls, s.alive, i);
      OtherBuffers(ls, i, FREE_LEASE, m, b);
      DropEntryOk(ls, s.alive, i);
      if M.curr != Some(b) { ReleaseOk(M, b); }
      assert LinkOk(ls[i := FREE_LEASE], m, M1);
    }
    Stitch(s, s.(leases := ls[i := FREE_LEASE], mrms := s.mrms[m := M1]), m, i, FREE_LEASE);
  }

  lemma ShrunkThen(M: Mrm, M1: Mrm, M2: Mrm)
    requires Shrunk(M, M1) && Shrunk(M1, M2)
    ensures Shrunk(M, M2)
  {
    forall x: nat | M2.meta.Held(x) ensures M.meta.Held(x) && Kept(M, M2, x) {
      assert Kept(M1, M2, x) && Kept(M, M1, x);
    }
  }

  ghost predicate ShrunkAll(s: State, s1: State) {
    s1.alive == s.alive && s1.mrms.Keys == s.mrms.Keys && forall m <- s.mrms :: Shrunk(s.mrms[m], s1.mrms[m])
  }

  lemma ShrunkAllThen(s: State, s1: State, s2: State)
    requires ShrunkAll(s, s1) && ShrunkAll(s1, s2)
    ensures ShrunkAll(s, s2)
  {
    forall m <- s.mrms ensures Shrunk(s.mrms[m], s2.mrms[m]) {
      assert m in s1.mrms && m in s2.mrms;
      ShrunkThen(s.mrms[m], s1.mrms[m], s2.mrms[m]);
    }
  }

  // Returning one entry: while t's leases are being dropped the invariant holds as if t were
  // still alive.
  lemma CleanOneOk(s: State, t: Tid, i: nat)
    requires Inv(s.(alive := s.alive + {t})) && i < |s.leases|
    ensures var (s1, err) := CleanOne(s, t, i);
      && err == Success && Inv(s1.(alive := s1.alive + {t})) && ShrunkAll(s, s1)
      && s1.leases == (if BelongsTo(s.leases[i], t) then s.leases[i := FREE_LEASE] else s.leases)
  {
    if BelongsTo(s.leases[i], t) { CleanLeaseOk(s.(alive := s.alive + {t}), i); }
  }

  // Of the entries from i on, exactly t's were cleared.
  ghost predicate DroppedFrom(ls: seq<Lease>, ls1: seq<Lease>, t: Tid, i: nat) {
    && |ls1| == |ls|
    && forall j :: 0 <= j < |ls| ==> ls1[j] == if j >= i && BelongsTo(ls[j], t) then FREE_LEASE else ls[j]
  }

  lemma DroppedStep(ls: seq<Lease>, ls1: seq<Lease>, ls2: seq<Lease>, t: Tid, i: nat)
    requires i < |ls| && ls1 == if BelongsTo(ls[i], t) then ls[i := FREE_LEASE] else ls
    requires DroppedFrom(ls1, ls2, t, i + 1)
    ensures DroppedFrom(ls, ls2, t, i)
  {
  }

  // From s to s1 exactly t's entries from i on went, and the accounting holds as if t were still alive.
  ghost predicate Cleaned(s: State, s1: State, t: Tid, i: nat) {
    Inv(s1.(alive := s1.alive + {t})) && ShrunkAll(s, s1) && DroppedFrom(s.leases, s1.leases, t, i)
  }

  lemma CleanedThen(s: State, s1: State, s2: State, t: Tid, i: nat)
    requires i < |s.leases| && ShrunkAll(s, s1)
    requires s1.leases == if BelongsTo(s.leases[i], t) then s.leases[i := FREE_LEASE] else s.leases
    requires Cleaned(s1, s2, t, i + 1)
    ensures Cleaned(s, s2, t, i)
  {
    ShrunkAllThen(s, s1, s2);
    DroppedStep(s.leases, s1.leases, s2.leases, t, i);
  }

  lemma {:induction false} CleanFromOk(s: State, t: Tid, i: nat)
    requires Inv(s.(alive := s.alive + {t})) && i <= |s.leases|
    ensures CleanFrom(s, t, i).1 == Success && Cleaned(s, CleanFrom(s, t, i).0, t, i)
    decreases |s.leases| - i
  {
    if i < |s.leases| {
      CleanOneOk(s, t, i);
      var s1 := CleanOne(s, t, i).0;
      CleanFromOk(s1, t, i + 1);
      CleanedThen(s, s1, CleanFrom(s1, t, i + 1).0, t, i);
    }
  }

  // Task death drops exactly the dead task's leases, reports success and keeps the accounting.
  lemma CleanupOk(s: State, t: Tid)
    requires Inv(s)
    ensures var (s1, err) := Cleanup(s, t);
      && err == Success && Inv(s1) && s1.alive == s.alive - {t} && s1.mrms.Keys == s.mrms.Keys
      && |s1.leases| == |s.leases|
      && (forall j :: 0 <= j < |s.leases| ==>
            s1.leases[j] == if BelongsTo(s.leases[j], t) then FREE_LEASE else s.leases[j])
      && (forall m <- s.mrms :: Shrunk(s.mrms[m], s1.mrms[m]))
  {
    var s0 := s.(alive := s.alive - {t});
    assert TableOk(s.leases, s.alive + {t});
    assert s0.alive + {t} == s.alive + {t};
    assert Inv(s.(alive := s.alive + {t}));
    CleanFromOk(s0, t, 0);
    var s1 := Cleanup(s, t).0;
    forall j | 0 <= j < |s1.leases| ensures EntryOk(s1.leases[j], s1.alive) {
      assert EntryOk(s1.leases[j], s1.alive + {t});
    }
    assert TableOk(s1.leases, s1.alive);
  }
}
