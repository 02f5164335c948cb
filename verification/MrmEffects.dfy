// What the calls of the most-recent-message service do, in any state a run reaches: when a get succeeds and
// what it changes, what creation and destruction leave behind.

module MrmEffects {
  import opened Basics
  import opened Mem
  import opened MrmSpec
  import opened MrmProof
  import opened MrmTheorems

  // No live task has a reservation on the buffer.
  ghost predicate Unreserved(s: State, m: nat, b: nat) {
    forall l <- s.leases :: l.reserved ==> !(l.key.Some? && l.key.value.mrm == m && l.key.value.buf == b
                                             && l.key.value.tid in s.alive)
  }

  // The table can take one more reference of k: in k's own entry below the limit of its 16-bit counter, or,
  // if k has none, in an entry without a key.
  ghost predicate TableTakes(ls: seq<Lease>, k: Key) {
    || (exists l <- ls :: l.key == Some(k) && l.getCount < 0xFFFF)
    || ((forall l <- ls :: l.key != Some(k)) && exists l <- ls :: l.key == None)
  }

  // The references of k, wherever in the table.
  ghost predicate Refs(ls: seq<Lease>, k: Key, n: nat) {
    if n == 0 then forall l <- ls :: l.key == Some(k) ==> l.getCount == 0
    else exists l <- ls :: l.key == Some(k) && l.getCount == n
  }

  lemma UnreservedIs(s: State, m: nat, b: nat)
    ensures Unreserved(s, m, b) <==> !Reserved(s, m, b)
  {
    if Reserved(s, m, b) {
      var i :| 0 <= i < |s.leases| && s.leases[i].On(m, b) && s.leases[i].reserved && s.leases[i].key.value.tid in s.alive;
      assert s.leases[i] in s.leases;
    }
  }

  lemma OwnEntry(ls: seq<Lease>, alive: set<Tid>, k: Key, l: Lease)
    requires TableOk(ls, alive) && l in ls && l.key == Some(k)
    ensures IndexOf(ls, Some(k)) < |ls| && ls[IndexOf(ls, Some(k))] == l
  {
    var i :| 0 <= i < |ls| && ls[i] == l;
    var j := IndexOf(ls, Some(k));
    assert ls[i].key == ls[j].key;
  }

  lemma TracksIff(ls: seq<Lease>, alive: set<Tid>, k: Key)
    requires TableOk(ls, alive)
    ensures GetTrack(ls, k).Some? <==> TableTakes(ls, k)
  {
    var i, f := IndexOf(ls, Some(k)), IndexOf(ls, None);
    if i < |ls| {
      assert ls[i] in ls && EntryOk(ls[i], alive);
      forall l <- ls | l.key == Some(k) ensures l == ls[i] { OwnEntry(ls, alive, k, l); }
    } else if f < |ls| {
      assert ls[f] in ls && EntryOk(ls[f], alive);
    }
  }

  // Over every run a live task's get succeeds exactly if something was published, nobody has reserved the
  // current buffer, and the lease table can take the reference. How many others read the buffer is no matter.
  lemma GetSucceedsIff(n: nat, ops: seq<Op>, t: Tid, m: nat)
    requires t in Run(Boot(n), ops).alive && m in Run(Boot(n), ops).mrms
    ensures var s := Run(Boot(n), ops); var curr := s.mrms[m].curr;
      Get(s, t, m).1.Some? <==>
        curr.Some? && Unreserved(s, m, curr.value) && TableTakes(s.leases, Key(t, m, curr.value))
  {
    var s := Run(Boot(n), ops);
    BootOk(n);
    RunOk(Boot(n), ops);
    if s.mrms[m].curr.Some? {
      UnreservedIs(s, m, s.mrms[m].curr.value);
      TracksIff(s.leases, s.alive, Key(t, m, s.mrms[m].curr.value));
    }
  }

  lemma RefsAre(ls: seq<Lease>, alive: set<Tid>, k: Key, n: nat)
    requires TableOk(ls, alive)
    ensures Refs(ls, k, n) <==> GetCount(ls, k) == n
  {
    var i := IndexOf(ls, Some(k));
    if i < |ls| { assert ls[i] in ls; }
    forall l <- ls | l.key == Some(k) ensures i < |ls| && l == ls[i] { OwnEntry(ls, alive, k, l); }
  }

  // One reference more for k, and the same for all others.
  ghost predicate OneMore(s: State, s1: State, k: Key) {
    forall x: Key, n: nat :: Refs(s.leases, x, n) ==> Refs(s1.leases, x, if x == k then n + 1 else n)
  }

  lemma CountMoves(s: State, s1: State, k: Key, x: Key)
    requires TableOk(s.leases, s.alive) && TableOk(s1.leases, s.alive) && Referenced(s, s1, k)
    ensures GetCount(s1.leases, x) == GetCount(s.leases, x) + if x == k then 1 else 0
  {
    var i, ls, ls1 := Slot(s.leases, k), s.leases, s1.leases;
    assert EntryOk(ls[i], s.alive);
    if x == k {
      assert ls1[i].key == Some(k);
      OwnEntry(ls1, s.alive, k, ls1[i]);
    } else {
      var j := IndexOf(ls, Some(x));
      if j < |ls| {
        assert ls1[j] == ls[j];
        OwnEntry(ls1, s.alive, x, ls1[j]);
      } else {
        assert forall a :: 0 <= a < |ls1| ==> ls1[a].key != Some(x);
      }
    }
  }

  lemma GetCounts(s: State, t: Tid, m: nat)
    requires Inv(s) && t in s.alive && m in s.mrms && Get(s, t, m).1.Some?
    ensures OneMore(s, Get(s, t, m).0, Key(t, m, Get(s, t, m).1.value.0))
  {
    var s1, k := Get(s, t, m).0, Key(t, m, Get(s, t, m).1.value.0);
    GetOk(s, t, m);
    forall x: Key, n: nat | Refs(s.leases, x, n) ensures Refs(s1.leases, x, if x == k then n + 1 else n) {
      CountMoves(s, s1, k, x);
      RefsAre(s.leases, s.alive, x, n);
      RefsAre(s1.leases, s.alive, x, if x == k then n + 1 else n);
    }
  }

  // A get that succeeds returns the current buffer, gives its task one more reference and the buffer one
  // more user, and changes nothing else; one that fails changes nothing.
  lemma GetTakesOne(n: nat, ops: seq<Op>, t: Tid, m: nat)
    requires t in Run(Boot(n), ops).alive && m in Run(Boot(n), ops).mrms
    ensures var s := Run(Boot(n), ops); var (s1, got) := Get(s, t, m);
      Step(s, DoGet(t, m)) == s1 &&
      match got
      case None => s1 == s
      case Some((b, payload)) =>
        var M, M1 := s.mrms[m], s1.mrms[m];
        && M.curr == Some(b) && payload == M.WordsOf(b) && OneMore(s, s1, Key(t, m, b))
        && M1.At(b) == Buf(M.At(b).nUsers + 1, M.At(b).data) && M1 == M.(bufs := M1.bufs)
        && (forall c: nat :: c != b ==> M1.At(c) == M.At(c))
        && s1 == s.(leases := s1.leases, mrms := s.mrms[m := M1])
  {
    var s := Run(Boot(n), ops);
    BootOk(n);
    RunOk(Boot(n), ops);
    if Get(s, t, m).1.Some? {
      GetCounts(s, t, m);
      assert MrmOk(s.leases, m, s.mrms[m]);
    }
  }

  // A second reader gets what the first one got, while the table has room for it.
  lemma ReadersShare(n: nat, ops: seq<Op>, t: Tid, u: Tid, m: nat)
    requires var s := Run(Boot(n), ops); t in s.alive && u in s.alive && m in s.mrms && Get(s, t, m).1.Some?
    requires var s := Run(Boot(n), ops); TableTakes(Get(s, t, m).0.leases, Key(u, m, Get(s, t, m).1.value.0))
    ensures var s := Run(Boot(n), ops); Get(Get(s, t, m).0, u, m).1 == Get(s, t, m).1
  {
    var s := Run(Boot(n), ops);
    BootOk(n);
    RunOk(Boot(n), ops);
    var (s1, got) := Get(s, t, m);
    GetOk(s, t, m);
    var b := got.value.0;
    assert MrmOk(s.leases, m, s.mrms[m]) && MrmOk(s1.leases, m, s1.mrms[m]);
    UnreservedCurrent(s, Key(t, m, b));
    assert !Reserved(s1, m, b);
    TracksIff(s1.leases, s1.alive, Key(u, m, b));
    assert Kept(s.mrms[m], s1.mrms[m], b);
  }

  // Nothing of MRM m but what may be seen in its free list and in the block handed out.
  ghost predicate OtherMrmsStay(s: State, s1: State, m: nat) {
    s1.alive == s.alive && s1.mrms.Keys == s.mrms.Keys && forall x <- s.mrms :: x != m ==> s1.mrms[x] == s.mrms[x]
  }

  ghost predicate BuffersKept(M: Mrm, M1: Mrm) {
    forall b: nat :: M.meta.Held(b) && M1.meta.Held(b) ==> Kept(M, M1, b)
  }

  // The buffer had no lease, and now has the caller's reservation, in an entry that was free.
  ghost predicate NewlyReserved(s: State, s1: State, k: Key) {
    && (forall l <- s.leases :: !(l.key.Some? && l.key.value.mrm == k.mrm && l.key.value.buf == k.buf))
    && exists i :: 0 <= i < |s.leases| && s.leases[i] == FREE_LEASE
         && s1.leases == s.leases[i := Lease(Some(k), 0, true)]
  }

  lemma ReserveIs(s: State, t: Tid, m: nat)
    requires Inv(s) && t in s.alive && m in s.mrms && Reserve(s, t, m).1.Some?
    ensures var (s1, got) := Reserve(s, t, m); var k := Key(t, m, got.value);
      NewlyReserved(s, s1, k) && m in s1.mrms && s1.mrms[m].meta.Held(k.buf)
  {
    var (s1, got) := Reserve(s, t, m);
    ReserveGranted(s, t, m);
    var i: nat :| i < |s.leases| && s.leases[i] == FREE_LEASE
      && s1.leases == s.leases[i := Lease(Some(Key(t, m, got.value)), 0, true)];
    assert s1.leases[i].On(m, got.value);
    assert MrmOk(s1.leases, m, s1.mrms[m]);
    forall l <- s.leases ensures !l.On(m, got.value) {
      var j :| 0 <= j < |s.leases| && s.leases[j] == l;
      assert !s.leases[j].On(m, got.value);
    }
  }

  // A reserve that succeeds gives the caller a buffer nobody had a lease on; one that fails leaves all leases.
  // No buffer in use is written.
  lemma ReserveEffect(n: nat, ops: seq<Op>, t: Tid, m: nat)
    requires t in Run(Boot(n), ops).alive && m in Run(Boot(n), ops).mrms
    ensures var s := Run(Boot(n), ops); var (s1, got) := Reserve(s, t, m);
      && Step(s, DoReserve(t, m)) == s1 && OtherMrmsStay(s, s1, m) && BuffersKept(s.mrms[m], s1.mrms[m])
      && s1.mrms[m].curr == s.mrms[m].curr
      && match got
         case None => s1.leases == s.leases
         case Some(b) => NewlyReserved(s, s1, Key(t, m, b)) && s1.mrms[m].meta.Held(b)
  {
    var s := Run(Boot(n), ops);
    BootOk(n);
    RunOk(Boot(n), ops);
    if Reserve(s, t, m).1.Some? {
      ReserveGranted(s, t, m);
      ReserveIs(s, t, m);
    } else {
      ReserveRefused(s, t, m);
    }
  }

  // The buffer is current, with the payload, and the lease that reserved it is gone.
  ghost predicate Published(s: State, s1: State, k: Key, payload: seq<Word>)
    requires k.mrm in s.mrms
  {
    && OtherMrmsStay(s, s1, k.mrm) && s1.mrms[k.mrm].curr == Some(k.buf) && s1.mrms[k.mrm].WordsOf(k.buf) == payload
    && exists i :: 0 <= i < |s.leases| && s.leases[i].key == Some(k) && s1.leases == s.leases[i := FREE_LEASE]
  }

  lemma ReserverPublishes(s: State, t: Tid, m: nat, b: nat, payload: seq<Word>, l: Lease)
    requires Inv(s) && t in s.alive && m in s.mrms && |payload| == s.mrms[m].size
    requires l in s.leases && l.key == Some(Key(t, m, b)) && l.reserved
    ensures var (s1, err) := Publish(s, t, m, b, payload); err == Success && Published(s, s1, Key(t, m, b), payload)
  {
    var i: nat :| i < |s.leases| && s.leases[i] == l;
    PublishGranted(s, t, m, b, payload, i);
  }

  // A publish succeeds exactly for the task that reserved the buffer; else nothing changes.
  lemma PublishEffect(n: nat, ops: seq<Op>, t: Tid, m: nat, b: nat, payload: seq<Word>)
    requires var s := Run(Boot(n), ops); t in s.alive && m in s.mrms && |payload| == s.mrms[m].size
    ensures var s := Run(Boot(n), ops); var (s1, err) := Publish(s, t, m, b, payload);
      && Step(s, DoPublish(t, m, b, payload)) == s1
      && (err == Success <==> exists l <- s.leases :: l.key == Some(Key(t, m, b)) && l.reserved)
      && if err == Success then Published(s, s1, Key(t, m, b), payload) else s1 == s
  {
    var s := Run(Boot(n), ops);
    BootOk(n);
    RunOk(Boot(n), ops);
    PublishOk(s, t, m, b, payload);
    if HoldsReservation(s, Key(t, m, b)) {
      var i :| 0 <= i < |s.leases| && s.leases[i].key == Some(Key(t, m, b)) && s.leases[i].reserved;
      assert s.leases[i] in s.leases;
      ReserverPublishes(s, t, m, b, payload, s.leases[i]);
    }
  }

  // k has one reference less, and with the last its entry is free.
  ghost predicate OneLess(s: State, s1: State, k: Key) {
    exists i :: 0 <= i < |s.leases| && s.leases[i].key == Some(k) && s.leases[i].getCount > 0
      && s1.leases == s.leases[i := if s.leases[i].getCount == 1 then FREE_LEASE
                                    else Lease(Some(k), s.leases[i].getCount - 1, false)]
  }

  lemma HolderUngets(s: State, t: Tid, m: nat, b: nat)
    requires Inv(s) && t in s.alive && m in s.mrms && GetCount(s.leases, Key(t, m, b)) > 0
    ensures var (s1, err) := Unget(s, t, m, b);
      && err == Success && OtherMrmsStay(s, s1, m) && s1.mrms[m].curr == s.mrms[m].curr
      && BuffersKept(s.mrms[m], s1.mrms[m]) && OneLess(s, s1, Key(t, m, b))
  {
    var i := IndexOf(s.leases, Some(Key(t, m, b)));
    assert EntryOk(s.leases[i], s.alive);
    UngetOk(s, t, m, b);
  }

  lemma HasRefs(ls: seq<Lease>, alive: set<Tid>, k: Key)
    requires TableOk(ls, alive)
    ensures GetCount(ls, k) > 0 <==> exists l <- ls :: l.key == Some(k) && l.getCount > 0
  {
    var i := IndexOf(ls, Some(k));
    if i < |ls| { assert ls[i] in ls; }
    forall l <- ls | l.key == Some(k) ensures i < |ls| && l == ls[i] { OwnEntry(ls, alive, k, l); }
  }

  // An unget succeeds exactly for a task with a reference; else nothing changes.
  lemma UngetEffect(n: nat, ops: seq<Op>, t: Tid, m: nat, b: nat)
    requires t in Run(Boot(n), ops).alive && m in Run(Boot(n), ops).mrms
    ensures var s := Run(Boot(n), ops); var (s1, err) := Unget(s, t, m, b); var k := Key(t, m, b);
      && Step(s, DoUnget(t, m, b)) == s1
      && (err == Success <==> exists l <- s.leases :: l.key == Some(k) && l.getCount > 0)
      && if err != Success then s1 == s
         else OtherMrmsStay(s, s1, m) && s1.mrms[m].curr == s.mrms[m].curr && BuffersKept(s.mrms[m], s1.mrms[m])
              && OneLess(s, s1, k)
  {
    var s := Run(Boot(n), ops);
    BootOk(n);
    RunOk(Boot(n), ops);
    UngetSucceedsIff(s, t, m, b);
    HasRefs(s.leases, s.alive, Key(t, m, b));
    if GetCount(s.leases, Key(t, m, b)) > 0 { HolderUngets(s, t, m, b); }
  }

  // Death is CleanupOk's step; a spawned task has no lease.
  lemma DeathAndBirth(n: nat, ops: seq<Op>, t: Tid)
    ensures var s := Run(Boot(n), ops); t in s.alive ==> Step(s, DoCleanup(t)) == Cleanup(s, t).0
    ensures var s := Run(Boot(n), ops); t !in s.alive ==>
      && Step(s, DoSpawn(t)) == s.(alive := s.alive + {t})
      && forall l <- s.leases :: l.key.Some? ==> l.key.value.tid != t
  {
    var s := Run(Boot(n), ops);
    BootOk(n);
    RunOk(Boot(n), ops);
    forall l <- s.leases | l.key.Some? ensures l.key.value.tid in s.alive {
      var i :| 0 <= i < |s.leases| && s.leases[i] == l;
      assert EntryOk(s.leases[i], s.alive);
    }
  }

  // A created MRM has the buffers and the payload size asked for, all of them free, and nothing published.
  lemma CreateMakes(n: nat, ops: seq<Op>, m: nat, nBufs: nat, size: nat)
    requires m !in Run(Boot(n), ops).mrms && nBufs > 0 && size > 0
    ensures var s := Run(Boot(n), ops); var s1 := Run(Boot(n), ops + [DoCreate(m, nBufs, size)]);
      && s1.mrms.Keys == s.mrms.Keys + {m} && s1.leases == s.leases && s1.alive == s.alive
      && (forall x <- s.mrms :: s1.mrms[x] == s.mrms[x])
      && (var M := s1.mrms[m];
          && M.size == size && M.curr == None && M.meta.nMax == nBufs == M.dataMem.nMax
          && |M.meta.free| == nBufs == |M.dataMem.free|)
  {
    assert (ops + [DoCreate(m, nBufs, size)])[..|ops|] == ops;
  }

  // Destruction removes the MRM exactly if no lease on it is left, and touches no other.
  lemma DestroyRemoves(n: nat, ops: seq<Op>, m: nat)
    requires m in Run(Boot(n), ops).mrms
    ensures var s := Run(Boot(n), ops); var s1 := Run(Boot(n), ops + [DoDestroy(m)]);
      if exists l <- s.leases :: l.key.Some? && l.key.value.mrm == m then s1 == s
      else s1.mrms.Keys == s.mrms.Keys - {m} && s1.leases == s.leases && s1.alive == s.alive
           && forall x <- s1.mrms :: s1.mrms[x] == s.mrms[x]
  {
    var s := Run(Boot(n), ops);
    assert (ops + [DoDestroy(m)])[..|ops|] == ops;
    DestroyRefusedIffLeased(n, ops, m);
    if i :| 0 <= i < |s.leases| && s.leases[i].key.Some? && s.leases[i].key.value.mrm == m {
      assert s.leases[i] in s.leases;
    }
  }
}
