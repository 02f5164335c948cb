// The promises of the most-recent-message service, over every run of it.

module MrmTheorems {
  import opened Basics
  import opened Mem
  import opened MrmSpec
  import opened MrmProof

  // ---- accounting -------------------------------------------------------------------------------

  lemma FreshMrmOk(ls: seq<Lease>, m: nat, nBufs: nat, size: nat)
    requires forall b: nat :: !Leased(ls, m, b)
    ensures MrmOk(ls, m, FreshMrm(nBufs, size))
  {
    var M := FreshMrm(nBufs, size);
    forall b: nat ensures !M.meta.Held(b) && !M.dataMem.Held(b) {
      if b < nBufs { assert M.meta.free[b] == b && M.dataMem.free[b] == b; }
    }
  }

  lemma DestroyOk(s: State, m: nat)
    requires Inv(s) && m in s.mrms && !DestroyRefused(s, m)
    ensures Inv(s.(mrms := s.mrms - {m}))
  {
    forall i | 0 <= i < |s.leases| && s.leases[i].key.Some?
      ensures s.leases[i].key.value.mrm in s.mrms - {m}
    {
      assert EntryOk(s.leases[i], s.alive);
    }
  }

  lemma StepOk(s: State, op: Op)
    requires Inv(s)
    ensures Inv(Step(s, op)) && |Step(s, op).leases| == |s.leases|
  {
    if Enabled(s, op) {
      match op
      case DoReserve(t, m) =>
        if Reserve(s, t, m).1.Some? { ReserveGranted(s, t, m); } else { ReserveRefused(s, t, m); }
      case DoPublish(t, m, b, payload) =>
        PublishOk(s, t, m, b, payload);
        if HoldsReservation(s, Key(t, m, b)) {
          var i: nat :| i < |s.leases| && s.leases[i].key == Some(Key(t, m, b)) && s.leases[i].reserved;
          PublishGranted(s, t, m, b, payload, i);
        }
      case DoGet(t, m) => if Get(s, t, m).1.Some? { GetOk(s, t, m); }
      case DoUnget(t, m, b) =>
        UngetSucceedsIff(s, t, m, b);
        if Unget(s, t, m, b).1 == Success { UngetOk(s, t, m, b); }
      case DoCleanup(t) => CleanupOk(s, t);
      case DoSpawn(t) =>
      case DoCreate(m, nBufs, size) => FreshMrmOk(s.leases, m, nBufs, size);
      case DoDestroy(m) => if !DestroyRefused(s, m) { DestroyOk(s, m); }
    }
  }

  lemma {:induction false} RunOk(s: State, ops: seq<Op>)
    requires Inv(s)
    ensures Inv(Run(s, ops)) && |Run(s, ops).leases| == |s.leases|
  {
    if ops != [] {
      RunOk(s, ops[..|ops| - 1]);
      StepOk(Run(s, ops[..|ops| - 1]), ops[|ops| - 1]);
    }
  }

  lemma BootOk(n: nat)
    ensures Inv(Boot(n))
  {
  }

  lemma {:induction false} UsersBounded(ls: seq<Lease>, m: nat, b: nat)
    requires forall l <- ls :: l.getCount <= GET_MAX
    ensures Users(ls, m, b) <= |ls| * GET_MAX
  {
    if ls != [] { UsersBounded(ls[..|ls| - 1], m, b); }
  }

  // In every state a run reaches: the allocated buffers of an MRM are exactly its current one and
  // the leased ones, each with its own payload block; user counts are the sums of the references
  // and fit the counter; leases are unique, and a reserved buffer has one reserver and no user.
  lemma AccountingHolds(n: nat, ops: seq<Op>, m: nat)
    requires m in Run(Boot(n), ops).mrms
    ensures var s := Run(Boot(n), ops); var M := s.mrms[m];
      && (forall b: nat :: M.meta.Held(b) <==> M.curr == Some(b) || Leased(s.leases, m, b))
      && (forall b: nat :: M.meta.Held(b) ==>
            && M.dataMem.Held(M.At(b).data)
            && M.At(b).nUsers == Users(s.leases, m, b) <= n * GET_MAX)
      && (forall b: nat, c: nat :: M.meta.Held(b) && M.meta.Held(c) && b != c ==> M.At(b).data != M.At(c).data)
      && |M.meta.HeldSet()| == |M.dataMem.HeldSet()|
    ensures var s := Run(Boot(n), ops);
      forall i, j :: 0 <= i < |s.leases| && 0 <= j < |s.leases| && i != j && s.leases[i].key.Some? ==>
        && s.leases[i].key != s.leases[j].key
        && (s.leases[i].reserved ==>
              && !s.leases[j].On(s.leases[i].key.value.mrm, s.leases[i].key.value.buf)
              && Users(s.leases, s.leases[i].key.value.mrm, s.leases[i].key.value.buf) == 0)
  {
    var s := Run(Boot(n), ops);
    BootOk(n);
    RunOk(Boot(n), ops);
    var M := s.mrms[m];
    assert MrmOk(s.leases, m, M);
    PoolConserves(M.meta);
    PoolConserves(M.dataMem);
    forall l <- s.leases ensures l.getCount <= GET_MAX { assert EntryOk(l, s.alive); }
    forall b: nat ensures Users(s.leases, m, b) <= n * GET_MAX { UsersBounded(s.leases, m, b); }
    forall i: nat | i < |s.leases| && s.leases[i].reserved
      ensures Users(s.leases, s.leases[i].key.value.mrm, s.leases[i].key.value.buf) == 0
    {
      ReservedIsSole(s.leases, s.alive, i);
    }
  }

  lemma RefusedIffLeased(s: State, m: nat)
    requires Inv(s) && m in s.mrms
    ensures DestroyRefused(s, m) <==>
      exists i :: 0 <= i < |s.leases| && s.leases[i].key.Some? && s.leases[i].key.value.mrm == m
  {
    var M := s.mrms[m];
    assert MrmOk(s.leases, m, M);
    if i :| 0 <= i < |s.leases| && s.leases[i].key.Some? && s.leases[i].key.value.mrm == m {
      assert EntryOk(s.leases[i], s.alive);
      assert HasActiveLease(s, m);
    } else {
      PoolConserves(M.meta);
      assert forall b: nat :: b in M.meta.HeldSet() <==> M.meta.Held(b);
      if M.curr.Some? {
        UnleasedHasNoUsers(s.leases, m, M.curr.value);
        assert M.meta.HeldSet() == {M.curr.value};
      } else {
        assert M.meta.HeldSet() == {};
      }
    }
  }

  // The destroy guard refuses exactly while some lease on the MRM is left.
  lemma DestroyRefusedIffLeased(n: nat, ops: seq<Op>, m: nat)
    requires m in Run(Boot(n), ops).mrms
    ensures var s := Run(Boot(n), ops);
      DestroyRefused(s, m) <==>
      exists i :: 0 <= i < |s.leases| && s.leases[i].key.Some? && s.leases[i].key.value.mrm == m
  {
    BootOk(n);
    RunOk(Boot(n), ops);
    RefusedIffLeased(Run(Boot(n), ops), m);
  }

  // ---- sizing -----------------------------------------------------------------------------------

  function LeasedSet(ls: seq<Lease>, m: nat): (r: set<nat>)
    ensures forall b: nat :: b in r <==> Leased(ls, m, b)
  {
    set i | 0 <= i < |ls| && ls[i].key.Some? && ls[i].key.value.mrm == m :: ls[i].key.value.buf
  }

  // A held buffer that no task leases is the current one, and idle.
  lemma UnleasedIsReusable(s: State, m: nat, c: nat)
    requires Inv(s) && m in s.mrms && s.mrms[m].meta.Held(c) && !Leased(s.leases, m, c)
    ensures Reusable(s, m)
  {
    assert MrmOk(s.leases, m, s.mrms[m]);
    UnleasedHasNoUsers(s.leases, m, c);
  }

  // With every block held, the current buffer is reusable exactly when not every block is leased.
  lemma ReusableOrAllLeased(s: State, m: nat)
    requires Inv(s) && m in s.mrms && s.mrms[m].meta.free == []
    ensures Reusable(s, m) <==> |LeasedSet(s.leases, m)| < s.mrms[m].meta.nMax
  {
    var M := s.mrms[m];
    assert MrmOk(s.leases, m, M);
    PoolConserves(M.meta);
    var leased, held := LeasedSet(s.leases, m), M.meta.HeldSet();
    assert forall b: nat :: b in held <==> M.meta.Held(b);
    SubsetSize(leased, held);
    if Reusable(s, m) {
      IdleIsUnleased(s, m, M.curr.value);
      assert M.curr.value in held && M.curr.value !in leased;
    } else if leased != held {
      var c :| c in held && c !in leased;
      UnleasedIsReusable(s, m, c);
    }
  }

  // While a block is free, not every block is leased.
  lemma FreeIsUnleased(s: State, m: nat)
    requires Inv(s) && m in s.mrms && s.mrms[m].meta.free != []
    ensures |LeasedSet(s.leases, m)| < s.mrms[m].meta.nMax
  {
    var M := s.mrms[m];
    assert MrmOk(s.leases, m, M);
    PoolConserves(M.meta);
    assert forall b: nat :: b in M.meta.HeldSet() <==> M.meta.Held(b);
    SubsetSize(LeasedSet(s.leases, m), M.meta.HeldSet());
  }

  // A task's reserve succeeds exactly while the table has a free entry and fewer than nBufs of the
  // MRM's buffers are leased.
  lemma ReserveBound(n: nat, ops: seq<Op>, t: Tid, m: nat)
    requires t in Run(Boot(n), ops).alive && m in Run(Boot(n), ops).mrms
    ensures var s := Run(Boot(n), ops);
      Reserve(s, t, m).1.Some? <==>
        HasFreeEntry(s.leases) && |LeasedSet(s.leases, m)| < s.mrms[m].meta.nMax
  {
    var s := Run(Boot(n), ops);
    BootOk(n);
    RunOk(Boot(n), ops);
    ReserveSucceedsIff(s, t, m);
    if s.mrms[m].meta.free == [] { ReusableOrAllLeased(s, m); } else { FreeIsUnleased(s, m); }
  }

  // ---- latest value -------------------------------------------------------------------------------

  // The payload of the last successful publish on m since m was created.
  function LastPublished(s0: State, ops: seq<Op>, m: nat): Option<seq<Word>> {
    if ops == [] then None
    else
      var s := Run(s0, ops[..|ops| - 1]);
      var before := LastPublished(s0, ops[..|ops| - 1], m);
      match ops[|ops| - 1]
      case DoPublish(t, m1, b, payload) =>
        if m1 == m && Enabled(s, ops[|ops| - 1]) && Publish(s, t, m, b, payload).1 == Success
        then Some(payload) else before
      case DoCreate(m1, _, _) => if m1 == m && Enabled(s, ops[|ops| - 1]) then None else before
      case _ => before
  }

  ghost predicate ShowsLatest(M: Mrm, last: Option<seq<Word>>) {
    match M.curr
    case None => last.None?
    case Some(b) => last == Some(M.WordsOf(b))
  }

  ghost predicate Publishes(s: State, op: Op, m: nat) {
    op.DoPublish? && op.m == m && Enabled(s, op) && Publish(s, op.t, m, op.b, op.payload).1 == Success
  }

  lemma PublishStep(s: State, op: Op)
    requires Inv(s) && op.DoPublish? && Enabled(s, op)
    ensures var s1 := Step(s, op);
      if Publishes(s, op, op.m)
      then exists i: nat :: i < |s.leases| && s.leases[i].reserved && s.leases[i].On(op.m, op.b)
             && s1.leases == s.leases[i := FREE_LEASE]
      else s1 == s
    ensures Publishes(s, op, op.m) ==>
      var (M, M1) := (s.mrms[op.m], Step(s, op).mrms[op.m]);
      && Step(s, op).mrms == s.mrms[op.m := M1] && M1.curr == Some(op.b) && M1.WordsOf(op.b) == op.payload
      && (forall x: nat :: x != op.b && M.meta.Held(x) && M1.meta.Held(x) ==> Kept(M, M1, x))
  {
    PublishOk(s, op.t, op.m, op.b, op.payload);
    var k := Key(op.t, op.m, op.b);
    if HoldsReservation(s, k) {
      var i: nat :| i < |s.leases| && s.leases[i].key == Some(k) && s.leases[i].reserved;
      PublishGranted(s, op.t, op.m, op.b, op.payload, i);
    }
  }

  // No step writes a buffer, but the publish of that buffer.
  lemma StepKeepsWords(s: State, op: Op, m: nat, x: nat)
    requires Inv(s) && m in s.mrms && m in Step(s, op).mrms
    requires s.mrms[m].meta.Held(x) && Step(s, op).mrms[m].meta.Held(x) && !(Publishes(s, op, m) && op.b == x)
    ensures Kept(s.mrms[m], Step(s, op).mrms[m], x)
  {
    if Enabled(s, op) {
      match op
      case DoReserve(t, m1) =>
        if Reserve(s, t, m1).1.Some? { ReserveGranted(s, t, m1); } else { ReserveRefused(s, t, m1); }
      case DoPublish(t, m1, b, payload) => PublishStep(s, op);
      case DoGet(t, m1) => if Get(s, t, m1).1.Some? { GetOk(s, t, m1); }
      case DoUnget(t, m1, b) =>
        UngetSucceedsIff(s, t, m1, b);
        if Unget(s, t, m1, b).1 == Success { UngetOk(s, t, m1, b); }
      case DoCleanup(t) =>
        CleanupOk(s, t);
        assert Shrunk(s.mrms[m], Step(s, op).mrms[m]);
      case DoSpawn(t) =>
      case DoCreate(m1, nBufs, size) =>
      case DoDestroy(m1) =>
    }
  }

  // Outside a successful publish on m, the current buffer of m stays.
  lemma StepKeepsCurrent(s: State, op: Op, m: nat)
    requires Inv(s) && m in s.mrms && m in Step(s, op).mrms
    ensures Step(s, op).mrms[m].curr == if Publishes(s, op, m) then Some(op.b) else s.mrms[m].curr
  {
    if Enabled(s, op) {
      match op
      case DoReserve(t, m1) =>
        if Reserve(s, t, m1).1.Some? { ReserveGranted(s, t, m1); } else { ReserveRefused(s, t, m1); }
      case DoPublish(t, m1, b, payload) => PublishStep(s, op);
      case DoGet(t, m1) => if Get(s, t, m1).1.Some? { GetOk(s, t, m1); }
      case DoUnget(t, m1, b) =>
        UngetSucceedsIff(s, t, m1, b);
        if Unget(s, t, m1, b).1 == Success { UngetOk(s, t, m1, b); }
      case DoCleanup(t) =>
        CleanupOk(s, t);
        assert Shrunk(s.mrms[m], Step(s, op).mrms[m]);
      case DoSpawn(t) =>
      case DoCreate(m1, nBufs, size) =>
      case DoDestroy(m1) =>
    }
  }

  // An MRM appears only by its creation, empty.
  lemma StepCreates(s: State, op: Op, m: nat)
    requires Inv(s) && m !in s.mrms && m in Step(s, op).mrms
    ensures op.DoCreate? && op.m == m && Enabled(s, op) && Step(s, op).mrms[m].curr == None
  {
    match op
    case DoCleanup(t) => CleanupOk(s, t);
    case _ =>
  }

  lemma {:induction false} CurrentIsLatest(n: nat, ops: seq<Op>, m: nat)
    requires m in Run(Boot(n), ops).mrms
    ensures ShowsLatest(Run(Boot(n), ops).mrms[m], LastPublished(Boot(n), ops, m))
  {
    var s0 := Boot(n);
    if ops != [] {
      var pre, op := ops[..|ops| - 1], ops[|ops| - 1];
      var s := Run(s0, pre);
      BootOk(n);
      RunOk(s0, pre);
      StepOk(s, op);
      if m in s.mrms {
        CurrentIsLatest(n, pre, m);
        var M, M1 := s.mrms[m], Step(s, op).mrms[m];
        assert MrmOk(s.leases, m, M) && MrmOk(Step(s, op).leases, m, M1);
        StepKeepsCurrent(s, op, m);
        if Publishes(s, op, m) {
          PublishStep(s, op);
        } else if M.curr.Some? {
          StepKeepsWords(s, op, m, M.curr.value);
        }
      } else {
        StepCreates(s, op, m);
      }
    }
  }

  // Every successful get copies out the payload of the most recent publish.
  lemma GetReturnsLatest(n: nat, ops: seq<Op>, t: Tid, m: nat)
    requires t in Run(Boot(n), ops).alive && m in Run(Boot(n), ops).mrms
    ensures var got := Get(Run(Boot(n), ops), t, m).1;
      got.Some? ==> LastPublished(Boot(n), ops, m) == Some(got.value.1)
  {
    CurrentIsLatest(n, ops, m);
  }

  // ---- reader stability ---------------------------------------------------------------------------

  lemma CountAt(ls: seq<Lease>, alive: set<Tid>, j: nat, k: Key)
    requires TableOk(ls, alive) && j < |ls| && ls[j].key == Some(k)
    ensures GetCount(ls, k) == ls[j].getCount
  {
    assert IndexOf(ls, Some(k)) == j;
  }

  function Ungets(ops: seq<Op>, k: Key): nat {
    if ops == [] then 0
    else Ungets(ops[..|ops| - 1], k)
         + if ops[|ops| - 1] == DoUnget(k.tid, k.mrm, k.buf) then 1 else 0
  }

  // A lease with references stays in its entry through every step but its task's death; only its
  // task's own unget takes a reference away.
  lemma StepKeepsLease(s: State, op: Op, j: nat)
    requires Inv(s) && j < |s.leases| && s.leases[j].key.Some? && op != DoCleanup(s.leases[j].key.value.tid)
    requires s.leases[j].getCount > Ungets([op], s.leases[j].key.value)
    ensures j < |Step(s, op).leases| && Step(s, op).leases[j].key == s.leases[j].key
    ensures Step(s, op).leases[j].getCount >= s.leases[j].getCount - Ungets([op], s.leases[j].key.value)
  {
    var k := s.leases[j].key.value;
    assert EntryOk(s.leases[j], s.alive);
    assert Ungets([op], k) == if op == DoUnget(k.tid, k.mrm, k.buf) then 1 else 0 by { assert [op][..0] == []; }
    if Enabled(s, op) {
      match op
      case DoReserve(t, m) =>
        if Reserve(s, t, m).1.Some? { ReserveGranted(s, t, m); } else { ReserveRefused(s, t, m); }
      case DoPublish(t, m, b, payload) => PublishStep(s, op);
      case DoGet(t, m) => if Get(s, t, m).1.Some? { GetOk(s, t, m); }
      case DoUnget(t, m, b) =>
        UngetSucceedsIff(s, t, m, b);
        if Unget(s, t, m, b).1 == Success { UngetOk(s, t, m, b); }
      case DoCleanup(t) => CleanupOk(s, t);
      case DoSpawn(t) =>
      case DoCreate(m, nBufs, size) =>
      case DoDestroy(m) =>
    }
  }

  // k's task may still read: its references are in the table and the buffer is allocated.
  ghost predicate Holds(s: State, k: Key, least: nat) {
    k.mrm in s.mrms && s.mrms[k.mrm].meta.Held(k.buf) && GetCount(s.leases, k) >= least
  }

  lemma HolderAt(s: State, k: Key, j: nat)
    requires Inv(s) && j < |s.leases| && s.leases[j].key == Some(k)
    ensures Holds(s, k, s.leases[j].getCount)
  {
    CountAt(s.leases, s.alive, j, k);
    assert s.leases[j].On(k.mrm, k.buf);
    assert MrmOk(s.leases, k.mrm, s.mrms[k.mrm]);
  }

  lemma HolderStep(s: State, op: Op, k: Key)
    requires Inv(s) && op != DoCleanup(k.tid)
    requires GetCount(s.leases, k) > Ungets([op], k)
    ensures Holds(s, k, 1) && Holds(Step(s, op), k, GetCount(s.leases, k) - Ungets([op], k))
    ensures Step(s, op).mrms[k.mrm].WordsOf(k.buf) == s.mrms[k.mrm].WordsOf(k.buf)
  {
    var j := IndexOf(s.leases, Some(k));
    StepOk(s, op);
    HolderAt(s, k, j);
    StepKeepsLease(s, op, j);
    HolderAt(Step(s, op), k, j);
    if Publishes(s, op, k.mrm) && op.b == k.buf {
      PublishStep(s, op);
      assert EntryOk(s.leases[j], s.alive) && s.leases[j].On(k.mrm, k.buf);
      assert false;
    } else {
      StepKeepsWords(s, op, k.mrm, k.buf);
    }
  }

  // While a task has ungot a buffer less often than it got it, and lives, whatever anyone does the
  // buffer stays allocated, keeps every word, and no reserve hands it out.
  lemma {:induction false} ReaderStable(n: nat, ops: seq<Op>, more: seq<Op>, k: Key)
    requires GetCount(Run(Boot(n), ops).leases, k) > Ungets(more, k)
    requires DoCleanup(k.tid) !in more
    ensures var s, s1 := Run(Boot(n), ops), Run(Run(Boot(n), ops), more);
      && k.mrm in s.mrms && k.mrm in s1.mrms
      && GetCount(s1.leases, k) >= GetCount(s.leases, k) - Ungets(more, k)
      && s.mrms[k.mrm].meta.Held(k.buf) && s1.mrms[k.mrm].meta.Held(k.buf)
      && s1.mrms[k.mrm].WordsOf(k.buf) == s.mrms[k.mrm].WordsOf(k.buf)
      && forall t <- s1.alive :: Reserve(s1, t, k.mrm).1 != Some(k.buf)
  {
    var s := Run(Boot(n), ops);
    BootOk(n);
    RunOk(Boot(n), ops);
    RunOk(s, more);
    var s1 := Run(s, more);
    if more == [] {
      var j := IndexOf(s.leases, Some(k));
      assert s.leases[j].On(k.mrm, k.buf);
      assert MrmOk(s.leases, k.mrm, s.mrms[k.mrm]);
    } else {
      var pre, op := more[..|more| - 1], more[|more| - 1];
      assert forall o <- pre :: o in more;
      ReaderStable(n, ops, pre, k);
      RunOk(s, pre);
      assert Ungets([op], k) == if op == DoUnget(k.tid, k.mrm, k.buf) then 1 else 0 by { assert [op][..0] == []; }
      HolderStep(Run(s, pre), op, k);
    }
    forall t <- s1.alive ensures Reserve(s1, t, k.mrm).1 != Some(k.buf) {
      if Reserve(s1, t, k.mrm).1.Some? {
        ReserveGranted(s1, t, k.mrm);
        var j := IndexOf(s1.leases, Some(k));
        assert s1.leases[j].On(k.mrm, k.buf);
      }
    }
  }
}
