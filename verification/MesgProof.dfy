// What every run of the by-reference messages keeps.

module MesgProof {
  import opened Basics
  import opened Mem
  import opened TaskQueue
  import opened MesgSpec

  // ---- the invariant ------------------------------------------------------------------------------

  // A message is on its owner's list and on no other.
  ghost predicate OwnOk(s: System) {
    && (forall t: Tid :: Distinct(At(s.owned, t)))
    && (forall t: Tid, m: Mid :: m in At(s.owned, t) <==> s.Hdr(m).owner == Some(t))
  }

  // The messages that are not free are exactly those with an owner.
  ghost predicate StateOk(s: System) {
    forall m: Mid :: s.Hdr(m).st == Free <==> s.Hdr(m).owner == None
  }

  // Apart from `but`, which is on no queue, a message is on a task's queue exactly when it is queued
  // and that task owns it.
  ghost predicate QueueOk(s: System, but: Option<Mid>) {
    && (forall t: Tid :: Distinct(At(s.queues, t)))
    && (forall t: Tid, m: Mid :: m in At(s.queues, t) <==>
          s.Hdr(m).st == Queued && s.Hdr(m).owner == Some(t) && but != Some(m))
  }

  // The held blocks of a pool are its messages that are not free; allocators wait only on an empty pool.
  ghost predicate PoolOk(s: System, p: nat)
    requires p in s.pools
  {
    var pool := s.pools[p];
    && pool.mem.Valid() && Distinct(pool.waiters)
    && (forall b: nat :: pool.mem.Held(b) <==> s.Hdr(Mid(p, b)).st != Free)
    && (pool.waiters != [] ==> pool.mem.free == [])
  }

  ghost predicate PoolsOk(s: System) {
    && (forall p <- s.pools :: PoolOk(s, p))
    && (forall m: Mid :: s.Hdr(m).st != Free ==> m.pool in s.pools)
  }

  predicate WaitsOn(s: System, p: nat, t: Tid) {
    p in s.pools && t in s.pools[p].waiters
  }

  // No queued message is one the filter would take.
  ghost predicate NoMatch(s: System, q: seq<Mid>, f: Filter) {
    forall m <- q :: !Matches(s.Hdr(m), f)
  }

  // A task waits where its call says, until it has a message or its timeout ran out; a blocked
  // receiver never coexists with a queued message it would take.
  ghost predicate EpOk(s: System, t: Tid) {
    var e := s.Ep(t);
    && (!e.init ==> At(s.queues, t) == []) && (e.timedOut ==> e.got == None)
    && (forall p: nat :: WaitsOn(s, p, t) ==> e.pc.Allocating? && e.pc.pool == p)
    && match e.pc
       case Idle => !e.waiting && !e.armed && !e.timedOut && e.got == None
       case Allocating(p, _) =>
         && p in s.pools && !e.waiting && (e.armed ==> WaitsOn(s, p, t))
         && (WaitsOn(s, p, t) <==> e.got == None && !e.timedOut)
       case Waiting(f, _) =>
         && e.init && (e.armed ==> e.waiting)
         && (e.waiting <==> e.got == None && !e.timedOut)
         && (e.waiting ==> NoMatch(s, At(s.queues, t), f))
  }

  ghost predicate EpsOk(s: System) {
    forall t: Tid :: EpOk(s, t)
  }

  // All of it, but that message `but` is in transit.
  ghost predicate InvBut(s: System, but: Option<Mid>) {
    OwnOk(s) && StateOk(s) && QueueOk(s, but) && PoolsOk(s) && EpsOk(s)
  }

  ghost predicate Inv(s: System) {
    InvBut(s, None)
  }

  // ---- ownership ------------------------------------------------------------------------------------

  // The only owned lists a transfer touches are those of the two owners.
  lemma SetOwnerOk(s: System, m: Mid, o: Option<Tid>)
    requires OwnOk(s)
    ensures var s1 := SetOwner(s, m, o);
      && OwnOk(s1) && s1 == s.(owned := s1.owned, hdrs := s1.hdrs)
      && s1.Hdr(m) == s.Hdr(m).(owner := o) && (forall x: Mid :: x != m ==> s1.Hdr(x) == s.Hdr(x))
      && (forall t: Tid :: Some(t) != o && Some(t) != s.Hdr(m).owner ==> At(s1.owned, t) == At(s.owned, t))
      && (o != s.Hdr(m).owner && s.Hdr(m).owner.Some? ==>
            At(s1.owned, s.Hdr(m).owner.value) == Without(At(s.owned, s.Hdr(m).owner.value), m))
  {
    var was := s.Hdr(m).owner;
    var s1 := SetOwner(s, m, o);
    if was != o {
      if was.Some? { WithoutMembers(At(s.owned, was.value), m); }
      forall t: Tid ensures Distinct(At(s1.owned, t)) {
        assert Distinct(At(s.owned, t));
        assert m in At(s.owned, t) <==> was == Some(t);
      }
      forall t: Tid, x: Mid ensures x in At(s1.owned, t) <==> s1.Hdr(x).owner == Some(t) {
        assert x in At(s.owned, t) <==> s.Hdr(x).owner == Some(t);
      }
    }
  }

  // A change of a header that keeps its owner keeps the lists right.
  lemma SameOwner(s: System, m: Mid, h: Mesg)
    requires OwnOk(s) && h.owner == s.Hdr(m).owner
    ensures OwnOk(s.WithHdr(m, h))
  {
    var s1 := s.WithHdr(m, h);
    forall t: Tid, x: Mid ensures x in At(s1.owned, t) <==> s1.Hdr(x).owner == Some(t) {
      assert x in At(s.owned, t) <==> s.Hdr(x).owner == Some(t);
    }
  }

  lemma OwnFrame(s: System, s0: System)
    requires OwnOk(s) && s0.owned == s.owned && s0.hdrs == s.hdrs
    ensures OwnOk(s0)
  {
    forall t: Tid, x: Mid ensures x in At(s0.owned, t) <==> s0.Hdr(x).owner == Some(t) {
      assert x in At(s.owned, t) <==> s.Hdr(x).owner == Some(t);
    }
  }

  lemma InitAllocatedOk(s: System, m: Mid, t: Tid)
    requires OwnOk(s)
    ensures var s1 := InitAllocated(s, m, t);
      && OwnOk(s1) && s1 == s.(owned := s1.owned, hdrs := s1.hdrs)
      && s1.Hdr(m) == Mesg(Allocated, Some(t), None) && (forall x: Mid :: x != m ==> s1.Hdr(x) == s.Hdr(x))
      && (forall r: Tid :: r != t && Some(r) != s.Hdr(m).owner ==> At(s1.owned, r) == At(s.owned, r))
      && (s.Hdr(m).owner.Some? && s.Hdr(m).owner != Some(t) ==>
            At(s1.owned, s.Hdr(m).owner.value) == Without(At(s.owned, s.Hdr(m).owner.value), m))
  {
    var h := Mesg(Allocated, s.Hdr(m).owner, None);
    SameOwner(s, m, h);
    SetOwnerOk(s.WithHdr(m, h), m, Some(t));
  }

  // ---- frames -----------------------------------------------------------------------------------------

  // Once the message in transit is no longer queued, the queues are right again.
  lemma QueuesSettle(s: System, s1: System, m: Mid)
    requires QueueOk(s, Some(m)) && s1.queues == s.queues && s1.Hdr(m).st != Queued
    requires forall x: Mid :: x != m ==> s1.Hdr(x) == s.Hdr(x)
    ensures QueueOk(s1, None)
  {
    forall t: Tid, x: Mid
      ensures x in At(s1.queues, t) <==> s1.Hdr(x).st == Queued && s1.Hdr(x).owner == Some(t)
    {
      assert x in At(s.queues, t) <==> s.Hdr(x).st == Queued && s.Hdr(x).owner == Some(t) && Some(m) != Some(x);
    }
    forall t: Tid ensures Distinct(At(s1.queues, t)) { assert Distinct(At(s.queues, t)); }
  }

  lemma NotQueuedMayMove(s: System, m: Mid)
    requires QueueOk(s, None) && s.Hdr(m).st != Queued
    ensures QueueOk(s, Some(m))
  {
    forall t: Tid, x: Mid
      ensures x in At(s.queues, t) <==> s.Hdr(x).st == Queued && s.Hdr(x).owner == Some(t) && Some(m) != Some(x)
    {
      assert x in At(s.queues, t) <==> s.Hdr(x).st == Queued && s.Hdr(x).owner == Some(t) && None != Some(x);
    }
  }

  // Only the header of m changed, and m is as free as it was.
  lemma HdrsStay(s: System, s1: System, m: Mid)
    requires StateOk(s) && PoolsOk(s) && s1.pools == s.pools
    requires forall x: Mid :: x != m ==> s1.Hdr(x) == s.Hdr(x)
    requires (s1.Hdr(m).st == Free <==> s.Hdr(m).st == Free) && (s1.Hdr(m).st == Free <==> s1.Hdr(m).owner == None)
    ensures StateOk(s1) && PoolsOk(s1)
  {
    forall x: Mid ensures s1.Hdr(x).st == Free <==> s1.Hdr(x).owner == None {
      assert s.Hdr(x).st == Free <==> s.Hdr(x).owner == None;
    }
    forall q <- s1.pools ensures PoolOk(s1, q) {
      assert PoolOk(s, q);
      forall b: nat ensures s1.pools[q].mem.Held(b) <==> s1.Hdr(Mid(q, b)).st != Free {
        assert s.pools[q].mem.Held(b) <==> s.Hdr(Mid(q, b)).st != Free;
      }
    }
  }

  // A task whose own record, queue and wait list stay keeps its place.
  lemma EpStays(s: System, s1: System, t: Tid)
    requires EpOk(s, t) && s1.Ep(t) == s.Ep(t) && At(s1.queues, t) == At(s.queues, t)
    requires forall p: nat :: (p in s1.pools <==> p in s.pools) && (WaitsOn(s1, p, t) <==> WaitsOn(s, p, t))
    requires forall x <- At(s.queues, t) :: s1.Hdr(x) == s.Hdr(x)
    ensures EpOk(s1, t)
  {
    forall p: nat | WaitsOn(s1, p, t) ensures s1.Ep(t).pc.Allocating? && s1.Ep(t).pc.pool == p {
      assert WaitsOn(s, p, t);
    }
  }

  // ---- giving a message back ---------------------------------------------------------------------------

  lemma HeadWaits(s: System, p: nat)
    requires p in s.pools && PoolOk(s, p) && s.pools[p].waiters != [] && EpsOk(s)
    ensures var h := s.pools[p].waiters[0]; var rest := s.pools[p].waiters[1..];
      && WaitsOn(s, p, h) && s.Ep(h).pc.Allocating? && s.Ep(h).pc.pool == p
      && Distinct(rest) && (forall x :: x in rest <==> x in s.pools[p].waiters && x != h)
  {
    var ws := s.pools[p].waiters;
    assert EpOk(s, ws[0]) && WaitsOn(s, p, ws[0]);
    assert ws == [ws[0]] + ws[1..];
  }

  // s1 is s with message m taken from the transit to waiting allocator h.
  ghost predicate HandedOver(s: System, s1: System, m: Mid, h: Tid) {
    && m.pool in s.pools && s.pools[m.pool].waiters != [] && h == s.pools[m.pool].waiters[0]
    && s1.pools == s.pools[m.pool := s.pools[m.pool].(waiters := s.pools[m.pool].waiters[1..])]
    && s1.eps == s.eps[h := s.Ep(h).(armed := false, got := Some(m))] && s1.queues == s.queues
    && s1.Hdr(m) == Mesg(Allocated, Some(h), None) && (forall x: Mid :: x != m ==> s1.Hdr(x) == s.Hdr(x))
  }

  lemma HandoffIs(s: System, m: Mid)
    requires OwnOk(s) && m.pool in s.pools && s.pools[m.pool].waiters != []
    ensures var s1 := Handoff(s, m); OwnOk(s1) && HandedOver(s, s1, m, s.pools[m.pool].waiters[0])
    ensures var h, o := s.pools[m.pool].waiters[0], s.Hdr(m).owner;
      o.Some? && o != Some(h) ==> At(Handoff(s, m).owned, o.value) == Without(At(s.owned, o.value), m)
  {
    var pool := s.pools[m.pool];
    var s0 := s.(pools := s.pools[m.pool := pool.(waiters := pool.waiters[1..])]);
    OwnFrame(s, s0);
    InitAllocatedOk(s0, m, pool.waiters[0]);
    OwnFrame(InitAllocated(s0, m, pool.waiters[0]), Handoff(s, m));
  }

  lemma HandedOverPools(s: System, s1: System, m: Mid, h: Tid)
    requires PoolsOk(s) && EpsOk(s) && HandedOver(s, s1, m, h) && s.Hdr(m).st != Free
    ensures PoolsOk(s1)
  {
    assert PoolOk(s, m.pool);
    HeadWaits(s, m.pool);
    forall q <- s1.pools ensures PoolOk(s1, q) { assert PoolOk(s, q); }
  }

  lemma HandedOverEps(s: System, s1: System, m: Mid, h: Tid)
    requires PoolsOk(s) && EpsOk(s) && QueueOk(s, Some(m)) && HandedOver(s, s1, m, h)
    ensures EpsOk(s1)
  {
    assert PoolOk(s, m.pool);
    HeadWaits(s, m.pool);
    forall t: Tid ensures EpOk(s1, t) {
      assert EpOk(s, t);
      assert forall q: nat :: WaitsOn(s1, q, t) <==> WaitsOn(s, q, t) && !(q == m.pool && t == h);
      if t != h { EpStays(s, s1, t); }
    }
  }

  lemma HandoffOk(s: System, m: Mid)
    requires InvBut(s, Some(m)) && s.Hdr(m).st != Free && m.pool in s.pools && s.pools[m.pool].waiters != []
    ensures Inv(Handoff(s, m))
  {
    var h, s1 := s.pools[m.pool].waiters[0], Handoff(s, m);
    HandoffIs(s, m);
    QueuesSettle(s, s1, m);
    HandedOverPools(s, s1, m, h);
    HandedOverEps(s, s1, m, h);
  }

  lemma ToPoolOk(s: System, m: Mid)
    requires InvBut(s, Some(m)) && s.Hdr(m).st != Free && m.pool in s.pools && s.pools[m.pool].waiters == []
    ensures Inv(GiveBack(s, m))
  {
    var p := m.pool;
    var pool := s.pools[p];
    assert PoolOk(s, p);
    assert pool.mem.Held(m.blk) by { assert m == Mid(p, m.blk); }
    var s1 := GiveBack(s, m);
    SetOwnerOk(s, m, None);
    SameOwner(SetOwner(s, m, None), m, FREE_MESG);
    QueuesSettle(s, s1, m);
    GiveKeeps(pool.mem, m.blk);
    forall q <- s1.pools ensures PoolOk(s1, q) { assert PoolOk(s, q); }
    forall t: Tid ensures EpOk(s1, t) {
      assert EpOk(s, t);
      EpStays(s, s1, t);
    }
  }

  // Wherever the message goes, it leaves its owner's list, and nobody else's loses anything.
  lemma GiveBackOk(s: System, m: Mid)
    requires InvBut(s, Some(m)) && s.Hdr(m).st != Free
    ensures m.pool in s.pools && Inv(GiveBack(s, m))
  {
    if s.pools[m.pool].waiters != [] { HandoffOk(s, m); } else { ToPoolOk(s, m); }
  }

  lemma FreeMesgOk(s: System, m: Mid)
    requires Inv(s)
    ensures Inv(FreeMesg(s, m).0)
  {
    if FreeMesg(s, m).1 == Done {
      NotQueuedMayMove(s, m);
      GiveBackOk(s, m);
    }
  }

  // ---- allocation ---------------------------------------------------------------------------------------

  lemma IdleWaitsNowhere(s: System, t: Tid)
    requires EpsOk(s) && s.Ep(t).pc == Idle
    ensures forall p: nat :: !WaitsOn(s, p, t)
  {
    assert EpOk(s, t);
  }

  // s1 is s with the first free block of pool p as message m of task t.
  ghost predicate Taken(s: System, s1: System, p: nat, m: Mid, t: Tid) {
    && p in s.pools && s.pools[p].mem.free != [] && m == Mid(p, s.pools[p].mem.free[0])
    && s1.pools == s.pools[p := s.pools[p].(mem := s.pools[p].mem.Take().0)]
    && s1.queues == s.queues && s1.eps == s.eps && s1.Hdr(m) == Mesg(Allocated, Some(t), None)
    && (forall x: Mid :: x != m ==> s1.Hdr(x) == s.Hdr(x))
  }

  lemma TakenPools(s: System, s1: System, p: nat, m: Mid, t: Tid)
    requires PoolsOk(s) && StateOk(s) && Taken(s, s1, p, m, t)
    ensures PoolsOk(s1) && StateOk(s1) && s.Hdr(m).st == Free
  {
    assert PoolOk(s, p);
    TakeKeeps(s.pools[p].mem);
    forall q <- s1.pools ensures PoolOk(s1, q) {
      assert PoolOk(s, q);
      forall b: nat ensures s1.pools[q].mem.Held(b) <==> s1.Hdr(Mid(q, b)).st != Free {
        assert s.pools[q].mem.Held(b) <==> s.Hdr(Mid(q, b)).st != Free;
      }
    }
    forall x: Mid ensures s1.Hdr(x).st == Free <==> s1.Hdr(x).owner == None {
      assert s.Hdr(x).st == Free <==> s.Hdr(x).owner == None;
    }
  }

  lemma TakenEps(s: System, s1: System, p: nat, m: Mid, t: Tid)
    requires EpsOk(s) && QueueOk(s, Some(m)) && Taken(s, s1, p, m, t)
    ensures EpsOk(s1)
  {
    forall r: Tid ensures EpOk(s1, r) {
      assert EpOk(s, r);
      assert forall q: nat :: WaitsOn(s1, q, r) <==> WaitsOn(s, q, r);
      EpStays(s, s1, r);
    }
  }

  lemma TakeOk(s: System, t: Tid, p: nat)
    requires Inv(s) && p in s.pools && s.pools[p].mem.free != []
    ensures var (mem, b) := s.pools[p].mem.Take();
      Inv(InitAllocated(s.(pools := s.pools[p := s.pools[p].(mem := mem)]), Mid(p, b.value), t))
  {
    var m := Mid(p, s.pools[p].mem.free[0]);
    var s0 := s.(pools := s.pools[p := s.pools[p].(mem := s.pools[p].mem.Take().0)]);
    var s1 := InitAllocated(s0, m, t);
    OwnFrame(s, s0);
    InitAllocatedOk(s0, m, t);
    assert forall x: Mid :: s0.Hdr(x) == s.Hdr(x);
    assert Taken(s, s1, p, m, t);
    TakenPools(s, s1, p, m, t);
    NotQueuedMayMove(s, m);
    QueuesSettle(s, s1, m);
    TakenEps(s, s1, p, m, t);
  }

  lemma BlockAllocatorOk(s: System, t: Tid, p: nat, wait: Wait)
    requires Inv(s) && p in s.pools && s.pools[p].mem.free == [] && s.Ep(t).pc == Idle
    ensures var e := s.Ep(t).(pc := Allocating(p, wait), armed := wait == Bounded, got := None);
      Inv(s.(pools := s.pools[p := s.pools[p].(waiters := EnqByPrio(s.pools[p].waiters, s.prios, t))]).WithEp(t, e))
  {
    var e := s.Ep(t).(pc := Allocating(p, wait), armed := wait == Bounded, got := None);
    var ws := s.pools[p].waiters;
    var s1 := s.(pools := s.pools[p := s.pools[p].(waiters := EnqByPrio(ws, s.prios, t))]).WithEp(t, e);
    assert PoolOk(s, p);
    IdleWaitsNowhere(s, t);
    assert !WaitsOn(s, p, t);
    EnqMembers(ws, s.prios, t);
    OwnFrame(s, s1);
    assert forall m: Mid :: s1.Hdr(m) == s.Hdr(m);
    forall q <- s1.pools ensures PoolOk(s1, q) { assert PoolOk(s, q); }
    forall r: Tid ensures EpOk(s1, r) {
      assert EpOk(s, r);
      assert forall q: nat :: WaitsOn(s1, q, r) <==> WaitsOn(s, q, r) || (q == p && r == t);
      if r != t { EpStays(s, s1, r); }
    }
  }

  lemma AllocOk(s: System, t: Tid, p: nat, wait: Wait)
    requires Inv(s) && p in s.pools && s.Ep(t).pc == Idle
    ensures Inv(Alloc(s, t, p, wait).0)
  {
    if s.pools[p].mem.free != [] { TakeOk(s, t, p); }
    else if wait != NoWait { BlockAllocatorOk(s, t, p, wait); }
  }

  // ---- sending ------------------------------------------------------------------------------------------

  // The part of a send before delivery: the receiver owns the message, which is on no queue.
  lemma TransferOk(s: System, from: Tid, to: Tid, m: Mid)
    requires Inv(s) && Owned(s.Hdr(m).st)
    ensures var s1 := SetOwner(s.WithHdr(m, s.Hdr(m).(sender := Some(from))), m, Some(to));
      && InvBut(s1, Some(m)) && s1 == s.(owned := s1.owned, hdrs := s1.hdrs)
      && s1.Hdr(m) == Mesg(s.Hdr(m).st, Some(to), Some(from)) && (forall x: Mid :: x != m ==> s1.Hdr(x) == s.Hdr(x))
  {
    var h := s.Hdr(m).(sender := Some(from));
    SameOwner(s, m, h);
    SetOwnerOk(s.WithHdr(m, h), m, Some(to));
    var s1 := SetOwner(s.WithHdr(m, h), m, Some(to));
    NotQueuedMayMove(s, m);
    QueuesSettle(s, s1, m);
    NotQueuedMayMove(s1, m);
    assert s.Hdr(m).st == Free <==> s.Hdr(m).owner == None;
    HdrsStay(s, s1, m);
    forall r: Tid ensures EpOk(s1, r) {
      assert EpOk(s, r);
      EpStays(s, s1, r);
    }
  }

  lemma DeliverOk(s: System, t: Tid, m: Mid)
    requires InvBut(s, Some(m)) && s.Hdr(m).owner == Some(t) && WaitMatches(s, t, m)
    ensures Inv(Deliver(s, t, m))
  {
    var s1 := Deliver(s, t, m);
    var h := s.Hdr(m).(st := Received);
    SameOwner(s, m, h);
    OwnFrame(s.WithHdr(m, h), s1);
    QueuesSettle(s, s1, m);
    assert s.Hdr(m).st == Free <==> s.Hdr(m).owner == None;
    HdrsStay(s, s1, m);
    forall r: Tid ensures EpOk(s1, r) {
      assert EpOk(s, r);
      if r != t { EpStays(s, s1, r); }
      else { assert forall q: nat :: WaitsOn(s1, q, r) <==> WaitsOn(s, q, r); }
    }
  }

  lemma StoreOk(s: System, t: Tid, m: Mid)
    requires InvBut(s, Some(m)) && s.Hdr(m).owner == Some(t) && s.Ep(t).init && !WaitMatches(s, t, m)
    ensures Inv(Store(s, t, m))
  {
    var s1 := Store(s, t, m);
    var h := s.Hdr(m).(st := Queued);
    SameOwner(s, m, h);
    OwnFrame(s.WithHdr(m, h), s1);
    forall r: Tid, x: Mid
      ensures x in At(s1.queues, r) <==> s1.Hdr(x).st == Queued && s1.Hdr(x).owner == Some(r)
    {
      assert x in At(s.queues, r) <==> s.Hdr(x).st == Queued && s.Hdr(x).owner == Some(r) && Some(m) != Some(x);
    }
    forall r: Tid ensures Distinct(At(s1.queues, r)) {
      assert Distinct(At(s.queues, r)) && m !in At(s.queues, r);
    }
    assert s.Hdr(m).st == Free <==> s.Hdr(m).owner == None;
    HdrsStay(s, s1, m);
    forall r: Tid ensures EpOk(s1, r) {
      assert EpOk(s, r);
      if r != t { EpStays(s, s1, r); }
      else { assert forall q: nat :: WaitsOn(s1, q, r) <==> WaitsOn(s, q, r); }
    }
  }

  lemma SendOk(s: System, from: Tid, to: Tid, m: Mid)
    requires Inv(s)
    ensures Inv(Send(s, from, to, m).0)
  {
    if Send(s, from, to, m).1 == Done {
      TransferOk(s, from, to, m);
      var s1 := SetOwner(s.WithHdr(m, s.Hdr(m).(sender := Some(from))), m, Some(to));
      if WaitMatches(s1, to, m) { DeliverOk(s1, to, m); } else { StoreOk(s1, to, m); }
    }
  }

  // ---- receiving ----------------------------------------------------------------------------------------

  // A receive takes the earliest matching message and leaves the rest of the queue as it was.
  lemma SelectOk(s: System, t: Tid, f: Filter)
    requires Inv(s) && !s.Ep(t).waiting && Select(s, t, f).1.Some?
    ensures Inv(Select(s, t, f).0)
  {
    var (s1, got) := Select(s, t, f);
    var q := At(s.queues, t);
    var i := FirstMatch(s, q, f);
    var m := q[i];
    assert m in q && s.Hdr(m).st == Queued && s.Hdr(m).owner == Some(t);
    RemoveAt(q, i);
    SameOwner(s, m, s.Hdr(m).(st := Received));
    OwnFrame(s.WithHdr(m, s.Hdr(m).(st := Received)), s1);
    HdrsStay(s, s1, m);
    forall r: Tid, x: Mid
      ensures x in At(s1.queues, r) <==> s1.Hdr(x).st == Queued && s1.Hdr(x).owner == Some(r)
    {
      assert x in At(s.queues, r) <==> s.Hdr(x).st == Queued && s.Hdr(x).owner == Some(r) && None != Some(x);
    }
    forall r: Tid ensures Distinct(At(s1.queues, r)) { assert Distinct(At(s.queues, r)); }
    SelectedEps(s, t, f);
  }

  lemma SelectedEps(s: System, t: Tid, f: Filter)
    requires EpsOk(s) && QueueOk(s, None) && !s.Ep(t).waiting && Select(s, t, f).1.Some?
    ensures EpsOk(Select(s, t, f).0)
  {
    var (s1, got) := Select(s, t, f);
    var m := got.value;
    assert m in At(s.queues, t);
    forall r: Tid ensures EpOk(s1, r) {
      assert EpOk(s, r);
      assert forall p: nat :: WaitsOn(s1, p, r) <==> WaitsOn(s, p, r);
      if r != t {
        assert m !in At(s.queues, r);
        EpStays(s, s1, r);
      }
    }
  }

  // Only t's own record changed, and still fits its place.
  lemma EpChangeOk(s: System, t: Tid, e: Endpoint)
    requires Inv(s) && EpOk(s.WithEp(t, e), t)
    ensures Inv(s.WithEp(t, e))
  {
    var s1 := s.WithEp(t, e);
    OwnFrame(s, s1);
    assert forall m: Mid :: s1.Hdr(m) == s.Hdr(m);
    assert QueueOk(s1, None) by {
      forall r: Tid, x: Mid
        ensures x in At(s1.queues, r) <==> s1.Hdr(x).st == Queued && s1.Hdr(x).owner == Some(r)
      {
        assert x in At(s.queues, r) <==> s.Hdr(x).st == Queued && s.Hdr(x).owner == Some(r) && None != Some(x);
      }
    }
    HdrsStay(s, s1, Mid(0, 0)) by { assert s.Hdr(Mid(0, 0)).st == Free <==> s.Hdr(Mid(0, 0)).owner == None; }
    forall r: Tid ensures EpOk(s1, r) {
      assert EpOk(s, r);
      if r != t { EpStays(s, s1, r); }
    }
  }

  lemma WaitMesgOk(s: System, t: Tid, f: Filter, wait: Wait)
    requires Inv(s) && s.Ep(t).pc == Idle
    ensures Inv(WaitMesg(s, t, f, wait).0)
  {
    assert EpOk(s, t);
    if s.Ep(t).init {
      if Select(s, t, f).1.Some? {
        SelectOk(s, t, f);
      } else if wait != NoWait {
        var e := s.Ep(t).(pc := Waiting(f, wait), waiting := true, armed := wait == Bounded, got := None);
        var s1 := s.WithEp(t, e);
        assert forall p: nat :: WaitsOn(s1, p, t) <==> WaitsOn(s, p, t);
        EpChangeOk(s, t, e);
      }
    }
  }

  // ---- timeouts and resumption ----------------------------------------------------------------------------

  // Off the pool's wait list, with a record that no longer waits.
  lemma UnlinkOk(s: System, t: Tid, e: Endpoint)
    requires Inv(s) && (e.init <==> s.Ep(t).init) && !e.waiting && !e.armed
    requires e.pc == Idle ==> !e.timedOut && e.got == None
    requires e.pc != Idle ==> e.pc == s.Ep(t).pc && e.timedOut && e.got == None
    ensures Inv(Unlink(s, t).WithEp(t, e))
    ensures forall p: nat :: !WaitsOn(Unlink(s, t).WithEp(t, e), p, t)
  {
    var s1 := Unlink(s, t).WithEp(t, e);
    assert EpOk(s, t);
    var pc := s.Ep(t).pc;
    if pc.Allocating? {
      assert PoolOk(s, pc.pool);
      WithoutMembers(s.pools[pc.pool].waiters, t);
    }
    forall p: nat, r: Tid ensures WaitsOn(s1, p, r) <==> WaitsOn(s, p, r) && r != t {
      assert WaitsOn(s, p, t) ==> pc.Allocating? && pc.pool == p;
    }
    OwnFrame(s, s1);
    assert forall m: Mid :: s1.Hdr(m) == s.Hdr(m);
    NoneInTransit(s, s1);
    forall q <- s1.pools ensures PoolOk(s1, q) { assert PoolOk(s, q); }
    forall r: Tid ensures EpOk(s1, r) {
      assert EpOk(s, r);
      if r != t { EpStays(s, s1, r); }
    }
  }

  lemma NoneInTransit(s: System, s1: System)
    requires QueueOk(s, None) && s1.queues == s.queues && forall m: Mid :: s1.Hdr(m) == s.Hdr(m)
    ensures QueueOk(s1, None)
  {
    forall r: Tid, x: Mid
      ensures x in At(s1.queues, r) <==> s1.Hdr(x).st == Queued && s1.Hdr(x).owner == Some(r)
    {
      assert x in At(s.queues, r) <==> s.Hdr(x).st == Queued && s.Hdr(x).owner == Some(r) && None != Some(x);
    }
    forall r: Tid ensures Distinct(At(s1.queues, r)) { assert Distinct(At(s.queues, r)); }
  }

  lemma TimeOutOk(s: System, t: Tid)
    requires Inv(s) && s.Ep(t).armed
    ensures Inv(TimeOut(s, t))
  {
    assert EpOk(s, t);
    UnlinkOk(s, t, s.Ep(t).(waiting := false, armed := false, timedOut := true));
  }

  lemma ResumeOk(s: System, t: Tid)
    requires Inv(s) && Enabled(s, DoResume(t))
    ensures Inv(Resume(s, t).0)
  {
    assert EpOk(s, t);
    var e := s.Ep(t).(pc := Idle, timedOut := false, got := None);
    var back := s.WithEp(t, e);
    assert s.Ep(t).timedOut || s.Ep(t).got.Some?;
    assert forall p: nat :: WaitsOn(back, p, t) <==> WaitsOn(s, p, t);
    EpChangeOk(s, t, e);
  }

  // ---- cleanup ----------------------------------------------------------------------------------------------

  // What giving back one of t's messages does to t's own lists.
  lemma GiveBackShrinks(s: System, m: Mid, t: Tid)
    requires InvBut(s, Some(m)) && s.Hdr(m).owner == Some(t) && m.pool in s.pools
    requires forall p: nat :: !WaitsOn(s, p, t)
    ensures var s1 := GiveBack(s, m);
      && At(s1.owned, t) == Without(At(s.owned, t), m) && s1.queues == s.queues
      && (forall p: nat :: !WaitsOn(s1, p, t)) && s1.Ep(t) == s.Ep(t)
  {
    var ws := s.pools[m.pool].waiters;
    if ws != [] {
      assert PoolOk(s, m.pool);
      HeadWaits(s, m.pool);
      HandoffIs(s, m);
      assert forall p: nat, r: Tid :: WaitsOn(Handoff(s, m), p, r) ==> WaitsOn(s, p, r);
    } else {
      SetOwnerOk(s, m, None);
      assert forall p: nat, r: Tid :: WaitsOn(GiveBack(s, m), p, r) <==> WaitsOn(s, p, r);
    }
  }

  // A task about to die: it waits nowhere and is in no call.
  ghost predicate Dying(s: System, t: Tid) {
    Inv(s) && s.Ep(t).pc == Idle && forall p: nat :: !WaitsOn(s, p, t)
  }

  lemma PopOk(s: System, t: Tid)
    requires Dying(s, t) && At(s.queues, t) != []
    ensures var m := At(s.queues, t)[0]; var s0 := s.(queues := s.queues[t := At(s.queues, t)[1..]]);
      && InvBut(s0, Some(m)) && s.Hdr(m).owner == Some(t) && m.pool in s.pools && s.Hdr(m).st != Free
      && forall p: nat :: !WaitsOn(s0, p, t)
  {
    var q := At(s.queues, t);
    var m, rest := q[0], q[1..];
    assert q == [m] + rest && m in q;
    assert s.Hdr(m).st == Queued && s.Hdr(m).owner == Some(t) && None != Some(m);
    var s0 := s.(queues := s.queues[t := rest]);
    OwnFrame(s, s0);
    assert forall x: Mid :: s0.Hdr(x) == s.Hdr(x);
    forall r: Tid, x: Mid
      ensures x in At(s0.queues, r) <==> s0.Hdr(x).st == Queued && s0.Hdr(x).owner == Some(r) && Some(m) != Some(x)
    {
      assert x in At(s.queues, r) <==> s.Hdr(x).st == Queued && s.Hdr(x).owner == Some(r) && None != Some(x);
    }
    forall r: Tid ensures Distinct(At(s0.queues, r)) { assert Distinct(At(s.queues, r)); }
    HdrsStay(s, s0, m);
    assert forall p: nat, r: Tid :: WaitsOn(s0, p, r) <==> WaitsOn(s, p, r);
    forall r: Tid ensures EpOk(s0, r) {
      assert EpOk(s, r);
      if r != t { EpStays(s, s0, r); }
    }
  }

  lemma CleanHeadOk(s: System, t: Tid)
    requires Dying(s, t) && At(s.queues, t) != []
    ensures At(s.queues, t)[0].pool in s.pools
    ensures Dying(CleanHead(s, t), t) && At(CleanHead(s, t).queues, t) == At(s.queues, t)[1..]
  {
    PopOk(s, t);
    var q := At(s.queues, t);
    var s0 := s.(queues := s.queues[t := q[1..]]);
    GiveBackOk(s0, q[0]);
    GiveBackShrinks(s0, q[0], t);
  }

  lemma {:induction false} CleanQueueOk(s: System, t: Tid, n: nat)
    requires Dying(s, t) && n == |At(s.queues, t)|
    ensures var s1 := CleanQueue(s, t, n); Dying(s1, t) && At(s1.queues, t) == []
    decreases n
  {
    if n > 0 {
      CleanHeadOk(s, t);
      CleanQueueOk(CleanHead(s, t), t, n - 1);
    }
  }

  // With nothing queued, any message of t may be given back.
  lemma OwnedMayGo(s: System, t: Tid, m: Mid)
    requires Inv(s) && At(s.queues, t) == [] && m in At(s.owned, t)
    ensures InvBut(s, Some(m)) && s.Hdr(m).owner == Some(t) && s.Hdr(m).st != Free && m.pool in s.pools
  {
    assert s.Hdr(m).owner == Some(t);
    assert s.Hdr(m).st == Free <==> s.Hdr(m).owner == None;
    assert s.Hdr(m).st != Queued by { assert m !in At(s.queues, t) && None != Some(m); }
    NotQueuedMayMove(s, m);
  }

  lemma CleanFirstOwnedOk(s: System, t: Tid)
    requires Dying(s, t) && At(s.queues, t) == [] && At(s.owned, t) != []
    ensures At(s.owned, t)[0].pool in s.pools
    ensures var s1 := GiveBack(s, At(s.owned, t)[0]);
      Dying(s1, t) && At(s1.queues, t) == [] && |At(s1.owned, t)| == |At(s.owned, t)| - 1
  {
    var m := At(s.owned, t)[0];
    OwnedMayGo(s, t, m);
    GiveBackOk(s, m);
    GiveBackShrinks(s, m, t);
  }

  lemma {:induction false} CleanOwnedOk(s: System, t: Tid, n: nat)
    requires Dying(s, t) && At(s.queues, t) == [] && n == |At(s.owned, t)|
    ensures var s1 := CleanOwned(s, t, n); Dying(s1, t) && At(s1.queues, t) == [] && At(s1.owned, t) == []
    decreases n
  {
    if n > 0 {
      CleanFirstOwnedOk(s, t);
      CleanOwnedOk(GiveBack(s, At(s.owned, t)[0]), t, n - 1);
    }
  }

  // The two cleanup loops run until the lists are empty.
  lemma KillLoops(s: System, t: Tid)
    requires Dying(s, t)
    ensures var s2 := CleanQueue(s, t, |At(s.queues, t)|);
      var s3 := CleanOwned(s2, t, |At(s2.owned, t)|);
      Dying(s3, t) && At(s3.queues, t) == [] && At(s3.owned, t) == []
  {
    CleanQueueOk(s, t, |At(s.queues, t)|);
    var s2 := CleanQueue(s, t, |At(s.queues, t)|);
    CleanOwnedOk(s2, t, |At(s2.owned, t)|);
  }

  lemma Buried(s: System, t: Tid)
    requires Dying(s, t) && At(s.queues, t) == [] && At(s.owned, t) == []
    ensures var s1 := s.(queues := s.queues[t := []], owned := s.owned[t := []]).WithEp(t, NO_ENDPOINT);
      && Inv(s1) && !s1.Ep(t).init && At(s1.owned, t) == [] && At(s1.queues, t) == []
      && forall m: Mid :: s1.Hdr(m).owner != Some(t)
  {
    var s0 := s.(queues := s.queues[t := []], owned := s.owned[t := []]);
    assert forall r: Tid :: At(s0.queues, r) == At(s.queues, r) && At(s0.owned, r) == At(s.owned, r);
    EmptyListsOk(s, s0);
    assert forall p: nat :: WaitsOn(s0.WithEp(t, NO_ENDPOINT), p, t) <==> WaitsOn(s, p, t);
    EpChangeOk(s0, t, NO_ENDPOINT);
    forall m: Mid ensures s.Hdr(m).owner != Some(t) { assert m !in At(s.owned, t); }
  }

  // The dead task owns nothing and has nothing queued.
  lemma KillOk(s: System, t: Tid)
    requires Inv(s)
    ensures var s1 := Kill(s, t);
      && Inv(s1) && !s1.Ep(t).init && At(s1.owned, t) == [] && At(s1.queues, t) == []
      && forall m: Mid :: s1.Hdr(m).owner != Some(t)
  {
    var e := Endpoint(s.Ep(t).init, Idle, false, false, false, None);
    var s1 := Unlink(s, t).WithEp(t, e);
    UnlinkOk(s, t, e);
    KillLoops(s1, t);
    var s2 := CleanQueue(s1, t, |At(s1.queues, t)|);
    Buried(CleanOwned(s2, t, |At(s2.owned, t)|), t);
  }

  // Writing an empty list where an empty list was changes nothing.
  lemma EmptyListsOk(s: System, s1: System)
    requires Inv(s) && s1 == s.(queues := s1.queues, owned := s1.owned)
    requires forall r: Tid :: At(s1.queues, r) == At(s.queues, r) && At(s1.owned, r) == At(s.owned, r)
    ensures Inv(s1)
  {
    assert forall m: Mid :: s1.Hdr(m) == s.Hdr(m);
    assert OwnOk(s1) by {
      forall r: Tid, x: Mid ensures x in At(s1.owned, r) <==> s1.Hdr(x).owner == Some(r) {
        assert x in At(s.owned, r) <==> s.Hdr(x).owner == Some(r);
      }
    }
    assert QueueOk(s1, None) by {
      forall r: Tid, x: Mid
        ensures x in At(s1.queues, r) <==> s1.Hdr(x).st == Queued && s1.Hdr(x).owner == Some(r)
      {
        assert x in At(s.queues, r) <==> s.Hdr(x).st == Queued && s.Hdr(x).owner == Some(r) && None != Some(x);
      }
    }
    HdrsStay(s, s1, Mid(0, 0)) by { assert s.Hdr(Mid(0, 0)).st == Free <==> s.Hdr(Mid(0, 0)).owner == None; }
    forall r: Tid ensures EpOk(s1, r) {
      assert EpOk(s, r);
      assert forall p: nat :: WaitsOn(s1, p, r) <==> WaitsOn(s, p, r);
      EpStays(s, s1, r);
    }
  }

  // ---- runs ---------------------------------------------------------------------------------------------------

  lemma StepOk(s: System, op: Op)
    requires Inv(s)
    ensures Inv(Step(s, op))
  {
    if Enabled(s, op) {
      match op
      case DoInit(t) =>
        assert EpOk(s, t);
        assert forall p: nat :: WaitsOn(s.WithEp(t, s.Ep(t).(init := true)), p, t) <==> WaitsOn(s, p, t);
        EpChangeOk(s, t, s.Ep(t).(init := true));
      case DoAlloc(t, p, wait) => AllocOk(s, t, p, wait);
      case DoFree(m) => FreeMesgOk(s, m);
      case DoSend(from, to, m) => SendOk(s, from, to, m);
      case DoWait(t, f, wait) => WaitMesgOk(s, t, f, wait);
      case DoResume(t) => ResumeOk(s, t);
      case DoTimeout(t) => TimeOutOk(s, t);
      case DoKill(t) => KillOk(s, t);
    }
  }

  lemma BootOk(sizes: seq<nat>, prios: Prios)
    ensures Inv(Boot(sizes, prios))
  {
    var s := Boot(sizes, prios);
    forall p <- s.pools ensures PoolOk(s, p) {
      var mem := FreshPool(sizes[p]);
      forall b: nat ensures !mem.Held(b) { if b < sizes[p] { assert mem.free[b] == b; } }
    }
    forall t: Tid ensures EpOk(s, t) { assert forall p: nat :: !WaitsOn(s, p, t); }
  }

  lemma {:induction false} RunOk(sizes: seq<nat>, prios: Prios, ops: seq<Op>)
    ensures Inv(Run(Boot(sizes, prios), ops))
  {
    if ops == [] {
      BootOk(sizes, prios);
    } else {
      RunOk(sizes, prios, ops[..|ops| - 1]);
      StepOk(Run(Boot(sizes, prios), ops[..|ops| - 1]), ops[|ops| - 1]);
    }
  }
}
