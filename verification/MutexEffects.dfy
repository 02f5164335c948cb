// What the calls of the mutexes return and do, in any state a run reaches. Priorities are as
// MutexOps.PrioritiesHold says after every step; what is said here is who owns and who waits.

module MutexEffects {
  import opened Basics
  import opened TaskQueue
  import opened MutexSpec
  import opened MutexChain
  import opened MutexOps

  // The mutex is as it was but for the order of its waiters, which follows their priorities.
  ghost predicate SameMutex(x: Mutex, y: Mutex) {
    y == x.(waiters := y.waiters) && forall t :: t in y.waiters <==> t in x.waiters
  }

  ghost predicate MutexesStay(s: System, s1: System, but: nat) {
    s1.mutexes.Keys == s.mutexes.Keys && forall k: nat :: k != but ==> SameMutex(s.Mx(k), s1.Mx(k))
  }

  ghost predicate CallsStay(s: System, s1: System, but: Tid) {
    forall x: Tid :: x != but ==> (x in s1.calls <==> x in s.calls) && (x in s.calls ==> s1.calls[x] == s.calls[x])
  }

  // Only who owns or waits for m changed, and t's call.
  ghost predicate Only(s: System, s1: System, m: nat, t: Tid) {
    MutexesStay(s, s1, m) && CallsStay(s, s1, t) && s1.ids == s.ids && s1.base == s.base
  }

  lemma ChangedOne(s: System, s1: System, m: nat, x: Mutex)
    requires m in s.mutexes && s1.mutexes == s.mutexes[m := x]
    ensures MutexesStay(s, s1, m)
  {
  }

  // ---- the walk moves no ownership ------------------------------------------------------------------------

  lemma UpdateKeeps(s: System, t: Tid)
    requires Core(s)
    ensures var s1 := Update(s, t);
      s1.mutexes.Keys == s.mutexes.Keys && forall k: nat :: SameMutex(s.Mx(k), s1.Mx(k))
  {
    UpdateMoves(s, t);
    forall k: nat ensures SameMutex(s.Mx(k), Update(s, t).Mx(k)) { MovedWaiters(s, Update(s, t), t, Calc(s, t), k); }
  }

  lemma {:induction false} ChainKeeps(s: System, t: Tid, better: bool)
    requires Core(s) && Alive(s, t) && Settled(s, Some(t))
    requires if better then Calc(s, t) <= s.Prio(t) else Calc(s, t) >= s.Prio(t)
    ensures var r := Chain(s, t, better);
      r.mutexes.Keys == s.mutexes.Keys && forall k: nat :: SameMutex(s.Mx(k), r.Mx(k))
    decreases Left(s, better)
  {
    if Calc(s, t) != s.Prio(t) {
      LeftShrinks(s, t, better);
      UpdateSettles(s, t);
      UpdateKeeps(s, t);
      var s1 := Update(s, t);
      if Next(s1, t).Some? {
        UpdateDirects(s, t);
        ChainKeeps(s1, Next(s1, t).value, better);
        forall k: nat ensures SameMutex(s.Mx(k), Chain(s, t, better).Mx(k)) {
          assert SameMutex(s.Mx(k), s1.Mx(k)) && SameMutex(s1.Mx(k), Chain(s1, Next(s1, t).value, better).Mx(k));
        }
      }
    }
  }

  ghost predicate AllStay(s: System, s1: System) {
    && s1 == s.(prio := s1.prio, mutexes := s1.mutexes) && s1.mutexes.Keys == s.mutexes.Keys
    && forall k: nat :: SameMutex(s.Mx(k), s1.Mx(k))
  }

  lemma WalkKeeps(s: System, t: Tid)
    requires Core(s) && Alive(s, t) && Settled(s, Some(t))
    ensures AllStay(s, Walk(s, t))
  {
    ChainKeeps(s, t, Calc(s, t) <= s.Prio(t));
  }

  lemma StayThen(s: System, s0: System, s1: System, m: nat)
    requires MutexesStay(s, s0, m) && AllStay(s0, s1)
    ensures MutexesStay(s, s1, m)
  {
    forall k: nat | k != m ensures SameMutex(s.Mx(k), s1.Mx(k)) {
      assert SameMutex(s.Mx(k), s0.Mx(k)) && SameMutex(s0.Mx(k), s1.Mx(k));
    }
  }

  // ---- locking ----------------------------------------------------------------------------------------------

  // t owns m, and nobody else does.
  ghost predicate Holds(s: System, t: Tid, m: nat) {
    s.Mx(m).lock && s.Mx(m).owner == Some(t) && forall x: Tid :: m in s.Owned(x) <==> x == t
  }

  // m is free to be locked, and on nobody's list.
  ghost predicate IsFree(s: System, m: nat) {
    !s.Mx(m).lock && s.Mx(m).owner == None && s.Mx(m).waiters == [] && forall x: Tid :: m !in s.Owned(x)
  }

  // A lock of a free mutex is granted at once. One of the caller's own, of a mutex whose owner died, or
  // without waiting, is refused; else the caller joins the waiters.
  ghost predicate LockDone(s: System, s1: System, ret: Ret, t: Tid, m: nat, wait: Wait) {
    var x := s.Mx(m);
    if x.faulted then ret == OwnerFaulted && s1 == s
    else if !x.lock then
      ret == Done && Holds(s1, t, m) && s1.Mx(m).waiters == [] && s1.calls == s.calls && Only(s, s1, m, t)
    else if x.owner == Some(t) then ret == RecLock && s1 == s
    else if wait == NoWait then ret == Locked && s1 == s
    else
      && ret == Blocked && Only(s, s1, m, t) && s1.owned == s.owned
      && t in s1.calls && s1.calls[t] == Call(m, true, wait == Bounded, false)
      && s1.Mx(m) == x.(waiters := s1.Mx(m).waiters) && forall y :: y in s1.Mx(m).waiters <==> y in x.waiters || y == t
  }

  lemma GrantIs(s: System, t: Tid, m: nat)
    requires Inv(s) && Alive(s, t) && m in s.mutexes && !s.Mx(m).lock && !s.Mx(m).faulted
    ensures var s1 := Acquired(s, t, m); Holds(s1, t, m) && s1.Mx(m).waiters == [] && Only(s, s1, m, t)
  {
    assert MutexOk(s, m);
    AcquiredOk(s, t, m);
    ChangedOne(s, Acquired(s, t, m), m, s.Mx(m).(lock := true, owner := Some(t)));
    forall x: Tid ensures m in Acquired(s, t, m).Owned(x) <==> x == t {
      assert m in s.Owned(x) <==> s.Mx(m).owner == Some(x);
    }
  }

  lemma BlockIs(s: System, t: Tid, m: nat, wait: Wait)
    requires Inv(s) && Alive(s, t) && t !in s.calls && m in s.mutexes && wait != NoWait
    requires s.Mx(m).lock && s.Mx(m).owner != Some(t) && !s.Mx(m).faulted
    ensures LockDone(s, Lock(s, t, m, wait).0, Lock(s, t, m, wait).1, t, m, wait)
  {
    assert MutexOk(s, m);
    EnqueuedOk(s, t, m, wait == Bounded);
    EnqMembers(s.Mx(m).waiters, s.prio, t);
    var s0 := Enqueued(s, t, m, wait == Bounded);
    ChangedOne(s, s0, m, s0.Mx(m));
    if s.Mx(m).inherit {
      WalkKeeps(s0, s.Mx(m).owner.value);
      StayThen(s, s0, Lock(s, t, m, wait).0, m);
      assert SameMutex(s0.Mx(m), Lock(s, t, m, wait).0.Mx(m));
    }
  }

  lemma LockEffect(ops: seq<Op>, t: Tid, m: nat, wait: Wait)
    requires var s := Run(ops); Alive(s, t) && t !in s.calls && m in s.mutexes
    ensures var s := Run(ops); var (s1, ret) := Lock(s, t, m, wait);
      Step(s, DoLock(t, m, wait)) == s1 && LockDone(s, s1, ret, t, m, wait)
  {
    var s := Run(ops);
    assert MutexOk(s, m);
    if !s.Mx(m).faulted {
      if !s.Mx(m).lock { GrantIs(s, t, m); }
      else if s.Mx(m).owner != Some(t) && wait != NoWait { BlockIs(s, t, m, wait); }
    }
  }

  // ---- unlocking --------------------------------------------------------------------------------------------

  lemma SomebodyIn(q: seq<Tid>)
    ensures q == [] || exists x :: x in q
  {
    if q != [] { assert q[0] in q; }
  }

  lemma FreedIs(s: System, t: Tid, m: nat)
    requires Unlocking(s, t, m) && s.Mx(m).waiters == []
    ensures var (s1, ret) := Unlock(s, t, m);
      && ret == Done && IsFree(s1, m) && !s1.Mx(m).faulted && Only(s, s1, m, t) && s1.calls == s.calls
      && (forall x: Tid :: x != t ==> s1.Owned(x) == s.Owned(x))
  {
    assert MutexOk(s, m);
    FreedOk(s, t, m);
    var s0, s1 := Freed(s, t, m), Unlock(s, t, m).0;
    ChangedOne(s, s0, m, s0.Mx(m));
    if s.Mx(m).inherit {
      WalkKeeps(s0, t);
      StayThen(s, s0, s1, m);
    }
    assert SameMutex(s0.Mx(m), s1.Mx(m));
    SomebodyIn(s1.Mx(m).waiters);
    forall x: Tid ensures m !in s1.Owned(x) { assert m in s1.Owned(x) <==> s1.Mx(m).owner == Some(x); }
  }

  // Over every run unlocking a mutex nobody waits for frees it, and any other task can lock it next.
  lemma UnlockFrees(ops: seq<Op>, t: Tid, m: nat)
    requires Unlocking(Run(ops), t, m) && Run(ops).Mx(m).waiters == []
    ensures var s := Run(ops); var (s1, ret) := Unlock(s, t, m);
      && ret == Done && IsFree(s1, m) && Only(s, s1, m, t) && s1.calls == s.calls
      && (forall x: Tid :: x != t ==> s1.Owned(x) == s.Owned(x))
      && (forall x: Tid, wait: Wait :: Alive(s, x) && x !in s.calls ==>
            Enabled(s1, DoLock(x, m, wait)) && Lock(s1, x, m, wait).1 == Done && Holds(Lock(s1, x, m, wait).0, x, m))
  {
    var s := Run(ops);
    FreedIs(s, t, m);
    var s1 := Unlock(s, t, m).0;
    forall x: Tid, wait: Wait | Alive(s, x) && x !in s.calls
      ensures Enabled(s1, DoLock(x, m, wait)) && Lock(s1, x, m, wait).1 == Done && Holds(Lock(s1, x, m, wait).0, x, m)
    {
      GrantIs(s1, x, m);
    }
  }

  // Over every run an unlock succeeds exactly for the owner of the mutex; else it changes nothing and says
  // whether the mutex was locked at all.
  lemma UnlockEffect(ops: seq<Op>, t: Tid, m: nat)
    requires var s := Run(ops); Alive(s, t) && t !in s.calls && m in s.mutexes
    ensures var s := Run(ops); var (s1, ret) := Unlock(s, t, m);
      && (ret == Done <==> s.Mx(m).owner == Some(t))
      && (ret == NotLocked <==> !s.Mx(m).lock)
      && (ret == NotOwner <==> s.Mx(m).lock && s.Mx(m).owner != Some(t))
      && (ret != Done ==> s1 == s) && Step(s, DoUnlock(t, m)) == s1
  {
    assert MutexOk(Run(ops), m);
  }

  lemma HandedMutexes(s: System, s0: System, t: Tid, m: nat, w: Tid)
    requires Unlocking(s, t, m) && s.Mx(m).waiters != [] && w == s.Mx(m).waiters[0] && s0 == HandedTo(s, t, m, w)
    ensures MutexesStay(s, s0, m) && s0.ids == s.ids && s0.base == s.base && s0.Mx(m).inherit == s.Mx(m).inherit
    ensures w in s.calls && s0.calls == s.calls[w := s.calls[w].(blocked := false, armed := false)]
  {
    FirstWaiter(s, t, m);
    ChangedOne(s, s0, m, s0.Mx(m));
  }

  lemma HandedIs(s: System, t: Tid, m: nat)
    requires Unlocking(s, t, m) && s.Mx(m).waiters != []
    ensures var s1, w := Unlock(s, t, m).0, s.Mx(m).waiters[0];
      && w in s.calls && MutexesStay(s, s1, m) && s1.ids == s.ids && s1.base == s.base
      && s1.calls == s.calls[w := s.calls[w].(blocked := false, armed := false)]
  {
    assert MutexOk(s, m);
    HandedOk(s, t, m);
    FirstWaiter(s, t, m);
    var w := s.Mx(m).waiters[0];
    var s0, s1 := HandedTo(s, t, m, w), Unlock(s, t, m).0;
    HandedMutexes(s, s0, t, m, w);
    if s.Mx(m).inherit {
      WalkKeeps(s0, t);
      StayThen(s, s0, Walk(s0, t), m);
      WalkKeeps(Walk(s0, t), w);
      StayThen(s, Walk(s0, t), s1, m);
    }
  }

  // With waiters it wakes the one it gives the mutex to, whose call will return with success; nobody else's
  // call, and no other mutex, changes.
  lemma HandOverEffect(ops: seq<Op>, t: Tid, m: nat)
    requires Unlocking(Run(ops), t, m) && Run(ops).Mx(m).waiters != []
    ensures var s := Run(ops); var s1, w := Unlock(s, t, m).0, s.Mx(m).waiters[0];
      && Holds(s1, w, m) && Only(s, s1, m, w)
      && w in s1.calls && s1.calls[w] == Call(m, false, false, false)
  {
    var s := Run(ops);
    FirstWaiter(s, t, m);
    UnlockHandsOver(ops, t, m);
    HandedIs(s, t, m);
    var s1, w := Unlock(s, t, m).0, s.Mx(m).waiters[0];
    assert CallOk(s, w) && MutexOk(s1, m);
    forall x: Tid ensures m in s1.Owned(x) <==> x == w { assert m in s1.Owned(x) <==> s1.Mx(m).owner == Some(x); }
  }

  // ---- the rest of a blocking lock --------------------------------------------------------------------------

  lemma ResumeIs(s: System, t: Tid)
    requires Inv(s) && t in s.calls && !s.calls[t].blocked
    ensures var s1 := Resume(s, t).0;
      && s1.calls == s.calls - {t} && s1.owned == s.owned && s1.ids == s.ids && s1.base == s.base
      && s1.mutexes.Keys == s.mutexes.Keys && (forall k: nat :: SameMutex(s.Mx(k), s1.Mx(k)))
  {
    var c := s.calls[t];
    assert CallOk(s, t) && MutexOk(s, c.m);
    var x := s.Mx(c.m);
    if c.timedOut && x.inherit && x.owner.Some? { WalkKeeps(s, x.owner.value); }
  }

  // A lock call that runs again reports its timeout, the death of the owner, or success, and is over; nobody
  // owns or waits for anything else. It succeeds exactly if its task owns the mutex by then.
  lemma ResumeEffect(ops: seq<Op>, t: Tid)
    requires t in Run(ops).calls && !Run(ops).calls[t].blocked
    ensures var s := Run(ops); var (s1, ret) := Resume(s, t); var c := s.calls[t];
      && Step(s, DoResume(t)) == s1
      && t !in s1.calls && CallsStay(s, s1, t) && s1.owned == s.owned && s1.ids == s.ids && s1.base == s.base
      && s1.mutexes.Keys == s.mutexes.Keys && (forall k: nat :: SameMutex(s.Mx(k), s1.Mx(k)))
      && ret == (if c.timedOut then Timeout else if s.Mx(c.m).faulted then OwnerFaulted else Done)
      && (ret == Done <==> s.Mx(c.m).owner == Some(t) && !c.timedOut)
  {
    var s := Run(ops);
    assert CallOk(s, t) && MutexOk(s, s.calls[t].m);
    ResumeIs(s, t);
  }

  // ---- timeouts, base priorities, death, creation -----------------------------------------------------------

  lemma TimeoutIs(s: System, t: Tid)
    requires Inv(s) && t in s.calls && s.calls[t].armed
    ensures var s1 := TimeOut(s, t); var m := s.calls[t].m;
      MutexesStay(s, s1, m) && s1.ids == s.ids && s1.base == s.base && s1.Mx(m) == s.Mx(m).(waiters := s1.Mx(m).waiters)
  {
    assert CallOk(s, t);
    var m := s.calls[t].m;
    UnqueuedOk(s, t, m, s.calls[t := Call(m, false, false, true)]);
    var s0 := Unqueued(s, t, m).(calls := s.calls[t := Call(m, false, false, true)]);
    ChangedOne(s, s0, m, s0.Mx(m));
    if s.Mx(m).inherit {
      WalkKeeps(s0, s.Mx(m).owner.value);
      StayThen(s, s0, TimeOut(s, t), m);
      assert SameMutex(s0.Mx(m), TimeOut(s, t).Mx(m));
    }
  }

  // Besides what TimeOut promises: nobody else's call changes, and no ownership.
  lemma TimeoutEffect(ops: seq<Op>, t: Tid)
    requires t in Run(ops).calls && Run(ops).calls[t].armed
    ensures var s := Run(ops); var s1 := TimeOut(s, t); var m := s.calls[t].m;
      Step(s, DoTimeout(t)) == s1 && Only(s, s1, m, t) && s1.Mx(m) == s.Mx(m).(waiters := s1.Mx(m).waiters)
  {
    TimeoutIs(Run(ops), t);
  }

  // A new base priority moves priorities only.
  lemma SetBaseEffect(ops: seq<Op>, t: Tid, b: nat)
    requires Alive(Run(ops), t) && b < NO_PRIO
    ensures var s := Run(ops); var s1 := SetBase(s, t, b);
      && Step(s, DoSetBase(t, b)) == s1 && s1.Base(t) == b && (forall x: Tid :: x != t ==> s1.Base(x) == s.Base(x))
      && s1.owned == s.owned && s1.calls == s.calls && s1.ids == s.ids
      && forall k: nat :: SameMutex(s.Mx(k), s1.Mx(k))
  {
    var s := Run(ops);
    RebasedOk(s, t, b);
    WalkKeeps(s.(base := s.base[t := b]), t);
    assert forall k: nat :: s.(base := s.base[t := b]).Mx(k) == s.Mx(k);
  }

  // A created mutex is free.
  lemma CreateEffect(ops: seq<Op>, m: nat, inherit: bool)
    requires m !in Run(ops).mutexes
    ensures var s := Run(ops); var s1 := Create(s, m, inherit);
      && Step(s, DoCreate(m, inherit)) == s1 && IsFree(s1, m) && s1.Mx(m).inherit == inherit
      && !s1.Mx(m).faulted && s1 == s.(mutexes := s1.mutexes)
      && s1.mutexes.Keys == s.mutexes.Keys + {m} && forall k: nat :: k != m ==> s1.Mx(k) == s.Mx(k)
  {
    var s := Run(ops);
    forall x: Tid ensures m !in Create(s, m, inherit).Owned(x) { assert m in s.Owned(x) <==> s.Mx(m).owner == Some(x); }
  }

  lemma StrangerOwnsNothing(s: System, t: Tid)
    requires Inv(s) && !Alive(s, t)
    ensures s.Owned(t) == [] && t !in s.calls
  {
    assert CallOk(s, t);
    forall k: nat ensures k !in s.Owned(t) {
      assert k in s.Owned(t) <==> s.Mx(k).owner == Some(t);
      assert MutexOk(s, k);
    }
    SomebodyIn(s.Owned(t));
  }

  // A spawned task runs at its base priority, owns nothing and is in no call.
  lemma SpawnEffect(ops: seq<Op>, t: Tid, b: nat)
    requires !Alive(Run(ops), t) && b < NO_PRIO
    ensures var s := Run(ops); var s1 := Spawn(s, t, b);
      && Step(s, DoSpawn(t, b)) == s1 && s1.ids == s.ids + [t] && s1.Prio(t) == b == s1.Base(t) && t !in s1.calls && s1.Owned(t) == []
      && s1 == s.(ids := s1.ids, base := s1.base, prio := s1.prio)
      && forall x: Tid :: x != t ==> s1.Prio(x) == s.Prio(x) && s1.Base(x) == s.Base(x)
  {
    StrangerOwnsNothing(Run(ops), t);
  }

  // ---- death --------------------------------------------------------------------------------------------------

  // x waits for a mutex of t.
  predicate WaitsBehind(s: System, x: Tid, t: Tid) {
    x in s.calls && s.calls[x].blocked && s.Mx(s.calls[x].m).owner == Some(t)
  }

  // Exactly the calls that wait for a mutex of t are ended.
  ghost predicate CallsEnded(s: System, s1: System, t: Tid) {
    && s1.calls.Keys == s.calls.Keys
    && forall x <- s.calls ::
         s1.calls[x] == if WaitsBehind(s, x, t) then Call(s.calls[x].m, false, false, false) else s.calls[x]
  }

  // Exactly the mutexes of t are free and marked.
  ghost predicate MutexesEnded(s: System, s1: System, t: Tid) {
    forall k: nat ::
      s1.Mx(k) == if s.Mx(k).owner == Some(t) then Mutex(false, None, s.Mx(k).inherit, true, []) else s.Mx(k)
  }

  lemma ReleasedIs(s: System, t: Tid)
    requires Dying(s, t) && s.Owned(t) != []
    ensures var m := s.Owned(t)[0]; var s0 := Released(s, t, m);
      && s.Mx(m).owner == Some(t) && s0.Mx(m) == Mutex(false, None, s.Mx(m).inherit, true, [])
      && (forall k: nat :: k != m ==> s0.Mx(k) == s.Mx(k)) && s0.calls.Keys == s.calls.Keys
      && forall x <- s.calls ::
           s0.calls[x] == (if s.calls[x].blocked && s.calls[x].m == m then Call(m, false, false, false) else s.calls[x])
  {
    var m := s.Owned(t)[0];
    assert m in s.Owned(t);
  }

  lemma EndedThen(s: System, s0: System, s1: System, t: Tid, m: nat)
    requires s.Mx(m).owner == Some(t) && s0.Mx(m) == Mutex(false, None, s.Mx(m).inherit, true, [])
    requires (forall k: nat :: k != m ==> s0.Mx(k) == s.Mx(k)) && s0.calls.Keys == s.calls.Keys
    requires forall x <- s.calls ::
      s0.calls[x] == (if s.calls[x].blocked && s.calls[x].m == m then Call(m, false, false, false) else s.calls[x])
    requires CallsEnded(s0, s1, t) && MutexesEnded(s0, s1, t)
    ensures CallsEnded(s, s1, t) && MutexesEnded(s, s1, t)
  {
    forall x <- s.calls ensures s1.calls[x] ==
      if WaitsBehind(s, x, t) then Call(s.calls[x].m, false, false, false) else s.calls[x]
    {
      assert x in s0.calls;
    }
  }

  lemma {:induction false} ReleaseAllIs(s: System, t: Tid)
    requires Dying(s, t)
    ensures CallsEnded(s, ReleaseAll(s, t), t) && MutexesEnded(s, ReleaseAll(s, t), t)
    decreases |s.Owned(t)|
  {
    if s.Owned(t) == [] {
      forall k: nat ensures s.Mx(k).owner != Some(t) { assert k in s.Owned(t) <==> s.Mx(k).owner == Some(t); }
    } else {
      ReleasedOk(s, t);
      ReleasedIs(s, t);
      var m := s.Owned(t)[0];
      ReleaseAllIs(Released(s, t, m), t);
      EndedThen(s, Released(s, t, m), ReleaseAll(s, t), t, m);
    }
  }

  // The mutex is as it was but for the order of its waiters, of whom t is none.
  ghost predicate SameBut(x: Mutex, y: Mutex, t: Tid) {
    y == x.(waiters := y.waiters) && forall u :: u in y.waiters <==> u in x.waiters && u != t
  }

  lemma UnlinkedIs(s: System, t: Tid)
    requires Inv(s) && Alive(s, t)
    ensures var s1 := Unlinked(s, t);
      && s1.calls == s.calls - {t} && forall k: nat :: SameBut(s.Mx(k), s1.Mx(k), t)
  {
    var s1 := Unlinked(s, t);
    forall k: nat ensures SameBut(s.Mx(k), s1.Mx(k), t) {
      assert t in s.Mx(k).waiters <==> s.WaitsFor(t, k);
      assert MutexOk(s, k);
      if t in s.calls && s.calls[t].blocked { UnqueuedStays(s, t, k); }
    }
  }

  lemma UnqueuedStays(s: System, t: Tid, k: nat)
    requires Inv(s) && Alive(s, t) && t in s.calls && s.calls[t].blocked
    ensures SameBut(s.Mx(k), Unlinked(s, t).Mx(k), t)
  {
    var m := s.calls[t].m;
    ForgottenOk(s, t);
    var s0 := Unqueued(s, t, m).(calls := s.calls - {t});
    WalkKeeps(s0, s.Mx(m).owner.value);
    assert MutexOk(s, k) && SameMutex(s0.Mx(k), Unlinked(s, t).Mx(k));
    assert t in s.Mx(k).waiters <==> s.WaitsFor(t, k);
    WithoutMembers(s.Mx(k).waiters, t);
  }

  lemma KillMutexes(s: System, t: Tid)
    requires Inv(s) && Alive(s, t)
    ensures var s1 := Kill(s, t); forall k: nat ::
      if s.Mx(k).owner == Some(t) then s1.Mx(k) == Mutex(false, None, s.Mx(k).inherit, true, [])
      else SameBut(s.Mx(k), s1.Mx(k), t)
  {
    var s0 := Unlinked(s, t);
    UnlinkedIs(s, t);
    ReleaseAllIs(s0, t);
    forall k: nat ensures Kill(s, t).Mx(k) == ReleaseAll(s0, t).Mx(k) {}
    assert forall k: nat :: SameBut(s.Mx(k), s0.Mx(k), t);
  }

  lemma KillCalls(s: System, t: Tid)
    requires Inv(s) && Alive(s, t)
    ensures var s1 := Kill(s, t);
      && s1.calls.Keys == s.calls.Keys - {t}
      && forall x <- s1.calls ::
           s1.calls[x] == (if WaitsBehind(s, x, t) then Call(s.calls[x].m, false, false, false) else s.calls[x])
  {
    var s0 := Unlinked(s, t);
    UnlinkedIs(s, t);
    ReleaseAllIs(s0, t);
    forall x <- s0.calls ensures WaitsBehind(s0, x, t) <==> WaitsBehind(s, x, t) {
      assert SameBut(s.Mx(s.calls[x].m), s0.Mx(s.calls[x].m), t);
    }
  }

  lemma KillIds(s: System, t: Tid)
    requires Inv(s) && Alive(s, t)
    ensures forall x: Tid :: Alive(Kill(s, t), x) <==> Alive(s, x) && x != t
  {
    var s1 := ReleaseAll(Unlinked(s, t), t);
    assert Distinct(s1.ids);
    WithoutMembers(s1.ids, t);
  }

  // Death frees and marks exactly the mutexes of the dead task, ends exactly the calls that waited for one of
  // them, takes the task off the list it waited on, and leaves every other mutex and call alone.
  lemma KillEffect(ops: seq<Op>, t: Tid)
    requires Alive(Run(ops), t)
    ensures var s := Run(ops); var s1 := Kill(s, t);
      && Step(s, DoKill(t)) == s1 && (forall x: Tid :: Alive(s1, x) <==> Alive(s, x) && x != t)
      && (forall k: nat ::
            if s.Mx(k).owner == Some(t) then s1.Mx(k) == Mutex(false, None, s.Mx(k).inherit, true, [])
            else SameBut(s.Mx(k), s1.Mx(k), t))
      && s1.calls.Keys == s.calls.Keys - {t}
      && (forall x <- s1.calls ::
            s1.calls[x] == (if WaitsBehind(s, x, t) then Call(s.calls[x].m, false, false, false) else s.calls[x]))
  {
    KillIds(Run(ops), t);
    KillMutexes(Run(ops), t);
    KillCalls(Run(ops), t);
  }

  // Those whose mutex died learn it as they run again.
  lemma OrphansLearn(ops: seq<Op>, t: Tid, x: Tid)
    requires Alive(Run(ops), t) && WaitsBehind(Run(ops), x, t)
    ensures var s1 := Kill(Run(ops), t); Enabled(s1, DoResume(x)) && Resume(s1, x).1 == OwnerFaulted
  {
    var s := Run(ops);
    KillCalls(s, t);
    KillMutexes(s, t);
    var m := s.calls[x].m;
    assert MutexOk(s, m);
    assert x in s.Mx(m).waiters <==> s.WaitsFor(x, m);
  }
}
