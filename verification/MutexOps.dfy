// Locking, unlocking, timeouts and the death of an owner (core/src/kmutex.c, and core/src/ksch.c for
// the last), as steps that keep the invariant, and what follows for every run.

module MutexOps {
  import opened Basics
  import opened TaskQueue
  import opened MutexSpec
  import opened MutexChain

  datatype Ret = Done | Blocked | Locked | RecLock | NotLocked | NotOwner | Timeout | OwnerFaulted

  // kMutexUpdateOwnerPrio_
  function Walk(s: System, t: Tid): (r: System)
    requires Core(s) && Alive(s, t) && Settled(s, Some(t))
    ensures Inv(r) && r == s.(prio := r.prio, mutexes := r.mutexes)
    ensures s.Prio(t) == Calc(s, t) ==> r == s
  {
    Chain(s, t, Calc(s, t) <= s.Prio(t))
  }

  // ---- comparing what lists of mutexes ask for ----------------------------------------------------------

  // A list that leaves out only mutexes that ask for nothing better asks for as much.
  lemma InheritedLeq(s: System, ms: seq<nat>, s1: System, ms1: seq<nat>, acc: nat)
    requires forall m <- ms :: Want(s, m) >= Inherited(s1, ms1, acc) || (m in ms1 && Want(s1, m) <= Want(s, m))
    ensures Inherited(s1, ms1, acc) <= Inherited(s, ms, acc)
  {
    InheritedBounds(s, ms, acc);
    InheritedBounds(s1, ms1, acc);
  }

  // One more mutex that asks for nothing better than the task has changes nothing.
  lemma InheritedMore(s: System, s1: System, ms: seq<nat>, m: nat, acc: nat)
    requires (forall k <- ms :: Want(s1, k) == Want(s, k)) && Want(s1, m) >= Inherited(s, ms, acc)
    ensures Inherited(s1, ms + [m], acc) == Inherited(s, ms, acc)
  {
    InheritedSame(s, s1, ms, acc);
    assert (ms + [m])[..|ms|] == ms;
  }

  // ---- blocking -------------------------------------------------------------------------------------------

  function Enqueued(s: System, t: Tid, m: nat, armed: bool): System {
    s.WithMutex(m, s.Mx(m).(waiters := EnqByPrio(s.Mx(m).waiters, s.prio, t)))
     .(calls := s.calls[t := Call(m, true, armed, false)])
  }

  // Other mutexes ask what they asked, so only the owner of m may have to move.
  lemma OnlyOwnerMoves(s: System, s1: System, m: nat, but: Option<Tid>)
    requires Settled(s, None) && s1.ids == s.ids && s1.prio == s.prio && s1.base == s.base && s1.owned == s.owned
    requires forall t: Tid, k: nat :: k in s.Owned(t) <==> s.Mx(k).owner == Some(t)
    requires forall k: nat :: k != m ==> s1.Mx(k) == s.Mx(k)
    requires if s.Mx(m).inherit then but == s.Mx(m).owner else s1.Mx(m).inherit == false
    ensures Settled(s1, but)
  {
    forall x: Tid | Alive(s1, x) && but != Some(x) ensures s1.Prio(x) == Calc(s1, x) {
      assert s.Prio(x) == Calc(s, x);
      forall k <- s.Owned(x) ensures Want(s1, k) == Want(s, k) {
        assert s.Mx(k).owner == Some(x);
      }
      InheritedSame(s, s1, s.Owned(x), s.Base(x));
    }
  }

  lemma EnqueuedOk(s: System, t: Tid, m: nat, armed: bool)
    requires Inv(s) && Alive(s, t) && t !in s.calls && m in s.mutexes
    requires s.Mx(m).owner.Some? && s.Mx(m).owner != Some(t)
    ensures var s1 := Enqueued(s, t, m, armed); var o := s.Mx(m).owner;
      Core(s1) && Alive(s1, o.value) && Settled(s1, if s.Mx(m).inherit then o else None)
  {
    var s1 := Enqueued(s, t, m, armed);
    assert MutexOk(s, m);
    assert t in s.Mx(m).waiters <==> s.WaitsFor(t, m);
    EnqMembers(s.Mx(m).waiters, s.prio, t);
    EnqKeepsOrder(s.Mx(m).waiters, s.prio, t);
    forall k: nat ensures MutexOk(s1, k) { assert MutexOk(s, k); }
    forall k: nat, x: Tid ensures x in s1.Mx(k).waiters <==> s1.WaitsFor(x, k) {
      assert x in s.Mx(k).waiters <==> s.WaitsFor(x, k);
    }
    forall x: Tid, k: nat ensures k in s1.Owned(x) <==> s1.Mx(k).owner == Some(x) {
      assert k in s.Owned(x) <==> s.Mx(k).owner == Some(x);
    }
    forall x: Tid ensures CallOk(s1, x) { assert CallOk(s, x); }
    forall x: Tid ensures s1.Base(x) < NO_PRIO && s1.Prio(x) < NO_PRIO && Distinct(s1.Owned(x)) {
      assert s.Base(x) < NO_PRIO && s.Prio(x) < NO_PRIO && Distinct(s.Owned(x));
    }
    OnlyOwnerMoves(s, s1, m, if s.Mx(m).inherit then s.Mx(m).owner else None);
  }

  // The fast path of kMutexLock.
  function Acquired(s: System, t: Tid, m: nat): System {
    s.WithMutex(m, s.Mx(m).(lock := true, owner := Some(t))).(owned := s.owned[t := s.Owned(t) + [m]])
  }

  // A free mutex has no waiter, so taking it asks nothing of its owner: every priority is already
  // right, and the fast path may skip the walk.
  lemma AcquiredOk(s: System, t: Tid, m: nat)
    requires Inv(s) && Alive(s, t) && m in s.mutexes && !s.Mx(m).lock && !s.Mx(m).faulted
    ensures Inv(Acquired(s, t, m))
  {
    var s1 := Acquired(s, t, m);
    assert MutexOk(s, m);
    assert m !in s.Owned(t) by { assert m in s.Owned(t) <==> s.Mx(m).owner == Some(t); }
    forall k: nat ensures MutexOk(s1, k) { assert MutexOk(s, k); }
    forall k: nat, x: Tid ensures x in s1.Mx(k).waiters <==> s1.WaitsFor(x, k) {
      assert x in s.Mx(k).waiters <==> s.WaitsFor(x, k);
    }
    forall x: Tid, k: nat ensures k in s1.Owned(x) <==> s1.Mx(k).owner == Some(x) {
      assert k in s.Owned(x) <==> s.Mx(k).owner == Some(x);
    }
    forall x: Tid ensures CallOk(s1, x) { assert CallOk(s, x); }
    forall x: Tid ensures s1.Base(x) < NO_PRIO && s1.Prio(x) < NO_PRIO && Distinct(s1.Owned(x)) {
      assert s.Base(x) < NO_PRIO && s.Prio(x) < NO_PRIO && Distinct(s.Owned(x));
    }
    forall x: Tid | Alive(s1, x) ensures s1.Prio(x) == Calc(s1, x) { AcquiredSettles(s, t, m, x); }
  }

  lemma AcquiredSettles(s: System, t: Tid, m: nat, x: Tid)
    requires Inv(s) && Alive(s, x) && !s.Mx(m).lock
    ensures s.Prio(x) == Calc(Acquired(s, t, m), x)
  {
    var s1 := Acquired(s, t, m);
    assert MutexOk(s, m);
    assert s.Prio(x) == Calc(s, x);
    forall k <- s.Owned(x) ensures Want(s1, k) == Want(s, k) { assert s.Mx(k).owner == Some(x); }
    if x == t {
      CalcIsBest(s, t);
      InheritedMore(s, s1, s.Owned(t), m, s.Base(t));
    } else {
      InheritedSame(s, s1, s.Owned(x), s.Base(x));
    }
  }

  // kMutexLock
  function Lock(s: System, t: Tid, m: nat, wait: Wait): (r: (System, Ret))
    requires Inv(s) && Alive(s, t) && t !in s.calls && m in s.mutexes
    ensures Inv(r.0)
  {
    var x := s.Mx(m);
    assert MutexOk(s, m);
    if x.faulted then (s, OwnerFaulted)
    else if !x.lock then
      AcquiredOk(s, t, m);
      (Acquired(s, t, m), Done)
    else if x.owner == Some(t) then (s, RecLock)
    else if wait == NoWait then (s, Locked)
    else
      EnqueuedOk(s, t, m, wait == Bounded);
      var s1 := Enqueued(s, t, m, wait == Bounded);
      (if x.inherit then Walk(s1, x.owner.value) else s1, Blocked)
  }

  // ---- unlocking ------------------------------------------------------------------------------------------

  function Dropped(s: System, t: Tid, m: nat): map<Tid, seq<nat>> {
    s.owned[t := Without(s.Owned(t), m)]
  }

  function Freed(s: System, t: Tid, m: nat): System {
    s.WithMutex(m, s.Mx(m).(lock := false, owner := None)).(owned := Dropped(s, t, m))
  }

  function HandedTo(s: System, t: Tid, m: nat, w: Tid): System
    requires s.Mx(m).waiters != []
  {
    var owned := Dropped(s, t, m);
    s.WithMutex(m, s.Mx(m).(owner := Some(w), waiters := s.Mx(m).waiters[1..]))
     .(owned := owned[w := (if w in owned then owned[w] else []) + [m]],
       calls := if w in s.calls then s.calls[w := s.calls[w].(blocked := false, armed := false)] else s.calls)
  }

  // t owns m and gives it up.
  ghost predicate Unlocking(s: System, t: Tid, m: nat) {
    Inv(s) && Alive(s, t) && t !in s.calls && m in s.mutexes && s.Mx(m).owner == Some(t)
  }

  // s1 is s after t gave up m, to task w if any.
  ghost predicate GaveUp(s: System, s1: System, t: Tid, m: nat, w: Option<Tid>) {
    && s1.ids == s.ids && s1.prio == s.prio && s1.base == s.base && w != Some(t)
    && (forall k: nat :: k != m ==> s1.Mx(k) == s.Mx(k)) && s1.Mx(m).inherit == s.Mx(m).inherit
    && s1.Owned(t) == Without(s.Owned(t), m)
    && (forall x: Tid :: x != t && w != Some(x) ==> s1.Owned(x) == s.Owned(x))
    && (w.Some? ==> s1.Owned(w.value) == s.Owned(w.value) + [m])
  }

  lemma GaveUpOne(s: System, s1: System, t: Tid, m: nat, w: Option<Tid>, x: Tid)
    requires Unlocking(s, t, m) && GaveUp(s, s1, t, m, w) && x != t && Alive(s, x)
    requires w.Some? ==> s.Prio(w.value) <= Want(s1, m)
    ensures s.Prio(x) == Calc(s1, x)
  {
    assert s.Prio(x) == Calc(s, x);
    assert m in s.Owned(x) <==> s.Mx(m).owner == Some(x);
    forall k <- s.Owned(x) ensures Want(s1, k) == Want(s, k) { assert k != m; }
    if w == Some(x) { InheritedMore(s, s1, s.Owned(x), m, s.Base(x)); }
    else { InheritedSame(s, s1, s.Owned(x), s.Base(x)); }
  }

  // Without inheritance the mutex asked for nothing.
  lemma GaveUpNothing(s: System, s1: System, t: Tid, m: nat, w: Option<Tid>)
    requires Unlocking(s, t, m) && GaveUp(s, s1, t, m, w) && !s.Mx(m).inherit
    ensures s.Prio(t) == Calc(s1, t)
  {
    var ms, ms1 := s.Owned(t), s1.Owned(t);
    WithoutMembers(ms, m);
    assert s.Prio(t) == Calc(s, t);
    CalcIsBest(s, t);
    InheritedBounds(s1, ms1, s.Base(t));
    assert s.Base(t) < NO_PRIO;
    forall k <- ms ensures Want(s, k) >= Inherited(s1, ms1, s.Base(t)) || (k in ms1 && Want(s1, k) <= Want(s, k)) {}
    InheritedLeq(s, ms, s1, ms1, s.Base(t));
    forall k <- ms1 ensures k in ms && Want(s, k) <= Want(s1, k) {}
    InheritedLeq(s1, ms1, s, ms, s.Base(t));
  }

  // Nobody but the old owner may have to move: the new one was the best waiter.
  lemma GaveUpSettles(s: System, s1: System, t: Tid, m: nat, w: Option<Tid>)
    requires Unlocking(s, t, m) && GaveUp(s, s1, t, m, w)
    requires w.Some? ==> s.Prio(w.value) <= Want(s1, m)
    ensures Settled(s1, if s.Mx(m).inherit then Some(t) else None)
  {
    forall x: Tid | Alive(s1, x) && !(x == t && s.Mx(m).inherit) ensures s1.Prio(x) == Calc(s1, x) {
      if x == t { GaveUpNothing(s, s1, t, m, w); } else { GaveUpOne(s, s1, t, m, w, x); }
    }
  }

  lemma FreedOk(s: System, t: Tid, m: nat)
    requires Unlocking(s, t, m) && s.Mx(m).waiters == []
    ensures var s1 := Freed(s, t, m); Core(s1) && Settled(s1, if s.Mx(m).inherit then Some(t) else None)
  {
    var s1 := Freed(s, t, m);
    assert MutexOk(s, m);
    WithoutMembers(s.Owned(t), m);
    forall k: nat ensures MutexOk(s1, k) { assert MutexOk(s, k); }
    forall k: nat, x: Tid ensures x in s1.Mx(k).waiters <==> s1.WaitsFor(x, k) {
      assert x in s.Mx(k).waiters <==> s.WaitsFor(x, k);
    }
    forall x: Tid, k: nat ensures k in s1.Owned(x) <==> s1.Mx(k).owner == Some(x) {
      assert k in s.Owned(x) <==> s.Mx(k).owner == Some(x);
    }
    forall x: Tid ensures CallOk(s1, x) { assert CallOk(s, x); }
    forall x: Tid ensures s1.Base(x) < NO_PRIO && s1.Prio(x) < NO_PRIO && Distinct(s1.Owned(x)) {
      assert s.Base(x) < NO_PRIO && s.Prio(x) < NO_PRIO && Distinct(s.Owned(x));
    }
    GaveUpSettles(s, s1, t, m, None);
  }

  // The first waiter is the best of them and owns nothing of m yet.
  lemma FirstWaiter(s: System, t: Tid, m: nat)
    requires Unlocking(s, t, m) && s.Mx(m).waiters != []
    ensures var q := s.Mx(m).waiters; var w := q[0];
      && Alive(s, w) && w != t && s.WaitsFor(w, m) && m !in s.Owned(w)
      && Distinct(q[1..]) && Sorted(q[1..], s.prio)
      && (forall x :: x in q[1..] <==> x in q && x != w) && (forall x <- q :: s.Prio(w) <= s.Prio(x))
  {
    var q := s.Mx(m).waiters;
    assert MutexOk(s, m);
    assert q[0] in q;
    assert CallOk(s, q[0]);
    DistinctRest(q);
    HeadIsBest(q, s.prio);
    assert m in s.Owned(q[0]) <==> s.Mx(m).owner == Some(q[0]);
    forall i, j | 0 <= i < j < |q[1..]| ensures PrioOf(s.prio, q[1..][i]) <= PrioOf(s.prio, q[1..][j]) {
      assert PrioOf(s.prio, q[i + 1]) <= PrioOf(s.prio, q[j + 1]);
    }
  }

  lemma HandedCore(s: System, t: Tid, m: nat)
    requires Unlocking(s, t, m) && s.Mx(m).waiters != []
    ensures Core(HandedTo(s, t, m, s.Mx(m).waiters[0]))
  {
    FirstWaiter(s, t, m);
    var w, s1 := s.Mx(m).waiters[0], HandedTo(s, t, m, s.Mx(m).waiters[0]);
    WithoutMembers(s.Owned(t), m);
    assert s1.Owned(w) == s.Owned(w) + [m];
    forall k: nat ensures MutexOk(s1, k) { assert MutexOk(s, k); }
    forall k: nat, x: Tid ensures x in s1.Mx(k).waiters <==> s1.WaitsFor(x, k) {
      assert x in s.Mx(k).waiters <==> s.WaitsFor(x, k);
    }
    forall x: Tid, k: nat ensures k in s1.Owned(x) <==> s1.Mx(k).owner == Some(x) {
      assert k in s.Owned(x) <==> s.Mx(k).owner == Some(x);
    }
    forall x: Tid ensures CallOk(s1, x) { assert CallOk(s, x); }
    forall x: Tid ensures s1.Base(x) < NO_PRIO && s1.Prio(x) < NO_PRIO && Distinct(s1.Owned(x)) {
      assert s.Base(x) < NO_PRIO && s.Prio(x) < NO_PRIO && Distinct(s.Owned(x));
    }
  }

  lemma HandedOk(s: System, t: Tid, m: nat)
    requires Unlocking(s, t, m) && s.Mx(m).waiters != []
    ensures var s1 := HandedTo(s, t, m, s.Mx(m).waiters[0]);
      Core(s1) && Settled(s1, if s.Mx(m).inherit then Some(t) else None)
  {
    HandedCore(s, t, m);
    FirstWaiter(s, t, m);
    var q := s.Mx(m).waiters;
    assert |q| > 1 ==> q[1] in q;
    assert s.Prio(q[0]) < NO_PRIO;
    GaveUpSettles(s, HandedTo(s, t, m, q[0]), t, m, Some(q[0]));
  }

  // kMutexUnlock
  function Unlock(s: System, t: Tid, m: nat): (r: (System, Ret))
    requires Inv(s) && Alive(s, t) && t !in s.calls && m in s.mutexes
    ensures Inv(r.0)
  {
    var x := s.Mx(m);
    if !x.lock then (s, NotLocked)
    else if x.owner != Some(t) then (s, NotOwner)
    else if x.waiters == [] then
      FreedOk(s, t, m);
      var s1 := Freed(s, t, m);
      (if x.inherit then Walk(s1, t) else s1, Done)
    else
      HandedOk(s, t, m);
      FirstWaiter(s, t, m);
      var s1 := HandedTo(s, t, m, x.waiters[0]);
      (if x.inherit then Walk(Walk(s1, t), x.waiters[0]) else s1, Done)
  }

  // ---- timeouts, resumption, priorities ---------------------------------------------------------------------

  function Unqueued(s: System, t: Tid, m: nat): System {
    s.WithMutex(m, s.Mx(m).(waiters := Without(s.Mx(m).waiters, t)))
  }

  // A waiter that leaves the list of m early, with the record c or none.
  lemma UnqueuedOk(s: System, t: Tid, m: nat, calls: map<Tid, Call>)
    requires Inv(s) && s.WaitsFor(t, m)
    requires (forall x: Tid :: x != t ==> (x in calls <==> x in s.calls) && (x in calls ==> calls[x] == s.calls[x]))
    requires t in calls ==> !calls[t].blocked && !calls[t].armed && calls[t].timedOut && calls[t].m == m
    ensures var s1 := Unqueued(s, t, m).(calls := calls); var o := s.Mx(m).owner;
      Core(s1) && o.Some? && Alive(s1, o.value) && o.value != t && Settled(s1, if s.Mx(m).inherit then o else None)
  {
    var s1 := Unqueued(s, t, m).(calls := calls);
    var q := s.Mx(m).waiters;
    assert MutexOk(s, m) && CallOk(s, t);
    assert t in q <==> s.WaitsFor(t, m);
    WithoutMembers(q, t);
    WithoutSorted(q, t, s.prio, s.prio);
    forall k: nat ensures MutexOk(s1, k) { assert MutexOk(s, k); }
    forall k: nat, x: Tid ensures x in s1.Mx(k).waiters <==> s1.WaitsFor(x, k) {
      assert x in s.Mx(k).waiters <==> s.WaitsFor(x, k);
    }
    forall x: Tid, k: nat ensures k in s1.Owned(x) <==> s1.Mx(k).owner == Some(x) {
      assert k in s.Owned(x) <==> s.Mx(k).owner == Some(x);
    }
    forall x: Tid ensures CallOk(s1, x) { assert CallOk(s, x); }
    forall x: Tid ensures s1.Base(x) < NO_PRIO && s1.Prio(x) < NO_PRIO && Distinct(s1.Owned(x)) {
      assert s.Base(x) < NO_PRIO && s.Prio(x) < NO_PRIO && Distinct(s.Owned(x));
    }
    OnlyOwnerMoves(s, s1, m, if s.Mx(m).inherit then s.Mx(m).owner else None);
  }

  // The timer takes a bounded waiter off the list; kMutexWaiterRemoved.
  function TimeOut(s: System, t: Tid): (r: System)
    requires Inv(s) && t in s.calls && s.calls[t].armed
    ensures Inv(r) && r.calls == s.calls[t := Call(s.calls[t].m, false, false, true)] && r.owned == s.owned
    ensures forall x: Tid, m: nat :: x in r.Mx(m).waiters <==> x in s.Mx(m).waiters && x != t
  {
    assert CallOk(s, t);
    var m := s.calls[t].m;
    var calls := s.calls[t := Call(m, false, false, true)];
    UnqueuedOk(s, t, m, calls);
    var s1 := Unqueued(s, t, m).(calls := calls);
    if s.Mx(m).inherit then Walk(s1, s.Mx(m).owner.value) else s1
  }

  lemma ForgetCallOk(s: System, t: Tid)
    requires Inv(s) && t in s.calls && !s.calls[t].blocked
    ensures Inv(s.(calls := s.calls - {t}))
  {
    var s1 := s.(calls := s.calls - {t});
    forall k: nat ensures MutexOk(s1, k) { assert MutexOk(s, k); }
    forall k: nat, x: Tid ensures x in s1.Mx(k).waiters <==> s1.WaitsFor(x, k) {
      assert x in s.Mx(k).waiters <==> s.WaitsFor(x, k);
    }
    forall x: Tid, k: nat ensures k in s1.Owned(x) <==> s1.Mx(k).owner == Some(x) {
      assert k in s.Owned(x) <==> s.Mx(k).owner == Some(x);
    }
    forall x: Tid ensures CallOk(s1, x) { assert CallOk(s, x); }
    forall x: Tid ensures s1.Base(x) < NO_PRIO && s1.Prio(x) < NO_PRIO && Distinct(s1.Owned(x)) {
      assert s.Base(x) < NO_PRIO && s.Prio(x) < NO_PRIO && Distinct(s.Owned(x));
    }
    forall x: Tid | Alive(s1, x) ensures s1.Prio(x) == Calc(s1, x) {
      assert s.Prio(x) == Calc(s, x);
      InheritedSame(s, s1, s.Owned(x), s.Base(x));
    }
  }

  // The rest of kMutexLock behind the suspension. After a timeout the owner is recomputed once more.
  function Resume(s: System, t: Tid): (r: (System, Ret))
    requires Inv(s) && t in s.calls && !s.calls[t].blocked
    ensures Inv(r.0)
  {
    assert CallOk(s, t);
    var c := s.calls[t];
    var x := s.Mx(c.m);
    assert MutexOk(s, c.m);
    var s1 := if c.timedOut && x.inherit && x.owner.Some? then Walk(s, x.owner.value) else s;
    ForgetCallOk(s1, t);
    (s1.(calls := s1.calls - {t}), if c.timedOut then Timeout else if x.faulted then OwnerFaulted else Done)
  }

  lemma RebasedOk(s: System, t: Tid, b: nat)
    requires Inv(s) && Alive(s, t) && b < NO_PRIO
    ensures Core(s.(base := s.base[t := b])) && Settled(s.(base := s.base[t := b]), Some(t))
  {
    var s1 := s.(base := s.base[t := b]);
    forall k: nat ensures MutexOk(s1, k) { assert MutexOk(s, k); }
    forall k: nat, x: Tid ensures x in s1.Mx(k).waiters <==> s1.WaitsFor(x, k) {
      assert x in s.Mx(k).waiters <==> s.WaitsFor(x, k);
    }
    forall x: Tid, k: nat ensures k in s1.Owned(x) <==> s1.Mx(k).owner == Some(x) {
      assert k in s.Owned(x) <==> s.Mx(k).owner == Some(x);
    }
    forall x: Tid ensures CallOk(s1, x) { assert CallOk(s, x); }
    forall x: Tid ensures s1.Base(x) < NO_PRIO && s1.Prio(x) < NO_PRIO && Distinct(s1.Owned(x)) {
      assert s.Base(x) < NO_PRIO && s.Prio(x) < NO_PRIO && Distinct(s.Owned(x));
    }
    forall x: Tid | Alive(s1, x) && x != t ensures s1.Prio(x) == Calc(s1, x) {
      assert s.Prio(x) == Calc(s, x);
      InheritedSame(s, s1, s.Owned(x), s.Base(x));
    }
  }

  // A change of the nominal priority or of a message ceiling.
  function SetBase(s: System, t: Tid, b: nat): (r: System)
    requires Inv(s) && Alive(s, t) && b < NO_PRIO
    ensures Inv(r)
  {
    RebasedOk(s, t, b);
    Walk(s.(base := s.base[t := b]), t)
  }

  // ---- death of an owner --------------------------------------------------------------------------------------

  // One turn of kTaskFaultReleaseOwnedMutexes_: the mutex is free for good, its waiters are woken.
  function Released(s: System, t: Tid, m: nat): System {
    s.WithMutex(m, Mutex(false, None, s.Mx(m).inherit, true, []))
     .(owned := s.owned[t := Without(s.Owned(t), m)],
       calls := map x | x in s.calls :: if s.WaitsFor(x, m) then Call(m, false, false, false) else s.calls[x])
  }

  ghost predicate Dying(s: System, t: Tid) {
    Core(s) && Alive(s, t) && t !in s.calls && Settled(s, Some(t))
  }

  lemma ReleasedCore(s: System, t: Tid, m: nat)
    requires Dying(s, t) && s.Mx(m).owner == Some(t)
    ensures Core(Released(s, t, m))
  {
    var s1 := Released(s, t, m);
    assert MutexOk(s, m);
    assert m in s.Owned(t) <==> s.Mx(m).owner == Some(t);
    WithoutMembers(s.Owned(t), m);
    forall k: nat ensures MutexOk(s1, k) { assert MutexOk(s, k); }
    forall k: nat, x: Tid ensures x in s1.Mx(k).waiters <==> s1.WaitsFor(x, k) {
      assert x in s.Mx(k).waiters <==> s.WaitsFor(x, k);
    }
    forall x: Tid, k: nat ensures k in s1.Owned(x) <==> s1.Mx(k).owner == Some(x) {
      assert k in s.Owned(x) <==> s.Mx(k).owner == Some(x);
    }
    forall x: Tid ensures CallOk(s1, x) { assert CallOk(s, x); }
    forall x: Tid ensures s1.Base(x) < NO_PRIO && s1.Prio(x) < NO_PRIO && Distinct(s1.Owned(x)) {
      assert s.Base(x) < NO_PRIO && s.Prio(x) < NO_PRIO && Distinct(s.Owned(x));
    }
  }

  lemma ReleasedOk(s: System, t: Tid)
    requires Dying(s, t) && s.Owned(t) != []
    ensures var s1 := Released(s, t, s.Owned(t)[0]); Dying(s1, t) && s1.Owned(t) == s.Owned(t)[1..]
  {
    var m := s.Owned(t)[0];
    assert m in s.Owned(t);
    assert s.Mx(m).owner == Some(t);
    var s1 := Released(s, t, m);
    ReleasedCore(s, t, m);
    forall x: Tid | Alive(s1, x) && x != t ensures s1.Prio(x) == Calc(s1, x) {
      assert s.Prio(x) == Calc(s, x);
      forall k <- s.Owned(x) ensures Want(s1, k) == Want(s, k) { assert s.Mx(k).owner == Some(x); }
      InheritedSame(s, s1, s.Owned(x), s.Base(x));
    }
  }

  // The loop of kTaskFaultReleaseOwnedMutexes_.
  function ReleaseAll(s: System, t: Tid): (r: System)
    requires Dying(s, t)
    ensures Dying(r, t) && r.Owned(t) == [] && r.ids == s.ids
    ensures forall m <- s.Owned(t) :: r.Mx(m).faulted && !r.Mx(m).lock && r.Mx(m).waiters == []
    ensures forall m: nat :: m !in s.Owned(t) ==> r.Mx(m) == s.Mx(m)
    decreases |s.Owned(t)|
  {
    if s.Owned(t) == [] then s
    else
      ReleasedOk(s, t);
      DistinctRest(s.Owned(t));
      ReleaseAll(Released(s, t, s.Owned(t)[0]), t)
  }

  lemma ForgottenOk(s: System, t: Tid)
    requires Inv(s) && Alive(s, t) && t in s.calls
    ensures s.calls[t].blocked ==>
      var s1 := Unqueued(s, t, s.calls[t].m).(calls := s.calls - {t}); var o := s.Mx(s.calls[t].m).owner;
      Core(s1) && o.Some? && Alive(s1, o.value) && Settled(s1, o)
    ensures !s.calls[t].blocked ==> Inv(s.(calls := s.calls - {t}))
  {
    if s.calls[t].blocked { UnqueuedOk(s, t, s.calls[t].m, s.calls - {t}); } else { ForgetCallOk(s, t); }
  }

  // The dying task leaves the wait list it is on, and the owner there is recomputed.
  function Unlinked(s: System, t: Tid): (r: System)
    requires Inv(s) && Alive(s, t)
    ensures Inv(r) && Dying(r, t) && r.ids == s.ids && r.owned == s.owned
  {
    if t !in s.calls then s
    else
      ForgottenOk(s, t);
      if s.calls[t].blocked
      then Walk(Unqueued(s, t, s.calls[t].m).(calls := s.calls - {t}), s.Mx(s.calls[t].m).owner.value)
      else s.(calls := s.calls - {t})
  }

  lemma BuriedOk(s: System, t: Tid)
    requires Dying(s, t) && s.Owned(t) == []
    ensures Inv(s.(ids := Without(s.ids, t)))
  {
    var s1 := s.(ids := Without(s.ids, t));
    WithoutMembers(s.ids, t);
    forall k: nat ensures MutexOk(s1, k) {
      assert MutexOk(s, k);
      assert k in s.Owned(t) <==> s.Mx(k).owner == Some(t);
    }
    forall k: nat, x: Tid ensures x in s1.Mx(k).waiters <==> s1.WaitsFor(x, k) {
      assert x in s.Mx(k).waiters <==> s.WaitsFor(x, k);
    }
    forall x: Tid, k: nat ensures k in s1.Owned(x) <==> s1.Mx(k).owner == Some(x) {
      assert k in s.Owned(x) <==> s.Mx(k).owner == Some(x);
    }
    forall x: Tid ensures CallOk(s1, x) { assert CallOk(s, x); }
    forall x: Tid ensures s1.Base(x) < NO_PRIO && s1.Prio(x) < NO_PRIO && Distinct(s1.Owned(x)) {
      assert s.Base(x) < NO_PRIO && s.Prio(x) < NO_PRIO && Distinct(s.Owned(x));
    }
    forall x: Tid | Alive(s1, x) ensures s1.Prio(x) == Calc(s1, x) {
      assert s.Prio(x) == Calc(s, x);
      InheritedSame(s, s1, s.Owned(x), s.Base(x));
    }
  }

  // Every mutex of a dead task is free and marked, and nobody waits for it.
  function Kill(s: System, t: Tid): (r: System)
    requires Inv(s) && Alive(s, t)
    ensures Inv(r) && !Alive(r, t)
    ensures forall m <- s.Owned(t) :: r.Mx(m).faulted && !r.Mx(m).lock && r.Mx(m).waiters == []
  {
    var s1 := ReleaseAll(Unlinked(s, t), t);
    BuriedOk(s1, t);
    WithoutMembers(s1.ids, t);
    s1.(ids := Without(s1.ids, t))
  }

  // ---- creation -----------------------------------------------------------------------------------------------

  lemma CreatedOk(s: System, s1: System)
    requires Inv(s) && s1.calls == s.calls && s1.owned == s.owned && |s1.ids| >= |s.ids| && s1.ids[..|s.ids|] == s.ids
    requires Distinct(s1.ids)
    requires forall k: nat :: s1.Mx(k).(inherit := false) == s.Mx(k).(inherit := false)
    requires forall k: nat :: k in s.mutexes ==> k in s1.mutexes && s1.Mx(k) == s.Mx(k)
    requires forall x: Tid :: Alive(s, x) ==> s1.Prio(x) == s.Prio(x) && s1.Base(x) == s.Base(x)
    requires forall x: Tid :: !Alive(s, x) && Alive(s1, x) ==> s1.Prio(x) == s1.Base(x)
    requires forall x: Tid :: s1.Base(x) < NO_PRIO && s1.Prio(x) < NO_PRIO
    ensures Inv(s1)
  {
    assert forall x <- s.ids :: x in s1.ids[..|s.ids|] && x in s1.ids;
    forall k: nat ensures MutexOk(s1, k) {
      assert MutexOk(s, k);
      forall x <- s.Mx(k).waiters ensures Alive(s, x) { assert s.WaitsFor(x, k) && CallOk(s, x); }
      SortedSame(s.Mx(k).waiters, s.prio, s1.prio) by {
        forall x <- s.Mx(k).waiters ensures PrioOf(s1.prio, x) == PrioOf(s.prio, x) {
          assert Alive(s, x) && s1.Prio(x) == s.Prio(x);
        }
      }
    }
    forall k: nat, x: Tid ensures x in s1.Mx(k).waiters <==> s1.WaitsFor(x, k) {
      assert x in s.Mx(k).waiters <==> s.WaitsFor(x, k);
    }
    forall x: Tid, k: nat ensures k in s1.Owned(x) <==> s1.Mx(k).owner == Some(x) {
      assert k in s.Owned(x) <==> s.Mx(k).owner == Some(x);
    }
    forall x: Tid ensures CallOk(s1, x) && Distinct(s1.Owned(x)) { assert CallOk(s, x) && Distinct(s.Owned(x)); }
    forall x: Tid | Alive(s1, x) ensures s1.Prio(x) == Calc(s1, x) { CreatedSettles(s, s1, x); }
  }

  lemma CreatedSettles(s: System, s1: System, x: Tid)
    requires Inv(s) && s1.owned == s.owned && Alive(s1, x)
    requires forall k: nat :: k in s.mutexes ==> s1.Mx(k) == s.Mx(k)
    requires forall y: Tid :: Alive(s, y) ==> s1.Prio(y) == s.Prio(y) && s1.Base(y) == s.Base(y)
    requires !Alive(s, x) ==> s1.Prio(x) == s1.Base(x)
    ensures s1.Prio(x) == Calc(s1, x)
  {
    forall k <- s.Owned(x) ensures Alive(s, x) && Want(s1, k) == Want(s, k) {
      assert s.Mx(k).owner == Some(x);
      assert MutexOk(s, k);
      if s.Mx(k).waiters != [] {
        var w := s.Mx(k).waiters[0];
        assert w in s.Mx(k).waiters;
        assert s.WaitsFor(w, k) && CallOk(s, w);
        assert s1.Prio(w) == s.Prio(w);
      }
    }
    if Alive(s, x) {
      assert s.Prio(x) == Calc(s, x) && s1.Base(x) == s.Base(x);
      InheritedSame(s, s1, s.Owned(x), s.Base(x));
    } else {
      assert forall k: nat :: k !in s.Owned(x);
    }
  }

  function Spawn(s: System, t: Tid, b: nat): (r: System)
    requires Inv(s) && !Alive(s, t) && b < NO_PRIO
    ensures Inv(r)
  {
    var s1 := s.(ids := s.ids + [t], base := s.base[t := b], prio := s.prio[t := b]);
    assert forall x: Tid :: x != t ==> s1.Prio(x) == s.Prio(x) && s1.Base(x) == s.Base(x);
    CreatedOk(s, s1);
    s1
  }

  // kMutexInit
  function Create(s: System, m: nat, inherit: bool): (r: System)
    requires Inv(s) && m !in s.mutexes
    ensures Inv(r)
  {
    var s1 := s.WithMutex(m, NO_MUTEX.(inherit := inherit));
    assert forall x: Tid :: s.Base(x) < NO_PRIO && s.Prio(x) < NO_PRIO ==> s1.Base(x) < NO_PRIO && s1.Prio(x) < NO_PRIO;
    CreatedOk(s, s1);
    s1
  }

  // ---- runs ---------------------------------------------------------------------------------------------------

  datatype Op =
    | DoCreate(m: nat, inherit: bool)
    | DoSpawn(t: Tid, b: nat)
    | DoLock(t: Tid, m: nat, wait: Wait)
    | DoUnlock(t: Tid, m: nat)
    | DoTimeout(t: Tid)
    | DoResume(t: Tid)
    | DoSetBase(t: Tid, b: nat)
    | DoKill(t: Tid)

  // Running tasks call; tasks in a call are timed out or resumed.
  predicate Enabled(s: System, op: Op) {
    match op
    case DoCreate(m, _) => m !in s.mutexes
    case DoSpawn(t, b) => !Alive(s, t) && b < NO_PRIO
    case DoLock(t, m, _) => Alive(s, t) && t !in s.calls && m in s.mutexes
    case DoUnlock(t, m) => Alive(s, t) && t !in s.calls && m in s.mutexes
    case DoTimeout(t) => t in s.calls && s.calls[t].armed
    case DoResume(t) => t in s.calls && !s.calls[t].blocked
    case DoSetBase(t, b) => Alive(s, t) && b < NO_PRIO
    case DoKill(t) => Alive(s, t)
  }

  function Step(s: System, op: Op): (r: System)
    requires Inv(s)
    ensures Inv(r)
  {
    if !Enabled(s, op) then s
    else match op
      case DoCreate(m, inherit) => Create(s, m, inherit)
      case DoSpawn(t, b) => Spawn(s, t, b)
      case DoLock(t, m, wait) => Lock(s, t, m, wait).0
      case DoUnlock(t, m) => Unlock(s, t, m).0
      case DoTimeout(t) => TimeOut(s, t)
      case DoResume(t) => Resume(s, t).0
      case DoSetBase(t, b) => SetBase(s, t, b)
      case DoKill(t) => Kill(s, t)
  }

  function Boot(): (r: System)
    ensures Inv(r)
  {
    System(map[], [], map[], map[], map[], map[])
  }

  function Run(ops: seq<Op>): (r: System)
    ensures Inv(r)
  {
    if ops == [] then Boot() else Step(Run(ops[..|ops| - 1]), ops[|ops| - 1])
  }

  // ---- promises -----------------------------------------------------------------------------------------------

  // In every run: a mutex is locked exactly while it has an owner, and then is on that task's list
  // and on no other; tasks wait only on a locked mutex, each on one, in the order of their priorities.
  lemma OwnershipHolds(ops: seq<Op>)
    ensures var s := Run(ops);
      && (forall m: nat :: s.Mx(m).lock <==> s.Mx(m).owner.Some?)
      && (forall m: nat, t: Tid :: m in s.Owned(t) <==> s.Mx(m).owner == Some(t))
      && (forall t: Tid :: Distinct(s.Owned(t)))
      && (forall m: nat :: s.Mx(m).waiters != [] ==> s.Mx(m).lock)
      && (forall m: nat, t: Tid :: t in s.Mx(m).waiters <==> t in s.calls && s.calls[t].blocked && s.calls[t].m == m)
      && (forall m: nat :: Distinct(s.Mx(m).waiters) && Sorted(s.Mx(m).waiters, s.prio))
  {
    var s := Run(ops);
    forall m: nat
      ensures (s.Mx(m).lock <==> s.Mx(m).owner.Some?) && (s.Mx(m).waiters != [] ==> s.Mx(m).lock)
      ensures Distinct(s.Mx(m).waiters) && Sorted(s.Mx(m).waiters, s.prio)
    {
      assert MutexOk(s, m);
    }
    forall m: nat, t: Tid
      ensures t in s.Mx(m).waiters <==> t in s.calls && s.calls[t].blocked && s.calls[t].m == m
    {
      assert t in s.Mx(m).waiters <==> s.WaitsFor(t, m);
    }
  }

  // In every run each task has exactly the best priority among its own and those of all who wait for
  // an inheritance mutex it owns.
  lemma PrioritiesHold(ops: seq<Op>, t: Tid)
    requires Alive(Run(ops), t)
    ensures var s := Run(ops);
      && s.Prio(t) <= s.Base(t)
      && (forall m <- s.Owned(t), w <- s.Mx(m).waiters :: s.Mx(m).inherit ==> s.Prio(t) <= s.Prio(w))
      && (s.Prio(t) == s.Base(t) || exists m <- s.Owned(t) ::
            s.Mx(m).inherit && s.Mx(m).waiters != [] && s.Prio(t) == s.Prio(s.Mx(m).waiters[0]))
  {
    var s := Run(ops);
    assert s.Prio(t) == Calc(s, t);
    CalcIsBest(s, t);
  }

  // A lock call that succeeds, at once or after a wait, returns to the owner of the mutex.
  lemma SuccessMeansOwner(ops: seq<Op>, t: Tid, m: nat, wait: Wait)
    ensures var s := Run(ops);
      Enabled(s, DoLock(t, m, wait)) && Lock(s, t, m, wait).1 == Done ==> Lock(s, t, m, wait).0.Mx(m).owner == Some(t)
    ensures var s := Run(ops);
      Enabled(s, DoResume(t)) && Resume(s, t).1 == Done ==> Resume(s, t).0.Mx(s.calls[t].m).owner == Some(t)
  {
    var s := Run(ops);
    if Enabled(s, DoResume(t)) { assert CallOk(s, t); }
  }

  // The walks of an unlock leave ownership and calls as the transfer made them.
  lemma UnlockIs(s: System, t: Tid, m: nat)
    requires Unlocking(s, t, m) && s.Mx(m).waiters != []
    ensures var (s1, ret) := Unlock(s, t, m); var s0 := HandedTo(s, t, m, s.Mx(m).waiters[0]);
      ret == Done && s1.owned == s0.owned && s1.calls == s0.calls
  {
    assert MutexOk(s, m);
    HandedOk(s, t, m);
    FirstWaiter(s, t, m);
  }

  lemma HandedToOwner(s: System, t: Tid, m: nat)
    requires Unlocking(s, t, m) && s.Mx(m).waiters != []
    ensures var q := s.Mx(m).waiters; var s0 := HandedTo(s, t, m, q[0]);
      m in s0.Owned(q[0]) && forall x: Tid :: s0.WaitsFor(x, m) <==> x in q && x != q[0]
  {
    FirstWaiter(s, t, m);
    var q := s.Mx(m).waiters;
    forall x: Tid ensures HandedTo(s, t, m, q[0]).WaitsFor(x, m) <==> x in q && x != q[0] {
      assert x in q <==> s.WaitsFor(x, m);
    }
  }

  // Unlocking with waiters passes the mutex on without a gap: it stays locked and belongs to a waiter
  // none of the others is better than, the first of those in the order they came.
  lemma UnlockHandsOver(ops: seq<Op>, t: Tid, m: nat)
    requires Unlocking(Run(ops), t, m) && Run(ops).Mx(m).waiters != []
    ensures var s := Run(ops); var (s1, ret) := Unlock(s, t, m); var q := s.Mx(m).waiters;
      && ret == Done && s1.Mx(m).lock && s1.Mx(m).owner == Some(q[0])
      && (forall x <- q :: s.Prio(q[0]) <= s.Prio(x))
      && (forall x: Tid :: x in s1.Mx(m).waiters <==> x in q && x != q[0])
  {
    var s := Run(ops);
    var q, s1 := s.Mx(m).waiters, Unlock(s, t, m).0;
    FirstWaiter(s, t, m);
    UnlockIs(s, t, m);
    HandedToOwner(s, t, m);
    assert m in s1.Owned(q[0]) <==> s1.Mx(m).owner == Some(q[0]);
    assert MutexOk(s1, m);
    forall x: Tid ensures x in s1.Mx(m).waiters <==> x in q && x != q[0] {
      assert x in s1.Mx(m).waiters <==> s1.WaitsFor(x, m);
    }
  }

  // Taking a free mutex moves no priority.
  lemma FastPathNeedsNoWalk(ops: seq<Op>, t: Tid, m: nat, wait: Wait)
    requires Enabled(Run(ops), DoLock(t, m, wait)) && Lock(Run(ops), t, m, wait).1 == Done
    ensures var s := Run(ops); var s1 := Lock(s, t, m, wait).0;
      s1.prio == s.prio && forall x: Tid :: Alive(s, x) ==> Calc(s1, x) == s1.Prio(x)
  {
    AcquiredOk(Run(ops), t, m);
  }
}
