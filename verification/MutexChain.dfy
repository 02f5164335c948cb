// Propagation of effective priorities along the wait-for chain (core/src/ksch.c): it ends, even
// around a deadlock, and leaves every task with the priority its mutexes ask for.

module MutexChain {
  import opened Basics
  import opened TaskQueue
  import opened MutexSpec

  // ---- the calculation --------------------------------------------------------------------------------

  lemma {:induction false} InheritedSame(s: System, s1: System, ms: seq<nat>, acc: nat)
    requires forall m <- ms :: Want(s1, m) == Want(s, m)
    ensures Inherited(s1, ms, acc) == Inherited(s, ms, acc)
  {
    if ms != [] {
      assert forall m <- ms[..|ms| - 1] :: m in ms;
      InheritedSame(s, s1, ms[..|ms| - 1], acc);
    }
  }

  lemma {:induction false} InheritedMono(s: System, s1: System, ms: seq<nat>, acc: nat)
    requires forall m <- ms :: Want(s1, m) <= Want(s, m)
    ensures Inherited(s1, ms, acc) <= Inherited(s, ms, acc)
  {
    if ms != [] {
      assert forall m <- ms[..|ms| - 1] :: m in ms;
      InheritedMono(s, s1, ms[..|ms| - 1], acc);
    }
  }

  lemma {:induction false} InheritedBounds(s: System, ms: seq<nat>, acc: nat)
    ensures Inherited(s, ms, acc) <= acc
    ensures forall m <- ms :: Inherited(s, ms, acc) <= Want(s, m)
    ensures Inherited(s, ms, acc) == acc || exists m <- ms :: Inherited(s, ms, acc) == Want(s, m)
  {
    if ms != [] {
      var front, last := ms[..|ms| - 1], ms[|ms| - 1];
      InheritedBounds(s, front, acc);
      assert ms == front + [last];
    }
  }

  // The effective priority is the best among the task's own and those of everyone who waits for it:
  // no waiter of an inheritance mutex it owns is better, and if it is not its own it is some waiter's.
  lemma CalcIsBest(s: System, t: Tid)
    requires Core(s)
    ensures Calc(s, t) <= s.Base(t)
    ensures forall m <- s.Owned(t), w <- s.Mx(m).waiters :: s.Mx(m).inherit ==> Calc(s, t) <= s.Prio(w)
    ensures Calc(s, t) < NO_PRIO
    ensures Calc(s, t) == s.Base(t) || exists m <- s.Owned(t) ::
      s.Mx(m).inherit && s.Mx(m).waiters != [] && Calc(s, t) == s.Prio(s.Mx(m).waiters[0])
  {
    InheritedBounds(s, s.Owned(t), s.Base(t));
    forall m <- s.Owned(t), w <- s.Mx(m).waiters | s.Mx(m).inherit ensures Calc(s, t) <= s.Prio(w) {
      assert MutexOk(s, m);
      var j :| 0 <= j < |s.Mx(m).waiters| && s.Mx(m).waiters[j] == w;
      if j > 0 { assert s.Prio(s.Mx(m).waiters[0]) <= s.Prio(s.Mx(m).waiters[j]); }
    }
  }

  // ---- one update ---------------------------------------------------------------------------------------

  lemma SortedSame(q: seq<Tid>, p: Prios, p1: Prios)
    requires Sorted(q, p) && forall x <- q :: PrioOf(p1, x) == PrioOf(p, x)
    ensures Sorted(q, p1)
  {
    forall i, j | 0 <= i < j < |q| ensures PrioOf(p1, q[i]) <= PrioOf(p1, q[j]) {
      assert PrioOf(p, q[i]) <= PrioOf(p, q[j]);
    }
  }

  // s1 is s with t's priority set to p and its wait list, if any, put in order again.
  ghost predicate Moved(s: System, s1: System, t: Tid, p: nat) {
    && s1 == s.(prio := s.prio[t := p], mutexes := s1.mutexes)
    && (forall m: nat :: !s.WaitsFor(t, m) ==> s1.Mx(m) == s.Mx(m))
    && (forall m: nat :: s.WaitsFor(t, m) ==>
          s1.Mx(m) == s.Mx(m).(waiters := EnqByPrio(Without(s.Mx(m).waiters, t), s1.prio, t)))
    && s1.mutexes.Keys == s.mutexes.Keys
  }

  lemma UpdateMoves(s: System, t: Tid)
    requires Core(s)
    ensures Moved(s, Update(s, t), t, Calc(s, t))
  {
    assert CallOk(s, t);
  }

  lemma MovedWaiters(s: System, s1: System, t: Tid, p: nat, m: nat)
    requires Core(s) && Moved(s, s1, t, p)
    ensures Distinct(s1.Mx(m).waiters) && Sorted(s1.Mx(m).waiters, s1.prio)
    ensures forall x :: x in s1.Mx(m).waiters <==> x in s.Mx(m).waiters
    ensures s1.Mx(m).waiters == [] <==> s.Mx(m).waiters == []
    ensures s1.Mx(m) == s.Mx(m).(waiters := s1.Mx(m).waiters)
  {
    var q := s.Mx(m).waiters;
    assert MutexOk(s, m);
    assert t in q <==> s.WaitsFor(t, m);
    if s.WaitsFor(t, m) {
      WithoutMembers(q, t);
      WithoutSorted(q, t, s.prio, s1.prio);
      EnqMembers(Without(q, t), s1.prio, t);
      EnqKeepsOrder(Without(q, t), s1.prio, t);
      assert t in s1.Mx(m).waiters;
    } else {
      SortedSame(q, s.prio, s1.prio);
    }
  }

  lemma MovedCore(s: System, s1: System, t: Tid, p: nat)
    requires Core(s) && Moved(s, s1, t, p) && p < NO_PRIO
    ensures Core(s1)
  {
    forall m: nat ensures MutexOk(s1, m) && forall x: Tid :: x in s1.Mx(m).waiters <==> s1.WaitsFor(x, m) {
      assert MutexOk(s, m);
      MovedWaiters(s, s1, t, p, m);
      forall x: Tid ensures x in s1.Mx(m).waiters <==> s1.WaitsFor(x, m) {
        assert x in s.Mx(m).waiters <==> s.WaitsFor(x, m);
      }
    }
    forall x: Tid, m: nat ensures m in s1.Owned(x) <==> s1.Mx(m).owner == Some(x) {
      MovedWaiters(s, s1, t, p, m);
      assert m in s.Owned(x) <==> s.Mx(m).owner == Some(x);
    }
    forall x: Tid ensures CallOk(s1, x) {
      assert CallOk(s, x);
      if x in s.calls { MovedWaiters(s, s1, t, p, s.calls[x].m); }
    }
    forall x: Tid ensures s1.Base(x) < NO_PRIO && s1.Prio(x) < NO_PRIO {
      assert s.Base(x) < NO_PRIO && s.Prio(x) < NO_PRIO;
    }
    forall x: Tid ensures Distinct(s1.Owned(x)) { assert Distinct(s.Owned(x)); }
  }

  // Only the mutex t waits for may ask for something else, and it moves the way t's priority moved.
  lemma MovedWant(s: System, s1: System, t: Tid, p: nat, m: nat)
    requires Core(s) && Moved(s, s1, t, p)
    ensures !s.WaitsFor(t, m) ==> Want(s1, m) == Want(s, m)
    ensures p <= s.Prio(t) ==> Want(s1, m) <= Want(s, m)
    ensures p >= s.Prio(t) ==> Want(s1, m) >= Want(s, m)
  {
    MovedWaiters(s, s1, t, p, m);
    assert MutexOk(s, m);
    var q, q1 := s.Mx(m).waiters, s1.Mx(m).waiters;
    assert t in q <==> s.WaitsFor(t, m);
    if q != [] && s.Mx(m).inherit {
      HeadIsBest(q, s.prio);
      HeadIsBest(q1, s1.prio);
      assert q[0] in q1 && q1[0] in q;
    }
  }

  lemma HeadIsBest(q: seq<Tid>, p: Prios)
    requires Sorted(q, p) && q != []
    ensures q[0] in q && forall x <- q :: PrioOf(p, q[0]) <= PrioOf(p, x)
  {
    forall x <- q ensures PrioOf(p, q[0]) <= PrioOf(p, x) {
      var j :| 0 <= j < |q| && q[j] == x;
      if j > 0 { assert PrioOf(p, q[0]) <= PrioOf(p, q[j]); }
    }
  }

  // After its update t has what its mutexes ask for, and only the task it is blocked behind may not.
  lemma UpdateSettles(s: System, t: Tid)
    requires Core(s) && Alive(s, t) && Settled(s, Some(t))
    ensures var s1 := Update(s, t);
      && Core(s1) && Settled(s1, Next(s1, t)) && Next(s1, t) == Next(s, t)
      && (Next(s1, t).Some? ==> Alive(s1, Next(s1, t).value))
      && s1 == s.(prio := s.prio[t := Calc(s, t)], mutexes := s1.mutexes)
  {
    var p, s1 := Calc(s, t), Update(s, t);
    CalcIsBest(s, t);
    UpdateMoves(s, t);
    MovedCore(s, s1, t, p);
    if t in s.calls {
      assert CallOk(s, t);
      MovedWaiters(s, s1, t, p, s.calls[t].m);
      assert MutexOk(s, s.calls[t].m);
    }
    forall x: Tid | Alive(s1, x) && Next(s1, t) != Some(x) ensures s1.Prio(x) == Calc(s1, x) {
      forall m <- s.Owned(x) ensures Want(s1, m) == Want(s, m) {
        MovedWant(s, s1, t, p, m);
        assert s.Mx(m).owner == Some(x);
        MovedWaiters(s, s1, t, p, m);
      }
      InheritedSame(s, s1, s.Owned(x), s.Base(x));
      assert x != t ==> s.Prio(x) == Calc(s, x);
    }
  }

  // The next task moves the same way.
  lemma UpdateDirects(s: System, t: Tid)
    requires Core(s) && Alive(s, t) && Settled(s, Some(t)) && Next(s, t).Some?
    ensures var s1, o := Update(s, t), Next(s, t).value;
      && (Calc(s, t) <= s.Prio(t) ==> Calc(s1, o) <= s1.Prio(o))
      && (Calc(s, t) >= s.Prio(t) ==> Calc(s1, o) >= s1.Prio(o))
  {
    var p, s1, o := Calc(s, t), Update(s, t), Next(s, t).value;
    UpdateMoves(s, t);
    assert MutexOk(s, s.calls[t].m);
    assert t in s.Mx(s.calls[t].m).waiters <==> s.WaitsFor(t, s.calls[t].m);
    assert o != t && Alive(s, o);
    assert s.Prio(o) == Calc(s, o);
    forall m <- s.Owned(o)
      ensures p <= s.Prio(t) ==> Want(s1, m) <= Want(s, m)
      ensures p >= s.Prio(t) ==> Want(s1, m) >= Want(s, m)
    {
      MovedWant(s, s1, t, p, m);
    }
    if p <= s.Prio(t) { InheritedMono(s, s1, s.Owned(o), s.Base(o)); }
    if p >= s.Prio(t) { InheritedMono(s1, s, s.Owned(o), s.Base(o)); }
  }

  // ---- the walk -------------------------------------------------------------------------------------------

  function Sum(ids: seq<Tid>, p: map<Tid, nat>): nat {
    if ids == [] then 0 else Sum(ids[..|ids| - 1], p) + PrioOf(p, ids[|ids| - 1])
  }

  lemma {:induction false} SumUpdate(ids: seq<Tid>, p: map<Tid, nat>, t: Tid, v: nat)
    requires Distinct(ids)
    ensures Sum(ids, p[t := v]) == Sum(ids, p) + if t in ids then v - PrioOf(p, t) else 0
  {
    if ids != [] {
      DistinctFront(ids);
      SumUpdate(ids[..|ids| - 1], p, t, v);
    }
  }

  lemma {:induction false} SumBounded(ids: seq<Tid>, p: map<Tid, nat>)
    requires forall t <- ids :: PrioOf(p, t) < NO_PRIO
    ensures Sum(ids, p) <= |ids| * NO_PRIO
  {
    if ids != [] {
      assert forall t <- ids[..|ids| - 1] :: t in ids;
      SumBounded(ids[..|ids| - 1], p);
    }
  }

  // Priorities move one way in a walk, and stay within a byte: this is what is left of the movement.
  function Left(s: System, better: bool): int {
    if better then Sum(s.ids, s.prio) else |s.ids| * NO_PRIO - Sum(s.ids, s.prio)
  }

  lemma LeftShrinks(s: System, t: Tid, better: bool)
    requires Core(s) && Alive(s, t) && Settled(s, Some(t)) && Calc(s, t) != s.Prio(t)
    requires if better then Calc(s, t) <= s.Prio(t) else Calc(s, t) >= s.Prio(t)
    ensures 0 <= Left(Update(s, t), better) < Left(s, better)
  {
    UpdateSettles(s, t);
    SumUpdate(s.ids, s.prio, t, Calc(s, t));
    var s1 := Update(s, t);
    forall x <- s1.ids ensures PrioOf(s1.prio, x) < NO_PRIO { assert s1.Prio(x) < NO_PRIO; }
    SumBounded(s1.ids, s1.prio);
  }

  // kTaskUpdateEffectivePrioChain: from task to task until one already has its priority or blocks
  // behind nobody. `better` says which way the first priority moves.
  function Chain(s: System, t: Tid, better: bool): (r: System)
    requires Core(s) && Alive(s, t) && Settled(s, Some(t))
    requires if better then Calc(s, t) <= s.Prio(t) else Calc(s, t) >= s.Prio(t)
    ensures Inv(r) && r == s.(prio := r.prio, mutexes := r.mutexes)
    decreases Left(s, better)
  {
    if Calc(s, t) == s.Prio(t) then s
    else
      LeftShrinks(s, t, better);
      UpdateSettles(s, t);
      var s1 := Update(s, t);
      match Next(s1, t)
      case None => s1
      case Some(o) =>
        UpdateDirects(s, t);
        Chain(s1, o, better)
  }
}
