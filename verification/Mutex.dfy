// The mutexes in the code's own form: one object whose calls change locks, lists and priorities in
// place. Every method is proved against MutexOps, so its promises are about these bodies.

module MutexService {
  import opened Basics
  import opened TaskQueue
  import opened MutexSpec
  import opened MutexChain
  import opened MutexOps

  lemma LockedHasOwner(s: System, m: nat)
    requires Core(s)
    ensures s.Mx(m).lock <==> s.Mx(m).owner.Some?
    ensures s.Mx(m).owner.Some? ==> Alive(s, s.Mx(m).owner.value)
  {
    assert MutexOk(s, m);
  }

  class Mutexes {
    var mutexes: map<nat, Mutex>
    var ids: seq<Tid>
    var owned: map<Tid, seq<nat>>
    var calls: map<Tid, Call>
    var base: map<Tid, nat>
    var prio: Prios

    constructor ()
      ensures Valid() && Contents() == Boot()
    {
      mutexes, ids, owned, calls, base, prio := map[], [], map[], map[], map[], map[];
      new;
      assert Contents() == Boot();
    }

    function Contents(): System
      reads this
    {
      System(mutexes, ids, owned, calls, base, prio)
    }

    ghost predicate Valid()
      reads this
    {
      Inv(Contents())
    }

    function Mx(m: nat): Mutex
      reads this
    {
      Contents().Mx(m)
    }

    function Owned(t: Tid): seq<nat>
      reads this
    {
      Contents().Owned(t)
    }

    // kTaskOwnedMutexPipPrio_
    method OwnedMutexPipPrio(t: Tid, currentPrio: nat) returns (newPrio: nat)
      requires currentPrio <= NO_PRIO
      ensures newPrio == Inherited(Contents(), Owned(t), currentPrio)
    {
      var ms := Owned(t);
      newPrio := currentPrio;
      for i := 0 to |ms|
        invariant newPrio == Inherited(Contents(), ms[..i], currentPrio) <= NO_PRIO
      {
        assert ms[..i + 1][..i] == ms[..i];
        var x := Mx(ms[i]);
        if x.inherit && |x.waiters| > 0 { newPrio := Min(newPrio, Contents().Prio(x.waiters[0])); }
      }
      assert ms[..|ms|] == ms;
    }

    // kTaskUpdateEffectivePrio, and kTaskRequeueWaiterByPrio_ when the priority changed.
    method UpdateEffectivePrio(t: Tid) returns (changed: bool)
      requires Core(Contents())
      modifies this`prio, this`mutexes
      ensures changed == (Calc(old(Contents()), t) != old(Contents()).Prio(t))
      ensures Contents() == if changed then Update(old(Contents()), t) else old(Contents())
    {
      var nominal := Contents().Base(t);
      assert Contents().Base(t) < NO_PRIO;
      var newPrio := OwnedMutexPipPrio(t, nominal);
      if newPrio == Contents().Prio(t) { return false; }
      prio := prio[t := newPrio];
      if t in calls && calls[t].blocked && calls[t].m in mutexes {
        var m := calls[t].m;
        mutexes := mutexes[m := mutexes[m].(waiters := EnqByPrio(Without(mutexes[m].waiters, t), prio, t))];
      }
      return true;
    }

    // kTaskUpdateEffectivePrioChain. It ends around a deadlock too, because every step of one walk
    // moves a priority the same way.
    method UpdateChain(t: Tid)
      requires Core(Contents()) && Alive(Contents(), t) && Settled(Contents(), Some(t))
      modifies this`prio, this`mutexes
      ensures Contents() == Walk(old(Contents()), t) && Valid()
    {
      ghost var better := Calc(Contents(), t) <= Contents().Prio(t);
      ghost var target := Walk(Contents(), t);
      var curr := Some(t);
      while curr.Some?
        invariant curr.Some? ==> Ready(curr.value, better) && Chain(Contents(), curr.value, better) == target
        invariant curr.None? ==> Contents() == target
        decreases if curr.Some? then Left(Contents(), better) + 1 else 0
      {
        var c := curr.value;
        ghost var s := Contents();
        if Calc(s, c) != s.Prio(c) {
          LeftShrinks(s, c, better);
          UpdateSettles(s, c);
          if Next(s, c).Some? { UpdateDirects(s, c); }
        }
        var changed := UpdateEffectivePrio(c);
        if !changed { return; }
        curr := Next(Contents(), c);
      }
    }

    // What one turn of the walk relies on.
    ghost predicate Ready(t: Tid, better: bool)
      reads this
    {
      && Core(Contents()) && Alive(Contents(), t) && Settled(Contents(), Some(t))
      && if better then Calc(Contents(), t) <= Contents().Prio(t) else Calc(Contents(), t) >= Contents().Prio(t)
    }

    // The free mutex becomes the caller's.
    method Acquire(t: Tid, m: nat)
      requires m in mutexes
      modifies this`mutexes, this`owned
      ensures Contents() == Acquired(old(Contents()), t, m)
    {
      mutexes := mutexes[m := mutexes[m].(lock := true, owner := Some(t))];
      owned := owned[t := Owned(t) + [m]];
    }

    // The caller suspends on the mutex's wait list.
    method Enqueue(t: Tid, m: nat, armed: bool)
      requires m in mutexes
      modifies this`mutexes, this`calls
      ensures Contents() == Enqueued(old(Contents()), t, m, armed)
    {
      mutexes := mutexes[m := mutexes[m].(waiters := EnqByPrio(mutexes[m].waiters, prio, t))];
      calls := calls[t := Call(m, true, armed, false)];
    }

    // The mutex leaves the caller's list and goes to waiter w.
    method HandOver(t: Tid, m: nat, w: Tid)
      requires m in mutexes && mutexes[m].waiters != []
      modifies this`mutexes, this`owned, this`calls
      ensures Contents() == HandedTo(old(Contents()), t, m, w)
    {
      owned := owned[t := Without(Owned(t), m)];
      mutexes := mutexes[m := mutexes[m].(owner := Some(w), waiters := mutexes[m].waiters[1..])];
      owned := owned[w := Owned(w) + [m]];
      if w in calls { calls := calls[w := calls[w].(blocked := false, armed := false)]; }
    }

    // kMutexLock, up to the suspension.
    method LockMutex(t: Tid, m: nat, wait: Wait) returns (ret: Ret)
      requires Valid() && Enabled(Contents(), DoLock(t, m, wait))
      modifies this
      ensures Valid() && (Contents(), ret) == Lock(old(Contents()), t, m, wait)
    {
      LockedHasOwner(Contents(), m);
      var x := mutexes[m];
      if x.faulted { return OwnerFaulted; }
      if !x.lock {
        AcquiredOk(Contents(), t, m);
        Acquire(t, m);
        return Done;
      }
      if x.owner == Some(t) { return RecLock; }
      if wait == NoWait { return Locked; }
      EnqueuedOk(Contents(), t, m, wait == Bounded);
      Enqueue(t, m, wait == Bounded);
      if x.inherit { UpdateChain(x.owner.value); }
      return Blocked;
    }

    // kMutexUnlock
    method UnlockMutex(t: Tid, m: nat) returns (ret: Ret)
      requires Valid() && Enabled(Contents(), DoUnlock(t, m))
      modifies this
      ensures Valid() && (Contents(), ret) == Unlock(old(Contents()), t, m)
    {
      LockedHasOwner(Contents(), m);
      var x := mutexes[m];
      if !x.lock { return NotLocked; }
      if x.owner != Some(t) { return NotOwner; }
      if |x.waiters| == 0 {
        FreedOk(Contents(), t, m);
        owned := owned[t := Without(Owned(t), m)];
        mutexes := mutexes[m := x.(lock := false, owner := None)];
        if x.inherit { UpdateChain(t); }
        return Done;
      }
      HandedOk(Contents(), t, m);
      FirstWaiter(Contents(), t, m);
      HandOver(t, m, x.waiters[0]);
      if x.inherit {
        UpdateChain(t);
        UpdateChain(x.waiters[0]);
      }
      return Done;
    }

    // A timeout, with kMutexWaiterRemoved.
    method TimeOutWaiter(t: Tid)
      requires Valid() && Enabled(Contents(), DoTimeout(t))
      modifies this
      ensures Valid() && Contents() == TimeOut(old(Contents()), t)
    {
      assert CallOk(Contents(), t);
      var m := calls[t].m;
      UnqueuedOk(Contents(), t, m, calls[t := Call(m, false, false, true)]);
      mutexes := mutexes[m := mutexes[m].(waiters := Without(mutexes[m].waiters, t))];
      calls := calls[t := Call(m, false, false, true)];
      if mutexes[m].inherit { UpdateChain(mutexes[m].owner.value); }
    }
  }
}
