// The mutexes of core/src/kmutex.c with the priority inheritance of core/src/ksch.c, on values:
// ownership, ordered wait lists, and the walk that propagates effective priorities. Each critical
// section is one step; a blocking lock is "suspend" and "resume". A lower number is a better priority.

module MutexSpec {
  import opened Basics
  import opened TaskQueue

  // Worse than every priority a byte can hold that a task may have.
  const NO_PRIO: nat := 0x100

  datatype Mutex = Mutex(lock: bool, owner: Option<Tid>, inherit: bool, faulted: bool, waiters: seq<Tid>)

  const NO_MUTEX := Mutex(false, None, false, false, [])

  datatype Wait = NoWait | Bounded | Forever

  // A suspended lock call: `blocked` while the task is on the mutex's wait list.
  datatype Call = Call(m: nat, blocked: bool, armed: bool, timedOut: bool)

  // `base` is a task's priority before inheritance: the nominal one under the ceilings of its
  // messages. `prio` is the effective one. `ids` lists the tasks.
  datatype System = System(mutexes: map<nat, Mutex>, ids: seq<Tid>, owned: map<Tid, seq<nat>>,
                           calls: map<Tid, Call>, base: map<Tid, nat>, prio: Prios) {
    function Mx(m: nat): Mutex {
      if m in mutexes then mutexes[m] else NO_MUTEX
    }

    function Owned(t: Tid): seq<nat> {
      if t in owned then owned[t] else []
    }

    function Base(t: Tid): nat {
      if t in base then base[t] else 0
    }

    function Prio(t: Tid): nat {
      PrioOf(prio, t)
    }

    function WithMutex(m: nat, x: Mutex): System {
      this.(mutexes := mutexes[m := x])
    }

    // t waits in the list of m.
    predicate WaitsFor(t: Tid, m: nat) {
      t in calls && calls[t].blocked && calls[t].m == m
    }
  }

  // ---- effective priority ----------------------------------------------------------------------------

  // What mutex m asks of its owner: the priority of its first waiter, under inheritance.
  function Want(s: System, m: nat): nat {
    if s.Mx(m).inherit && s.Mx(m).waiters != [] then s.Prio(s.Mx(m).waiters[0]) else NO_PRIO
  }

  function Min(a: nat, b: nat): nat {
    if b < a then b else a
  }

  // kTaskOwnedMutexPipPrio_: the best of acc and what the listed mutexes ask for.
  function Inherited(s: System, ms: seq<nat>, acc: nat): nat {
    if ms == [] then acc else Min(Inherited(s, ms[..|ms| - 1], acc), Want(s, ms[|ms| - 1]))
  }

  // kTaskCalcEffectivePrio_
  function Calc(s: System, t: Tid): nat {
    Inherited(s, s.Owned(t), s.Base(t))
  }

  // kTaskRequeueWaiterByPrio_
  function Requeue(s: System, t: Tid): System {
    if t in s.calls && s.calls[t].blocked && s.calls[t].m in s.mutexes then
      var x := s.mutexes[s.calls[t].m];
      s.WithMutex(s.calls[t].m, x.(waiters := EnqByPrio(Without(x.waiters, t), s.prio, t)))
    else s
  }

  // kTaskUpdateEffectivePrio, when the priority changes, and the requeue that follows it.
  function Update(s: System, t: Tid): System {
    Requeue(s.(prio := s.prio[t := Calc(s, t)]), t)
  }

  // Whom the walk goes on to: the owner of the inheritance mutex the task is blocked on.
  function Next(s: System, t: Tid): Option<Tid> {
    if t in s.calls && s.calls[t].blocked && s.Mx(s.calls[t].m).inherit then s.Mx(s.calls[t].m).owner else None
  }

  // ---- what holds between steps ------------------------------------------------------------------------

  predicate Alive(s: System, t: Tid) {
    t in s.ids
  }

  ghost predicate MutexOk(s: System, m: nat) {
    var x := s.Mx(m);
    && (x.lock <==> x.owner.Some?) && (x.waiters != [] ==> x.lock) && (x.faulted ==> !x.lock)
    && Distinct(x.waiters) && Sorted(x.waiters, s.prio)
    && (x.owner.Some? ==> Alive(s, x.owner.value) && x.owner.value !in x.waiters)
  }

  // The blocked tasks are those on the wait lists; a woken one owns the mutex, or failed.
  ghost predicate CallOk(s: System, t: Tid) {
    t in s.calls ==>
      var c := s.calls[t];
      && Alive(s, t) && c.m in s.mutexes && (c.armed ==> c.blocked)
      && (!c.blocked ==> c.timedOut || s.Mx(c.m).faulted || s.Mx(c.m).owner == Some(t))
      && (c.blocked ==> !c.timedOut)
  }

  ghost predicate Core(s: System) {
    && Distinct(s.ids)
    && (forall m: nat :: MutexOk(s, m))
    && (forall m: nat, t: Tid :: t in s.Mx(m).waiters <==> s.WaitsFor(t, m))
    && (forall t: Tid, m: nat :: m in s.Owned(t) <==> s.Mx(m).owner == Some(t))
    && (forall t: Tid :: Distinct(s.Owned(t)))
    && (forall t: Tid :: CallOk(s, t))
    && (forall t: Tid :: s.Base(t) < NO_PRIO && s.Prio(t) < NO_PRIO)
  }

  // Every task but one has the priority its mutexes ask for.
  ghost predicate Settled(s: System, but: Option<Tid>) {
    forall t: Tid :: Alive(s, t) && but != Some(t) ==> s.Prio(t) == Calc(s, t)
  }

  ghost predicate Inv(s: System) {
    Core(s) && Settled(s, None)
  }
}
