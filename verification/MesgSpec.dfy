// The by-reference task messages of core/src/kmesg.c on values: message pools with waiting
// allocators, ownership lists, receive queues with sender filters, and task-death cleanup. Each
// critical section is one step; a blocking call is "suspend" and "resume".
//
// A message is named by its pool and block. A task name stands for one life of a task.

module MesgSpec {
  import opened Basics
  import opened Mem
  import opened TaskQueue

  datatype Mid = Mid(pool: nat, blk: nat)

  datatype MState = Free | Allocated | Queued | Received

  datatype Mesg = Mesg(st: MState, owner: Option<Tid>, sender: Option<Tid>)

  const FREE_MESG := Mesg(Free, None, None)

  // `waiters` are the allocators blocked on the pool.
  datatype MesgPool = MesgPool(mem: Pool, waiters: seq<Tid>)

  datatype Wait = NoWait | Bounded | Forever

  // None is RK_ANY_TASK.
  type Filter = Option<Tid>

  datatype Pc = Idle | Allocating(pool: nat, wait: Wait) | Waiting(from: Filter, wait: Wait)

  // `waiting` says that the task is on its own list of waiting receivers, `armed` that a timeout is
  // running, `got` is the caller's result variable.
  datatype Endpoint = Endpoint(init: bool, pc: Pc, waiting: bool, armed: bool, timedOut: bool, got: Option<Mid>)

  const NO_ENDPOINT := Endpoint(false, Idle, false, false, false, None)

  type Lists = map<Tid, seq<Mid>>

  function At(lists: Lists, t: Tid): seq<Mid> {
    if t in lists then lists[t] else []
  }

  datatype System = System(pools: map<nat, MesgPool>, hdrs: map<Mid, Mesg>, owned: Lists, queues: Lists,
                           eps: map<Tid, Endpoint>, prios: Prios) {
    function Hdr(m: Mid): Mesg {
      if m in hdrs then hdrs[m] else FREE_MESG
    }

    function Ep(t: Tid): Endpoint {
      if t in eps then eps[t] else NO_ENDPOINT
    }

    function WithHdr(m: Mid, h: Mesg): System {
      this.(hdrs := hdrs[m := h])
    }

    function WithEp(t: Tid, e: Endpoint): System {
      this.(eps := eps[t := e])
    }
  }

  datatype Ret = Done | Blocked | BufferEmpty | Timeout | InvalidState | NotInit

  // ---- ownership ----------------------------------------------------------------------------------

  // kMesgSetOwner_: off the old owner's list, on the new owner's tail.
  function SetOwner(s: System, m: Mid, owner: Option<Tid>): System {
    var was := s.Hdr(m).owner;
    if was == owner then s
    else
      var lists := if was.Some? then s.owned[was.value := Without(At(s.owned, was.value), m)] else s.owned;
      var lists1 := if owner.Some? then lists[owner.value := At(lists, owner.value) + [m]] else lists;
      s.(owned := lists1).WithHdr(m, s.Hdr(m).(owner := owner))
  }

  predicate Owned(st: MState) {
    st == Allocated || st == Received
  }

  // kMesgInitAllocatedBuf_
  function InitAllocated(s: System, m: Mid, t: Tid): System {
    SetOwner(s.WithHdr(m, Mesg(Allocated, s.Hdr(m).owner, None)), m, Some(t))
  }

  // ---- pools --------------------------------------------------------------------------------------

  // kMesgAlloc
  function Alloc(s: System, t: Tid, p: nat, wait: Wait): (System, Ret, Option<Mid>)
    requires p in s.pools
  {
    var pool := s.pools[p];
    match pool.mem.Take()
    case (mem, Some(b)) =>
      var s1 := s.(pools := s.pools[p := pool.(mem := mem)]);
      (InitAllocated(s1, Mid(p, b), t), Done, Some(Mid(p, b)))
    case (_, None) =>
      if wait == NoWait then (s, BufferEmpty, None)
      else
        var waiters := EnqByPrio(pool.waiters, s.prios, t);
        (s.(pools := s.pools[p := pool.(waiters := waiters)])
          .WithEp(t, s.Ep(t).(pc := Allocating(p, wait), armed := wait == Bounded, got := None)), Blocked, None)
  }

  // kMesgHandoffToWaitingAllocator_
  function Handoff(s: System, m: Mid): System
    requires m.pool in s.pools && s.pools[m.pool].waiters != []
  {
    var pool := s.pools[m.pool];
    var h := pool.waiters[0];
    InitAllocated(s.(pools := s.pools[m.pool := pool.(waiters := pool.waiters[1..])]), m, h)
      .WithEp(h, s.Ep(h).(armed := false, got := Some(m)))
  }

  // The tail of kMesgFree and kMesgReturnBufferFromCleanup_: to a waiting allocator, else to the pool.
  function GiveBack(s: System, m: Mid): System
    requires m.pool in s.pools
  {
    var pool := s.pools[m.pool];
    if pool.waiters != [] then Handoff(s, m)
    else
      var s1 := SetOwner(s, m, None).WithHdr(m, FREE_MESG);
      s1.(pools := s.pools[m.pool := pool.(mem := pool.mem.Give(m.blk))])
  }

  // kMesgFree; the caller need not be the owner.
  function FreeMesg(s: System, m: Mid): (System, Ret) {
    if m.pool !in s.pools || !Owned(s.Hdr(m).st) then (s, InvalidState) else (GiveBack(s, m), Done)
  }

  // ---- sending and receiving --------------------------------------------------------------------------

  // kMesgSenderMatches_
  predicate Matches(h: Mesg, f: Filter) {
    f == None || h.sender == f
  }

  // The queue scan of kMesgDequeueMatching_; |q| when nothing matches.
  function FirstMatch(s: System, q: seq<Mid>, f: Filter, i: nat := 0): (r: nat)
    requires i <= |q|
    ensures i <= r <= |q|
    ensures r < |q| ==> Matches(s.Hdr(q[r]), f)
    ensures forall j :: i <= j < r ==> !Matches(s.Hdr(q[j]), f)
    decreases |q| - i
  {
    if i == |q| || Matches(s.Hdr(q[i]), f) then i else FirstMatch(s, q, f, i + 1)
  }

  // kMesgDequeueMatching_
  function Select(s: System, t: Tid, f: Filter): (System, Option<Mid>) {
    var q := At(s.queues, t);
    var i := FirstMatch(s, q, f);
    if i == |q| then (s, None)
    else (s.(queues := s.queues[t := q[..i] + q[i + 1..]]).WithHdr(q[i], s.Hdr(q[i]).(st := Received)), Some(q[i]))
  }

  function Store(s: System, t: Tid, m: Mid): System {
    s.(queues := s.queues[t := At(s.queues, t) + [m]]).WithHdr(m, s.Hdr(m).(st := Queued))
  }

  // kMesgDeliverToWaiter_, when it applies.
  function Deliver(s: System, t: Tid, m: Mid): System {
    s.WithHdr(m, s.Hdr(m).(st := Received)).WithEp(t, s.Ep(t).(waiting := false, armed := false, got := Some(m)))
  }

  // kMesgReceiverWaitMatches_
  predicate WaitMatches(s: System, t: Tid, m: Mid) {
    s.Ep(t).waiting && s.Ep(t).pc.Waiting? && Matches(s.Hdr(m), s.Ep(t).pc.from)
  }

  // kMesgSend; the caller need not be the owner.
  function Send(s: System, from: Tid, to: Tid, m: Mid): (System, Ret) {
    if !s.Ep(to).init then (s, NotInit)
    else if !Owned(s.Hdr(m).st) then (s, InvalidState)
    else
      var s1 := SetOwner(s.WithHdr(m, s.Hdr(m).(sender := Some(from))), m, Some(to));
      (if WaitMatches(s1, to, m) then Deliver(s1, to, m) else Store(s1, to, m), Done)
  }

  // kMesgWait
  function WaitMesg(s: System, t: Tid, f: Filter, wait: Wait): (System, Ret, Option<Mid>) {
    if !s.Ep(t).init then (s, NotInit, None)
    else
      match Select(s, t, f)
      case (s1, Some(m)) => (s1, Done, Some(m))
      case (_, None) =>
        if wait == NoWait then (s, BufferEmpty, None)
        else (s.WithEp(t, s.Ep(t).(pc := Waiting(f, wait), waiting := true, armed := wait == Bounded, got := None)),
              Blocked, None)
  }

  // The rest of a blocking call. The last case, woken with neither message nor timeout, retries.
  function Resume(s: System, t: Tid): (System, Ret, Option<Mid>)
    requires s.Ep(t).pc.Allocating? ==> s.Ep(t).pc.pool in s.pools
  {
    var e := s.Ep(t);
    var back := s.WithEp(t, e.(pc := Idle, timedOut := false, got := None));
    if e.timedOut then (back, Timeout, None)
    else if e.got.Some? then (back, Done, e.got)
    else match e.pc
      case Idle => (s, Done, None)
      case Allocating(p, wait) => Alloc(back, t, p, wait)
      case Waiting(f, wait) => WaitMesg(back, t, f, wait)
  }

  // Takes a task off whatever list it waits on: a pool's or its own.
  function Unlink(s: System, t: Tid): System {
    var pc := s.Ep(t).pc;
    if pc.Allocating? && pc.pool in s.pools then
      s.(pools := s.pools[pc.pool := s.pools[pc.pool].(waiters := Without(s.pools[pc.pool].waiters, t))])
    else s
  }

  // The timer takes a bounded waiter off its list.
  function TimeOut(s: System, t: Tid): System {
    Unlink(s, t).WithEp(t, s.Ep(t).(waiting := false, armed := false, timedOut := true))
  }

  // ---- cleanup ------------------------------------------------------------------------------------------

  // One turn of the first loop of kMesgTaskCleanup: the head of the receive queue goes back.
  function CleanHead(s: System, t: Tid): System
    requires At(s.queues, t) != [] && At(s.queues, t)[0].pool in s.pools
  {
    var q := At(s.queues, t);
    GiveBack(s.(queues := s.queues[t := q[1..]]), q[0])
  }

  // The first loop, for n messages; messages of no known pool would stop it.
  function CleanQueue(s: System, t: Tid, n: nat): System
    decreases n
  {
    if n == 0 || At(s.queues, t) == [] || At(s.queues, t)[0].pool !in s.pools then s
    else CleanQueue(CleanHead(s, t), t, n - 1)
  }

  // The second loop: whatever the task still owns goes back.
  function CleanOwned(s: System, t: Tid, n: nat): System
    decreases n
  {
    if n == 0 || At(s.owned, t) == [] || At(s.owned, t)[0].pool !in s.pools then s
    else CleanOwned(GiveBack(s, At(s.owned, t)[0]), t, n - 1)
  }

  // Death of a task: off its wait list, then kMesgTaskCleanup.
  function Kill(s: System, t: Tid): System {
    var s1 := Unlink(s, t).WithEp(t, Endpoint(s.Ep(t).init, Idle, false, false, false, None));
    var s2 := CleanQueue(s1, t, |At(s1.queues, t)|);
    var s3 := CleanOwned(s2, t, |At(s2.owned, t)|);
    s3.(queues := s3.queues[t := []], owned := s3.owned[t := []]).WithEp(t, NO_ENDPOINT)
  }

  // ---- runs ---------------------------------------------------------------------------------------------

  datatype Op =
    | DoInit(t: Tid)
    | DoAlloc(t: Tid, p: nat, wait: Wait)
    | DoFree(m: Mid)
    | DoSend(from: Tid, to: Tid, m: Mid)
    | DoWait(t: Tid, f: Filter, wait: Wait)
    | DoResume(t: Tid)
    | DoTimeout(t: Tid)
    | DoKill(t: Tid)

  // On no wait list.
  predicate Runnable(s: System, t: Tid) {
    && !s.Ep(t).waiting
    && (s.Ep(t).pc.Allocating? && s.Ep(t).pc.pool in s.pools ==> t !in s.pools[s.Ep(t).pc.pool].waiters)
  }

  predicate Enabled(s: System, op: Op) {
    match op
    case DoInit(t) => !s.Ep(t).init
    case DoAlloc(t, p, _) => s.Ep(t).pc == Idle && p in s.pools
    case DoFree(_) => true
    case DoSend(_, _, _) => true
    case DoWait(t, _, _) => s.Ep(t).pc == Idle
    case DoResume(t) => s.Ep(t).pc != Idle && Runnable(s, t) && (s.Ep(t).pc.Allocating? ==> s.Ep(t).pc.pool in s.pools)
    case DoTimeout(t) => s.Ep(t).armed
    case DoKill(_) => true
  }

  function Step(s: System, op: Op): System {
    if !Enabled(s, op) then s
    else match op
      case DoInit(t) => s.WithEp(t, s.Ep(t).(init := true))
      case DoAlloc(t, p, wait) => Alloc(s, t, p, wait).0
      case DoFree(m) => FreeMesg(s, m).0
      case DoSend(from, to, m) => Send(s, from, to, m).0
      case DoWait(t, f, wait) => WaitMesg(s, t, f, wait).0
      case DoResume(t) => Resume(s, t).0
      case DoTimeout(t) => TimeOut(s, t)
      case DoKill(t) => Kill(s, t)
  }

  function Run(s: System, ops: seq<Op>): System {
    if ops == [] then s else Step(Run(s, ops[..|ops| - 1]), ops[|ops| - 1])
  }

  // Freshly initialised pools of the given sizes.
  function Boot(sizes: seq<nat>, prios: Prios): System {
    System(map p: nat | p < |sizes| :: MesgPool(FreshPool(sizes[p]), []), map[], map[], map[], map[], prios)
  }
}
