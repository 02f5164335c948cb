// What the calls of the by-reference messages return and do, in any state a run reaches.

module MesgEffects {
  import opened Basics
  import opened Mem
  import opened TaskQueue
  import opened MesgSpec
  import opened MesgProof
  import opened MesgTheorems

  // Every message but m is as it was, and on the lists it was on.
  ghost predicate OthersStay(s: System, s1: System, m: Mid) {
    forall x: Mid :: x != m ==>
      s1.Hdr(x) == s.Hdr(x) && forall t: Tid :: x in At(s1.owned, t) <==> x in At(s.owned, t)
  }

  // Every task but t is in the call it was in, and as far.
  ghost predicate TasksStay(s: System, s1: System, t: Tid) {
    forall x: Tid :: x != t ==> s1.Ep(x) == s.Ep(x)
  }

  ghost predicate OnlyOwner(s: System, m: Mid, t: Tid) {
    forall x: Tid :: m in At(s.owned, x) <==> x == t
  }

  // m is handed out to t: it was free or given back, and is t's and nobody else's now.
  ghost predicate Owns(s: System, m: Mid, t: Tid) {
    s.Hdr(m) == Mesg(Allocated, Some(t), None) && OnlyOwner(s, m, t)
  }

  lemma OwnersStay(s: System, s1: System, m: Mid)
    requires OwnOk(s) && OwnOk(s1) && forall x: Mid :: x != m ==> s1.Hdr(x) == s.Hdr(x)
    ensures OthersStay(s, s1, m)
    ensures forall t: Tid :: m in At(s1.owned, t) <==> s1.Hdr(m).owner == Some(t)
  {
  }

  // ---- the order of the waiting allocators ------------------------------------------------------------

  ghost predicate InOrder(s: System) {
    forall p <- s.pools :: Distinct(s.pools[p].waiters) && Sorted(s.pools[p].waiters, s.prios)
  }

  // Only wait lists of s changed, and at most by a task that left.
  ghost predicate Shorter(s: System, s1: System) {
    InOrder(s) ==> InOrder(s1) && s1.prios == s.prios
  }

  lemma OnePool(s: System, s1: System, p: nat)
    requires p in s.pools && p in s1.pools && s1.pools == s.pools[p := s1.pools[p]] && s1.prios == s.prios
    requires InOrder(s) && Distinct(s1.pools[p].waiters) && Sorted(s1.pools[p].waiters, s.prios)
    ensures InOrder(s1)
  {
  }

  lemma GiveBackPools(s: System, m: Mid)
    requires m.pool in s.pools
    ensures var s1, ws := GiveBack(s, m), s.pools[m.pool].waiters;
      && m.pool in s1.pools && s1.pools == s.pools[m.pool := s1.pools[m.pool]] && s1.prios == s.prios
      && s1.pools[m.pool].waiters == if ws == [] then [] else ws[1..]
  {
  }

  lemma GiveBackShorter(s: System, m: Mid)
    requires m.pool in s.pools
    ensures Shorter(s, GiveBack(s, m))
  {
    if InOrder(s) {
      GiveBackPools(s, m);
      if s.pools[m.pool].waiters != [] {
        RestSorted(s.pools[m.pool].waiters, s.prios);
        DistinctRest(s.pools[m.pool].waiters);
      }
      OnePool(s, GiveBack(s, m), m.pool);
    }
  }

  lemma {:induction false} CleanQueueShorter(s: System, t: Tid, n: nat)
    ensures Shorter(s, CleanQueue(s, t, n))
    decreases n
  {
    var q := At(s.queues, t);
    if n > 0 && q != [] && q[0].pool in s.pools {
      GiveBackShorter(s.(queues := s.queues[t := q[1..]]), q[0]);
      CleanQueueShorter(CleanHead(s, t), t, n - 1);
    }
  }

  lemma {:induction false} CleanOwnedShorter(s: System, t: Tid, n: nat)
    ensures Shorter(s, CleanOwned(s, t, n))
    decreases n
  {
    var q := At(s.owned, t);
    if n > 0 && q != [] && q[0].pool in s.pools {
      GiveBackShorter(s, q[0]);
      CleanOwnedShorter(GiveBack(s, q[0]), t, n - 1);
    }
  }

  lemma UnlinkShorter(s: System, t: Tid)
    ensures Shorter(s, Unlink(s, t))
  {
    var pc := s.Ep(t).pc;
    if InOrder(s) && pc.Allocating? && pc.pool in s.pools {
      WithoutMembers(s.pools[pc.pool].waiters, t);
      WithoutSorted(s.pools[pc.pool].waiters, t, s.prios, s.prios);
    }
  }

  lemma KillShorter(s: System, t: Tid)
    ensures Shorter(s, Kill(s, t))
  {
    UnlinkShorter(s, t);
    var s1 := Unlink(s, t).WithEp(t, Endpoint(s.Ep(t).init, Idle, false, false, false, None));
    CleanQueueShorter(s1, t, |At(s1.queues, t)|);
    var s2 := CleanQueue(s1, t, |At(s1.queues, t)|);
    CleanOwnedShorter(s2, t, |At(s2.owned, t)|);
  }

  lemma InitKeepsPools(s: System, m: Mid, t: Tid)
    ensures InitAllocated(s, m, t).pools == s.pools && InitAllocated(s, m, t).prios == s.prios
  {
  }

  lemma AllocPools(s: System, t: Tid, p: nat, wait: Wait)
    requires p in s.pools
    ensures var (s1, ret, _) := Alloc(s, t, p, wait); var ws := s.pools[p].waiters;
      && p in s1.pools && s1.pools == s.pools[p := s1.pools[p]] && s1.prios == s.prios
      && s1.pools[p].waiters == if ret == Blocked then EnqByPrio(ws, s.prios, t) else ws
  {
    var (mem, b) := s.pools[p].mem.Take();
    if b.Some? { InitKeepsPools(s.(pools := s.pools[p := s.pools[p].(mem := mem)]), Mid(p, b.value), t); }
  }

  lemma AllocInOrder(s: System, t: Tid, p: nat, wait: Wait)
    requires Inv(s) && InOrder(s) && p in s.pools && s.Ep(t).pc == Idle
    ensures InOrder(Alloc(s, t, p, wait).0) && Alloc(s, t, p, wait).0.prios == s.prios
  {
    AllocPools(s, t, p, wait);
    EnqKeepsOrder(s.pools[p].waiters, s.prios, t);
    EnqMembers(s.pools[p].waiters, s.prios, t);
    IdleWaitsNowhere(s, t);
    assert !WaitsOn(s, p, t);
    OnePool(s, Alloc(s, t, p, wait).0, p);
  }

  lemma SamePools(s: System, s1: System)
    requires InOrder(s) && s1.pools == s.pools && s1.prios == s.prios
    ensures InOrder(s1)
  {
  }

  lemma SendPools(s: System, from: Tid, to: Tid, m: Mid)
    ensures Send(s, from, to, m).0.pools == s.pools && Send(s, from, to, m).0.prios == s.prios
  {
  }

  lemma StepInOrder(s: System, op: Op)
    requires Inv(s) && InOrder(s)
    ensures InOrder(Step(s, op)) && Step(s, op).prios == s.prios
  {
    if Enabled(s, op) {
      match op
      case DoInit(t) => SamePools(s, Step(s, op));
      case DoAlloc(t, p, wait) => AllocInOrder(s, t, p, wait);
      case DoFree(m) => if m.pool in s.pools { GiveBackShorter(s, m); }
      case DoSend(from, to, m) => SendPools(s, from, to, m); SamePools(s, Step(s, op));
      case DoWait(t, f, wait) => SamePools(s, Step(s, op));
      case DoResume(t) =>
        assert EpOk(s, t);
        assert s.Ep(t).timedOut || s.Ep(t).got.Some?;
        SamePools(s, Step(s, op));
      case DoTimeout(t) => UnlinkShorter(s, t);
      case DoKill(t) => KillShorter(s, t);
    }
  }

  // Over every run the allocators of each pool wait in the order of their priorities.
  lemma {:induction false} AllocatorsInOrder(sizes: seq<nat>, prios: Prios, ops: seq<Op>)
    ensures var s := Run(Boot(sizes, prios), ops);
      s.prios == prios && forall p <- s.pools :: Distinct(s.pools[p].waiters) && Sorted(s.pools[p].waiters, prios)
  {
    if ops != [] {
      var pre := ops[..|ops| - 1];
      AllocatorsInOrder(sizes, prios, pre);
      RunOk(sizes, prios, pre);
      StepInOrder(Run(Boot(sizes, prios), pre), ops[|ops| - 1]);
    }
  }

  // ---- allocation ---------------------------------------------------------------------------------------

  // An allocation takes a free block whenever there is one, else it is refused or suspends.
  ghost predicate AllocDone(s: System, s1: System, ret: Ret, got: Option<Mid>, t: Tid, p: nat, wait: Wait)
    requires p in s.pools
  {
    var pool := s.pools[p];
    if pool.mem.free != [] then
      && ret == Done && got == Some(Mid(p, pool.mem.free[0])) && s.Hdr(got.value).st == Free
      && Owns(s1, got.value, t) && OthersStay(s, s1, got.value) && s1.queues == s.queues && s1.eps == s.eps
      && p in s1.pools && s1.pools == s.pools[p := s1.pools[p]] && s1.pools[p].waiters == pool.waiters
      && s1.pools[p].mem.nMax == pool.mem.nMax && s1.pools[p].mem.free == pool.mem.free[1..]
    else if wait == NoWait then ret == BufferEmpty && got == None && s1 == s
    else
      && ret == Blocked && got == None && s1 == s.(pools := s1.pools, eps := s1.eps) && TasksStay(s, s1, t)
      && s1.Ep(t) == s.Ep(t).(pc := Allocating(p, wait), armed := wait == Bounded, got := None)
      && p in s1.pools && s1.pools == s.pools[p := s1.pools[p]] && s1.pools[p].mem == pool.mem
      && Ranked(pool.waiters, s1.pools[p].waiters, s.prios, t)
  }

  lemma TakeIs(s: System, t: Tid, p: nat)
    requires Inv(s) && p in s.pools && s.pools[p].mem.free != []
    ensures var (mem, b) := s.pools[p].mem.Take(); var m := Mid(p, b.value);
      var s1 := InitAllocated(s.(pools := s.pools[p := s.pools[p].(mem := mem)]), m, t);
      && Owns(s1, m, t) && OthersStay(s, s1, m) && s.Hdr(m).st == Free
      && s1.queues == s.queues && s1.eps == s.eps && s1.pools == s.pools[p := s.pools[p].(mem := mem)]
  {
    var (mem, b) := s.pools[p].mem.Take();
    var m, s0 := Mid(p, b.value), s.(pools := s.pools[p := s.pools[p].(mem := mem)]);
    assert PoolOk(s, p);
    assert s.pools[p].mem.free[0] in s.pools[p].mem.free;
    OwnFrame(s, s0);
    InitAllocatedOk(s0, m, t);
    OwnersStay(s, InitAllocated(s0, m, t), m);
  }

  lemma AllocIs(s: System, t: Tid, p: nat, wait: Wait)
    requires Inv(s) && p in s.pools && s.pools[p].mem.free != []
    ensures var (s1, ret, got) := Alloc(s, t, p, wait); AllocDone(s, s1, ret, got, t, p, wait)
  {
    TakeIs(s, t, p);
  }

  lemma AllocWaits(s: System, t: Tid, p: nat, wait: Wait)
    requires p in s.pools && s.pools[p].mem.free == [] && Sorted(s.pools[p].waiters, s.prios)
    ensures var (s1, ret, got) := Alloc(s, t, p, wait); AllocDone(s, s1, ret, got, t, p, wait)
  {
    EnqRanks(s.pools[p].waiters, s.prios, t);
  }

  lemma AllocEffect(sizes: seq<nat>, prios: Prios, ops: seq<Op>, t: Tid, p: nat, wait: Wait)
    requires var s := Run(Boot(sizes, prios), ops); s.Ep(t).pc == Idle && p in s.pools
    ensures var s := Run(Boot(sizes, prios), ops); var (s1, ret, got) := Alloc(s, t, p, wait);
      Step(s, DoAlloc(t, p, wait)) == s1 && AllocDone(s, s1, ret, got, t, p, wait)
  {
    var s := Run(Boot(sizes, prios), ops);
    RunOk(sizes, prios, ops);
    AllocatorsInOrder(sizes, prios, ops);
    if s.pools[p].mem.free != [] { AllocIs(s, t, p, wait); } else { AllocWaits(s, t, p, wait); }
  }

  // ---- freeing --------------------------------------------------------------------------------------------

  // A freed message goes to the first waiting allocator, who then owns it and need not wait any more; if
  // none waits it is free, on nobody's list, and its block is the next its pool will hand out.
  ghost predicate FreeDone(s: System, s1: System, m: Mid)
    requires m.pool in s.pools
  {
    var pool := s.pools[m.pool];
    && OthersStay(s, s1, m) && s1.queues == s.queues
    && m.pool in s1.pools && s1.pools == s.pools[m.pool := s1.pools[m.pool]]
    && if pool.waiters == [] then
         && s1.Hdr(m) == Mesg(Free, None, None) && (forall t: Tid :: m !in At(s1.owned, t))
         && s1.pools[m.pool].waiters == [] && s1.pools[m.pool].mem == pool.mem.(free := [m.blk] + pool.mem.free)
         && s1.eps == s.eps
       else
         var w := pool.waiters[0];
         && Owns(s1, m, w) && s1.Ep(w) == s.Ep(w).(armed := false, got := Some(m)) && TasksStay(s, s1, w)
         && s1.pools[m.pool].waiters == pool.waiters[1..] && s1.pools[m.pool].mem == pool.mem
  }

  lemma FreeIs(s: System, m: Mid)
    requires Inv(s) && Owned(s.Hdr(m).st)
    ensures m.pool in s.pools && FreeDone(s, GiveBack(s, m), m)
  {
    var s1 := GiveBack(s, m);
    if s.pools[m.pool].waiters != [] {
      HandoffIs(s, m);
    } else {
      SetOwnerOk(s, m, None);
      SameOwner(SetOwner(s, m, None), m, FREE_MESG);
      OwnFrame(SetOwner(s, m, None).WithHdr(m, FREE_MESG), s1);
    }
    OwnersStay(s, s1, m);
  }

  // Over every run a free succeeds exactly on a message that is allocated or received, whoever calls, and
  // then frees it or passes it on; else it changes nothing.
  lemma FreeEffect(sizes: seq<nat>, prios: Prios, ops: seq<Op>, m: Mid)
    ensures var s := Run(Boot(sizes, prios), ops); var (s1, ret) := FreeMesg(s, m); var st := s.Hdr(m).st;
      && Step(s, DoFree(m)) == s1
      && if st == Allocated || st == Received
         then ret == Done && m.pool in s.pools && FreeDone(s, s1, m) else ret == InvalidState && s1 == s
  {
    var s := Run(Boot(sizes, prios), ops);
    RunOk(sizes, prios, ops);
    if Owned(s.Hdr(m).st) { FreeIs(s, m); }
  }

  // ---- sending --------------------------------------------------------------------------------------------

  // The receiver waits for a message from this task, or from any.
  ghost predicate WaitsFor(s: System, to: Tid, from: Tid) {
    s.Ep(to).waiting && s.Ep(to).pc.Waiting? && (s.Ep(to).pc.from == None || s.Ep(to).pc.from == Some(from))
  }

  // The receiver owns the message and knows its sender. It has it at once if it was waiting for it, else it
  // is the last on its queue.
  ghost predicate SendDone(s: System, s1: System, from: Tid, to: Tid, m: Mid) {
    && OnlyOwner(s1, m, to) && OthersStay(s, s1, m) && s1.pools == s.pools
    && if WaitsFor(s, to, from) then
         && s1.Hdr(m) == Mesg(Received, Some(to), Some(from)) && s1.queues == s.queues && TasksStay(s, s1, to)
         && s1.Ep(to) == s.Ep(to).(waiting := false, armed := false, got := Some(m))
       else
         && s1.Hdr(m) == Mesg(Queued, Some(to), Some(from)) && s1.eps == s.eps
         && At(s1.queues, to) == At(s.queues, to) + [m]
         && forall x: Tid :: x != to ==> At(s1.queues, x) == At(s.queues, x)
  }

  lemma SendMoves(s: System, from: Tid, to: Tid, m: Mid)
    requires Inv(s) && s.Ep(to).init && Owned(s.Hdr(m).st)
    ensures var s1 := Send(s, from, to, m).0;
      s1.Hdr(m).owner == Some(to) && forall x: Mid :: x != m ==> s1.Hdr(x) == s.Hdr(x)
  {
    TransferOk(s, from, to, m);
  }

  lemma SendOwner(s: System, from: Tid, to: Tid, m: Mid)
    requires Inv(s) && s.Ep(to).init && Owned(s.Hdr(m).st)
    ensures var s1 := Send(s, from, to, m).0; OnlyOwner(s1, m, to) && OthersStay(s, s1, m) && s1.pools == s.pools
  {
    SendMoves(s, from, to, m);
    SendOk(s, from, to, m);
    SendPools(s, from, to, m);
    OwnersStay(s, Send(s, from, to, m).0, m);
  }

  lemma SendIs(s: System, from: Tid, to: Tid, m: Mid)
    requires Inv(s) && s.Ep(to).init && Owned(s.Hdr(m).st)
    ensures SendDone(s, Send(s, from, to, m).0, from, to, m)
  {
    SendOwner(s, from, to, m);
    TransferOk(s, from, to, m);
    var s0 := SetOwner(s.WithHdr(m, s.Hdr(m).(sender := Some(from))), m, Some(to));
    assert WaitMatches(s0, to, m) <==> WaitsFor(s, to, from);
    assert EpOk(s, to);
  }

  // Over every run a send succeeds exactly to a task whose endpoint is set up, with a message that is
  // allocated or received, whoever owns it.
  lemma SendEffect(sizes: seq<nat>, prios: Prios, ops: seq<Op>, from: Tid, to: Tid, m: Mid)
    ensures var s := Run(Boot(sizes, prios), ops); var (s1, ret) := Send(s, from, to, m); var st := s.Hdr(m).st;
      && Step(s, DoSend(from, to, m)) == s1
      && if !s.Ep(to).init then ret == NotInit && s1 == s
         else if st == Allocated || st == Received then ret == Done && SendDone(s, s1, from, to, m)
         else ret == InvalidState && s1 == s
  {
    var s := Run(Boot(sizes, prios), ops);
    RunOk(sizes, prios, ops);
    if s.Ep(to).init && Owned(s.Hdr(m).st) { SendIs(s, from, to, m); }
  }

  // ---- receiving ------------------------------------------------------------------------------------------

  // A queued message from this task, or from any.
  ghost predicate Suits(s: System, m: Mid, f: Filter) {
    f == None || s.Hdr(m).sender == f
  }

  // q1 is q without its earliest suitable message, m.
  ghost predicate Picked(s: System, q: seq<Mid>, q1: seq<Mid>, f: Filter, m: Mid) {
    exists i :: 0 <= i < |q| && q[i] == m && Suits(s, m, f) && q1 == q[..i] + q[i + 1..]
      && forall j :: 0 <= j < i ==> !Suits(s, q[j], f)
  }

  // The earliest suitable message leaves the queue for its owner, the receiver.
  ghost predicate RecvDone(s: System, s1: System, t: Tid, f: Filter, m: Mid) {
    && Picked(s, At(s.queues, t), At(s1.queues, t), f, m)
    && (forall x: Tid :: x != t ==> At(s1.queues, x) == At(s.queues, x))
    && s.Hdr(m).owner == Some(t) && s1.Hdr(m) == s.Hdr(m).(st := Received)
    && s1 == s.(queues := s1.queues, hdrs := s1.hdrs) && forall x: Mid :: x != m ==> s1.Hdr(x) == s.Hdr(x)
  }

  lemma PickedAt(s: System, q: seq<Mid>, f: Filter)
    requires FirstMatch(s, q, f) < |q|
    ensures var i := FirstMatch(s, q, f); Picked(s, q, q[..i] + q[i + 1..], f, q[i])
  {
    var i := FirstMatch(s, q, f);
    assert forall j :: 0 <= j < i ==> !Suits(s, q[j], f);
    assert Suits(s, q[i], f);
  }

  lemma TakenOutIs(s: System, t: Tid, f: Filter, i: nat)
    requires Inv(s) && i < |At(s.queues, t)| && i == FirstMatch(s, At(s.queues, t), f)
    ensures RecvDone(s, Select(s, t, f).0, t, f, At(s.queues, t)[i])
  {
    var q := At(s.queues, t);
    PickedAt(s, q, f);
    assert q[i] in q && s.Hdr(q[i]).owner == Some(t);
  }

  lemma NothingSuits(s: System, t: Tid, f: Filter)
    requires FirstMatch(s, At(s.queues, t), f) == |At(s.queues, t)|
    ensures forall m <- At(s.queues, t) :: !Suits(s, m, f)
  {
    var q := At(s.queues, t);
    assert forall j :: 0 <= j < |q| ==> !Suits(s, q[j], f);
  }

  // A receive returns the earliest suitable message while there is one; else it is refused or suspends,
  // waiting for one.
  ghost predicate WaitDone(s: System, s1: System, ret: Ret, got: Option<Mid>, t: Tid, f: Filter, wait: Wait) {
    if !s.Ep(t).init then ret == NotInit && got == None && s1 == s
    else if exists m <- At(s.queues, t) :: Suits(s, m, f) then ret == Done && got.Some? && RecvDone(s, s1, t, f, got.value)
    else if wait == NoWait then ret == BufferEmpty && got == None && s1 == s
    else
      && ret == Blocked && got == None && s1 == s.(eps := s1.eps) && TasksStay(s, s1, t)
      && s1.Ep(t) == s.Ep(t).(pc := Waiting(f, wait), waiting := true, armed := wait == Bounded, got := None)
  }

  lemma WaitIs(s: System, t: Tid, f: Filter, wait: Wait)
    requires Inv(s)
    ensures var (s1, ret, got) := WaitMesg(s, t, f, wait); WaitDone(s, s1, ret, got, t, f, wait)
  {
    var q := At(s.queues, t);
    var i := FirstMatch(s, q, f);
    if i < |q| {
      TakenOutIs(s, t, f, i);
      assert q[i] in q && Suits(s, q[i], f);
    } else {
      NothingSuits(s, t, f);
    }
  }

  lemma WaitEffect(sizes: seq<nat>, prios: Prios, ops: seq<Op>, t: Tid, f: Filter, wait: Wait)
    ensures var s := Run(Boot(sizes, prios), ops); var (s1, ret, got) := WaitMesg(s, t, f, wait);
      WaitDone(s, s1, ret, got, t, f, wait) && (s.Ep(t).pc == Idle ==> Step(s, DoWait(t, f, wait)) == s1)
  {
    RunOk(sizes, prios, ops);
    WaitIs(Run(Boot(sizes, prios), ops), t, f, wait);
  }

  // A task's endpoint is set up once, and then it can be sent to.
  lemma InitEffect(sizes: seq<nat>, prios: Prios, ops: seq<Op>, t: Tid)
    ensures var s := Run(Boot(sizes, prios), ops); var s1 := Run(Boot(sizes, prios), ops + [DoInit(t)]);
      && s1.Ep(t) == s.Ep(t).(init := true) && TasksStay(s, s1, t)
      && (s.Ep(t).init ==> s1 == s) && s1 == s.(eps := s1.eps)
  {
    assert (ops + [DoInit(t)])[..|ops|] == ops;
  }

  // ---- the rest of a blocking call ------------------------------------------------------------------------

  // A call that runs again returns what it was given while it slept, or its timeout, and is over.
  lemma ResumeEffect(sizes: seq<nat>, prios: Prios, ops: seq<Op>, t: Tid)
    requires var s := Run(Boot(sizes, prios), ops);
      && s.Ep(t).pc != Idle && !s.Ep(t).waiting && (forall p <- s.pools :: t !in s.pools[p].waiters)
      && (s.Ep(t).pc.Allocating? ==> s.Ep(t).pc.pool in s.pools)
    ensures var s := Run(Boot(sizes, prios), ops); var (s1, ret, got) := Resume(s, t); var e := s.Ep(t);
      && Step(s, DoResume(t)) == s1 == s.WithEp(t, e.(pc := Idle, timedOut := false, got := None))
      && (if e.timedOut then ret == Timeout && got == None else ret == Done && got == e.got && got.Some?)
  {
    var s := Run(Boot(sizes, prios), ops);
    RunOk(sizes, prios, ops);
    assert EpOk(s, t);
  }

  lemma UnlinkIs(s: System, t: Tid, p: nat)
    requires Inv(s) && p in s.pools
    ensures var s1 := Unlink(s, t);
      && p in s1.pools && s1.pools[p].mem == s.pools[p].mem
      && forall x :: x in s1.pools[p].waiters <==> x in s.pools[p].waiters && x != t
  {
    assert PoolOk(s, p) && EpOk(s, t);
    WithoutMembers(s.pools[p].waiters, t);
    assert WaitsOn(s, p, t) ==> s.Ep(t).pc.Allocating? && s.Ep(t).pc.pool == p;
  }

  // t waits on no pool; else the pools are as they were.
  ghost predicate LeftPools(s: System, s1: System, t: Tid) {
    && s1.pools.Keys == s.pools.Keys
    && forall p <- s.pools :: s1.pools[p].mem == s.pools[p].mem
         && forall x :: x in s1.pools[p].waiters <==> x in s.pools[p].waiters && x != t
  }

  lemma UnlinkLeaves(s: System, t: Tid)
    requires Inv(s)
    ensures LeftPools(s, Unlink(s, t), t)
  {
    forall p <- s.pools
      ensures Unlink(s, t).pools[p].mem == s.pools[p].mem
      ensures forall x :: x in Unlink(s, t).pools[p].waiters <==> x in s.pools[p].waiters && x != t
    {
      UnlinkIs(s, t, p);
    }
  }

  // A bounded waiter whose timeout runs out leaves the list it waits on and is marked; no message moves.
  lemma TimeoutEffect(sizes: seq<nat>, prios: Prios, ops: seq<Op>, t: Tid)
    requires Run(Boot(sizes, prios), ops).Ep(t).armed
    ensures var s := Run(Boot(sizes, prios), ops); var s1 := Step(s, DoTimeout(t)); var e := s.Ep(t);
      && s1 == s.(pools := s1.pools, eps := s1.eps) && TasksStay(s, s1, t) && LeftPools(s, s1, t)
      && s1.Ep(t) == e.(waiting := false, armed := false, timedOut := true)
  {
    RunOk(sizes, prios, ops);
    UnlinkLeaves(Run(Boot(sizes, prios), ops), t);
  }
}
