// The by-reference task messages in the code's own form: one object whose calls rewrite message
// headers, ownership lists and receive queues in place. Every method is proved against the step
// functions of MesgSpec, so the theorems of MesgTheorems are about these bodies.

module Mesg {
  import opened Basics
  import opened Mem
  import opened TaskQueue
  import opened MesgSpec
  import opened MesgProof

  lemma CleanOwnedUnfolds(s: System, t: Tid)
    requires At(s.owned, t) != [] && At(s.owned, t)[0].pool in s.pools
    ensures CleanOwned(s, t, |At(s.owned, t)|) == CleanOwned(GiveBack(s, At(s.owned, t)[0]), t, |At(s.owned, t)| - 1)
  {
  }

  class TaskMessages {
    var pools: map<nat, MesgPool>
    var hdrs: map<Mid, MesgSpec.Mesg>
    var owned: Lists   // asynchMesgOwnedList of each task
    var queues: Lists  // asynchMesgQueue of each task
    var eps: map<Tid, Endpoint>
    var prios: Prios

    constructor (sizes: seq<nat>, priorities: Prios)
      ensures Valid() && Contents() == Boot(sizes, priorities)
    {
      pools := map p: nat | p < |sizes| :: MesgPool(FreshPool(sizes[p]), []);
      hdrs, owned, queues, eps, prios := map[], map[], map[], map[], priorities;
      new;
      BootOk(sizes, priorities);
    }

    function Contents(): System
      reads this
    {
      System(pools, hdrs, owned, queues, eps, prios)
    }

    ghost predicate Valid()
      reads this
    {
      Inv(Contents())
    }

    function Hdr(m: Mid): MesgSpec.Mesg
      reads this
    {
      Contents().Hdr(m)
    }

    function Ep(t: Tid): Endpoint
      reads this
    {
      Contents().Ep(t)
    }

    // kMesgSetOwner_
    method SetOwner(m: Mid, owner: Option<Tid>)
      modifies this`owned, this`hdrs
      ensures Contents() == MesgSpec.SetOwner(old(Contents()), m, owner)
    {
      var was := Hdr(m).owner;
      if was == owner { return; }
      if was.Some? { owned := owned[was.value := Without(At(owned, was.value), m)]; }
      hdrs := hdrs[m := Hdr(m).(owner := owner)];
      if owner.Some? { owned := owned[owner.value := At(owned, owner.value) + [m]]; }
    }

    // kMesgInitAllocatedBuf_
    method InitAllocatedBuf(m: Mid, t: Tid)
      modifies this`owned, this`hdrs
      ensures Contents() == InitAllocated(old(Contents()), m, t)
    {
      hdrs := hdrs[m := MesgSpec.Mesg(Allocated, Hdr(m).owner, None)];
      SetOwner(m, Some(t));
    }

    // kMesgAlloc, up to the suspension.
    method Alloc(t: Tid, p: nat, wait: Wait) returns (ret: Ret, got: Option<Mid>)
      requires Valid() && Enabled(Contents(), DoAlloc(t, p, wait))
      modifies this
      ensures Valid() && (Contents(), ret, got) == MesgSpec.Alloc(old(Contents()), t, p, wait)
    {
      AllocOk(Contents(), t, p, wait);
      var pool := pools[p];
      var (mem, block) := pool.mem.Take();
      if block.Some? {
        pools := pools[p := pool.(mem := mem)];
        InitAllocatedBuf(Mid(p, block.value), t);
        return Done, Some(Mid(p, block.value));
      }
      if wait == NoWait { return BufferEmpty, None; }
      pools := pools[p := pool.(waiters := EnqByPrio(pool.waiters, prios, t))];
      eps := eps[t := Ep(t).(pc := Allocating(p, wait), armed := wait == Bounded, got := None)];
      return Blocked, None;
    }

    // kMesgHandoffToWaitingAllocator_
    method HandoffToWaitingAllocator(m: Mid)
      requires m.pool in pools && pools[m.pool].waiters != []
      modifies this
      ensures Contents() == Handoff(old(Contents()), m)
    {
      var pool := pools[m.pool];
      var h := pool.waiters[0];
      pools := pools[m.pool := pool.(waiters := pool.waiters[1..])];
      InitAllocatedBuf(m, h);
      eps := eps[h := Ep(h).(armed := false, got := Some(m))];
    }

    // kMesgReturnBufferFromCleanup_ and the tail of kMesgFree.
    method ReturnBuffer(m: Mid)
      requires m.pool in pools
      modifies this
      ensures Contents() == GiveBack(old(Contents()), m)
    {
      if |pools[m.pool].waiters| > 0 {
        HandoffToWaitingAllocator(m);
        return;
      }
      SetOwner(m, None);
      hdrs := hdrs[m := FREE_MESG];
      pools := pools[m.pool := pools[m.pool].(mem := pools[m.pool].mem.Give(m.blk))];
    }

    // kMesgFree
    method Free(m: Mid) returns (ret: Ret)
      requires Valid()
      modifies this
      ensures Valid() && (Contents(), ret) == FreeMesg(old(Contents()), m)
    {
      FreeMesgOk(Contents(), m);
      if m.pool !in pools || !Owned(Hdr(m).st) { return InvalidState; }
      ReturnBuffer(m);
      return Done;
    }

    // kMesgDequeueMatching_
    method DequeueMatching(t: Tid, f: Filter) returns (got: Option<Mid>)
      modifies this`queues, this`hdrs
      ensures (Contents(), got) == Select(old(Contents()), t, f)
    {
      var q := At(queues, t);
      var i := 0;
      while i < |q|
        invariant 0 <= i <= |q| && Contents() == old(Contents())
        invariant FirstMatch(Contents(), q, f) == FirstMatch(Contents(), q, f, i)
      {
        if Matches(Hdr(q[i]), f) {
          hdrs := hdrs[q[i] := Hdr(q[i]).(st := Received)];
          queues := queues[t := q[..i] + q[i + 1..]];
          return Some(q[i]);
        }
        i := i + 1;
      }
      return None;
    }

    // kMesgDeliverToWaiter_
    method DeliverToWaiter(t: Tid, m: Mid) returns (delivered: bool)
      modifies this`hdrs, this`eps
      ensures delivered == WaitMatches(old(Contents()), t, m)
      ensures Contents() == if delivered then MesgSpec.Deliver(old(Contents()), t, m) else old(Contents())
    {
      var e := Ep(t);
      if !e.waiting || !e.pc.Waiting? || !Matches(Hdr(m), e.pc.from) { return false; }
      hdrs := hdrs[m := Hdr(m).(st := Received)];
      eps := eps[t := e.(waiting := false, armed := false, got := Some(m))];
      return true;
    }

    // kMesgSend
    method Send(from: Tid, to: Tid, m: Mid) returns (ret: Ret)
      requires Valid()
      modifies this
      ensures Valid() && (Contents(), ret) == MesgSpec.Send(old(Contents()), from, to, m)
    {
      SendOk(Contents(), from, to, m);
      if !Ep(to).init { return NotInit; }
      if !Owned(Hdr(m).st) { return InvalidState; }
      hdrs := hdrs[m := Hdr(m).(sender := Some(from))];
      SetOwner(m, Some(to));
      var delivered := DeliverToWaiter(to, m);
      if delivered { return Done; }
      hdrs := hdrs[m := Hdr(m).(st := Queued)];
      queues := queues[to := At(queues, to) + [m]];
      return Done;
    }

    // kMesgWait, up to the suspension.
    method WaitFor(t: Tid, f: Filter, wait: Wait) returns (ret: Ret, got: Option<Mid>)
      requires Valid() && Enabled(Contents(), DoWait(t, f, wait))
      modifies this
      ensures Valid() && (Contents(), ret, got) == WaitMesg(old(Contents()), t, f, wait)
    {
      WaitMesgOk(Contents(), t, f, wait);
      if !Ep(t).init { return NotInit, None; }
      got := DequeueMatching(t, f);
      if got.Some? { return Done, got; }
      if wait == NoWait { return BufferEmpty, None; }
      eps := eps[t := Ep(t).(pc := Waiting(f, wait), waiting := true, armed := wait == Bounded, got := None)];
      return Blocked, None;
    }

    // Behind the suspension point of kMesgAlloc and kMesgWait: a timeout or a message, never a retry.
    method ResumeCall(t: Tid) returns (ret: Ret, got: Option<Mid>)
      requires Valid() && Enabled(Contents(), DoResume(t))
      modifies this`eps
      ensures Valid() && (Contents(), ret, got) == Resume(old(Contents()), t)
    {
      ResumeOk(Contents(), t);
      assert EpOk(Contents(), t);
      var e := Ep(t);
      eps := eps[t := e.(pc := Idle, timedOut := false, got := None)];
      if e.timedOut { return Timeout, None; }
      return Done, e.got;
    }

    // The first draining loop of kMesgTaskCleanup, for a task that is on no wait list.
    method DrainQueue(t: Tid)
      requires Dying(Contents(), t)
      modifies this
      ensures Dying(Contents(), t) && At(queues, t) == []
      ensures Contents() == CleanQueue(old(Contents()), t, |At(old(queues), t)|)
    {
      while |At(queues, t)| > 0
        invariant Dying(Contents(), t)
        invariant CleanQueue(Contents(), t, |At(queues, t)|) == CleanQueue(old(Contents()), t, |At(old(queues), t)|)
        decreases |At(queues, t)|
      {
        CleanHeadOk(Contents(), t);
        var q := At(queues, t);
        queues := queues[t := q[1..]];
        ReturnBuffer(q[0]);
      }
    }

    // The second one.
    method DrainOwned(t: Tid)
      requires Dying(Contents(), t) && At(queues, t) == []
      modifies this
      ensures Dying(Contents(), t) && At(queues, t) == [] && At(owned, t) == []
      ensures Contents() == CleanOwned(old(Contents()), t, |At(old(owned), t)|)
    {
      while |At(owned, t)| > 0
        invariant Dying(Contents(), t) && At(queues, t) == []
        invariant CleanOwned(Contents(), t, |At(owned, t)|) == CleanOwned(old(Contents()), t, |At(old(owned), t)|)
        decreases |At(owned, t)|
      {
        ghost var before := Contents();
        CleanFirstOwnedOk(before, t);
        CleanOwnedUnfolds(before, t);
        ReturnBuffer(At(owned, t)[0]);
        assert Contents() == GiveBack(before, At(before.owned, t)[0]);
      }
    }

    // kMesgTaskCleanup, for a task that is on no wait list.
    method Bury(t: Tid)
      requires Dying(Contents(), t)
      modifies this
      ensures var s := old(Contents()); var s2 := CleanQueue(s, t, |At(s.queues, t)|);
        var s3 := CleanOwned(s2, t, |At(s2.owned, t)|);
        Contents() == s3.(queues := s3.queues[t := []], owned := s3.owned[t := []]).WithEp(t, NO_ENDPOINT)
    {
      DrainQueue(t);
      DrainOwned(t);
      queues, owned, eps := queues[t := []], owned[t := []], eps[t := NO_ENDPOINT];
    }

    // The dead task leaves whatever list it waits on.
    method LeaveLists(t: Tid)
      requires Valid()
      modifies this`pools, this`eps
      ensures Contents() == Unlink(old(Contents()), t).WithEp(t, Endpoint(old(Ep(t).init), Idle, false, false, false, None))
      ensures Dying(Contents(), t)
    {
      var e := Endpoint(Ep(t).init, Idle, false, false, false, None);
      UnlinkOk(Contents(), t, e);
      var pc := Ep(t).pc;
      if pc.Allocating? && pc.pool in pools {
        pools := pools[pc.pool := pools[pc.pool].(waiters := Without(pools[pc.pool].waiters, t))];
      }
      eps := eps[t := e];
    }

    // Death of a task: off its wait list, then kMesgTaskCleanup. Nothing is left to the task.
    method TaskCleanup(t: Tid)
      requires Valid()
      modifies this
      ensures Valid() && Contents() == Kill(old(Contents()), t)
      ensures At(owned, t) == [] && At(queues, t) == [] && !Ep(t).init
    {
      KillOk(Contents(), t);
      LeaveLists(t);
      Bury(t);
    }
  }
}
