// What every run of the copied messages keeps, and what it promises.

module MesgCopyProof {
  import opened Basics
  import opened MesgCopySpec

  // ---- the invariant --------------------------------------------------------------------------------

  ghost predicate QueuedFor(s: System, b: nat, t: Tid) {
    b < |s.blocks| && s.blocks[b].Used? && s.blocks[b].receiver == t
  }

  // Every block is on the free list or on the queue of the task it is addressed to, once.
  ghost predicate FreeOk(s: System) {
    Distinct(s.free) && forall b: nat :: b in s.free <==> b < |s.blocks| && s.blocks[b] == Free
  }

  ghost predicate QueuesOk(s: System) {
    && (forall t: Tid :: Distinct(s.Queue(t)))
    && (forall t: Tid, b: nat :: b in s.Queue(t) <==> QueuedFor(s, b, t))
  }

  ghost predicate PayloadsOk(s: System) {
    forall b <- s.blocks :: b.Used? ==> 0 < |b.payload| <= s.maxBytes
  }

  ghost predicate NoFit(s: System, q: seq<nat>, w: Want) {
    forall b <- q :: !s.Fits(b, w)
  }

  // A blocked receiver never coexists with a queued message it could take.
  ghost predicate EpOk(s: System, t: Tid) {
    var e := s.Ep(t);
    && (!e.init ==> s.Queue(t) == []) && (e.armed ==> e.want.Some?)
    && (if e.inCall then e.init && (e.want.Some? <==> e.result == None && !e.timedOut)
        else e.want == None && e.result == None && !e.timedOut)
    && (e.timedOut ==> e.result == None)
    && (e.want.Some? ==> NoFit(s, s.Queue(t), e.want.value))
  }

  ghost predicate EpsOk(s: System) {
    forall t: Tid :: EpOk(s, t)
  }

  ghost predicate Inv(s: System) {
    FreeOk(s) && QueuesOk(s) && PayloadsOk(s) && EpsOk(s)
  }

  // ---- steps ----------------------------------------------------------------------------------------

  // Only t's own record changed, and still fits.
  lemma EpChangeOk(s: System, t: Tid, e: Endpoint)
    requires Inv(s) && EpOk(s.WithEp(t, e), t)
    ensures Inv(s.WithEp(t, e))
  {
    var s1 := s.WithEp(t, e);
    assert forall r: Tid :: s1.Queue(r) == s.Queue(r);
    forall r: Tid, b: nat ensures b in s1.Queue(r) <==> QueuedFor(s1, b, r) {
      assert b in s.Queue(r) <==> QueuedFor(s, b, r);
    }
    forall r: Tid ensures EpOk(s1, r) { assert EpOk(s, r); }
  }

  lemma StoreOk(s: System, from: Tid, to: Tid, payload: Payload)
    requires Inv(s) && s.free != [] && 0 < |payload| <= s.maxBytes && s.Ep(to).init
    requires s.Ep(to).want.Some? ==> !s.Ep(to).want.value.Takes(from, |payload|)
    ensures s.free[0] < |s.blocks| && Inv(Store(s, from, to, payload).0)
  {
    var b := s.free[0];
    assert b in s.free;
    var s1 := Store(s, from, to, payload).0;
    DistinctRest(s.free);
    forall r: Tid, c: nat ensures c in s1.Queue(r) <==> QueuedFor(s1, c, r) {
      assert c in s.Queue(r) <==> QueuedFor(s, c, r);
    }
    forall r: Tid ensures Distinct(s1.Queue(r)) {
      assert Distinct(s.Queue(r)) && (b in s.Queue(r) <==> QueuedFor(s, b, r));
    }
    forall r: Tid ensures EpOk(s1, r) {
      assert EpOk(s, r);
      forall c <- s.Queue(r) ensures s1.blocks[c] == s.blocks[c] { assert QueuedFor(s, c, r); }
    }
  }

  lemma SendOk(s: System, from: Tid, to: Tid, payload: Payload)
    requires Inv(s)
    ensures Enabled(s, DoSend(from, to, payload)) && Inv(Send(s, from, to, payload).0)
  {
    assert EpOk(s, to);
    assert s.free != [] ==> s.free[0] in s.free;
    var e, want := s.Ep(to), s.Ep(to).want;
    if 0 < |payload| <= s.maxBytes && e.init {
      if want.Some? && want.value.Takes(from, |payload|) {
        EpChangeOk(s, to, e.(want := None, armed := false, result := Some(Done(payload))));
      } else if s.free != [] {
        StoreOk(s, from, to, payload);
      }
    }
  }

  // Taking element i off t's queue and freeing its block.
  lemma TakeOutOk(s: System, t: Tid, i: nat)
    requires Inv(s) && i < |s.Queue(t)|
    ensures s.Queue(t)[i] < |s.blocks|
    ensures var q := s.Queue(t); Inv(FreeBlock(s.(queues := s.queues[t := q[..i] + q[i + 1..]]), q[i]))
  {
    var q := s.Queue(t);
    var b, rest := q[i], q[..i] + q[i + 1..];
    assert b in q;
    assert QueuedFor(s, b, t);
    RemoveAt(q, i);
    var s1 := FreeBlock(s.(queues := s.queues[t := rest]), b);
    assert b !in s.free;
    forall r: Tid, c: nat ensures c in s1.Queue(r) <==> QueuedFor(s1, c, r) {
      assert c in s.Queue(r) <==> QueuedFor(s, c, r);
    }
    forall r: Tid ensures Distinct(s1.Queue(r)) { assert Distinct(s.Queue(r)); }
    forall r: Tid ensures EpOk(s1, r) {
      assert EpOk(s, r);
      forall c <- s1.Queue(r) ensures c in s.Queue(r) && s1.blocks[c] == s.blocks[c] { assert QueuedFor(s1, c, r); }
    }
  }

  lemma RecvOk(s: System, t: Tid, w: Want, wait: Wait)
    requires Inv(s) && !s.Ep(t).inCall
    ensures Inv(Recv(s, t, w, wait).0)
  {
    assert EpOk(s, t);
    if w.room > 0 && s.Ep(t).init {
      var q := s.Queue(t);
      var i := FirstFit(s, q, w);
      if i < |q| {
        TakeOutOk(s, t, i);
      } else if wait != NoWait {
        assert NoFit(s, q, w);
        EpChangeOk(s, t, s.Ep(t).(inCall := true, want := Some(w), armed := wait == Bounded, result := None));
      }
    }
  }

  function TakenHead(s: System, t: Tid): System
    requires s.Queue(t) != [] && s.Queue(t)[0] < |s.blocks|
  {
    FreeBlock(s.(queues := s.queues[t := s.Queue(t)[1..]]), s.Queue(t)[0])
  }

  lemma TakeHeadOk(s: System, t: Tid)
    requires Inv(s) && s.Queue(t) != []
    ensures s.Queue(t)[0] < |s.blocks| && Inv(TakenHead(s, t))
    ensures var s1 := TakenHead(s, t);
      && s1.Queue(t) == s.Queue(t)[1..] && s1.free == s.free + [s.Queue(t)[0]] && s1.eps == s.eps
      && Drain(s, t) == Drain(s1, t) && forall r: Tid :: r != t ==> s1.Queue(r) == s.Queue(r)
  {
    var q := s.Queue(t);
    TakeOutOk(s, t, 0);
    assert q[..0] + q[0 + 1..] == q[1..];
  }

  // The dead task's blocks go back to the tail of the free list, in order.
  lemma {:induction false} DrainOk(s: System, t: Tid)
    requires Inv(s)
    ensures var s1 := Drain(s, t);
      && Inv(s1) && s1.Queue(t) == [] && s1.free == s.free + s.Queue(t) && s1.eps == s.eps
      && forall r: Tid :: r != t ==> s1.Queue(r) == s.Queue(r)
    decreases |s.Queue(t)|
  {
    var q := s.Queue(t);
    if q != [] {
      TakeHeadOk(s, t);
      DrainOk(TakenHead(s, t), t);
      assert (s.free + [q[0]]) + q[1..] == s.free + q;
    }
  }

  lemma CancelOk(s: System, t: Tid)
    requires Inv(s)
    ensures Inv(CancelWaiters(s, t))
  {
    var s1 := CancelWaiters(s, t);
    assert forall r: Tid :: s1.Queue(r) == s.Queue(r);
    forall r: Tid, b: nat ensures b in s1.Queue(r) <==> QueuedFor(s1, b, r) {
      assert b in s.Queue(r) <==> QueuedFor(s, b, r);
    }
    forall r: Tid ensures EpOk(s1, r) { assert EpOk(s, r); }
  }

  // Death of a task: every block queued to it is free again, and of the other receivers exactly those
  // that waited for it alone are woken, with an error.
  lemma KillOk(s: System, t: Tid)
    requires Inv(s)
    ensures var s1 := Kill(s, t);
      && Inv(s1) && s1.Queue(t) == [] && !s1.Ep(t).init && s1.free == s.free + s.Queue(t)
      && forall r: Tid :: r != t ==>
           s1.Ep(r) == if WantsFrom(s.Ep(r), t) then Cancelled(s.Ep(r)) else s.Ep(r)
  {
    DrainOk(s, t);
    var s1 := Drain(s, t);
    CancelOk(s1, t);
    var s2 := CancelWaiters(s1, t);
    var s3 := s2.(queues := s2.queues[t := []]);
    assert forall r: Tid :: s3.Queue(r) == s2.Queue(r) == s1.Queue(r);
    forall r: Tid, b: nat ensures b in s3.Queue(r) <==> QueuedFor(s3, b, r) {
      assert b in s2.Queue(r) <==> QueuedFor(s2, b, r);
    }
    forall r: Tid ensures EpOk(s3, r) && Distinct(s3.Queue(r)) { assert EpOk(s2, r) && Distinct(s2.Queue(r)); }
    EpChangeOk(s3, t, NO_ENDPOINT);
  }

  lemma StepOk(s: System, op: Op)
    requires Inv(s)
    ensures Inv(Step(s, op))
  {
    if Enabled(s, op) {
      match op
      case DoInit(t) => assert EpOk(s, t); EpChangeOk(s, t, s.Ep(t).(init := true));
      case DoSend(from, to, payload) => SendOk(s, from, to, payload);
      case DoRecv(t, w, wait) => RecvOk(s, t, w, wait);
      case DoResume(t) =>
        assert EpOk(s, t);
        EpChangeOk(s, t, s.Ep(t).(inCall := false, timedOut := false, result := None));
      case DoTimeout(t) =>
        assert EpOk(s, t);
        EpChangeOk(s, t, s.Ep(t).(want := None, armed := false, timedOut := true));
      case DoKill(t) => KillOk(s, t);
    }
  }

  lemma {:induction false} RunOk(n: nat, maxBytes: nat, ops: seq<Op>)
    ensures Inv(Run(Boot(n, maxBytes), ops))
  {
    if ops == [] {
      var s := Boot(n, maxBytes);
      forall b: nat ensures b in s.free <==> b < n { if b < n { assert s.free[b] == b; } }
    } else {
      RunOk(n, maxBytes, ops[..|ops| - 1]);
      StepOk(Run(Boot(n, maxBytes), ops[..|ops| - 1]), ops[|ops| - 1]);
    }
  }

  // ---- promises -------------------------------------------------------------------------------------

  function UsedBlocks(blocks: seq<Block>): (r: set<nat>)
    ensures forall b: nat :: b in r <==> b < |blocks| && blocks[b].Used?
  {
    set b: nat | b in UpTo(|blocks|) && blocks[b].Used?
  }

  lemma FreeAndUsed(blocks: seq<Block>, free: seq<nat>)
    requires Distinct(free) && forall b: nat :: b in free <==> b < |blocks| && blocks[b] == Free
    ensures |free| + |UsedBlocks(blocks)| == |blocks|
  {
    var fr, used := (set b | b in free), UsedBlocks(blocks);
    CardinalityOfDistinct(free);
    assert fr + used == UpTo(|blocks|) && fr !! used;
  }

  // No block is lost or used twice, over any run: free blocks and queued messages add up to the pool.
  lemma BlocksConserved(n: nat, maxBytes: nat, ops: seq<Op>)
    ensures var s := Run(Boot(n, maxBytes), ops);
      && Distinct(s.free)
      && (forall b: nat :: b in s.free <==> b < |s.blocks| && s.blocks[b] == Free)
      && (forall t: Tid, b: nat :: b in s.Queue(t) <==> QueuedFor(s, b, t))
      && |s.free| + |UsedBlocks(s.blocks)| == |s.blocks|
  {
    var s := Run(Boot(n, maxBytes), ops);
    RunOk(n, maxBytes, ops);
    FreeAndUsed(s.blocks, s.free);
  }

  // A blocked copy receiver never coexists with a queued message from its sender that fits its
  // buffer, and a woken one always has an outcome.
  lemma NoMissedCopy(n: nat, maxBytes: nat, ops: seq<Op>, t: Tid)
    ensures var s := Run(Boot(n, maxBytes), ops); var e := s.Ep(t);
      && (e.want.Some? ==> Select(s, t, e.want.value).1 == None)
      && (Enabled(s, DoResume(t)) ==> e.timedOut || (e.result.Some? && Resume(s, t).1 == e.result.value))
  {
    var s := Run(Boot(n, maxBytes), ops);
    RunOk(n, maxBytes, ops);
    assert EpOk(s, t);
    if e: Want :| s.Ep(t).want == Some(e) {
      var q := s.Queue(t);
      assert forall j :: 0 <= j < |q| ==> q[j] in q;
    }
  }

  // While a block is free, a direct copy cannot be told from a store followed by the receive it
  // completes, but for the order of the free list: the payload is the same and every queue is as it was.
  // Without a free block the direct copy still succeeds where the store would fail.
  lemma DirectIsStoreThenSelect(s: System, from: Tid, to: Tid, payload: Payload)
    requires Inv(s) && 0 < |payload| <= s.maxBytes && s.Ep(to).init
    requires s.Ep(to).want.Some? && s.Ep(to).want.value.Takes(from, |payload|)
    ensures s.free != [] ==> s.free[0] < |s.blocks|
    ensures Send(s, from, to, payload) == (Deliver(s, to, payload), Sent)
    ensures if s.free == [] then Store(s, from, to, payload).1 == BufferEmpty
      else var (s1, _) := Store(s, from, to, payload);
        var (s2, got) := Select(s1, to, s.Ep(to).want.value);
        && got == Some(payload)
        && s2 == s.(free := s.free[1..] + [s.free[0]], queues := s.queues[to := s.Queue(to)])
  {
    assert EpOk(s, to);
    if s.free != [] {
      var b := s.free[0];
      assert b in s.free;
      var w := s.Ep(to).want.value;
      var q := s.Queue(to);
      var s1 := Store(s, from, to, payload).0;
      var q1 := q + [b];
      forall j | 0 <= j < |q| ensures !s1.Fits(q1[j], w) {
        assert q1[j] == q[j] && q[j] in q;
        assert QueuedFor(s, q[j], to) && !s.Fits(q[j], w);
      }
      assert s1.Fits(q1[|q|], w);
      assert FirstFit(s1, q1, w) == |q|;
      assert q1[..|q|] + q1[|q| + 1..] == q;
      assert s1.blocks[b := Free] == s.blocks;
    }
  }
}
