// The promises of the by-reference messages, over every run.

module MesgTheorems {
  import opened Basics
  import opened Mem
  import opened TaskQueue
  import opened MesgSpec
  import opened MesgProof

  // Every message that is not free is on exactly one owned list, its owner's, and it is on that
  // task's receive queue exactly while queued.
  lemma OwnershipHolds(sizes: seq<nat>, prios: Prios, ops: seq<Op>)
    ensures var s := Run(Boot(sizes, prios), ops);
      && (forall m: Mid, t: Tid :: m in At(s.owned, t) <==> s.Hdr(m).owner == Some(t))
      && (forall m: Mid :: s.Hdr(m).st == Free <==> s.Hdr(m).owner == None)
      && (forall m: Mid, t: Tid :: m in At(s.queues, t) <==> s.Hdr(m).st == Queued && s.Hdr(m).owner == Some(t))
      && (forall t: Tid :: Distinct(At(s.owned, t)) && Distinct(At(s.queues, t)))
  {
    var s := Run(Boot(sizes, prios), ops);
    RunOk(sizes, prios, ops);
    forall m: Mid, t: Tid
      ensures m in At(s.queues, t) <==> s.Hdr(m).st == Queued && s.Hdr(m).owner == Some(t)
    {
      assert None != Some(m);
    }
  }

  lemma PoolAccounts(s: System, p: nat)
    requires p in s.pools && PoolOk(s, p)
    ensures var mem := s.pools[p].mem;
      && (forall b: nat :: b in mem.HeldSet() <==> s.Hdr(Mid(p, b)).st != Free)
      && |mem.free| + |mem.HeldSet()| == mem.nMax
      && (s.pools[p].waiters != [] ==> mem.free == [])
  {
    var mem := s.pools[p].mem;
    PoolConserves(mem);
    forall b: nat ensures b in mem.HeldSet() <==> s.Hdr(Mid(p, b)).st != Free {
      assert mem.Held(b) <==> s.Hdr(Mid(p, b)).st != Free;
    }
  }

  // Free blocks and messages in use add up to the pool, and allocators wait only on a pool without
  // a free block.
  lemma PoolsBalance(sizes: seq<nat>, prios: Prios, ops: seq<Op>, p: nat)
    requires p in Run(Boot(sizes, prios), ops).pools
    ensures var s := Run(Boot(sizes, prios), ops); var mem := s.pools[p].mem;
      && (forall b: nat :: b in mem.HeldSet() <==> s.Hdr(Mid(p, b)).st != Free)
      && |mem.free| + |mem.HeldSet()| == mem.nMax
      && (s.pools[p].waiters != [] ==> mem.free == [])
  {
    RunOk(sizes, prios, ops);
    PoolAccounts(Run(Boot(sizes, prios), ops), p);
  }

  // A blocked receiver never coexists with a queued message its filter would take, and a woken call
  // always has its message or its timeout: nothing is ever tried twice.
  lemma NoMissedMessage(sizes: seq<nat>, prios: Prios, ops: seq<Op>, t: Tid)
    ensures var s := Run(Boot(sizes, prios), ops); var e := s.Ep(t);
      && (e.waiting ==> e.pc.Waiting? && Select(s, t, e.pc.from).1 == None)
      && (Enabled(s, DoResume(t)) ==> Resume(s, t).1 == if e.timedOut then Timeout else Done)
      && (Enabled(s, DoResume(t)) && !e.timedOut ==> Resume(s, t).2 == e.got && e.got.Some?)
  {
    var s := Run(Boot(sizes, prios), ops);
    RunOk(sizes, prios, ops);
    assert EpOk(s, t);
    var e := s.Ep(t);
    if e.waiting {
      var q := At(s.queues, t);
      assert forall j :: 0 <= j < |q| ==> q[j] in q && !Matches(s.Hdr(q[j]), e.pc.from);
    }
  }

  // A receive takes the earliest queued message that matches and keeps the order of the others.
  lemma SelectsEarliest(s: System, t: Tid, f: Filter)
    ensures var (s1, got) := Select(s, t, f); var q := At(s.queues, t);
      match got
      case None => s1 == s && forall m <- q :: !Matches(s.Hdr(m), f)
      case Some(m) =>
        exists pre, post :: q == pre + [m] + post && At(s1.queues, t) == pre + post
          && Matches(s.Hdr(m), f) && forall x <- pre :: !Matches(s.Hdr(x), f)
  {
    var q := At(s.queues, t);
    var i := FirstMatch(s, q, f);
    if i < |q| {
      assert q == q[..i] + [q[i]] + q[i + 1..];
    }
  }

  // The state of a send once the receiver owns the message.
  function Transferred(s: System, from: Tid, to: Tid, m: Mid): System {
    SetOwner(s.WithHdr(m, s.Hdr(m).(sender := Some(from))), m, Some(to))
  }

  lemma FirstStored(s1: System, to: Tid, m: Mid, f: Filter)
    requires m !in At(s1.queues, to) && NoMatch(s1, At(s1.queues, to), f)
    ensures var q := At(s1.queues, to);
      FirstMatch(Store(s1, to, m), q + [m], f) == if Matches(s1.Hdr(m), f) then |q| else |q| + 1
  {
    var q, s3 := At(s1.queues, to), Store(s1, to, m);
    var q1 := q + [m];
    forall j | 0 <= j < |q| ensures !Matches(s3.Hdr(q1[j]), f) {
      assert q1[j] == q[j] && q[j] in q && s3.Hdr(q[j]) == s1.Hdr(q[j]);
    }
    assert q1[|q|] == m && s3.Hdr(m) == s1.Hdr(m).(st := Queued);
  }

  // With no earlier match on the queue, selecting after a store finds the stored message or nothing.
  lemma SelectStored(s1: System, to: Tid, m: Mid, f: Filter)
    requires m !in At(s1.queues, to) && NoMatch(s1, At(s1.queues, to), f)
    ensures var q := At(s1.queues, to); var (s2, got) := Select(Store(s1, to, m), to, f);
      if Matches(s1.Hdr(m), f)
      then got == Some(m) && s2 == s1.(queues := s1.queues[to := q], hdrs := s1.hdrs[m := s1.Hdr(m).(st := Received)])
      else got == None
  {
    var q := At(s1.queues, to);
    FirstStored(s1, to, m, f);
    assert (q + [m])[..|q|] + (q + [m])[|q| + 1..] == q;
  }

  // Direct delivery cannot be told from queueing the message and letting the receiver select: the
  // receiver would get this very message, and every queue would be as it is.
  lemma DirectIsStoreThenSelect(s: System, from: Tid, to: Tid, m: Mid)
    requires Inv(s) && Owned(s.Hdr(m).st) && s.Ep(to).init && s.Ep(to).waiting
    ensures s.Ep(to).pc.Waiting?
    ensures var s1 := Transferred(s, from, to, m); var f := s.Ep(to).pc.from;
      var (s2, got) := Select(Store(s1, to, m), to, f);
      if Matches(s1.Hdr(m), f) then
        && got == Some(m) && s2.queues == s.queues[to := At(s.queues, to)]
        && Send(s, from, to, m).0 == s2.(queues := s.queues).WithEp(to, s.Ep(to).(waiting := false, armed := false, got := Some(m)))
      else got == None && Send(s, from, to, m).0 == Store(s1, to, m)
  {
    assert EpOk(s, to);
    TransferOk(s, from, to, m);
    var s1 := Transferred(s, from, to, m);
    assert m !in At(s1.queues, to) by { assert QueueOk(s1, Some(m)); }
    assert EpOk(s1, to);
    SelectStored(s1, to, m, s.Ep(to).pc.from);
  }

  // Where a message given back goes: to the first waiting allocator, else among the free blocks.
  lemma GivenBack(s: System, m: Mid)
    requires Inv(s) && Owned(s.Hdr(m).st)
    ensures m.pool in s.pools
    ensures var s1 := GiveBack(s, m); var ws := s.pools[m.pool].waiters;
      if ws != []
      then s1.Hdr(m) == Mesg(Allocated, Some(ws[0]), None) && s1.Ep(ws[0]).got == Some(m)
           && s1.pools[m.pool] == s.pools[m.pool].(waiters := ws[1..])
      else s1.Hdr(m).st == Free && s1.pools[m.pool].mem == s.pools[m.pool].mem.Give(m.blk)
  {
    if s.pools[m.pool].waiters != [] { HandoffIs(s, m); } else { SetOwnerOk(s, m, None); }
  }

  // After the death of a task, in any run: it owns no message, nothing is queued to it, and all the
  // accounting holds, so each of its buffers has a living owner or is free.
  lemma DeathReleasesAll(sizes: seq<nat>, prios: Prios, ops: seq<Op>, t: Tid)
    ensures var s := Run(Boot(sizes, prios), ops + [DoKill(t)]);
      && At(s.owned, t) == [] && At(s.queues, t) == [] && !s.Ep(t).init
      && (forall m: Mid :: s.Hdr(m).owner != Some(t)) && Inv(s)
  {
    var s := Run(Boot(sizes, prios), ops);
    RunOk(sizes, prios, ops);
    assert (ops + [DoKill(t)])[..|ops|] == ops;
    KillOk(s, t);
  }
}
