// The promises of the message queue, over every run of it.

module MesgQueueTheorems {
  import opened Basics
  import opened TaskQueue
  import opened MesgQueueSpec
  import opened MesgQueueProof

  // Every run, with its direct hand-overs, deferred wakes and timeouts, is a run of a bounded deque
  // in which a hand-over is an enqueue followed by the dequeue of the same message, and in which a
  // broadcast holds the slot until its last prepared reader.
  lemma RunRefinesDeque(n: nat, prios: Prios, ops: seq<Op>)
    requires n > 0
    ensures var s := Run(Empty(n, prios), ops);
      && Replay(n, s.events) == Some(Abs(s.ring, Delivering(s.tasks), Hands(s.tasks)))
      && |s.ring| <= n && s.bcast == |Delivering(s.tasks)|
  {
    RunOk(n, prios, ops);
  }

  // ---- first in, first out ---------------------------------------------------------------------------

  function Puts(es: seq<Event>): seq<Msg> {
    if es == [] then []
    else Puts(es[..|es| - 1]) + if es[|es| - 1].Put? then [es[|es| - 1].m] else []
  }

  function Takes(es: seq<Event>): seq<Msg> {
    if es == [] then []
    else Takes(es[..|es| - 1]) + if es[|es| - 1].Take? then [es[|es| - 1].m] else []
  }

  ghost predicate PlainEvents(es: seq<Event>) {
    forall e <- es :: e.Put? || e.Take? || e.Return?
  }

  lemma Shift(taken: seq<Msg>, q: seq<Msg>, m: Msg)
    ensures (taken + q) + [m] == taken + (q + [m])
    ensures q != [] ==> taken + q == (taken + [q[0]]) + q[1..]
  {
  }

  lemma {:induction false} ReplayIsFifo(n: nat, es: seq<Event>)
    requires Replay(n, es).Some? && PlainEvents(es)
    ensures Puts(es) == Takes(es) + Replay(n, es).value.q
  {
    if es != [] {
      var pre, e := es[..|es| - 1], es[|es| - 1];
      assert forall x <- pre :: x in es;
      ReplayIsFifo(n, pre);
      assert e in es;
      Shift(Takes(pre), Replay(n, pre).value.q, if e.Put? then e.m else []);
    }
  }

  // Calls of send and receive, with their suspensions and timeouts.
  predicate PlainOp(op: Op) {
    match op
    case DoSend(_, _, front, _) => !front
    case DoRecv(_, _) => true
    case DoResume(_) => true
    case DoTimeout(_) => true
    case _ => false
  }

  predicate PlainPc(pc: Pc) {
    (pc.Sending? ==> !pc.front) && !pc.BcastReceiving?
  }

  ghost predicate PlainQueue(s: Queue) {
    && PlainEvents(s.events) && s.jobs == [] && s.bcast == 0
    && forall t <- s.tasks :: PlainPc(s.tasks[t].pc)
  }

  lemma CommitIsPlain(s: Queue, m: Msg)
    requires Inv(s) && PlainQueue(s) && |s.ring| < s.maxBuf
    ensures PlainQueue(Commit(s, Back, m))
  {
    match DirectReceiver(s)
    case Some(r) =>
      assert forall e <- [Put(m), Take(r, m)] :: e.Put? || e.Take?;
    case None => StoreOk(s, Back, m);
  }

  // What a call finds of its caller as it starts or goes on.
  ghost predicate Running(s: Queue, t: Tid) {
    var k := TaskOf(s.tasks, t);
    t !in s.recvQ && t !in s.sendQ && k.info == Normal && !k.armed && !k.timedOut
  }

  lemma PlainSend(s: Queue, t: Tid, m: Msg, wait: Wait)
    requires Inv(s) && PlainQueue(s) && Running(s, t)
    ensures PlainQueue(SendLoop(s, t, m, false, wait).0)
  {
    if |s.ring| < s.maxBuf {
      var k := TaskOf(s.tasks, t).(pc := Idle);
      GoIdle(s, t, k);
      CommitIsPlain(s.With(t, k), m);
    }
  }

  lemma PlainRecv(s: Queue, t: Tid, wait: Wait)
    requires Inv(s) && PlainQueue(s) && Running(s, t)
    ensures PlainQueue(RecvLoop(s, t, wait).0)
  {
    if s.ring != [] {
      assert forall e <- [Take(t, s.ring[0]), Return(t, s.ring[0])] :: e.Take? || e.Return?;
    }
  }

  lemma PlainStep(s: Queue, op: Op)
    requires Inv(s) && PlainQueue(s) && PlainOp(op)
    ensures PlainQueue(Step(s, op).0)
  {
    if Enabled(s, op) {
      match op
      case DoSend(t, m, front, wait) => IdleFacts(s, t); PlainSend(s, t, m, wait);
      case DoRecv(t, wait) => IdleFacts(s, t); PlainRecv(s, t, wait);
      case DoResume(t) =>
        var k := TaskOf(s.tasks, t);
        assert TaskOk(k, t in s.recvQ, t in s.sendQ);
        if k.pc.Sending? && !k.timedOut { PlainSend(s, t, k.pc.m, k.pc.wait); }
      case DoTimeout(t) =>
    }
  }

  lemma {:induction false} PlainRun(n: nat, prios: Prios, ops: seq<Op>)
    requires n > 0 && forall op <- ops :: PlainOp(op)
    ensures PlainQueue(Run(Empty(n, prios), ops))
  {
    if ops != [] {
      assert forall op <- ops[..|ops| - 1] :: op in ops;
      PlainRun(n, prios, ops[..|ops| - 1]);
      RunOk(n, prios, ops[..|ops| - 1]);
      PlainStep(Run(Empty(n, prios), ops[..|ops| - 1]), ops[|ops| - 1]);
    }
  }

  // Whatever goes by hand and whatever through the ring: committed sends are, in order, the messages
  // received followed by the ring.
  lemma SendRecvIsFifo(n: nat, prios: Prios, ops: seq<Op>)
    requires n > 0 && forall op <- ops :: PlainOp(op)
    ensures var s := Run(Empty(n, prios), ops); Puts(s.events) == Takes(s.events) + s.ring
  {
    var s := Run(Empty(n, prios), ops);
    PlainRun(n, prios, ops);
    RunOk(n, prios, ops);
    ReplayIsFifo(n, s.events);
  }

  // ---- receivers ---------------------------------------------------------------------------------------

  // The messages copied to t, and those its receives returned.
  function Copied(es: seq<Event>, t: Tid): seq<Msg> {
    if es == [] then []
    else
      var e := es[|es| - 1];
      Copied(es[..|es| - 1], t) + if (e.Take? || e.Read?) && e.t == t then [e.m] else []
  }

  function Returned(es: seq<Event>, t: Tid): seq<Msg> {
    if es == [] then []
    else
      var e := es[|es| - 1];
      Returned(es[..|es| - 1], t) + if e.Return? && e.t == t then [e.m] else []
  }

  lemma {:induction false} ReplayReturnsAll(n: nat, es: seq<Event>, t: Tid)
    requires Replay(n, es).Some?
    ensures var hand := Replay(n, es).value.hand;
      Copied(es, t) == Returned(es, t) + if t in hand then [hand[t]] else []
  {
    if es != [] { ReplayReturnsAll(n, es[..|es| - 1], t); }
  }

  // Each message copied to a task is returned by one of its receives, in order; at most one, copied
  // by hand, is still waiting for the task to run.
  lemma EveryCopyIsReturned(n: nat, prios: Prios, ops: seq<Op>, t: Tid)
    requires n > 0
    ensures var s := Run(Empty(n, prios), ops);
      Copied(s.events, t) == Returned(s.events, t)
        + if TaskOf(s.tasks, t).info == DirectDeliver then [TaskOf(s.tasks, t).buf] else []
  {
    RunOk(n, prios, ops);
    ReplayReturnsAll(n, Run(Empty(n, prios), ops).events, t);
  }

  // A receiver sleeps on a normal receive only while the ring is empty or a broadcast is in flight,
  // and once woken it never has to wait again.
  lemma ReceiverNeverMisses(n: nat, prios: Prios, ops: seq<Op>, t: Tid)
    requires n > 0
    ensures var s := Run(Empty(n, prios), ops);
      && (t in s.recvQ && TaskOf(s.tasks, t).pc.Receiving? ==> s.ring == [] || s.bcast > 0)
      && (Enabled(s, DoResume(t)) && !TaskOf(s.tasks, t).pc.Sending? ==>
            Resume(s, t).1 == if TaskOf(s.tasks, t).timedOut then Timeout else Success)
  {
    var s := Run(Empty(n, prios), ops);
    RunOk(n, prios, ops);
    assert TaskOk(TaskOf(s.tasks, t), t in s.recvQ, t in s.sendQ);
  }

  // What a step adds to the history says whether its message went into the ring: a hand-over adds the
  // receiver's copy as well.
  ghost predicate Stored(s: Queue, s1: Queue) {
    |s1.events| == |s.events| + 1
  }

  // A step that may put a message into the ring.
  predicate Commits(s: Queue, op: Op) {
    op.DoSend? || op.DoPostOvw? || (op.DoResume? && TaskOf(s.tasks, op.t).pc.Sending?)
  }

  lemma StoreWakesNobody(s: Queue, e: End, m: Msg)
    requires Inv(s) && s.bcast == 0 && (if e == Only then s.maxBuf == 1 else |s.ring| < s.maxBuf)
    ensures var s1 := Commit(s, e, m);
      Stored(s, s1) ==>
        && s1.recvQ == s.recvQ && s1.tasks == s.tasks && s1.ring == RingAt(e, s.ring, m)
        && forall t <- s.recvQ :: TaskOf(s.tasks, t).info == WaitBroadcast
  {
    if DirectReceiver(s).None? {
      StoreOk(s, e, m);
      StoreFindsBroadcastOnly(s);
    }
  }

  lemma StoreFindsBroadcastOnly(s: Queue)
    requires Inv(s) && s.bcast == 0 && DirectReceiver(s).None?
    ensures forall t <- s.recvQ :: TaskOf(s.tasks, t).info == WaitBroadcast
  {
    NoneDelivering(s);
    forall t <- s.recvQ ensures TaskOf(s.tasks, t).info == WaitBroadcast {
      assert TaskOk(TaskOf(s.tasks, t), t in s.recvQ, t in s.sendQ);
    }
  }

  lemma SendWakesNobody(s: Queue, t: Tid, m: Msg, front: bool, wait: Wait)
    requires Inv(s) && Running(s, t)
    ensures var s1 := SendLoop(s, t, m, front, wait).0;
      Stored(s, s1) ==> s1.recvQ == s.recvQ && forall r <- s.recvQ :: TaskOf(s1.tasks, r).info == WaitBroadcast
  {
    if |s.ring| < s.maxBuf {
      var k := TaskOf(s.tasks, t).(pc := Idle);
      GoIdle(s, t, k);
      StoreWakesNobody(s.With(t, k), if front then Front else Back, m);
    }
  }

  // Over every run, a send, a jam or an overwrite that puts its message into the ring wakes no receiver:
  // whoever is listed then waits for a broadcast.
  lemma RingWriteWakesNobody(n: nat, prios: Prios, ops: seq<Op>, op: Op)
    requires n > 0 && Commits(Run(Empty(n, prios), ops), op)
    ensures var s := Run(Empty(n, prios), ops); var s1 := Step(s, op).0;
      Stored(s, s1) ==> s1.recvQ == s.recvQ && forall r <- s.recvQ :: TaskOf(s1.tasks, r).info == WaitBroadcast
  {
    var s := Run(Empty(n, prios), ops);
    RunOk(n, prios, ops);
    if Enabled(s, op) {
      match op
      case DoSend(t, m, front, wait) => IdleFacts(s, t); SendWakesNobody(s, t, m, front, wait);
      case DoPostOvw(m) => if s.maxBuf == 1 && s.bcast == 0 { StoreWakesNobody(s, Only, m); }
      case DoResume(t) =>
        var k := TaskOf(s.tasks, t);
        assert TaskOk(k, t in s.recvQ, t in s.sendQ);
        if !k.timedOut { SendWakesNobody(s, t, k.pc.m, k.pc.front, k.pc.wait); }
    }
  }

  // ---- broadcasts -----------------------------------------------------------------------------------------

  function Readers(es: seq<Event>): seq<Tid> {
    if es == [] then []
    else Readers(es[..|es| - 1]) + if es[|es| - 1].Read? then [es[|es| - 1].t] else []
  }

  // What is left of a broadcast after the events of mid.
  ghost predicate Left(m: Msg, to: set<Tid>, mid: seq<Event>, a: Abs) {
    && Distinct(Readers(mid)) && a.pending == to - (set t | t in Readers(mid))
    && (forall e <- mid :: e.Read? ==> e.m == m && e.t in to)
    && (a.pending != {} ==> a.q == [m] && forall e <- mid :: e.Read? || e.Return?)
  }

  lemma LeftStep(n: nat, m: Msg, to: set<Tid>, mid: seq<Event>, a: Abs, e: Event)
    requires Left(m, to, mid, a) && !e.Bcast? && AbsStep(n, a, e).Some?
    requires a.pending == {} || a.q == [m]
    ensures Left(m, to, mid + [e], AbsStep(n, a, e).value)
  {
    assert (mid + [e])[..|mid|] == mid;
    var rs := Readers(mid);
    if e.Read? { assert (set t | t in rs + [e.t]) == (set t | t in rs) + {e.t}; }
  }

  // Up to the next broadcast: only prepared tasks read, each at most once and each the payload; until
  // the last of them has read, the slot holds the payload and nothing else happens to it.
  lemma {:induction false} ReplayBroadcast(n: nat, pre: seq<Event>, m: Msg, to: set<Tid>, mid: seq<Event>)
    requires Replay(n, pre + [Bcast(m, to)] + mid).Some?
    requires forall e <- mid :: !e.Bcast?
    ensures Left(m, to, mid, Replay(n, pre + [Bcast(m, to)] + mid).value)
  {
    var es := pre + [Bcast(m, to)];
    if mid == [] {
      assert es + [] == es && es[..|es| - 1] == pre;
    } else {
      var front, e := mid[..|mid| - 1], mid[|mid| - 1];
      assert (es + mid)[..|es + mid| - 1] == es + front && e in mid;
      assert forall x <- front :: x in mid;
      ReplayBroadcast(n, pre, m, to, front);
      LeftStep(n, m, to, front, Replay(n, es + front).value, e);
      assert mid == front + [e];
    }
  }

  lemma {:induction false} PrefixReplays(n: nat, es: seq<Event>, post: seq<Event>)
    requires Replay(n, es + post).Some?
    ensures Replay(n, es).Some?
    decreases |post|
  {
    if post == [] {
      assert es + post == es;
    } else {
      assert (es + post)[..|es + post| - 1] == es + post[..|post| - 1];
      PrefixReplays(n, es, post[..|post| - 1]);
    }
  }

  // The slot went to other uses within es.
  ghost predicate Reused(es: seq<Event>) {
    exists e <- es :: !e.Read? && !e.Return?
  }

  // In every run, each broadcast is read only by tasks it was prepared for, by each at most once and
  // with its own payload; the slot is not used for anything else before all of them have read it.
  lemma BroadcastReadOnce(n: nat, prios: Prios, ops: seq<Op>,
                          pre: seq<Event>, m: Msg, to: set<Tid>, mid: seq<Event>, post: seq<Event>)
    requires n > 0 && Run(Empty(n, prios), ops).events == pre + [Bcast(m, to)] + mid + post
    requires forall e <- mid :: !e.Bcast?
    ensures Distinct(Readers(mid)) && (forall t <- Readers(mid) :: t in to)
    ensures forall e <- mid :: e.Read? ==> e.m == m
    ensures Reused(mid) ==> forall t <- to :: t in Readers(mid)
  {
    RunOk(n, prios, ops);
    PrefixReplays(n, pre + [Bcast(m, to)] + mid, post);
    ReadOnce(n, pre, m, to, mid);
  }

  lemma ReadOnce(n: nat, pre: seq<Event>, m: Msg, to: set<Tid>, mid: seq<Event>)
    requires Replay(n, pre + [Bcast(m, to)] + mid).Some?
    requires forall e <- mid :: !e.Bcast?
    ensures Distinct(Readers(mid)) && (forall t <- Readers(mid) :: t in to)
    ensures forall e <- mid :: e.Read? ==> e.m == m
    ensures Reused(mid) ==> forall t <- to :: t in Readers(mid)
  {
    ReplayBroadcast(n, pre, m, to, mid);
    ReadersRead(mid, to);
    if Reused(mid) {
      var pending := Replay(n, pre + [Bcast(m, to)] + mid).value.pending;
      assert pending == {};
      forall t <- to ensures t in Readers(mid) { assert t !in pending; }
    }
  }

  lemma {:induction false} ReadersRead(es: seq<Event>, to: set<Tid>)
    requires forall e <- es :: e.Read? ==> e.t in to
    ensures forall t <- Readers(es) :: t in to
  {
    if es != [] {
      assert forall e <- es[..|es| - 1] :: e in es;
      ReadersRead(es[..|es| - 1], to);
    }
  }

  // The counter is the prepared receivers still listed plus those woken and not yet resumed; those
  // listed are exactly the ones the one pending wake will find.
  lemma BroadcastCount(n: nat, prios: Prios, ops: seq<Op>)
    requires n > 0
    ensures var s := Run(Empty(n, prios), ops);
      && s.bcast == |Listed(s)| + |Delivering(s.tasks) - Listed(s)|
      && (s.jobs != [] ==> |s.jobs| == 1 && s.jobs[0] == |Listed(s)|)
      && (s.jobs == [] ==> Listed(s) == {})
  {
    RunOk(n, prios, ops);
    var s := Run(Empty(n, prios), ops);
    assert Delivering(s.tasks) == Listed(s) + (Delivering(s.tasks) - Listed(s));
  }

  // While a broadcast is in flight nobody but its last reader changes the slot: a send or jam finds
  // it full, an overwrite is refused, a normal receive finds nothing.
  lemma SlotReserved(n: nat, prios: Prios, ops: seq<Op>, op: Op)
    requires n > 0 && Run(Empty(n, prios), ops).bcast > 0
    ensures var s := Run(Empty(n, prios), ops);
      var (s1, ret) := Step(s, op);
      if s.bcast == 1 && op.DoResume? && Enabled(s, op) && TaskOf(s.tasks, op.t).info == BroadcastDeliver
      then s1.ring == [] && s1.bcast == 0
      else s1.ring == s.ring && s1.bcast > 0
           && (op.DoSend? || op.DoRecv? || op.DoPostOvw? || op.DoBroadcast? ==> ret != Success)
  {
    var s := Run(Empty(n, prios), ops);
    RunOk(n, prios, ops);
    if Enabled(s, op) {
      match op
      case DoResume(t) =>
        assert TaskOk(TaskOf(s.tasks, t), t in s.recvQ, t in s.sendQ);
        assert s.ring[1..] == [];
      case DoBroadcastRecv(t, wait) => IdleFacts(s, t);
      case _ =>
    }
  }
}
