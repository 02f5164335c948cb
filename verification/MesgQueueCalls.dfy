// The history of a message queue is made of its calls: over every run, what was written to the queue are the
// arguments of the calls that returned with success, in their order, and what was returned are the contents
// of the receivers' buffers.

module MesgQueueCalls {
  import opened Basics
  import opened TaskQueue
  import opened MesgQueueSpec
  import opened MesgQueueProof
  import opened MesgQueueTheorems
  import opened MesgQueueEffects

  // ---- writing -------------------------------------------------------------------------------------------

  // What the last send or jam of t was called with.
  function LastSend(s0: Queue, ops: seq<Op>, t: Tid): Option<(Msg, bool)> {
    if ops == [] then None
    else
      var pre, op := ops[..|ops| - 1], ops[|ops| - 1];
      if op.DoSend? && op.t == t && Enabled(Run(s0, pre), op) then Some((op.m, op.front)) else LastSend(s0, pre, t)
  }

  ghost predicate SamePcs(s: Queue, s1: Queue) {
    forall t: Tid :: TaskOf(s1.tasks, t).pc == TaskOf(s.tasks, t).pc
  }

  lemma CommitKeepsPcs(s: Queue, e: End, m: Msg)
    ensures SamePcs(s, Commit(s, e, m))
  {
  }

  lemma WakeSenderKeepsPcs(s: Queue)
    ensures SamePcs(s, WakeSender(s))
  {
  }

  lemma PreparedKeepsPcs(s: Queue)
    ensures forall t: Tid :: TaskOf(Prepared(s.recvQ, s.tasks), t).pc == TaskOf(s.tasks, t).pc
  {
  }

  // A call of r leaves the others' calls alone, and its own a send only if it was one.
  ghost predicate OwnPc(s: Queue, s1: Queue, r: Tid, pc: Pc) {
    && (forall t: Tid :: t != r ==> TaskOf(s1.tasks, t).pc == TaskOf(s.tasks, t).pc)
    && (TaskOf(s1.tasks, r).pc.Sending? ==> TaskOf(s1.tasks, r).pc == pc)
  }

  lemma SendPc(s: Queue, r: Tid, m: Msg, front: bool, wait: Wait)
    requires TaskOf(s.tasks, r).pc == Idle || TaskOf(s.tasks, r).pc == Sending(m, front, wait)
    ensures OwnPc(s, SendLoop(s, r, m, front, wait).0, r, Sending(m, front, wait))
  {
    if |s.ring| < s.maxBuf {
      CommitKeepsPcs(s.With(r, TaskOf(s.tasks, r).(pc := Idle)), if front then Front else Back, m);
    }
  }

  lemma RecvPc(s: Queue, r: Tid, wait: Wait)
    requires !TaskOf(s.tasks, r).pc.Sending?
    ensures OwnPc(s, RecvLoop(s, r, wait).0, r, Idle)
  {
    if s.ring != [] {
      var m := s.ring[0];
      WakeSenderKeepsPcs(s.(ring := s.ring[1..]).With(r, TaskOf(s.tasks, r).(pc := Idle, buf := m)).Log([Take(r, m), Return(r, m)]));
    }
  }

  lemma BcastRecvPc(s: Queue, r: Tid, wait: Wait)
    requires !TaskOf(s.tasks, r).pc.Sending?
    ensures OwnPc(s, BcastLoop(s, r, wait).0, r, Idle)
  {
  }

  lemma ResumePc(s: Queue, r: Tid)
    ensures OwnPc(s, Resume(s, r).0, r, TaskOf(s.tasks, r).pc)
  {
    var k := TaskOf(s.tasks, r);
    if !k.timedOut {
      match k.pc
      case Idle =>
      case Sending(m, front, wait) => SendPc(s, r, m, front, wait);
      case Receiving(wait) => if k.info != DirectDeliver { RecvPc(s, r, wait); }
      case BcastReceiving(wait) => BcastRecvPc(s, r, wait);
    }
  }

  // Only a task's own send makes it a suspended sender.
  lemma StepKeepsCall(s: Queue, op: Op, t: Tid)
    requires !(op.DoSend? && op.t == t && Enabled(s, op)) && TaskOf(Step(s, op).0.tasks, t).pc.Sending?
    ensures TaskOf(Step(s, op).0.tasks, t).pc == TaskOf(s.tasks, t).pc
  {
    if Enabled(s, op) {
      match op
      case DoSend(r, m, front, wait) => SendPc(s, r, m, front, wait);
      case DoPostOvw(m) => CommitKeepsPcs(s, Only, m);
      case DoBroadcast(m, deferOk) => PreparedKeepsPcs(s);
      case DoRecv(r, wait) => RecvPc(s, r, wait);
      case DoBroadcastRecv(r, wait) => BcastRecvPc(s, r, wait);
      case DoResume(r) => ResumePc(s, r);
      case DoTimeout(_) =>
      case DoWakeJob =>
    }
  }

  // A suspended send waits with the message and for the end of the ring it was called with.
  lemma {:induction false} SuspendedSendKeepsMessage(n: nat, prios: Prios, ops: seq<Op>, t: Tid)
    requires n > 0
    ensures var pc := TaskOf(Run(Empty(n, prios), ops).tasks, t).pc;
      pc.Sending? ==> LastSend(Empty(n, prios), ops, t) == Some((pc.m, pc.front))
  {
    var s0 := Empty(n, prios);
    if ops != [] {
      var pre, op := ops[..|ops| - 1], ops[|ops| - 1];
      var s := Run(s0, pre);
      SuspendedSendKeepsMessage(n, prios, pre, t);
      if TaskOf(Step(s, op).0.tasks, t).pc.Sending? {
        if op.DoSend? && op.t == t && Enabled(s, op) { SendPc(s, t, op.m, op.front, op.wait); }
        else { StepKeepsCall(s, op, t); }
      }
    }
  }

  // What a call that returns with success writes: its own argument.
  function CallWrites(s0: Queue, pre: seq<Op>, op: Op): seq<Event> {
    var s := Run(s0, pre);
    if !Enabled(s, op) || Step(s, op).1 != Success then []
    else match op
      case DoSend(t, m, front, _) => [if front then Jam(m) else Put(m)]
      case DoResume(t) =>
        var call := LastSend(s0, pre, t);
        if TaskOf(s.tasks, t).pc.Sending? && call.Some?
        then [if call.value.1 then Jam(call.value.0) else Put(call.value.0)] else []
      case DoPostOvw(m) => [Over(m)]
      case DoBroadcast(m, _) => [Bcast(m, Audience(s))]
      case _ => []
  }

  function Calls(s0: Queue, ops: seq<Op>): seq<Event> {
    if ops == [] then [] else Calls(s0, ops[..|ops| - 1]) + CallWrites(s0, ops[..|ops| - 1], ops[|ops| - 1])
  }

  predicate IsWrite(e: Event) {
    e.Put? || e.Jam? || e.Over? || e.Bcast?
  }

  function Writes(es: seq<Event>): seq<Event> {
    if es == [] then [] else Writes(es[..|es| - 1]) + if IsWrite(es[|es| - 1]) then [es[|es| - 1]] else []
  }

  lemma WritesOne(es: seq<Event>, e: Event)
    ensures Writes(es + [e]) == Writes(es) + if IsWrite(e) then [e] else []
  {
    assert (es + [e])[..|es|] == es;
  }

  lemma WritesTwo(es: seq<Event>, e: Event, f: Event)
    ensures Writes(es + [e, f]) == Writes(es + [e]) + if IsWrite(f) then [f] else []
  {
    assert (es + [e, f])[..|es| + 1] == es + [e];
  }

  lemma WritesMore(es: seq<Event>, e: Event, f: Event)
    ensures Writes(es + [e]) == Writes(es) + if IsWrite(e) then [e] else []
    ensures Writes(es + [e, f]) == Writes(es + [e]) + if IsWrite(f) then [f] else []
  {
    WritesOne(es, e);
    WritesTwo(es, e, f);
  }

  // What a commit writes.
  lemma CommitWrites(s: Queue, e: End, m: Msg)
    ensures Writes(Commit(s, e, m).events) == Writes(s.events) + [EventAt(e, m)]
  {
    WritesMore(s.events, EventAt(e, m), match DirectReceiver(s) case Some(r) => Take(r, m) case None => EventAt(e, m));
  }

  lemma SendWrites(s: Queue, t: Tid, m: Msg, front: bool, wait: Wait)
    ensures var (s1, ret) := SendLoop(s, t, m, front, wait);
      Writes(s1.events) == Writes(s.events) + if ret == Success then [if front then Jam(m) else Put(m)] else []
  {
    if |s.ring| < s.maxBuf {
      CommitWrites(s.With(t, TaskOf(s.tasks, t).(pc := Idle)), if front then Front else Back, m);
    }
  }

  // Receives write nothing.
  lemma RecvWrites(s: Queue, t: Tid, wait: Wait)
    ensures Writes(RecvLoop(s, t, wait).0.events) == Writes(s.events)
  {
    if s.ring != [] { WritesMore(s.events, Take(t, s.ring[0]), Return(t, s.ring[0])); }
  }

  lemma BcastRecvWrites(s: Queue, t: Tid, wait: Wait)
    ensures Writes(BcastLoop(s, t, wait).0.events) == Writes(s.events)
  {
    if s.ring != [] { WritesMore(s.events, Read(t, s.ring[0]), Return(t, s.ring[0])); }
  }

  lemma BroadcastLogs(s: Queue, m: Msg, deferOk: bool)
    requires Inv(s) && Broadcast(s, m, deferOk).1 == Success
    ensures Broadcast(s, m, deferOk).0.events == s.events + [Bcast(m, Audience(s))]
  {
    BroadcastBegins(s, m);
    PreparedSets(s);
    AudienceIs(s);
  }

  lemma BroadcastWrites(s: Queue, m: Msg, deferOk: bool)
    requires Inv(s)
    ensures var (s1, ret) := Broadcast(s, m, deferOk);
      Writes(s1.events) == Writes(s.events) + if ret == Success then [Bcast(m, Audience(s))] else []
  {
    if Broadcast(s, m, deferOk).1 == Success {
      BroadcastLogs(s, m, deferOk);
      WritesOne(s.events, Bcast(m, Audience(s)));
    }
  }

  lemma ResumeWrites(s: Queue, t: Tid)
    requires Inv(s) && Enabled(s, DoResume(t))
    ensures var (s1, ret) := Resume(s, t); var pc := TaskOf(s.tasks, t).pc;
      Writes(s1.events) == Writes(s.events)
        + if ret == Success && pc.Sending? then [if pc.front then Jam(pc.m) else Put(pc.m)] else []
  {
    var k := TaskOf(s.tasks, t);
    assert TaskOk(k, t in s.recvQ, t in s.sendQ);
    if !k.timedOut {
      match k.pc
      case Sending(m, front, wait) => SendWrites(s, t, m, front, wait);
      case Receiving(wait) => WritesMore(s.events, Return(t, k.buf), Return(t, k.buf));
      case BcastReceiving(wait) => BcastRecvWrites(s, t, wait);
    }
  }

  lemma StepWrites(s0: Queue, pre: seq<Op>, op: Op)
    requires var s := Run(s0, pre);
      && Inv(s) && Enabled(s, op)
      && (op.DoResume? ==>
            var pc := TaskOf(s.tasks, op.t).pc; pc.Sending? ==> LastSend(s0, pre, op.t) == Some((pc.m, pc.front)))
    ensures Writes(Step(Run(s0, pre), op).0.events) == Writes(Run(s0, pre).events) + CallWrites(s0, pre, op)
  {
    var s := Run(s0, pre);
    match op
    case DoSend(t, m, front, wait) => SendWrites(s, t, m, front, wait);
    case DoResume(t) => ResumeWrites(s, t);
    case DoPostOvw(m) => if PostOvw(s, m).1 == Success { CommitWrites(s, Only, m); }
    case DoBroadcast(m, deferOk) => BroadcastWrites(s, m, deferOk);
    case DoRecv(t, wait) => RecvWrites(s, t, wait);
    case DoBroadcastRecv(t, wait) => BcastRecvWrites(s, t, wait);
    case DoTimeout(t) =>
    case DoWakeJob =>
  }

  // Over every run the messages put at the back, at the front, over the slot or broadcast are exactly the
  // arguments of the sends, jams, overwrites and broadcasts that returned with success, in that order, and each
  // broadcast is for those who were waiting for one.
  lemma {:induction false} WritesAreCalls(n: nat, prios: Prios, ops: seq<Op>)
    requires n > 0
    ensures Writes(Run(Empty(n, prios), ops).events) == Calls(Empty(n, prios), ops)
  {
    var s0 := Empty(n, prios);
    if ops != [] {
      var pre, op := ops[..|ops| - 1], ops[|ops| - 1];
      WritesAreCalls(n, prios, pre);
      RunOk(n, prios, pre);
      if op.DoResume? { SuspendedSendKeepsMessage(n, prios, pre, op.t); }
      if Enabled(Run(s0, pre), op) { StepWrites(s0, pre, op); }
    }
  }

  lemma {:induction false} PutsAreWrites(es: seq<Event>)
    ensures Puts(Writes(es)) == Puts(es)
  {
    if es != [] {
      var pre, e := es[..|es| - 1], es[|es| - 1];
      PutsAreWrites(pre);
      assert (Writes(pre) + [e])[..|Writes(pre)|] == Writes(pre) == Writes(pre) + [];
    }
  }

  // Over every run of sends and receives, the messages of the successful sends are, in the order of their
  // success, those copied to receivers followed by those in the ring.
  lemma SendsAreReceived(n: nat, prios: Prios, ops: seq<Op>)
    requires n > 0 && forall op <- ops :: PlainOp(op)
    ensures var s0 := Empty(n, prios); var s := Run(s0, ops);
      Puts(Calls(s0, ops)) == Takes(s.events) + s.ring
  {
    WritesAreCalls(n, prios, ops);
    PutsAreWrites(Run(Empty(n, prios), ops).events);
    SendRecvIsFifo(n, prios, ops);
  }

  // ---- returning --------------------------------------------------------------------------------------------

  // What a receive of t that returns with success in this step has in its buffer.
  function CallReturns(s: Queue, op: Op, t: Tid): seq<Msg> {
    var (s1, ret) := Step(s, op);
    if !Enabled(s, op) || ret != Success then []
    else match op
      case DoRecv(r, _) => if r == t then [TaskOf(s1.tasks, t).buf] else []
      case DoBroadcastRecv(r, _) => if r == t then [TaskOf(s1.tasks, t).buf] else []
      case DoResume(r) => if r == t && !TaskOf(s.tasks, t).pc.Sending? then [TaskOf(s1.tasks, t).buf] else []
      case _ => []
  }

  function Received(s0: Queue, ops: seq<Op>, t: Tid): seq<Msg> {
    if ops == [] then []
    else Received(s0, ops[..|ops| - 1], t) + CallReturns(Run(s0, ops[..|ops| - 1]), ops[|ops| - 1], t)
  }

  lemma ReturnedOne(es: seq<Event>, e: Event, t: Tid)
    ensures Returned(es + [e], t) == Returned(es, t) + if e.Return? && e.t == t then [e.m] else []
  {
    assert (es + [e])[..|es|] == es;
  }

  lemma ReturnedMore(es: seq<Event>, e: Event, f: Event, t: Tid)
    ensures Returned(es + [e], t) == Returned(es, t) + if e.Return? && e.t == t then [e.m] else []
    ensures Returned(es + [e, f], t) == Returned(es + [e], t) + if f.Return? && f.t == t then [f.m] else []
  {
    ReturnedOne(es, e, t);
    assert es + [e, f] == es + [e] + [f];
    ReturnedOne(es + [e], f, t);
  }

  lemma CommitReturns(s: Queue, e: End, m: Msg, t: Tid)
    ensures Returned(Commit(s, e, m).events, t) == Returned(s.events, t)
  {
    ReturnedMore(s.events, EventAt(e, m), match DirectReceiver(s) case Some(r) => Take(r, m) case None => EventAt(e, m), t);
  }

  lemma SendReturns(s: Queue, r: Tid, m: Msg, front: bool, wait: Wait, t: Tid)
    ensures Returned(SendLoop(s, r, m, front, wait).0.events, t) == Returned(s.events, t)
  {
    if |s.ring| < s.maxBuf {
      CommitReturns(s.With(r, TaskOf(s.tasks, r).(pc := Idle)), if front then Front else Back, m, t);
    }
  }

  lemma RecvReturns(s: Queue, r: Tid, wait: Wait, t: Tid)
    requires Inv(s) && r !in s.sendQ
    ensures var (s1, ret) := RecvLoop(s, r, wait);
      Returned(s1.events, t) == Returned(s.events, t) + if ret == Success && r == t then [TaskOf(s1.tasks, t).buf] else []
  {
    if s.ring != [] { ReturnedMore(s.events, Take(r, s.ring[0]), Return(r, s.ring[0]), t); }
  }

  lemma BcastRecvReturns(s: Queue, r: Tid, wait: Wait, t: Tid)
    requires Inv(s) && r !in s.sendQ && r !in s.recvQ
    ensures var (s1, ret) := BcastLoop(s, r, wait);
      Returned(s1.events, t) == Returned(s.events, t) + if ret == Success && r == t then [TaskOf(s1.tasks, t).buf] else []
  {
    if TaskOf(s.tasks, r).info == BroadcastDeliver {
      ReadOk(s, r);
      ReturnedMore(s.events, Read(r, s.ring[0]), Return(r, s.ring[0]), t);
    }
  }

  lemma ResumeReturns(s: Queue, r: Tid, t: Tid)
    requires Inv(s) && Enabled(s, DoResume(r))
    ensures Returned(Resume(s, r).0.events, t) == Returned(s.events, t) + CallReturns(s, DoResume(r), t)
  {
    var k := TaskOf(s.tasks, r);
    assert TaskOk(k, r in s.recvQ, r in s.sendQ);
    if !k.timedOut {
      match k.pc
      case Sending(m, front, wait) => SendReturns(s, r, m, front, wait, t);
      case Receiving(wait) => ReturnedMore(s.events, Return(r, k.buf), Return(r, k.buf), t);
      case BcastReceiving(wait) => BcastRecvReturns(s, r, wait, t);
    }
  }

  lemma StepReturns(s: Queue, op: Op, t: Tid)
    requires Inv(s) && Enabled(s, op)
    ensures Returned(Step(s, op).0.events, t) == Returned(s.events, t) + CallReturns(s, op, t)
  {
    match op
    case DoSend(r, m, front, wait) => SendReturns(s, r, m, front, wait, t);
    case DoResume(r) => ResumeReturns(s, r, t);
    case DoPostOvw(m) => if PostOvw(s, m).1 == Success { CommitReturns(s, Only, m, t); }
    case DoBroadcast(m, deferOk) =>
      ReturnedMore(s.events, Bcast(m, Delivering(Prepared(s.recvQ, s.tasks))), Over(m), t);
    case DoRecv(r, wait) => IdleFacts(s, r); RecvReturns(s, r, wait, t);
    case DoBroadcastRecv(r, wait) => IdleFacts(s, r); if s.maxBuf == 1 { BcastRecvReturns(s, r, wait, t); }
    case DoTimeout(r) =>
    case DoWakeJob =>
  }

  // Over every run the messages a task returned are the contents of its buffer as its receives ended with
  // success, in that order.
  lemma {:induction false} ReturnsAreReceives(n: nat, prios: Prios, ops: seq<Op>, t: Tid)
    requires n > 0
    ensures Returned(Run(Empty(n, prios), ops).events, t) == Received(Empty(n, prios), ops, t)
  {
    var s0 := Empty(n, prios);
    if ops != [] {
      var pre, op := ops[..|ops| - 1], ops[|ops| - 1];
      ReturnsAreReceives(n, prios, pre, t);
      RunOk(n, prios, pre);
      if Enabled(Run(s0, pre), op) { StepReturns(Run(s0, pre), op, t); }
    }
  }
}
