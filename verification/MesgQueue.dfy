// The message queue in the code's own form: an object over the word ring whose calls walk and
// change the wait lists and the waiters' records in place. Every method is proved against the step
// functions of MesgQueueSpec, so the theorems of MesgQueueTheorems are about these bodies.

module MesgQueue {
  import opened Basics
  import opened TaskQueue
  import opened RingBuf
  import opened MesgQueueSpec
  import opened MesgQueueProof

  lemma {:induction false} CountGrows(q: seq<Tid>, i: nat, tasks: Tasks, info: Info)
    requires i <= |q|
    ensures CountInfo(q[..i], tasks, info) <= CountInfo(q, tasks, info)
    ensures CountInfo(q[..i], tasks, info) == CountInfo(q, tasks, info) ==>
      forall j :: i <= j < |q| ==> TaskOf(tasks, q[j]).info != info
    decreases |q|
  {
    if i < |q| {
      CountGrows(q[..|q| - 1], i, tasks, info);
      assert q[..|q| - 1][..i] == q[..i];
    } else {
      assert q[..i] == q;
    }
  }

  // A broadcast waiter becomes a prepared receiver, without a timeout.
  function MarkOne(tasks: Tasks, t: Tid): Tasks {
    var k := TaskOf(tasks, t);
    if k.info == WaitBroadcast then tasks[t := k.(info := BroadcastDeliver, armed := false)] else tasks
  }

  lemma PreparedMore(q: seq<Tid>, i: nat, tasks: Tasks)
    requires Distinct(q) && i < |q|
    ensures Prepared(q[..0], tasks) == tasks
    ensures Prepared(q[..i + 1], tasks) == MarkOne(Prepared(q[..i], tasks), q[i])
    ensures CountInfo(q[..i + 1], tasks, WaitBroadcast) ==
      CountInfo(q[..i], tasks, WaitBroadcast) + if TaskOf(tasks, q[i]).info == WaitBroadcast then 1 else 0
    ensures TaskOf(Prepared(q[..i], tasks), q[i]) == TaskOf(tasks, q[i])
  {
    assert q[..i + 1][..i] == q[..i];
    assert q[i] !in q[..i];
    assert forall t :: t in q[..i + 1] <==> t in q[..i] || t == q[i];
  }

  lemma PreparedEnough(q: seq<Tid>, i: nat, tasks: Tasks)
    requires i <= |q| && CountInfo(q[..i], tasks, WaitBroadcast) == CountInfo(q, tasks, WaitBroadcast)
    ensures Prepared(q[..i], tasks) == Prepared(q, tasks)
  {
    CountGrows(q, i, tasks, WaitBroadcast);
    forall t | t in q && TaskOf(tasks, t).info == WaitBroadcast ensures t in q[..i] {
      var j :| 0 <= j < |q| && q[j] == t;
      assert j < i;
      assert q[..i][j] == t;
    }
  }

  // Suspended senders hold messages of the queue's size.
  ghost predicate Sized(tasks: Tasks, size: nat) {
    forall t <- tasks :: tasks[t].pc.Sending? ==> |tasks[t].pc.m| == size
  }

  lemma CommitSized(s: Queue, e: End, m: Msg, size: nat)
    requires Sized(s.tasks, size)
    ensures Sized(Commit(s, e, m).tasks, size)
  {
  }

  lemma SendSized(s: Queue, t: Tid, m: Msg, front: bool, wait: Wait)
    requires Sized(s.tasks, |m|)
    ensures Sized(SendLoop(s, t, m, front, wait).0.tasks, |m|)
  {
    var k := TaskOf(s.tasks, t).(pc := Idle);
    CommitSized(s.With(t, k), if front then Front else Back, m, |m|);
  }

  lemma ResumeSized(s: Queue, t: Tid, size: nat)
    requires Inv(s) && Sized(s.tasks, size) && Enabled(s, DoResume(t))
    ensures Sized(Resume(s, t).0.tasks, size)
  {
    var pc := TaskOf(s.tasks, t).pc;
    if pc.Sending? { SendSized(s, t, pc.m, pc.front, pc.wait); }
  }

  lemma StepSized(s: Queue, op: Op, size: nat)
    requires Inv(s) && Sized(s.tasks, size) && (op.DoSend? ==> |op.m| == size)
    ensures Sized(Step(s, op).0.tasks, size)
  {
    match op
    case DoSend(t, m, front, wait) => SendSized(s, t, m, front, wait);
    case DoResume(t) => if Enabled(s, op) { ResumeSized(s, t, size); }
    case DoPostOvw(m) => CommitSized(s, Only, m, size);
    case _ => OthersSized(s, op, size);
  }

  lemma OthersSized(s: Queue, op: Op, size: nat)
    requires Sized(s.tasks, size) && (op.DoRecv? || op.DoBroadcastRecv? || op.DoBroadcast? || op.DoTimeout? || op.DoWakeJob?)
    ensures Sized(Step(s, op).0.tasks, size)
  {
    match op
    case DoRecv(t, wait) =>
    case DoBroadcastRecv(t, wait) =>
    case DoBroadcast(m, deferOk) =>
    case DoTimeout(t) =>
    case DoWakeJob =>
  }

  class MessageQueue {
    const ring: Ring
    var bcast: nat        // broadcastReceivers
    var recvQ: seq<Tid>   // waitingReceivers
    var sendQ: seq<Tid>   // waitingSenders
    var jobs: seq<nat>    // deferred broadcast wakes of this queue
    var tasks: Tasks
    var prios: Prios
    ghost var events: seq<Event>

    constructor (buffer: array<nat>, mesgWords: nat, nMesg: nat, priorities: Prios)
      requires mesgWords > 0 && nMesg > 0 && buffer.Length == mesgWords * nMesg
      ensures Valid() && Contents() == Empty(nMesg, priorities) && ring.dataSize == mesgWords
    {
      ring := new Ring(buffer, mesgWords, nMesg);
      bcast, recvQ, sendQ, jobs, tasks, prios, events := 0, [], [], [], map[], priorities, [];
      new;
      RunOk(nMesg, priorities, []);
    }

    ghost function Contents(): Queue
      reads this, ring
    {
      Queue(ring.maxBuf, ring.Contents(), bcast, recvQ, sendQ, jobs, tasks, prios, events)
    }

    ghost predicate Valid()
      reads this, ring, ring.buf
    {
      ring.Valid() && Inv(Contents()) && Sized(tasks, ring.dataSize)
    }

    // kMesgQueueDeqNormalReceiver_
    method DeqNormalReceiver() returns (found: bool, t: Tid)
      requires Distinct(recvQ)
      modifies this`recvQ
      ensures found <==> FirstNormal(old(recvQ), tasks) < |old(recvQ)|
      ensures found ==> t == old(recvQ)[FirstNormal(old(recvQ), tasks)] && recvQ == Without(old(recvQ), t)
      ensures !found ==> recvQ == old(recvQ)
    {
      var i := 0;
      while i < |recvQ|
        invariant 0 <= i <= |recvQ| && recvQ == old(recvQ)
        invariant FirstNormal(recvQ, tasks) == FirstNormal(recvQ, tasks, i)
      {
        if TaskOf(tasks, recvQ[i]).info != WaitBroadcast {
          t := recvQ[i];
          recvQ := Without(recvQ, t);
          return true, t;
        }
        i := i + 1;
      }
      return false, 0;
    }

    // kMesgQueueCountBroadcastWaiters_
    method CountBroadcastWaiters() returns (n: nat)
      ensures n == CountInfo(recvQ, tasks, WaitBroadcast)
    {
      n := 0;
      for i := 0 to |recvQ|
        invariant n == CountInfo(recvQ[..i], tasks, WaitBroadcast)
      {
        assert recvQ[..i + 1][..i] == recvQ[..i];
        if TaskOf(tasks, recvQ[i]).info == WaitBroadcast { n := n + 1; }
      }
      assert recvQ[..|recvQ|] == recvQ;
    }

    // kMesgQueuePrepareBroadcastReceivers_, with the count the broadcast passes.
    method PrepareBroadcastReceivers(nTasks: nat) returns (marked: nat)
      requires Distinct(recvQ) && nTasks == CountInfo(recvQ, tasks, WaitBroadcast)
      modifies this`tasks
      ensures tasks == Prepared(recvQ, old(tasks)) && marked == nTasks
    {
      marked := 0;
      var i := 0;
      if recvQ != [] { PreparedMore(recvQ, 0, tasks); }
      while marked < nTasks && i < |recvQ|
        invariant 0 <= i <= |recvQ|
        invariant marked == CountInfo(recvQ[..i], old(tasks), WaitBroadcast)
        invariant tasks == Prepared(recvQ[..i], old(tasks))
      {
        PreparedMore(recvQ, i, old(tasks));
        var t := recvQ[i];
        if TaskOf(tasks, t).info == WaitBroadcast {
          tasks := MarkOne(tasks, t);
          marked := marked + 1;
        }
        i := i + 1;
      }
      assert i == |recvQ| ==> recvQ[..i] == recvQ;
      CountGrows(recvQ, i, old(tasks), WaitBroadcast);
      PreparedEnough(recvQ, i, old(tasks));
    }

    // kMesgQueueBroadcastWake
    method WakeBroadcast(nTasks: nat)
      modifies this`recvQ
      ensures recvQ == DropDelivering(old(recvQ), tasks, nTasks)
    {
      var woken, i := 0, 0;
      ghost var q := recvQ;
      while woken < nTasks && i < |recvQ|
        invariant 0 <= i <= |recvQ| && woken <= nTasks
        invariant recvQ[..i] + DropDelivering(recvQ[i..], tasks, nTasks - woken) == DropDelivering(q, tasks, nTasks)
        decreases |recvQ| - i
      {
        ghost var before, rest := recvQ[..i], recvQ[i..];
        assert rest[1..] == recvQ[i + 1..];
        if TaskOf(tasks, recvQ[i]).info == BroadcastDeliver {
          recvQ := recvQ[..i] + recvQ[i + 1..];
          assert recvQ[..i] == before && recvQ[i..] == rest[1..];
          woken := woken + 1;
        } else {
          assert recvQ[..i + 1] == before + [rest[0]];
          i := i + 1;
        }
      }
      assert recvQ[..i] + recvQ[i..] == recvQ;
    }

    // kMesgQueueWakeNormalReceiverIfAny_
    method WakeNormalReceiverIfAny()
      requires Distinct(recvQ)
      modifies this`recvQ, this`tasks
      ensures Contents() == WakeNormal(old(Contents()))
    {
      var found, t := DeqNormalReceiver();
      if found { tasks := tasks[t := TaskOf(tasks, t).(info := Normal, armed := false)]; }
    }

    // kMesgQueueWakeSenderIfAny_
    method WakeSenderIfAny()
      modifies this`sendQ, this`tasks
      ensures Contents() == WakeSender(old(Contents()))
    {
      if |sendQ| > 0 {
        var t := sendQ[0];
        sendQ := sendQ[1..];
        tasks := tasks[t := TaskOf(tasks, t).(armed := false)];
      }
    }

    // kMesgQueueDirectSendIfAny_
    method DirectSendIfAny(m: Msg, ghost event: Event) returns (sent: bool)
      requires Distinct(recvQ) && ring.Valid()
      modifies this`recvQ, this`tasks, this`events
      ensures match DirectReceiver(old(Contents()))
              case None => !sent && Contents() == old(Contents())
              case Some(r) => sent && Contents() == Deliver(old(Contents()), r, m).Log([event, Take(r, m)])
    {
      if ring.nFull != 0 || bcast > 0 {
        assert ring.nFull != 0 ==> ring.Contents() != [];
        return false;
      }
      var found, r := DeqNormalReceiver();
      if !found { return false; }
      tasks := tasks[r := TaskOf(tasks, r).(info := DirectDeliver, armed := false, buf := m)];
      events := events + [event, Take(r, m)];
      return true;
    }

    // The tail of kMesgQueueSend, kMesgQueueJam and kMesgQueuePostOvw.
    method Hand(e: End, m: Msg)
      requires Distinct(recvQ) && ring.Valid() && |m| == ring.dataSize
      requires if e == Only then ring.maxBuf == 1 else ring.nFull < ring.maxBuf
      modifies this`recvQ, this`tasks, this`events, ring, ring.buf
      ensures ring.Valid() && ring.buf == old(ring.buf) && ring.dataSize == old(ring.dataSize)
      ensures Contents() == Commit(old(Contents()), e, m)
    {
      var sent := DirectSendIfAny(m, EventAt(e, m));
      if sent { return; }
      var wasEmpty := ring.nFull == 0;
      assert wasEmpty <==> ring.Contents() == [];
      match e {
        case Back => ring.Write(m);
        case Front => ring.Jam(m);
        case Only => ring.Overwrite(m);
      }
      events := events + [EventAt(e, m)];
      if e != Only || wasEmpty { WakeNormalReceiverIfAny(); }
    }

    // Suspension of the caller on waitingSenders.
    method BlockSender(t: Tid, k: Task)
      modifies this`sendQ, this`tasks
      ensures sendQ == EnqByPrio(old(sendQ), prios, t) && tasks == old(tasks)[t := k]
    {
      sendQ := EnqByPrio(sendQ, prios, t);
      tasks := tasks[t := k];
    }

    // Suspension of the caller on waitingReceivers.
    method BlockReceiver(t: Tid, k: Task)
      modifies this`recvQ, this`tasks
      ensures recvQ == EnqByPrio(old(recvQ), prios, t) && tasks == old(tasks)[t := k]
    {
      recvQ := EnqByPrio(recvQ, prios, t);
      tasks := tasks[t := k];
    }

    // kMesgQueueSend and kMesgQueueJam, from the test of the full queue on.
    method TrySend(t: Tid, m: Msg, front: bool, wait: Wait) returns (ret: Ret)
      requires Distinct(recvQ) && ring.Valid() && |m| == ring.dataSize
      modifies this`recvQ, this`sendQ, this`tasks, this`events, ring, ring.buf
      ensures ring.Valid() && ring.buf == old(ring.buf) && ring.dataSize == old(ring.dataSize)
      ensures (Contents(), ret) == SendLoop(old(Contents()), t, m, front, wait)
    {
      if ring.nFull >= ring.maxBuf {
        if wait == NoWait { return BufferFull; }
        BlockSender(t, TaskOf(tasks, t).(pc := Sending(m, front, wait), armed := wait == Bounded));
        return Blocked;
      }
      tasks := tasks[t := TaskOf(tasks, t).(pc := Idle)];
      Hand(if front then Front else Back, m);
      return Success;
    }

    // kMesgQueueRecv, from the test of the empty queue on.
    method TryRecv(t: Tid, wait: Wait) returns (ret: Ret)
      requires ring.Valid()
      modifies this`recvQ, this`sendQ, this`tasks, this`events, ring
      ensures ring.Valid() && ring.buf == old(ring.buf) && ring.dataSize == old(ring.dataSize)
      ensures (Contents(), ret) == RecvLoop(old(Contents()), t, wait)
    {
      assert ring.nFull == |ring.Contents()|;
      if ring.nFull == 0 || bcast > 0 {
        if wait == NoWait { return BufferEmpty; }
        BlockReceiver(t, TaskOf(tasks, t).(pc := Receiving(wait), info := Normal, armed := wait == Bounded));
        return Blocked;
      }
      var m := ring.Read();
      tasks := tasks[t := TaskOf(tasks, t).(pc := Idle, buf := m)];
      events := events + [Take(t, m), Return(t, m)];
      WakeSenderIfAny();
      return Success;
    }

    // kMesgQueueBroadcastRecv, from the test of waitInfo on. The assertions are the code's own.
    method TryBroadcastRecv(t: Tid, wait: Wait) returns (ret: Ret)
      requires ring.Valid()
      requires TaskOf(tasks, t).info == BroadcastDeliver ==> ring.nFull == 1 && bcast > 0
      modifies this`recvQ, this`sendQ, this`tasks, this`events, this`bcast, ring
      ensures ring.Valid() && ring.buf == old(ring.buf) && ring.dataSize == old(ring.dataSize)
      ensures (Contents(), ret) == BcastLoop(old(Contents()), t, wait)
    {
      var k := TaskOf(tasks, t);
      if k.info != BroadcastDeliver {
        if wait == NoWait { return BufferEmpty; }
        BlockReceiver(t, k.(pc := BcastReceiving(wait), info := WaitBroadcast, armed := wait == Bounded));
        return Blocked;
      }
      assert ring.nFull == |ring.Contents()| == 1;
      assert bcast > 0;
      if bcast == 1 {
        var m := ring.Read();
        bcast := 0;
        tasks := tasks[t := k.(pc := Idle, info := Normal, buf := m)];
        events := events + [Read(t, m), Return(t, m)];
        WakeSenderIfAny();
      } else {
        var m := ring.Peek();
        bcast := bcast - 1;
        tasks := tasks[t := k.(pc := Idle, info := Normal, buf := m)];
        events := events + [Read(t, m), Return(t, m)];
      }
      return Success;
    }

    // kMesgQueueBroadcast
    method TryBroadcast(m: Msg, deferOk: bool) returns (ret: Ret, prepared: nat)
      requires Distinct(recvQ) && ring.Valid() && |m| == ring.dataSize
      modifies this`bcast, this`recvQ, this`tasks, this`events, this`jobs, ring, ring.buf
      ensures ring.Valid() && ring.buf == old(ring.buf) && ring.dataSize == old(ring.dataSize)
      ensures (Contents(), ret) == Broadcast(old(Contents()), m, deferOk)
      ensures prepared == if ret == Success then CountInfo(old(recvQ), old(tasks), WaitBroadcast) else 0
    {
      prepared := 0;
      if ring.maxBuf > 1 { return NotAMbox, 0; }
      var toWake := CountBroadcastWaiters();
      if toWake == 0 { return BufferEmpty, 0; }
      if ring.nFull >= ring.maxBuf { return BufferFull, 0; }
      var deferWake := toWake > 1;
      if deferWake {
        if !deferOk { return NoPostProc, 0; }
        jobs := jobs + [toWake];
      }
      bcast := toWake;
      ring.Write(m);
      prepared := PrepareBroadcastReceivers(toWake);
      bcast := prepared;
      events := events + [Bcast(m, Delivering(tasks))];
      if !deferWake { WakeBroadcast(prepared); }
      return Success, prepared;
    }

    // ---- the calls, on a queue in any state a run reaches ---------------------------------------------

    method Send(t: Tid, m: Msg, front: bool, wait: Wait) returns (ret: Ret)
      requires Valid() && Enabled(Contents(), DoSend(t, m, front, wait)) && |m| == ring.dataSize
      modifies this, ring, ring.buf
      ensures Valid() && (Contents(), ret) == Step(old(Contents()), DoSend(t, m, front, wait))
    {
      StepOk(Contents(), DoSend(t, m, front, wait));
      StepSized(Contents(), DoSend(t, m, front, wait), ring.dataSize);
      ret := TrySend(t, m, front, wait);
    }

    method PostOverwrite(m: Msg) returns (ret: Ret)
      requires Valid() && |m| == ring.dataSize
      modifies this, ring, ring.buf
      ensures Valid() && (Contents(), ret) == Step(old(Contents()), DoPostOvw(m))
    {
      StepOk(Contents(), DoPostOvw(m));
      StepSized(Contents(), DoPostOvw(m), ring.dataSize);
      if ring.maxBuf > 1 { return NotAMbox; }
      if bcast > 0 { return BufferFull; }
      Hand(Only, m);
      return Success;
    }

    method Recv(t: Tid, wait: Wait) returns (ret: Ret)
      requires Valid() && Enabled(Contents(), DoRecv(t, wait))
      modifies this, ring
      ensures Valid() && (Contents(), ret) == Step(old(Contents()), DoRecv(t, wait))
    {
      StepOk(Contents(), DoRecv(t, wait));
      StepSized(Contents(), DoRecv(t, wait), ring.dataSize);
      ret := TryRecv(t, wait);
    }

    method BroadcastRecv(t: Tid, wait: Wait) returns (ret: Ret)
      requires Valid() && Enabled(Contents(), DoBroadcastRecv(t, wait))
      modifies this, ring
      ensures Valid() && (Contents(), ret) == Step(old(Contents()), DoBroadcastRecv(t, wait))
    {
      StepOk(Contents(), DoBroadcastRecv(t, wait));
      StepSized(Contents(), DoBroadcastRecv(t, wait), ring.dataSize);
      IdleFacts(Contents(), t);
      if ring.maxBuf > 1 { return NotAMbox; }
      ret := TryBroadcastRecv(t, wait);
    }

    method BroadcastTo(m: Msg, deferOk: bool) returns (ret: Ret, nRecv: nat)
      requires Valid() && |m| == ring.dataSize
      modifies this, ring, ring.buf
      ensures Valid() && (Contents(), ret) == Step(old(Contents()), DoBroadcast(m, deferOk))
      ensures nRecv == |Delivering(tasks)| || ret != Success
    {
      StepOk(Contents(), DoBroadcast(m, deferOk));
      StepSized(Contents(), DoBroadcast(m, deferOk), ring.dataSize);
      ret, nRecv := TryBroadcast(m, deferOk);
    }

    // kMesgQueuePeek: the front message stays.
    method Peek() returns (ret: Ret, m: Msg)
      requires Valid()
      ensures ret == (if ring.Contents() == [] || bcast > 0 then BufferEmpty else Success)
      ensures ret == Success ==> m == ring.Contents()[0]
    {
      assert ring.nFull == |ring.Contents()|;
      if ring.nFull == 0 || bcast > 0 { return BufferEmpty, []; }
      m := ring.Peek();
      return Success, m;
    }

    // The code behind the suspension point of a blocking call.
    method ResumeCall(t: Tid) returns (ret: Ret)
      requires Valid() && Enabled(Contents(), DoResume(t))
      modifies this, ring, ring.buf
      ensures Valid() && (Contents(), ret) == Step(old(Contents()), DoResume(t))
    {
      ghost var s := Contents();
      StepOk(s, DoResume(t));
      StepSized(s, DoResume(t), ring.dataSize);
      assert TaskOk(TaskOf(s.tasks, t), t in s.recvQ, t in s.sendQ);
      var k := TaskOf(tasks, t);
      if k.timedOut {
        tasks := tasks[t := k.(pc := Idle, timedOut := false, info := if k.pc.Sending? then k.info else Normal)];
        return Timeout;
      }
      if k.pc.Sending? {
        ret := TrySend(t, k.pc.m, k.pc.front, k.pc.wait);
      } else if k.pc.Receiving? {
        if k.info == DirectDeliver {
          tasks := tasks[t := k.(pc := Idle, info := Normal)];
          events := events + [Return(t, k.buf)];
          return Success;
        }
        // The loop's second turn: a woken receiver always has its message (ReceiverNeverMisses).
        assert false;
        return;
      } else {
        if k.info == BroadcastDeliver { ReadOk(s, t); }
        ret := TryBroadcastRecv(t, k.pc.wait);
      }
    }

    // The deferred-work task runs the oldest wake of this queue.
    method RunWakeJob()
      requires Valid() && Enabled(Contents(), DoWakeJob)
      modifies this
      ensures Valid() && Contents() == Step(old(Contents()), DoWakeJob).0
    {
      StepOk(Contents(), DoWakeJob);
      StepSized(Contents(), DoWakeJob, ring.dataSize);
      var n := jobs[0];
      jobs := jobs[1..];
      WakeBroadcast(n);
    }
  }
}
