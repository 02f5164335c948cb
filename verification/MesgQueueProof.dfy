// What every run of a message queue keeps, and what its users can rely on.

module MesgQueueProof {
  import opened Basics
  import opened TaskQueue
  import opened MesgQueueSpec

  // ---- the invariant ------------------------------------------------------------------------------

  // What a task is doing agrees with the lists it is on.
  ghost predicate TaskOk(k: Task, inRecvQ: bool, inSendQ: bool) {
    match k.pc
    case Idle => k.info == Normal && !k.armed && !k.timedOut && !inRecvQ && !inSendQ
    case Sending(_, _, wait) =>
      && wait != NoWait && k.info == Normal && !inRecvQ
      && if inSendQ then !k.timedOut else !k.armed
    case Receiving(wait) =>
      && wait != NoWait && !inSendQ
      && if inRecvQ then k.info == Normal && !k.timedOut
         else !k.armed && k.info == if k.timedOut then Normal else DirectDeliver
    case BcastReceiving(wait) =>
      && wait != NoWait && !inSendQ && (k.info == WaitBroadcast || k.info == BroadcastDeliver)
      && (k.info == BroadcastDeliver ==> !k.armed && !k.timedOut)
      && if inRecvQ then !k.timedOut else !k.armed && (k.timedOut <==> k.info == WaitBroadcast)
  }

  ghost predicate TasksOk(s: Queue) {
    && Distinct(s.recvQ) && Distinct(s.sendQ)
    && forall t: Tid :: TaskOk(TaskOf(s.tasks, t), t in s.recvQ, t in s.sendQ)
  }

  // A broadcast in flight fills the only slot, and the count is the readers still to come.
  ghost predicate SlotOk(s: Queue) {
    && s.maxBuf > 0 && |s.ring| <= s.maxBuf
    && s.bcast == |Delivering(s.tasks)|
    && (s.bcast > 0 ==> s.maxBuf == 1 && |s.ring| == 1)
  }

  // A normal receiver waits only when there is nothing for it.
  ghost predicate WaitersOk(s: Queue) {
    forall t <- s.recvQ :: TaskOf(s.tasks, t).pc.Receiving? ==> s.ring == [] || s.bcast > 0
  }

  function PreparedIn(q: seq<Tid>, tasks: Tasks): (r: set<Tid>)
    ensures forall t :: t in r <==> t in q && t in Delivering(tasks)
  {
    set t | t in q && t in Delivering(tasks)
  }

  function Listed(s: Queue): set<Tid> {
    PreparedIn(s.recvQ, s.tasks)
  }

  // Prepared receivers are listed exactly until the deferred wake that will find them all.
  ghost predicate JobsOk(s: Queue) {
    match |s.jobs|
    case 0 => Listed(s) == {}
    case 1 => s.jobs[0] == |Listed(s)| > 0
    case _ => false
  }

  function AbsOf(s: Queue): Abs {
    Abs(s.ring, Delivering(s.tasks), Hands(s.tasks))
  }

  // The history is a legal run of the abstract queue, ending in this state.
  ghost predicate LogOk(s: Queue) {
    Replay(s.maxBuf, s.events) == Some(AbsOf(s))
  }

  ghost predicate Inv(s: Queue) {
    TasksOk(s) && SlotOk(s) && WaitersOk(s) && JobsOk(s) && LogOk(s)
  }

  // ---- small facts ----------------------------------------------------------------------------------

  lemma UpdateSets(tasks: Tasks, t: Tid, k: Task)
    ensures Delivering(tasks[t := k]) ==
      if k.info == BroadcastDeliver then Delivering(tasks) + {t} else Delivering(tasks) - {t}
    ensures Hands(tasks[t := k]) ==
      if k.info == DirectDeliver then Hands(tasks)[t := k.buf] else Hands(tasks) - {t}
  {
  }

  lemma ReplayMore(n: nat, es: seq<Event>, e: Event, f: Event)
    ensures Replay(n, es + [e]) == if Replay(n, es).None? then None else AbsStep(n, Replay(n, es).value, e)
    ensures Replay(n, es + [e, f]) ==
      if Replay(n, es + [e]).None? then None else AbsStep(n, Replay(n, es + [e]).value, f)
  {
    assert (es + [e])[..|es|] == es;
    assert (es + [e, f])[..|es| + 1] == es + [e];
  }

  lemma LogOne(s: Queue, s1: Queue, e: Event)
    requires LogOk(s) && s1.maxBuf == s.maxBuf && s1.events == s.events + [e]
    requires AbsStep(s.maxBuf, AbsOf(s), e) == Some(AbsOf(s1))
    ensures LogOk(s1)
  {
    ReplayMore(s.maxBuf, s.events, e, e);
  }

  lemma LogTwo(s: Queue, s1: Queue, e: Event, f: Event)
    requires LogOk(s) && s1.maxBuf == s.maxBuf && s1.events == s.events + [e, f]
    requires AbsStep(s.maxBuf, AbsOf(s), e).Some?
    requires AbsStep(s.maxBuf, AbsStep(s.maxBuf, AbsOf(s), e).value, f) == Some(AbsOf(s1))
    ensures LogOk(s1)
  {
    ReplayMore(s.maxBuf, s.events, e, f);
  }

  // Enqueue and dequeue of one message on an empty deque.
  lemma HandOver(n: nat, a: Abs, e: End, r: Tid, m: Msg)
    requires a.q == [] && a.pending == {} && r !in a.hand && n > 0 && (e == Only ==> n == 1)
    ensures AbsStep(n, a, EventAt(e, m)) == Some(a.(q := [m]))
    ensures AbsStep(n, a.(q := [m]), Take(r, m)) == Some(a.(hand := a.hand[r := m]))
  {
    assert a.q + [m] == [m] == [m] + a.q && [m][1..] == [];
  }

  // A copy that is returned at once leaves the hands as they were.
  lemma CopyAndReturn(hand: map<Tid, Msg>, t: Tid, m: Msg)
    requires t !in hand
    ensures hand[t := m] - {t} == hand
  {
  }

  // No broadcast in flight: nobody is prepared.
  lemma NoneDelivering(s: Queue)
    requires SlotOk(s) && s.bcast == 0
    ensures Delivering(s.tasks) == {}
    ensures forall t: Tid :: TaskOf(s.tasks, t).info != BroadcastDeliver
  {
    forall t: Tid ensures TaskOf(s.tasks, t).info != BroadcastDeliver {
      assert t !in Delivering(s.tasks);
    }
  }

  // The wake after each ring write finds nobody: no normal receiver waits then.
  lemma WakeFindsNobody(s: Queue)
    requires TasksOk(s) && (forall t: Tid :: TaskOf(s.tasks, t).info != BroadcastDeliver)
    requires forall t <- s.recvQ :: !TaskOf(s.tasks, t).pc.Receiving?
    ensures WakeNormal(s) == s
  {
    forall t <- s.recvQ ensures TaskOf(s.tasks, t).info == WaitBroadcast {
      assert TaskOk(TaskOf(s.tasks, t), t in s.recvQ, t in s.sendQ);
    }
  }

  // A change to a task that neither waits to read a broadcast nor holds a message, before or after.
  lemma QuietSets(s: Queue, s1: Queue, t: Tid, k: Task)
    requires s1.tasks == s.tasks[t := k] && (forall x :: x != t ==> (x in s1.recvQ <==> x in s.recvQ))
    requires TaskOf(s.tasks, t).info == Normal || TaskOf(s.tasks, t).info == WaitBroadcast
    requires k.info == Normal || k.info == WaitBroadcast
    ensures Delivering(s1.tasks) == Delivering(s.tasks) && Hands(s1.tasks) == Hands(s.tasks)
    ensures Listed(s1) == Listed(s)
  {
    UpdateSets(s.tasks, t, k);
    assert t !in Delivering(s.tasks) && t !in Hands(s.tasks);
  }

  // A task on no list that holds nothing may return to its caller.
  lemma GoIdle(s: Queue, t: Tid, k: Task)
    requires Inv(s) && t !in s.recvQ && t !in s.sendQ && TaskOf(s.tasks, t).info != BroadcastDeliver
    requires TaskOf(s.tasks, t).info != DirectDeliver
    requires k.pc == Idle && k.info == Normal && !k.armed && !k.timedOut
    ensures Inv(s.With(t, k))
  {
    QuietSets(s, s.With(t, k), t, k);
  }

  lemma BlockSender(s: Queue, t: Tid, k: Task)
    requires Inv(s) && t !in s.recvQ && t !in s.sendQ && TaskOf(s.tasks, t).info == Normal
    requires k.pc.Sending? && k.pc.wait != NoWait && k.info == Normal && !k.timedOut
    ensures Inv(s.(sendQ := EnqByPrio(s.sendQ, s.prios, t)).With(t, k))
  {
    EnqMembers(s.sendQ, s.prios, t);
    QuietSets(s, s.(sendQ := EnqByPrio(s.sendQ, s.prios, t)).With(t, k), t, k);
  }

  // A receiver's record as it suspends.
  ghost predicate Suspends(s: Queue, k: Task) {
    && !k.timedOut
    && match k.pc
       case Receiving(wait) => wait != NoWait && k.info == Normal && (s.ring == [] || s.bcast > 0)
       case BcastReceiving(wait) => wait != NoWait && k.info == WaitBroadcast
       case _ => false
  }

  lemma BlockReceiver(s: Queue, t: Tid, k: Task)
    requires Inv(s) && t !in s.recvQ && t !in s.sendQ && TaskOf(s.tasks, t).info == Normal && Suspends(s, k)
    ensures Inv(s.(recvQ := EnqByPrio(s.recvQ, s.prios, t)).With(t, k))
  {
    var s1 := s.(recvQ := EnqByPrio(s.recvQ, s.prios, t)).With(t, k);
    EnqMembers(s.recvQ, s.prios, t);
    QuietSets(s, s1, t, k);
    BlockedReceiverTasks(s, s1, t, k);
  }

  lemma BlockedReceiverTasks(s: Queue, s1: Queue, t: Tid, k: Task)
    requires TasksOk(s) && WaitersOk(s) && t !in s.sendQ && Suspends(s, k)
    requires s1.tasks == s.tasks[t := k] && s1.sendQ == s.sendQ && s1.ring == s.ring && s1.bcast == s.bcast
    requires Distinct(s1.recvQ) && forall x :: x in s1.recvQ <==> x == t || x in s.recvQ
    ensures TasksOk(s1) && WaitersOk(s1)
  {
    forall x: Tid ensures TaskOk(TaskOf(s1.tasks, x), x in s1.recvQ, x in s1.sendQ) {
      assert TaskOk(TaskOf(s.tasks, x), x in s.recvQ, x in s.sendQ);
    }
  }

  lemma WakeSenderOk(s: Queue)
    requires Inv(s)
    ensures Inv(WakeSender(s)) && AbsOf(WakeSender(s)) == AbsOf(s)
  {
    if s.sendQ != [] {
      var t := s.sendQ[0];
      assert TaskOk(TaskOf(s.tasks, t), t in s.recvQ, t in s.sendQ);
      QuietSets(s, WakeSender(s), t, TaskOf(s.tasks, t).(armed := false));
      assert forall x :: x in s.sendQ[1..] <==> x in s.sendQ && x != t;
    }
  }

  // ---- committing a message ---------------------------------------------------------------------------

  lemma DeliverOk(s: Queue, e: End, r: Tid, m: Msg)
    requires Inv(s) && s.bcast == 0 && DirectReceiver(s) == Some(r) && (e == Only ==> s.maxBuf == 1)
    ensures Inv(Deliver(s, r, m).Log([EventAt(e, m), Take(r, m)]))
  {
    NoneDelivering(s);
    var k := TaskOf(s.tasks, r);
    assert TaskOk(k, r in s.recvQ, r in s.sendQ);
    assert r in s.recvQ && k.pc.Receiving?;
    var s1 := Deliver(s, r, m).Log([EventAt(e, m), Take(r, m)]);
    WithoutMembers(s.recvQ, r);
    UpdateSets(s.tasks, r, k.(info := DirectDeliver, armed := false, buf := m));
    assert Delivering(s.tasks) - {r} == Delivering(s.tasks);
    assert Listed(s1) == {} == Listed(s);
    HandOver(s.maxBuf, AbsOf(s), e, r, m);
    LogTwo(s, s1, EventAt(e, m), Take(r, m));
  }

  lemma StoreOk(s: Queue, e: End, m: Msg)
    requires Inv(s) && s.bcast == 0 && DirectReceiver(s) == None
    requires if e == Only then s.maxBuf == 1 else |s.ring| < s.maxBuf
    ensures Inv(Commit(s, e, m)) && Commit(s, e, m) == s.(ring := RingAt(e, s.ring, m)).Log([EventAt(e, m)])
  {
    NoneDelivering(s);
    forall t <- s.recvQ ensures !TaskOf(s.tasks, t).pc.Receiving? {
      assert TaskOk(TaskOf(s.tasks, t), t in s.recvQ, t in s.sendQ);
      var i := FirstNormal(s.recvQ, s.tasks);
      if s.ring == [] {
        var j :| 0 <= j < |s.recvQ| && s.recvQ[j] == t;
        assert j < i;
      }
    }
    var s1 := s.(ring := RingAt(e, s.ring, m)).Log([EventAt(e, m)]);
    assert Listed(s1) == Listed(s);
    LogOne(s, s1, EventAt(e, m));
    WakeFindsNobody(s1);
  }

  lemma CommitOk(s: Queue, e: End, m: Msg)
    requires Inv(s) && s.bcast == 0
    requires if e == Only then s.maxBuf == 1 else |s.ring| < s.maxBuf
    ensures Inv(Commit(s, e, m))
  {
    match DirectReceiver(s)
    case Some(r) => DeliverOk(s, e, r, m);
    case None => StoreOk(s, e, m);
  }

  lemma SendLoopOk(s: Queue, t: Tid, m: Msg, front: bool, wait: Wait)
    requires Inv(s) && t !in s.recvQ && t !in s.sendQ
    requires TaskOf(s.tasks, t).info == Normal && !TaskOf(s.tasks, t).armed && !TaskOf(s.tasks, t).timedOut
    ensures Inv(SendLoop(s, t, m, front, wait).0)
  {
    var k := TaskOf(s.tasks, t);
    if |s.ring| < s.maxBuf {
      GoIdle(s, t, k.(pc := Idle));
      CommitOk(s.With(t, k.(pc := Idle)), if front then Front else Back, m);
    } else if wait != NoWait {
      BlockSender(s, t, k.(pc := Sending(m, front, wait), armed := wait == Bounded));
    }
  }

  // ---- receiving --------------------------------------------------------------------------------------

  lemma TakeOk(s: Queue, t: Tid)
    requires Inv(s) && t !in s.recvQ && t !in s.sendQ && s.ring != [] && s.bcast == 0
    requires TaskOf(s.tasks, t).info == Normal && !TaskOf(s.tasks, t).armed && !TaskOf(s.tasks, t).timedOut
    ensures var m := s.ring[0];
      Inv(s.(ring := s.ring[1..]).With(t, TaskOf(s.tasks, t).(pc := Idle, buf := m)).Log([Take(t, m), Return(t, m)]))
  {
    var m := s.ring[0];
    var k := TaskOf(s.tasks, t).(pc := Idle, buf := m);
    var s1 := s.(ring := s.ring[1..]).With(t, k).Log([Take(t, m), Return(t, m)]);
    NoneDelivering(s);
    QuietSets(s, s1, t, k);
    CopyAndReturn(Hands(s.tasks), t, m);
    LogTwo(s, s1, Take(t, m), Return(t, m));
  }

  lemma RecvLoopOk(s: Queue, t: Tid, wait: Wait)
    requires Inv(s) && t !in s.recvQ && t !in s.sendQ
    requires TaskOf(s.tasks, t).info == Normal && !TaskOf(s.tasks, t).armed && !TaskOf(s.tasks, t).timedOut
    ensures Inv(RecvLoop(s, t, wait).0)
  {
    var k := TaskOf(s.tasks, t);
    if s.ring == [] || s.bcast > 0 {
      if wait != NoWait { BlockReceiver(s, t, k.(pc := Receiving(wait), info := Normal, armed := wait == Bounded)); }
    } else {
      TakeOk(s, t);
      var m := s.ring[0];
      WakeSenderOk(s.(ring := s.ring[1..]).With(t, k.(pc := Idle, buf := m)).Log([Take(t, m), Return(t, m)]));
    }
  }

  // One prepared receiver copies the payload.
  lemma ReadOk(s: Queue, t: Tid)
    requires Inv(s) && t !in s.recvQ && t in s.tasks && s.tasks[t].info == BroadcastDeliver
    ensures s.bcast > 0 && |s.ring| == 1
    ensures var m := s.ring[0];
      var s1 := s.With(t, TaskOf(s.tasks, t).(pc := Idle, info := Normal, buf := m)).Log([Read(t, m), Return(t, m)]);
      Inv(s1.(bcast := s.bcast - 1, ring := if s.bcast == 1 then [] else s.ring))
  {
    assert TaskOk(TaskOf(s.tasks, t), t in s.recvQ, t in s.sendQ);
    var D := Delivering(s.tasks);
    assert t in D;
    var m := s.ring[0];
    var k := TaskOf(s.tasks, t).(pc := Idle, info := Normal, buf := m);
    var s1 := s.With(t, k).Log([Read(t, m), Return(t, m)])
               .(bcast := s.bcast - 1, ring := if s.bcast == 1 then [] else s.ring);
    UpdateSets(s.tasks, t, k);
    assert Listed(s1) == Listed(s);
    assert |D - {t}| == s.bcast - 1;
    assert s.bcast == 1 <==> D == {t} by { if s.bcast == 1 { assert D - {t} == {}; } }
    assert s.ring == [m];
    assert t !in Hands(s.tasks);
    assert Hands(s1.tasks) == Hands(s.tasks);
    CopyAndReturn(Hands(s.tasks), t, m);
    LogTwo(s, s1, Read(t, m), Return(t, m));
  }

  lemma ConsumeOk(s: Queue, t: Tid)
    requires Inv(s) && t !in s.recvQ && TaskOf(s.tasks, t).info == BroadcastDeliver
    ensures Inv(Consume(s, t))
  {
    ReadOk(s, t);
    var m := s.ring[0];
    var s1 := s.With(t, TaskOf(s.tasks, t).(pc := Idle, info := Normal, buf := m)).Log([Read(t, m), Return(t, m)]);
    assert s.ring[1..] == [];
    if s.bcast == 1 {
      WakeSenderOk(s1.(ring := [], bcast := 0));
      assert Consume(s, t) == WakeSender(s1.(ring := [], bcast := 0));
    }
  }

  lemma BcastLoopOk(s: Queue, t: Tid, wait: Wait)
    requires Inv(s) && t !in s.recvQ && t !in s.sendQ
    requires !TaskOf(s.tasks, t).armed && !TaskOf(s.tasks, t).timedOut
    requires TaskOf(s.tasks, t).info == Normal || TaskOf(s.tasks, t).info == BroadcastDeliver
    ensures Inv(BcastLoop(s, t, wait).0)
  {
    var k := TaskOf(s.tasks, t);
    if k.info == BroadcastDeliver {
      ConsumeOk(s, t);
    } else if wait != NoWait {
      BlockReceiver(s, t, k.(pc := BcastReceiving(wait), info := WaitBroadcast, armed := wait == Bounded));
    }
  }

  // ---- broadcasting -----------------------------------------------------------------------------------

  function InfoIn(q: seq<Tid>, tasks: Tasks, info: Info): (r: set<Tid>)
    ensures forall t :: t in r <==> t in q && TaskOf(tasks, t).info == info
  {
    set t | t in q && TaskOf(tasks, t).info == info
  }

  lemma InfoInStep(q: seq<Tid>, tasks: Tasks, info: Info)
    requires Distinct(q) && q != []
    ensures |InfoIn(q, tasks, info)| ==
      |InfoIn(q[..|q| - 1], tasks, info)| + if TaskOf(tasks, q[|q| - 1]).info == info then 1 else 0
  {
    DistinctFront(q);
    var a, b, last := InfoIn(q[..|q| - 1], tasks, info), InfoIn(q, tasks, info), q[|q| - 1];
    if TaskOf(tasks, last).info == info { assert b == a + {last}; } else { assert b == a; }
  }

  lemma {:induction false} CountIsSize(q: seq<Tid>, tasks: Tasks, info: Info)
    requires Distinct(q)
    ensures CountInfo(q, tasks, info) == |InfoIn(q, tasks, info)|
  {
    if q == [] {
      assert InfoIn(q, tasks, info) == {};
    } else {
      DistinctFront(q);
      CountIsSize(q[..|q| - 1], tasks, info);
      InfoInStep(q, tasks, info);
    }
  }

  lemma PreparedSets(s: Queue)
    requires Inv(s) && s.bcast == 0
    ensures var tasks := Prepared(s.recvQ, s.tasks);
      && Delivering(tasks) == InfoIn(s.recvQ, s.tasks, WaitBroadcast)
      && Hands(tasks) == Hands(s.tasks)
      && (forall t: Tid :: TaskOk(TaskOf(tasks, t), t in s.recvQ, t in s.sendQ))
      && (forall t: Tid :: TaskOf(tasks, t).pc == TaskOf(s.tasks, t).pc)
  {
    var tasks := Prepared(s.recvQ, s.tasks);
    NoneDelivering(s);
    forall t: Tid ensures TaskOk(TaskOf(tasks, t), t in s.recvQ, t in s.sendQ)
    {
      assert TaskOk(TaskOf(s.tasks, t), t in s.recvQ, t in s.sendQ);
    }
    forall t: Tid ensures t in Delivering(tasks) <==> t in s.recvQ && TaskOf(s.tasks, t).info == WaitBroadcast {
      assert TaskOf(s.tasks, t).info != BroadcastDeliver;
    }
  }

  // The queue with its broadcast waiters prepared and one wake pending for all of them.
  function Begun(s: Queue, m: Msg): Queue {
    var n := CountInfo(s.recvQ, s.tasks, WaitBroadcast);
    var tasks := Prepared(s.recvQ, s.tasks);
    s.(bcast := n, ring := s.ring + [m], tasks := tasks, jobs := [n]).Log([Bcast(m, Delivering(tasks))])
  }

  lemma BroadcastBegins(s: Queue, m: Msg)
    requires Inv(s) && s.maxBuf == 1 && s.ring == [] && CountInfo(s.recvQ, s.tasks, WaitBroadcast) > 0
    ensures s.jobs == [] && s.bcast == 0 && Inv(Begun(s, m))
  {
    NoneDelivering(s);
    PreparedSets(s);
    CountIsSize(s.recvQ, s.tasks, WaitBroadcast);
    assert Listed(s) == {};
    var s1 := Begun(s, m);
    assert Listed(s1) == Delivering(s1.tasks) != {};
    assert s.ring + [m] == [m];
    LogOne(s, s1, Bcast(m, Delivering(s1.tasks)));
  }

  lemma PreparedInTail(q: seq<Tid>, tasks: Tasks)
    requires Distinct(q) && q != []
    ensures Distinct(q[1..]) && q[0] !in q[1..]
    ensures forall t :: t in q <==> t == q[0] || t in q[1..]
    ensures |PreparedIn(q[1..], tasks)| ==
      |PreparedIn(q, tasks)| - if TaskOf(tasks, q[0]).info == BroadcastDeliver then 1 else 0
  {
    DistinctRest(q);
    assert PreparedIn(q[1..], tasks) == PreparedIn(q, tasks) - {q[0]};
  }

  lemma {:induction false} DropsAll(q: seq<Tid>, tasks: Tasks, n: nat)
    requires Distinct(q) && n == |PreparedIn(q, tasks)|
    ensures Distinct(DropDelivering(q, tasks, n))
    ensures forall t :: t in DropDelivering(q, tasks, n) <==> t in q && t !in Delivering(tasks)
  {
    if q != [] {
      PreparedInTail(q, tasks);
      if n == 0 {
        assert forall t <- q :: t !in PreparedIn(q, tasks);
      } else if TaskOf(tasks, q[0]).info == BroadcastDeliver {
        DropsAll(q[1..], tasks, n - 1);
      } else {
        DropsAll(q[1..], tasks, n);
      }
    }
  }

  // The wake takes every prepared receiver off the list, and nobody else.
  lemma WakeJobOk(s: Queue)
    requires Inv(s) && s.jobs != []
    ensures Inv(BroadcastWake(s, s.jobs[0]).(jobs := s.jobs[1..]))
    ensures forall t :: t in BroadcastWake(s, s.jobs[0]).recvQ <==> t in s.recvQ && t !in Delivering(s.tasks)
  {
    DropsAll(s.recvQ, s.tasks, s.jobs[0]);
    var s1 := BroadcastWake(s, s.jobs[0]).(jobs := s.jobs[1..]);
    forall t: Tid ensures TaskOk(TaskOf(s1.tasks, t), t in s1.recvQ, t in s1.sendQ) {
      assert TaskOk(TaskOf(s.tasks, t), t in s.recvQ, t in s.sendQ);
      assert t in Delivering(s.tasks) <==> TaskOf(s.tasks, t).info == BroadcastDeliver;
    }
    assert Listed(s1) == {};
  }

  // With one waiter the wake is not deferred: it runs inside the call.
  lemma BroadcastIs(s: Queue, m: Msg, deferOk: bool)
    requires Broadcast(s, m, deferOk).1 == Success && s.jobs == []
    ensures var n := CountInfo(s.recvQ, s.tasks, WaitBroadcast);
      Broadcast(s, m, deferOk).0 ==
        if n > 1 then Begun(s, m) else BroadcastWake(Begun(s, m), n).(jobs := [])
  {
  }

  lemma BroadcastOk(s: Queue, m: Msg, deferOk: bool)
    requires Inv(s)
    ensures Inv(Broadcast(s, m, deferOk).0)
  {
    if Broadcast(s, m, deferOk).1 == Success {
      BroadcastBegins(s, m);
      BroadcastIs(s, m, deferOk);
      WakeJobOk(Begun(s, m));
    }
  }

  // ---- timeouts and runs ---------------------------------------------------------------------------------

  lemma TimeOutOk(s: Queue, t: Tid)
    requires Inv(s) && TaskOf(s.tasks, t).armed
    ensures Inv(TimeOut(s, t))
  {
    var k := TaskOf(s.tasks, t);
    assert TaskOk(k, t in s.recvQ, t in s.sendQ);
    WithoutMembers(s.recvQ, t);
    WithoutMembers(s.sendQ, t);
    QuietSets(s, TimeOut(s, t), t, k.(armed := false, timedOut := true));
  }

  lemma HandedIsUnlisted(s: Queue, t: Tid)
    requires TasksOk(s) && TaskOf(s.tasks, t).info == DirectDeliver
    ensures t !in s.recvQ && t !in s.sendQ && t in Hands(s.tasks)
    ensures Hands(s.tasks)[t] == TaskOf(s.tasks, t).buf
    ensures !TaskOf(s.tasks, t).armed && !TaskOf(s.tasks, t).timedOut
  {
    assert TaskOk(TaskOf(s.tasks, t), t in s.recvQ, t in s.sendQ);
  }

  // A receiver that got its message by hand returns it.
  lemma ReturnOk(s: Queue, t: Tid)
    requires Inv(s) && TaskOf(s.tasks, t).info == DirectDeliver
    ensures var k := TaskOf(s.tasks, t); Inv(s.With(t, k.(pc := Idle, info := Normal)).Log([Return(t, k.buf)]))
  {
    var k := TaskOf(s.tasks, t);
    HandedIsUnlisted(s, t);
    var s1 := s.With(t, k.(pc := Idle, info := Normal)).Log([Return(t, k.buf)]);
    UpdateSets(s.tasks, t, k.(pc := Idle, info := Normal));
    assert Delivering(s1.tasks) == Delivering(s.tasks);
    assert Listed(s1) == Listed(s);
    LogOne(s, s1, Return(t, k.buf));
  }

  lemma ResumeOk(s: Queue, t: Tid)
    requires Inv(s) && Enabled(s, DoResume(t))
    ensures Inv(Resume(s, t).0)
  {
    var k := TaskOf(s.tasks, t);
    assert TaskOk(k, t in s.recvQ, t in s.sendQ);
    if k.timedOut {
      GoIdle(s, t, k.(pc := Idle, timedOut := false, info := if k.pc.Sending? then k.info else Normal));
    } else {
      match k.pc
      case Sending(m, front, wait) => SendLoopOk(s, t, m, front, wait);
      case Receiving(wait) => ReturnOk(s, t);
      case BcastReceiving(wait) => BcastLoopOk(s, t, wait);
    }
  }

  lemma IdleFacts(s: Queue, t: Tid)
    requires TasksOk(s) && TaskOf(s.tasks, t).pc.Idle?
    ensures t !in s.recvQ && t !in s.sendQ
    ensures var k := TaskOf(s.tasks, t); k.info == Normal && !k.armed && !k.timedOut
  {
    assert TaskOk(TaskOf(s.tasks, t), t in s.recvQ, t in s.sendQ);
  }

  lemma CallOk(s: Queue, op: Op)
    requires Inv(s) && Enabled(s, op) && (op.DoSend? || op.DoRecv? || op.DoBroadcastRecv?)
    ensures Inv(Step(s, op).0)
  {
    IdleFacts(s, op.t);
    match op
    case DoSend(t, m, front, wait) => SendLoopOk(s, t, m, front, wait);
    case DoRecv(t, wait) => RecvLoopOk(s, t, wait);
    case DoBroadcastRecv(t, wait) => BcastLoopOk(s, t, wait);
  }

  lemma StepOk(s: Queue, op: Op)
    requires Inv(s)
    ensures Inv(Step(s, op).0)
  {
    if Enabled(s, op) {
      match op
      case DoPostOvw(m) => if s.maxBuf <= 1 && s.bcast == 0 { CommitOk(s, Only, m); }
      case DoBroadcast(m, deferOk) => BroadcastOk(s, m, deferOk);
      case DoResume(t) => ResumeOk(s, t);
      case DoTimeout(t) => TimeOutOk(s, t);
      case DoWakeJob => WakeJobOk(s);
      case _ => CallOk(s, op);
    }
  }

  lemma DepthStays(s: Queue, op: Op)
    ensures Step(s, op).0.maxBuf == s.maxBuf
  {
  }

  lemma {:induction false} RunOk(n: nat, prios: Prios, ops: seq<Op>)
    requires n > 0
    ensures Inv(Run(Empty(n, prios), ops)) && Run(Empty(n, prios), ops).maxBuf == n
  {
    if ops == [] {
      assert Delivering(map[]) == {} && Hands(map[]) == map[];
      assert Listed(Empty(n, prios)) == {};
    } else {
      RunOk(n, prios, ops[..|ops| - 1]);
      StepOk(Run(Empty(n, prios), ops[..|ops| - 1]), ops[|ops| - 1]);
      DepthStays(Run(Empty(n, prios), ops[..|ops| - 1]), ops[|ops| - 1]);
    }
  }
}
