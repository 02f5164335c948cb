// What the calls of the message queue return and do, in any state a run reaches, said of the ring, the wait
// lists and the tasks; and, over whole runs, which calls the history is made of.

module MesgQueueEffects {
  import opened Basics
  import opened TaskQueue
  import opened MesgQueueSpec
  import opened MesgQueueProof
  import opened MesgQueueTheorems

  // ---- vocabulary --------------------------------------------------------------------------------------

  // r is the first listed receiver that does not wait for a broadcast.
  ghost predicate FirstWaiting(s: Queue, r: Tid) {
    exists i :: 0 <= i < |s.recvQ| && s.recvQ[i] == r && TaskOf(s.tasks, r).info != WaitBroadcast
      && forall j :: 0 <= j < i ==> TaskOf(s.tasks, s.recvQ[j]).info == WaitBroadcast
  }

  // A message may go to r without the ring.
  ghost predicate Direct(s: Queue, r: Tid) {
    s.ring == [] && s.bcast == 0 && FirstWaiting(s, r)
  }

  // Every task but those in `but` is as it was.
  ghost predicate OthersStay(s: Queue, s1: Queue, but: set<Tid>) {
    forall x: Tid :: x !in but ==> TaskOf(s1.tasks, x) == TaskOf(s.tasks, x)
  }

  ghost predicate LeftList(q: seq<Tid>, q1: seq<Tid>, t: Tid) {
    exists i :: 0 <= i < |q| && q[i] == t && q1 == q[..i] + q[i + 1..]
  }

  // r left its list with the message in its buffer; it will return it as it runs again.
  ghost predicate Handed(s: Queue, s1: Queue, r: Tid, m: Msg) {
    && LeftList(s.recvQ, s1.recvQ, r) && s1.ring == s.ring
    && TaskOf(s1.tasks, r) == TaskOf(s.tasks, r).(info := DirectDeliver, armed := false, buf := m)
  }

  // The message is in the ring, where `e` says.
  ghost predicate Placed(s: Queue, s1: Queue, e: End, m: Msg) {
    && s1.recvQ == s.recvQ
    && match e
       case Back => s1.ring == s.ring + [m]
       case Front => s1.ring == [m] + s.ring
       case Only => s1.ring == [m]
  }

  // What a committing call of task t, if any, does: the first normal receiver gets the message if it may,
  // else the ring; nobody else notices.
  ghost predicate Committed(s: Queue, s1: Queue, e: End, m: Msg, caller: set<Tid>) {
    && s1.sendQ == s.sendQ && s1.bcast == s.bcast && s1.jobs == s.jobs
    && (forall t <- caller :: TaskOf(s1.tasks, t) == TaskOf(s.tasks, t).(pc := Idle))
    && if exists r: Tid :: Direct(s, r)
       then exists r: Tid :: Direct(s, r) && Handed(s, s1, r, m) && OthersStay(s, s1, caller + {r})
       else Placed(s, s1, e, m) && OthersStay(s, s1, caller)
  }

  // t is suspended among the senders, in its place by priority, with its message.
  ghost predicate SendSuspends(s: Queue, s1: Queue, t: Tid, m: Msg, front: bool, wait: Wait) {
    && Ranked(s.sendQ, s1.sendQ, s.prios, t) && s1.ring == s.ring && s1.recvQ == s.recvQ && s1.bcast == s.bcast
    && s1.jobs == s.jobs && OthersStay(s, s1, {t})
    && TaskOf(s1.tasks, t) == TaskOf(s.tasks, t).(pc := Sending(m, front, wait), armed := wait == Bounded)
  }

  // A send or jam, new or resumed: it succeeds exactly while the ring has room.
  ghost predicate SendDone(s: Queue, s1: Queue, ret: Ret, t: Tid, m: Msg, front: bool, wait: Wait) {
    if |s.ring| < s.maxBuf then ret == Success && Committed(s, s1, if front then Front else Back, m, {t})
    else if wait == NoWait then ret == BufferFull && s1 == s
    else ret == Blocked && SendSuspends(s, s1, t, m, front, wait)
  }

  // The best of the blocked senders, if any, is taken off its list; it will try again.
  ghost predicate SenderWoken(s: Queue, s1: Queue, t: Tid) {
    if s.sendQ == [] then s1.sendQ == [] && OthersStay(s, s1, {t})
    else
      var w := s.sendQ[0];
      && s1.sendQ == s.sendQ[1..] && OthersStay(s, s1, {t, w})
      && TaskOf(s1.tasks, w) == TaskOf(s.tasks, w).(armed := false)
  }

  // t returns with message m.
  ghost predicate Receives(s: Queue, s1: Queue, t: Tid, m: Msg) {
    TaskOf(s1.tasks, t) == TaskOf(s.tasks, t).(pc := Idle, info := Normal, buf := m)
  }

  ghost predicate RecvSuspends(s: Queue, s1: Queue, t: Tid, k: Task) {
    && Ranked(s.recvQ, s1.recvQ, s.prios, t) && s1.ring == s.ring && s1.sendQ == s.sendQ && s1.bcast == s.bcast
    && s1.jobs == s.jobs && OthersStay(s, s1, {t}) && TaskOf(s1.tasks, t) == k
  }

  // The listed receivers that wait for a broadcast.
  function Audience(s: Queue): (r: set<Tid>)
    ensures forall t :: t in r <==> t in s.recvQ && TaskOf(s.tasks, t).info == WaitBroadcast
  {
    set t | t in s.recvQ && TaskOf(s.tasks, t).info == WaitBroadcast
  }

  // ---- committing -----------------------------------------------------------------------------------------

  lemma FirstIs(s: Queue, r: Tid)
    requires Distinct(s.recvQ)
    ensures FirstWaiting(s, r) <==>
      FirstNormal(s.recvQ, s.tasks) < |s.recvQ| && s.recvQ[FirstNormal(s.recvQ, s.tasks)] == r
  {
    var i := FirstNormal(s.recvQ, s.tasks);
    if FirstWaiting(s, r) {
      var k :| 0 <= k < |s.recvQ| && s.recvQ[k] == r && TaskOf(s.tasks, r).info != WaitBroadcast
        && forall j :: 0 <= j < k ==> TaskOf(s.tasks, s.recvQ[j]).info == WaitBroadcast;
      assert k == i;
    }
  }

  lemma DirectIs(s: Queue)
    requires Distinct(s.recvQ)
    ensures forall r: Tid :: Direct(s, r) <==> DirectReceiver(s) == Some(r)
  {
    forall r: Tid ensures Direct(s, r) <==> DirectReceiver(s) == Some(r) { FirstIs(s, r); }
  }

  lemma LeftFurther(q: seq<Tid>, i: nat)
    requires i + 1 < |q|
    ensures [q[0]] + (q[1..][..i] + q[1..][i + 1..]) == q[..i + 1] + q[i + 2..]
  {
  }

  lemma {:induction false} WithoutAt(q: seq<Tid>, t: Tid) returns (i: nat)
    requires t in q
    ensures i < |q| && q[i] == t && Without(q, t) == q[..i] + q[i + 1..]
  {
    i := 0;
    if q[0] != t {
      var j := WithoutAt(q[1..], t);
      LeftFurther(q, j);
      i := j + 1;
    }
  }

  lemma WithoutLeaves(q: seq<Tid>, t: Tid)
    requires t in q
    ensures LeftList(q, Without(q, t), t)
  {
    var i := WithoutAt(q, t);
  }

  // ---- the order of the wait lists -----------------------------------------------------------------------

  ghost predicate InOrder(s: Queue) {
    Sorted(s.recvQ, s.prios) && Sorted(s.sendQ, s.prios)
  }

  lemma LeavesSorted(q: seq<Tid>, prios: Prios, t: Tid)
    requires Distinct(q) && Sorted(q, prios)
    ensures Sorted(Without(q, t), prios)
  {
    WithoutSorted(q, t, prios, prios);
  }

  lemma {:induction false} DropSorted(q: seq<Tid>, prios: Prios, tasks: Tasks, n: nat)
    requires Sorted(q, prios)
    ensures var r := DropDelivering(q, tasks, n); Sorted(r, prios) && forall t <- r :: t in q
  {
    if q != [] && n > 0 {
      RestSorted(q, prios);
      if TaskOf(tasks, q[0]).info == BroadcastDeliver {
        DropSorted(q[1..], prios, tasks, n - 1);
      } else {
        DropSorted(q[1..], prios, tasks, n);
        HeadBefore(q, prios, DropDelivering(q[1..], tasks, n));
      }
    }
  }

  lemma HeadBefore(q: seq<Tid>, prios: Prios, rest: seq<Tid>)
    requires q != [] && Sorted(q, prios) && Sorted(rest, prios) && forall t <- rest :: t in q[1..]
    ensures Sorted([q[0]] + rest, prios)
  {
    forall j | 0 <= j < |rest| ensures PrioOf(prios, q[0]) <= PrioOf(prios, rest[j]) {
      assert rest[j] in q[1..];
      var k :| 0 <= k < |q[1..]| && q[1..][k] == rest[j];
      assert q[k + 1] == rest[j];
    }
  }

  lemma WakeNormalSorted(s: Queue)
    requires Distinct(s.recvQ) && InOrder(s)
    ensures InOrder(WakeNormal(s)) && WakeNormal(s).prios == s.prios
  {
    var i := FirstNormal(s.recvQ, s.tasks);
    if i < |s.recvQ| { LeavesSorted(s.recvQ, s.prios, s.recvQ[i]); }
  }

  lemma CommitSorted(s: Queue, e: End, m: Msg)
    requires Distinct(s.recvQ) && InOrder(s)
    ensures InOrder(Commit(s, e, m)) && Commit(s, e, m).prios == s.prios
  {
    match DirectReceiver(s)
    case Some(r) => LeavesSorted(s.recvQ, s.prios, r);
    case None => WakeNormalSorted(s.(ring := RingAt(e, s.ring, m)).Log([EventAt(e, m)]));
  }

  lemma WakeSenderSorted(s: Queue)
    requires InOrder(s)
    ensures InOrder(WakeSender(s)) && WakeSender(s).prios == s.prios
  {
    if s.sendQ != [] { RestSorted(s.sendQ, s.prios); }
  }

  lemma SendSorted(s: Queue, t: Tid, m: Msg, front: bool, wait: Wait)
    requires Distinct(s.recvQ) && InOrder(s)
    ensures var s1 := SendLoop(s, t, m, front, wait).0; InOrder(s1) && s1.prios == s.prios
  {
    if |s.ring| >= s.maxBuf { EnqKeepsOrder(s.sendQ, s.prios, t); }
    else { CommitSorted(s.With(t, TaskOf(s.tasks, t).(pc := Idle)), if front then Front else Back, m); }
  }

  lemma RecvSorted(s: Queue, t: Tid, wait: Wait)
    requires InOrder(s)
    ensures var s1 := RecvLoop(s, t, wait).0; InOrder(s1) && s1.prios == s.prios
  {
    EnqKeepsOrder(s.recvQ, s.prios, t);
    if s.sendQ != [] { RestSorted(s.sendQ, s.prios); }
  }

  lemma ConsumeSorted(s: Queue, t: Tid)
    requires InOrder(s)
    ensures InOrder(Consume(s, t)) && Consume(s, t).prios == s.prios
  {
    if s.ring != [] {
      var m := s.ring[0];
      var s1 := s.With(t, TaskOf(s.tasks, t).(pc := Idle, info := Normal, buf := m)).Log([Read(t, m), Return(t, m)]);
      WakeSenderSorted(s1.(ring := s.ring[1..], bcast := 0));
    }
  }

  lemma BcastRecvSorted(s: Queue, t: Tid, wait: Wait)
    requires InOrder(s)
    ensures var s1 := BcastLoop(s, t, wait).0; InOrder(s1) && s1.prios == s.prios
  {
    EnqKeepsOrder(s.recvQ, s.prios, t);
    ConsumeSorted(s, t);
  }

  lemma ResumeSorted(s: Queue, t: Tid)
    requires Distinct(s.recvQ) && InOrder(s)
    ensures InOrder(Resume(s, t).0) && Resume(s, t).0.prios == s.prios
  {
    match TaskOf(s.tasks, t).pc
    case Idle =>
    case Sending(m, front, wait) => SendSorted(s, t, m, front, wait);
    case Receiving(wait) => RecvSorted(s, t, wait);
    case BcastReceiving(wait) => BcastRecvSorted(s, t, wait);
  }

  lemma StepSorted(s: Queue, op: Op)
    requires Inv(s) && InOrder(s)
    ensures InOrder(Step(s, op).0) && Step(s, op).0.prios == s.prios
  {
    if Enabled(s, op) {
      match op
      case DoSend(t, m, front, wait) => SendSorted(s, t, m, front, wait);
      case DoPostOvw(m) => CommitSorted(s, Only, m);
      case DoBroadcast(m, deferOk) =>
        DropSorted(s.recvQ, s.prios, Prepared(s.recvQ, s.tasks), CountInfo(s.recvQ, s.tasks, WaitBroadcast));
      case DoRecv(t, wait) => RecvSorted(s, t, wait);
      case DoBroadcastRecv(t, wait) => BcastRecvSorted(s, t, wait);
      case DoResume(t) => ResumeSorted(s, t);
      case DoTimeout(t) => LeavesSorted(s.recvQ, s.prios, t); LeavesSorted(s.sendQ, s.prios, t);
      case DoWakeJob => DropSorted(s.recvQ, s.prios, s.tasks, s.jobs[0]);
    }
  }

  // Over every run both wait lists are in the order of the tasks' priorities.
  lemma {:induction false} ListsInOrder(n: nat, prios: Prios, ops: seq<Op>)
    requires n > 0
    ensures var s := Run(Empty(n, prios), ops); s.prios == prios && Sorted(s.recvQ, prios) && Sorted(s.sendQ, prios)
  {
    if ops != [] {
      var pre := ops[..|ops| - 1];
      ListsInOrder(n, prios, pre);
      RunOk(n, prios, pre);
      StepSorted(Run(Empty(n, prios), pre), ops[|ops| - 1]);
    }
  }

  lemma CommitIs(s: Queue, e: End, m: Msg)
    requires Inv(s) && s.bcast == 0 && (if e == Only then s.maxBuf == 1 else |s.ring| < s.maxBuf)
    ensures Committed(s, Commit(s, e, m), e, m, {})
  {
    DirectIs(s);
    match DirectReceiver(s)
    case Some(r) =>
      assert Direct(s, r) && r in s.recvQ;
      WithoutLeaves(s.recvQ, r);
      assert Handed(s, Commit(s, e, m), r, m);
    case None => StoreOk(s, e, m);
  }

  // The caller's own return to Idle beside the commit.
  lemma HandedBeside(s: Queue, s1: Queue, t: Tid, r: Tid, m: Msg)
    requires var s0 := s.With(t, TaskOf(s.tasks, t).(pc := Idle)); Handed(s0, s1, r, m) && OthersStay(s0, s1, {} + {r})
    requires t !in s.recvQ
    ensures Handed(s, s1, r, m) && OthersStay(s, s1, {t} + {r}) && TaskOf(s1.tasks, t) == TaskOf(s.tasks, t).(pc := Idle)
  {
    var s0 := s.With(t, TaskOf(s.tasks, t).(pc := Idle));
    assert r in s.recvQ && TaskOf(s0.tasks, r) == TaskOf(s.tasks, r);
    forall x: Tid | x !in {t} + {r} ensures TaskOf(s1.tasks, x) == TaskOf(s.tasks, x) { assert x !in {} + {r}; }
    assert t !in {} + {r};
  }

  lemma CommitBeside(s: Queue, s1: Queue, t: Tid, e: End, m: Msg)
    requires Committed(s.With(t, TaskOf(s.tasks, t).(pc := Idle)), s1, e, m, {}) && t !in s.recvQ
    ensures Committed(s, s1, e, m, {t})
  {
    var s0 := s.With(t, TaskOf(s.tasks, t).(pc := Idle));
    forall r: Tid ensures Direct(s, r) <==> Direct(s0, r) { SameFirst(s, t, r); }
    if r0: Tid :| Direct(s0, r0) {
      var r: Tid :| Direct(s0, r) && Handed(s0, s1, r, m) && OthersStay(s0, s1, {} + {r});
      HandedBeside(s, s1, t, r, m);
    } else {
      assert TaskOf(s1.tasks, t) == TaskOf(s0.tasks, t);
    }
  }

  lemma SameFirst(s: Queue, t: Tid, r: Tid)
    requires t !in s.recvQ
    ensures Direct(s, r) <==> Direct(s.With(t, TaskOf(s.tasks, t).(pc := Idle)), r)
  {
    var s0 := s.With(t, TaskOf(s.tasks, t).(pc := Idle));
    assert forall j :: 0 <= j < |s.recvQ| ==> s.recvQ[j] in s.recvQ && TaskOf(s0.tasks, s.recvQ[j]) == TaskOf(s.tasks, s.recvQ[j]);
  }

  lemma SendIs(s: Queue, t: Tid, m: Msg, front: bool, wait: Wait)
    requires Inv(s) && Running(s, t) && InOrder(s)
    ensures var (s1, ret) := SendLoop(s, t, m, front, wait); SendDone(s, s1, ret, t, m, front, wait)
  {
    var k := TaskOf(s.tasks, t);
    if |s.ring| < s.maxBuf {
      GoIdle(s, t, k.(pc := Idle));
      CommitIs(s.With(t, k.(pc := Idle)), if front then Front else Back, m);
      CommitBeside(s, SendLoop(s, t, m, front, wait).0, t, if front then Front else Back, m);
    } else {
      EnqRanks(s.sendQ, s.prios, t);
    }
  }

  // Over every run a send, or with `front` a jam, succeeds exactly while the ring has room: its message is
  // then in the buffer of the first waiting receiver, or at the end of the ring it asked for. Else it is
  // refused, or suspends its caller.
  lemma SendEffect(n: nat, prios: Prios, ops: seq<Op>, t: Tid, m: Msg, front: bool, wait: Wait)
    requires n > 0 && TaskOf(Run(Empty(n, prios), ops).tasks, t).pc == Idle
    ensures var s := Run(Empty(n, prios), ops); var (s1, ret) := Step(s, DoSend(t, m, front, wait));
      s.maxBuf == n && SendDone(s, s1, ret, t, m, front, wait)
  {
    var s := Run(Empty(n, prios), ops);
    RunOk(n, prios, ops);
    ListsInOrder(n, prios, ops);
    IdleFacts(s, t);
    SendIs(s, t, m, front, wait);
  }

  // A suspended send that runs again tries just as much, with the message it was called with, unless its
  // timeout ran out: then it changes nothing but its own record.
  lemma ResumedSendEffect(n: nat, prios: Prios, ops: seq<Op>, t: Tid)
    requires n > 0
    requires var s := Run(Empty(n, prios), ops); t !in s.recvQ && t !in s.sendQ && TaskOf(s.tasks, t).pc.Sending?
    ensures var s := Run(Empty(n, prios), ops); var k := TaskOf(s.tasks, t); var (s1, ret) := Step(s, DoResume(t));
      if k.timedOut then ret == Timeout && s1 == s.With(t, k.(pc := Idle, timedOut := false))
      else SendDone(s, s1, ret, t, k.pc.m, k.pc.front, k.pc.wait)
  {
    var s := Run(Empty(n, prios), ops);
    RunOk(n, prios, ops);
    ListsInOrder(n, prios, ops);
    var k := TaskOf(s.tasks, t);
    assert TaskOk(k, t in s.recvQ, t in s.sendQ);
    if !k.timedOut { SendIs(s, t, k.pc.m, k.pc.front, k.pc.wait); }
  }

  // A post-overwrite succeeds exactly on a mailbox without a broadcast in flight.
  lemma OverwriteEffect(n: nat, prios: Prios, ops: seq<Op>, m: Msg)
    requires n > 0
    ensures var s := Run(Empty(n, prios), ops); var (s1, ret) := Step(s, DoPostOvw(m));
      && (ret == Success <==> n == 1 && s.bcast == 0)
      && (if ret == Success then Committed(s, s1, Only, m, {})
          else s1 == s && ret == if n > 1 then NotAMbox else BufferFull)
  {
    var s := Run(Empty(n, prios), ops);
    RunOk(n, prios, ops);
    if n == 1 && s.bcast == 0 { CommitIs(s, Only, m); }
  }

  // ---- broadcasts -----------------------------------------------------------------------------------------

  // Every listed broadcast waiter, and nobody else, is to read the message; a single one leaves the list at
  // once, more are taken off it by a deferred wake.
  ghost predicate Announced(s: Queue, s1: Queue, m: Msg) {
    var to := Audience(s);
    && s1.ring == [m] && s1.bcast == |to| && s1.sendQ == s.sendQ && OthersStay(s, s1, to)
    && (forall t <- to :: TaskOf(s1.tasks, t) == TaskOf(s.tasks, t).(info := BroadcastDeliver, armed := false))
    && (if |to| == 1 then s1.jobs == s.jobs && forall t :: t in s1.recvQ <==> t in s.recvQ && t !in to
        else s1.jobs == s.jobs + [|to|] && s1.recvQ == s.recvQ)
  }

  lemma AudienceIs(s: Queue)
    requires Inv(s)
    ensures CountInfo(s.recvQ, s.tasks, WaitBroadcast) == |Audience(s)|
    ensures InfoIn(s.recvQ, s.tasks, WaitBroadcast) == Audience(s)
  {
    CountIsSize(s.recvQ, s.tasks, WaitBroadcast);
  }

  // But for the wake: the audience is prepared and listed.
  lemma BegunIs(s: Queue, m: Msg)
    requires Inv(s) && s.maxBuf == 1 && s.ring == [] && CountInfo(s.recvQ, s.tasks, WaitBroadcast) > 0
    ensures var s1, to := Begun(s, m), Audience(s);
      && s1.ring == [m] && s1.bcast == |to| && s1.sendQ == s.sendQ && s1.recvQ == s.recvQ && s1.jobs == [|to|]
      && OthersStay(s, s1, to) && Delivering(s1.tasks) == to && s.jobs == [] && Inv(s1)
      && (forall t <- to :: TaskOf(s1.tasks, t) == TaskOf(s.tasks, t).(info := BroadcastDeliver, armed := false))
  {
    AudienceIs(s);
    BroadcastBegins(s, m);
    PreparedSets(s);
    assert s.ring + [m] == [m];
    forall t <- Audience(s) ensures t in s.tasks {}
  }

  lemma BroadcastGoes(s: Queue, m: Msg, deferOk: bool)
    requires Inv(s) && Broadcast(s, m, deferOk).1 == Success
    ensures Announced(s, Broadcast(s, m, deferOk).0, m)
  {
    AudienceIs(s);
    BegunIs(s, m);
    BroadcastIs(s, m, deferOk);
    if |Audience(s)| == 1 { WakeJobOk(Begun(s, m)); }
  }

  // A broadcast succeeds exactly on an empty mailbox with a broadcast waiter, and with more than one only if
  // the wake can be deferred.
  lemma BroadcastEffect(n: nat, prios: Prios, ops: seq<Op>, m: Msg, deferOk: bool)
    requires n > 0
    ensures var s := Run(Empty(n, prios), ops); var (s1, ret) := Step(s, DoBroadcast(m, deferOk)); var to := Audience(s);
      && (ret == Success <==> n == 1 && s.ring == [] && to != {} && (|to| == 1 || deferOk))
      && (if ret == Success then Announced(s, s1, m) else s1 == s)
  {
    var s := Run(Empty(n, prios), ops);
    RunOk(n, prios, ops);
    AudienceIs(s);
    if Broadcast(s, m, deferOk).1 == Success { BroadcastGoes(s, m, deferOk); }
  }

  // ---- receiving --------------------------------------------------------------------------------------------

  // A receive succeeds exactly while the ring holds a message and no broadcast is in flight: it returns the
  // first message, takes it off the ring and wakes the best sender. Else it is refused or suspends.
  ghost predicate RecvDone(s: Queue, s1: Queue, ret: Ret, t: Tid, wait: Wait) {
    if s.ring != [] && s.bcast == 0 then
      && ret == Success && Receives(s, s1, t, s.ring[0]) && s1.ring == s.ring[1..]
      && s1.recvQ == s.recvQ && s1.bcast == 0 && s1.jobs == s.jobs && SenderWoken(s, s1, t)
    else if wait == NoWait then ret == BufferEmpty && s1 == s
    else ret == Blocked && RecvSuspends(s, s1, t, TaskOf(s.tasks, t).(pc := Receiving(wait), armed := wait == Bounded))
  }

  lemma RecvIs(s: Queue, t: Tid, wait: Wait)
    requires Running(s, t) && InOrder(s)
    ensures var (s1, ret) := RecvLoop(s, t, wait); RecvDone(s, s1, ret, t, wait)
  {
    EnqRanks(s.recvQ, s.prios, t);
  }

  lemma RecvEffect(n: nat, prios: Prios, ops: seq<Op>, t: Tid, wait: Wait)
    requires n > 0 && TaskOf(Run(Empty(n, prios), ops).tasks, t).pc == Idle
    ensures var s := Run(Empty(n, prios), ops); var (s1, ret) := Step(s, DoRecv(t, wait)); RecvDone(s, s1, ret, t, wait)
  {
    var s := Run(Empty(n, prios), ops);
    RunOk(n, prios, ops);
    ListsInOrder(n, prios, ops);
    IdleFacts(s, t);
    RecvIs(s, t, wait);
  }

  // A suspended receive that runs again returns the message it was handed, or its timeout.
  lemma ResumedRecvEffect(n: nat, prios: Prios, ops: seq<Op>, t: Tid)
    requires n > 0
    requires var s := Run(Empty(n, prios), ops); t !in s.recvQ && t !in s.sendQ && TaskOf(s.tasks, t).pc.Receiving?
    ensures var s := Run(Empty(n, prios), ops); var k := TaskOf(s.tasks, t); var (s1, ret) := Step(s, DoResume(t));
      && s1 == s.(tasks := s1.tasks, events := s1.events) && OthersStay(s, s1, {t})
      && TaskOf(s1.tasks, t) == k.(pc := Idle, info := Normal, timedOut := false)
      && ret == (if k.timedOut then Timeout else Success) && (k.timedOut <==> k.info != DirectDeliver)
  {
    var s := Run(Empty(n, prios), ops);
    RunOk(n, prios, ops);
    assert TaskOk(TaskOf(s.tasks, t), t in s.recvQ, t in s.sendQ);
  }

  // A broadcast receive always waits for the next broadcast, or is refused.
  lemma BroadcastRecvEffect(n: nat, prios: Prios, ops: seq<Op>, t: Tid, wait: Wait)
    requires n > 0 && TaskOf(Run(Empty(n, prios), ops).tasks, t).pc == Idle
    ensures var s := Run(Empty(n, prios), ops); var (s1, ret) := Step(s, DoBroadcastRecv(t, wait));
      if n > 1 then ret == NotAMbox && s1 == s
      else if wait == NoWait then ret == BufferEmpty && s1 == s
      else ret == Blocked
           && RecvSuspends(s, s1, t, TaskOf(s.tasks, t).(pc := BcastReceiving(wait), info := WaitBroadcast, armed := wait == Bounded))
  {
    var s := Run(Empty(n, prios), ops);
    RunOk(n, prios, ops);
    ListsInOrder(n, prios, ops);
    IdleFacts(s, t);
    EnqRanks(s.recvQ, s.prios, t);
  }

  // The reader has the payload; the last one empties the slot and wakes the best sender.
  ghost predicate ReadDone(s: Queue, s1: Queue, t: Tid) {
    && |s.ring| == 1 && Receives(s, s1, t, s.ring[0]) && s1.recvQ == s.recvQ
    && s1.bcast == s.bcast - 1 && s1.jobs == s.jobs
    && (if s.bcast == 1 then s1.ring == [] && SenderWoken(s, s1, t)
        else s1.ring == s.ring && s1.sendQ == s.sendQ && OthersStay(s, s1, {t}))
  }

  lemma ReadIs(s: Queue, t: Tid)
    requires s.bcast > 0 && |s.ring| == 1 && t !in s.sendQ && !TaskOf(s.tasks, t).timedOut
    ensures ReadDone(s, Consume(s, t), t)
  {
    assert s.ring[1..] == [];
    assert s.sendQ != [] ==> s.sendQ[0] in s.sendQ;
  }

  // A prepared receiver that runs again returns the payload; one that is not prepared, its timeout.
  lemma ResumedBroadcastRecvEffect(n: nat, prios: Prios, ops: seq<Op>, t: Tid)
    requires n > 0
    requires var s := Run(Empty(n, prios), ops); t !in s.recvQ && t !in s.sendQ && TaskOf(s.tasks, t).pc.BcastReceiving?
    ensures var s := Run(Empty(n, prios), ops); var k := TaskOf(s.tasks, t); var (s1, ret) := Step(s, DoResume(t));
      if k.timedOut then ret == Timeout && s1 == s.With(t, k.(pc := Idle, info := Normal, timedOut := false))
      else ret == Success && ReadDone(s, s1, t)
  {
    var s := Run(Empty(n, prios), ops);
    RunOk(n, prios, ops);
    assert TaskOk(TaskOf(s.tasks, t), t in s.recvQ, t in s.sendQ);
    if !TaskOf(s.tasks, t).timedOut {
      ReadOk(s, t);
      ReadIs(s, t);
    }
  }

  // A bounded waiter whose timeout runs out leaves its list and is marked; the queue is as it was.
  lemma TimeoutEffect(n: nat, prios: Prios, ops: seq<Op>, t: Tid)
    requires n > 0 && TaskOf(Run(Empty(n, prios), ops).tasks, t).armed
    ensures var s := Run(Empty(n, prios), ops); var s1 := Step(s, DoTimeout(t)).0;
      && s1 == s.(tasks := s1.tasks, recvQ := s1.recvQ, sendQ := s1.sendQ) && OthersStay(s, s1, {t})
      && TaskOf(s1.tasks, t) == TaskOf(s.tasks, t).(armed := false, timedOut := true)
      && (if t in s.sendQ then LeftList(s.sendQ, s1.sendQ, t) && s1.recvQ == s.recvQ
          else LeftList(s.recvQ, s1.recvQ, t) && s1.sendQ == s.sendQ)
  {
    var s := Run(Empty(n, prios), ops);
    RunOk(n, prios, ops);
    assert TaskOk(TaskOf(s.tasks, t), t in s.recvQ, t in s.sendQ);
    if t in s.sendQ { WithoutLeaves(s.sendQ, t); WithoutAbsent(s.recvQ, t); }
    else { WithoutLeaves(s.recvQ, t); WithoutAbsent(s.sendQ, t); }
  }

  lemma {:induction false} WithoutAbsent(q: seq<Tid>, t: Tid)
    requires t !in q
    ensures Without(q, t) == q
  {
    if q != [] { WithoutAbsent(q[1..], t); }
  }
}
