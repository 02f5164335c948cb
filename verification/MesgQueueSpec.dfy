// The message-queue protocol of core/src/kmesgq.c on values. Each critical section is one step; a
// blocking call is two, "enqueue and suspend" and "resume after a wake or a timeout".

module MesgQueueSpec {
  import opened Basics
  import opened TaskQueue

  type Msg = seq<nat>

  datatype Wait = NoWait | Bounded | Forever

  // timeoutNode.waitInfo
  datatype Info = Normal | WaitBroadcast | BroadcastDeliver | DirectDeliver

  // The call a task is suspended in.
  datatype Pc =
    | Idle
    | Sending(m: Msg, front: bool, wait: Wait)
    | Receiving(wait: Wait)
    | BcastReceiving(wait: Wait)

  // `armed` says that the timeout is running; `buf` is the caller's receive buffer.
  datatype Task = Task(pc: Pc, info: Info, armed: bool, timedOut: bool, buf: Msg)

  type Tasks = map<Tid, Task>

  const IDLE := Task(Idle, Normal, false, false, [])

  function TaskOf(tasks: Tasks, t: Tid): Task {
    if t in tasks then tasks[t] else IDLE
  }

  // What an outsider can see of a queue. Put, Jam and Over are messages committed at the back, at
  // the front and over the only slot; Take and Read are messages copied to a receiver, Read being
  // one receiver's copy of a broadcast; Return is a receive that returns with success.
  datatype Event =
    | Put(m: Msg) | Jam(m: Msg) | Over(m: Msg)
    | Bcast(m: Msg, to: set<Tid>)
    | Take(t: Tid, m: Msg) | Read(t: Tid, m: Msg)
    | Return(t: Tid, m: Msg)

  datatype Queue = Queue(maxBuf: nat, ring: seq<Msg>, bcast: nat, recvQ: seq<Tid>, sendQ: seq<Tid>,
                         jobs: seq<nat>, tasks: Tasks, prios: Prios, events: seq<Event>) {
    function With(t: Tid, k: Task): Queue {
      this.(tasks := tasks[t := k])
    }

    function Log(es: seq<Event>): Queue {
      this.(events := events + es)
    }
  }

  datatype Ret = Success | Blocked | BufferFull | BufferEmpty | Timeout | NotAMbox | NoPostProc

  // ---- the wait lists ---------------------------------------------------------------------------

  // kMesgQueueDeqNormalReceiver_: first listed task that does not wait for a broadcast.
  function FirstNormal(q: seq<Tid>, tasks: Tasks, i: nat := 0): (r: nat)
    requires i <= |q|
    ensures i <= r <= |q|
    ensures r < |q| ==> TaskOf(tasks, q[r]).info != WaitBroadcast
    ensures forall j :: i <= j < r ==> TaskOf(tasks, q[j]).info == WaitBroadcast
    decreases |q| - i
  {
    if i == |q| || TaskOf(tasks, q[i]).info != WaitBroadcast then i else FirstNormal(q, tasks, i + 1)
  }

  // kMesgQueueCountBroadcastWaiters_
  function CountInfo(q: seq<Tid>, tasks: Tasks, info: Info): nat {
    if q == [] then 0
    else CountInfo(q[..|q| - 1], tasks, info) + if TaskOf(tasks, q[|q| - 1]).info == info then 1 else 0
  }

  // kMesgQueuePrepareBroadcastReceivers_, for all the broadcast waiters.
  function Prepared(q: seq<Tid>, tasks: Tasks): Tasks {
    map t | t in tasks ::
      if t in q && tasks[t].info == WaitBroadcast
      then tasks[t].(info := BroadcastDeliver, armed := false) else tasks[t]
  }

  // kMesgQueueBroadcastWake: the first n prepared receivers leave the list.
  function DropDelivering(q: seq<Tid>, tasks: Tasks, n: nat): seq<Tid> {
    if q == [] || n == 0 then q
    else if TaskOf(tasks, q[0]).info == BroadcastDeliver then DropDelivering(q[1..], tasks, n - 1)
    else [q[0]] + DropDelivering(q[1..], tasks, n)
  }

  // ---- handing messages over ----------------------------------------------------------------------

  datatype End = Back | Front | Only

  function EventAt(e: End, m: Msg): Event {
    match e case Back => Put(m) case Front => Jam(m) case Only => Over(m)
  }

  function RingAt(e: End, ring: seq<Msg>, m: Msg): seq<Msg> {
    match e case Back => ring + [m] case Front => [m] + ring case Only => [m]
  }

  // kMesgQueueDirectSendIfAny_: the receiver that gets the message without the ring.
  function DirectReceiver(s: Queue): Option<Tid> {
    var i := FirstNormal(s.recvQ, s.tasks);
    if s.ring != [] || s.bcast > 0 || i == |s.recvQ| then None else Some(s.recvQ[i])
  }

  function Deliver(s: Queue, r: Tid, m: Msg): Queue {
    var k := TaskOf(s.tasks, r);
    s.(recvQ := Without(s.recvQ, r)).With(r, k.(info := DirectDeliver, armed := false, buf := m))
  }

  // kMesgQueueWakeNormalReceiverIfAny_
  function WakeNormal(s: Queue): Queue {
    var i := FirstNormal(s.recvQ, s.tasks);
    if i == |s.recvQ| then s
    else
      var r := s.recvQ[i];
      s.(recvQ := Without(s.recvQ, r)).With(r, TaskOf(s.tasks, r).(info := Normal, armed := false))
  }

  // kMesgQueueWakeSenderIfAny_
  function WakeSender(s: Queue): Queue {
    if s.sendQ == [] then s
    else s.(sendQ := s.sendQ[1..]).With(s.sendQ[0], TaskOf(s.tasks, s.sendQ[0]).(armed := false))
  }

  // The tail of send, jam and post-overwrite once they may go ahead.
  function Commit(s: Queue, e: End, m: Msg): Queue {
    match DirectReceiver(s)
    case Some(r) => Deliver(s, r, m).Log([EventAt(e, m), Take(r, m)])
    case None =>
      var s1 := s.(ring := RingAt(e, s.ring, m)).Log([EventAt(e, m)]);
      if e == Only && s.ring != [] then s1 else WakeNormal(s1)
  }

  // ---- the calls ------------------------------------------------------------------------------------

  // kMesgQueueSend and, at the front, kMesgQueueJam: from the test of the full queue on.
  function SendLoop(s: Queue, t: Tid, m: Msg, front: bool, wait: Wait): (Queue, Ret) {
    var k := TaskOf(s.tasks, t);
    if |s.ring| >= s.maxBuf then
      if wait == NoWait then (s, BufferFull)
      else (s.(sendQ := EnqByPrio(s.sendQ, s.prios, t))
             .With(t, k.(pc := Sending(m, front, wait), armed := wait == Bounded)), Blocked)
    else (Commit(s.With(t, k.(pc := Idle)), if front then Front else Back, m), Success)
  }

  // kMesgQueueRecv, from the test of the empty queue on.
  function RecvLoop(s: Queue, t: Tid, wait: Wait): (Queue, Ret) {
    var k := TaskOf(s.tasks, t);
    if s.ring == [] || s.bcast > 0 then
      if wait == NoWait then (s, BufferEmpty)
      else (s.(recvQ := EnqByPrio(s.recvQ, s.prios, t))
             .With(t, k.(pc := Receiving(wait), info := Normal, armed := wait == Bounded)), Blocked)
    else
      var m := s.ring[0];
      (WakeSender(s.(ring := s.ring[1..]).With(t, k.(pc := Idle, buf := m)).Log([Take(t, m), Return(t, m)])), Success)
  }

  // kMesgQueueBroadcastRecv, from the test of waitInfo on.
  function BcastLoop(s: Queue, t: Tid, wait: Wait): (Queue, Ret) {
    var k := TaskOf(s.tasks, t);
    if k.info != BroadcastDeliver then
      if wait == NoWait then (s, BufferEmpty)
      else (s.(recvQ := EnqByPrio(s.recvQ, s.prios, t))
             .With(t, k.(pc := BcastReceiving(wait), info := WaitBroadcast, armed := wait == Bounded)), Blocked)
    else (Consume(s, t), Success)
  }

  // The last reader empties the slot; the others only copy it.
  function Consume(s: Queue, t: Tid): Queue {
    if s.ring == [] || s.bcast == 0 then s
    else
      var m := s.ring[0];
      var s1 := s.With(t, TaskOf(s.tasks, t).(pc := Idle, info := Normal, buf := m)).Log([Read(t, m), Return(t, m)]);
      if s.bcast == 1 then WakeSender(s1.(ring := s.ring[1..], bcast := 0)) else s1.(bcast := s.bcast - 1)
  }

  // kMesgQueuePostOvw
  function PostOvw(s: Queue, m: Msg): (Queue, Ret) {
    if s.maxBuf > 1 then (s, NotAMbox)
    else if s.bcast > 0 then (s, BufferFull)
    else (Commit(s, Only, m), Success)
  }

  // kMesgQueueBroadcast; `deferOk` says whether the deferred-work queue has room.
  function Broadcast(s: Queue, m: Msg, deferOk: bool): (Queue, Ret) {
    var n := CountInfo(s.recvQ, s.tasks, WaitBroadcast);
    if s.maxBuf > 1 then (s, NotAMbox)
    else if n == 0 then (s, BufferEmpty)
    else if |s.ring| >= s.maxBuf then (s, BufferFull)
    else if n > 1 && !deferOk then (s, NoPostProc)
    else
      var tasks := Prepared(s.recvQ, s.tasks);
      var s1 := s.(bcast := n, ring := s.ring + [m], tasks := tasks,
                   jobs := if n > 1 then s.jobs + [n] else s.jobs).Log([Bcast(m, Delivering(tasks))]);
      (if n > 1 then s1 else BroadcastWake(s1, n), Success)
  }

  function BroadcastWake(s: Queue, n: nat): Queue {
    s.(recvQ := DropDelivering(s.recvQ, s.tasks, n))
  }

  // The rest of a blocking call, after the task was woken or its timeout ran out.
  function Resume(s: Queue, t: Tid): (Queue, Ret) {
    var k := TaskOf(s.tasks, t);
    if k.timedOut then
      (s.With(t, k.(pc := Idle, timedOut := false, info := if k.pc.Sending? then k.info else Normal)), Timeout)
    else match k.pc
      case Idle => (s, Success)
      case Sending(m, front, wait) => SendLoop(s, t, m, front, wait)
      case Receiving(wait) =>
        if k.info == DirectDeliver
        then (s.With(t, k.(pc := Idle, info := Normal)).Log([Return(t, k.buf)]), Success)
        else RecvLoop(s, t, wait)
      case BcastReceiving(wait) => BcastLoop(s, t, wait)
  }

  // The timer takes a bounded waiter off its list.
  function TimeOut(s: Queue, t: Tid): Queue {
    s.(recvQ := Without(s.recvQ, t), sendQ := Without(s.sendQ, t))
     .With(t, TaskOf(s.tasks, t).(armed := false, timedOut := true))
  }

  // ---- runs -------------------------------------------------------------------------------------------

  datatype Op =
    | DoSend(t: Tid, m: Msg, front: bool, wait: Wait)
    | DoPostOvw(m: Msg)
    | DoBroadcast(m: Msg, deferOk: bool)
    | DoRecv(t: Tid, wait: Wait)
    | DoBroadcastRecv(t: Tid, wait: Wait)
    | DoResume(t: Tid)
    | DoTimeout(t: Tid)
    | DoWakeJob

  // A task in a call can only be resumed, and only when it is on no list.
  predicate Enabled(s: Queue, op: Op) {
    match op
    case DoSend(t, _, _, _) => TaskOf(s.tasks, t).pc.Idle?
    case DoRecv(t, _) => TaskOf(s.tasks, t).pc.Idle?
    case DoBroadcastRecv(t, _) => TaskOf(s.tasks, t).pc.Idle?
    case DoPostOvw(_) => true
    case DoBroadcast(_, _) => true
    case DoResume(t) => !TaskOf(s.tasks, t).pc.Idle? && t !in s.recvQ && t !in s.sendQ
    case DoTimeout(t) => TaskOf(s.tasks, t).armed
    case DoWakeJob => s.jobs != []
  }

  function Step(s: Queue, op: Op): (Queue, Ret) {
    if !Enabled(s, op) then (s, Blocked)
    else match op
      case DoSend(t, m, front, wait) => SendLoop(s, t, m, front, wait)
      case DoRecv(t, wait) => RecvLoop(s, t, wait)
      case DoBroadcastRecv(t, wait) => if s.maxBuf > 1 then (s, NotAMbox) else BcastLoop(s, t, wait)
      case DoPostOvw(m) => PostOvw(s, m)
      case DoBroadcast(m, deferOk) => Broadcast(s, m, deferOk)
      case DoResume(t) => Resume(s, t)
      case DoTimeout(t) => (TimeOut(s, t), Success)
      case DoWakeJob => (BroadcastWake(s, s.jobs[0]).(jobs := s.jobs[1..]), Success)
  }

  function Run(s: Queue, ops: seq<Op>): Queue {
    if ops == [] then s else Step(Run(s, ops[..|ops| - 1]), ops[|ops| - 1]).0
  }

  function Empty(maxBuf: nat, prios: Prios): Queue {
    Queue(maxBuf, [], 0, [], [], [], map[], prios, [])
  }

  // ---- the abstract queue -------------------------------------------------------------------------------

  // Receivers that were prepared for the broadcast in flight and have not read it.
  function Delivering(tasks: Tasks): set<Tid> {
    set t | t in tasks && tasks[t].info == BroadcastDeliver
  }

  // Messages already copied to receivers that have not resumed.
  function Hands(tasks: Tasks): map<Tid, Msg> {
    map t | t in tasks && tasks[t].info == DirectDeliver :: tasks[t].buf
  }

  // A bounded deque, the readers a broadcast still waits for, and messages in receivers' hands.
  datatype Abs = Abs(q: seq<Msg>, pending: set<Tid>, hand: map<Tid, Msg>)

  // What each event does to the abstract queue; None if it may not happen there.
  function AbsStep(n: nat, a: Abs, e: Event): Option<Abs> {
    match e
    case Put(m) => if a.pending == {} && |a.q| < n then Some(a.(q := a.q + [m])) else None
    case Jam(m) => if a.pending == {} && |a.q| < n then Some(a.(q := [m] + a.q)) else None
    case Over(m) => if a.pending == {} && n == 1 then Some(a.(q := [m])) else None
    case Bcast(m, to) =>
      if a.pending == {} && n == 1 && a.q == [] && to != {} then Some(a.(q := [m], pending := to)) else None
    case Take(t, m) =>
      if a.pending == {} && a.q != [] && a.q[0] == m && t !in a.hand
      then Some(a.(q := a.q[1..], hand := a.hand[t := m])) else None
    case Read(t, m) =>
      if t in a.pending && a.q == [m] && t !in a.hand
      then Some(Abs(if a.pending == {t} then [] else a.q, a.pending - {t}, a.hand[t := m])) else None
    case Return(t, m) =>
      if t in a.hand && a.hand[t] == m then Some(a.(hand := a.hand - {t})) else None
  }

  function Replay(n: nat, es: seq<Event>): Option<Abs> {
    if es == [] then Some(Abs([], {}, map[]))
    else match Replay(n, es[..|es| - 1])
      case None => None
      case Some(a) => AbsStep(n, a, es[|es| - 1])
  }
}
