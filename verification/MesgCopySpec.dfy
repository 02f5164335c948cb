// The copied task messages of core/src/kmesg.c on values: one static pool of blocks for all tasks,
// receive queues with sender and size filters, direct copies to blocked receivers, and task death.

module MesgCopySpec {
  import opened Basics

  type Payload = seq<nat>

  datatype Block = Free | Used(receiver: Tid, sender: Tid, payload: Payload)

  datatype Wait = NoWait | Bounded | Forever

  // What a blocked receiver takes: from this task, or any; at most `room` bytes.
  datatype Want = Want(from: Option<Tid>, room: nat) {
    predicate Takes(sender: Tid, bytes: nat) {
      (from == None || from == Some(sender)) && bytes <= room
    }
  }

  datatype Ret = Done(payload: Payload) | Sent | Blocked | BufferEmpty | Timeout | NotInit | InvalidSize

  // `want` is set while the task is on its own wait list, `result` once it was woken with an outcome.
  datatype Endpoint = Endpoint(init: bool, inCall: bool, want: Option<Want>, armed: bool, timedOut: bool,
                               result: Option<Ret>)

  const NO_ENDPOINT := Endpoint(false, false, None, false, false, None)

  datatype System = System(maxBytes: nat, blocks: seq<Block>, free: seq<nat>, queues: map<Tid, seq<nat>>,
                           eps: map<Tid, Endpoint>) {
    function Queue(t: Tid): seq<nat> {
      if t in queues then queues[t] else []
    }

    function Ep(t: Tid): Endpoint {
      if t in eps then eps[t] else NO_ENDPOINT
    }

    function WithEp(t: Tid, e: Endpoint): System {
      this.(eps := eps[t := e])
    }

    predicate Fits(b: nat, w: Want) {
      b < |blocks| && blocks[b].Used? && w.Takes(blocks[b].sender, |blocks[b].payload|)
    }
  }

  // kMesgCopyFree_: the block is cleared and goes to the tail of the free list.
  function FreeBlock(s: System, b: nat): System
    requires b < |s.blocks|
  {
    s.(blocks := s.blocks[b := Free], free := s.free + [b])
  }

  // The queue scan of kMesgCopyDequeueMatching_.
  function FirstFit(s: System, q: seq<nat>, w: Want, i: nat := 0): (r: nat)
    requires i <= |q|
    ensures i <= r <= |q|
    ensures r < |q| ==> s.Fits(q[r], w)
    ensures forall j :: i <= j < r ==> !s.Fits(q[j], w)
    decreases |q| - i
  {
    if i == |q| || s.Fits(q[i], w) then i else FirstFit(s, q, w, i + 1)
  }

  // Dequeue, copy out and free in one critical section.
  function Select(s: System, t: Tid, w: Want): (System, Option<Payload>) {
    var q := s.Queue(t);
    var i := FirstFit(s, q, w);
    if i == |q| then (s, None)
    else (FreeBlock(s.(queues := s.queues[t := q[..i] + q[i + 1..]]), q[i]), Some(s.blocks[q[i]].payload))
  }

  // kMesgCopyStore_; fails when no block is free.
  function Store(s: System, from: Tid, to: Tid, payload: Payload): (System, Ret)
    requires s.free != [] ==> s.free[0] < |s.blocks|
  {
    if s.free == [] then (s, BufferEmpty)
    else
      var b := s.free[0];
      (s.(free := s.free[1..], blocks := s.blocks[b := Used(to, from, payload)],
          queues := s.queues[to := s.Queue(to) + [b]]), Sent)
  }

  // kMesgCopyDeliverPayloadToWaiter_, when it applies.
  function Deliver(s: System, to: Tid, payload: Payload): System {
    s.WithEp(to, s.Ep(to).(want := None, armed := false, result := Some(Done(payload))))
  }

  // kMesgSendCopy
  function Send(s: System, from: Tid, to: Tid, payload: Payload): (System, Ret)
    requires s.free != [] ==> s.free[0] < |s.blocks|
  {
    var want := s.Ep(to).want;
    if payload == [] || |payload| > s.maxBytes then (s, InvalidSize)
    else if !s.Ep(to).init then (s, NotInit)
    else if want.Some? && want.value.Takes(from, |payload|) then (Deliver(s, to, payload), Sent)
    else Store(s, from, to, payload)
  }

  // kMesgRecvCopy, up to the suspension.
  function Recv(s: System, t: Tid, w: Want, wait: Wait): (System, Ret) {
    if w.room == 0 then (s, InvalidSize)
    else if !s.Ep(t).init then (s, NotInit)
    else
      match Select(s, t, w)
      case (s1, Some(payload)) => (s1, Done(payload))
      case (_, None) =>
        if wait == NoWait then (s, BufferEmpty)
        else (s.WithEp(t, s.Ep(t).(inCall := true, want := Some(w), armed := wait == Bounded, result := None)), Blocked)
  }

  // Behind the suspension point: the timeout, or the outcome the waker left.
  function Resume(s: System, t: Tid): (System, Ret) {
    var e := s.Ep(t);
    (s.WithEp(t, e.(inCall := false, timedOut := false, result := None)),
     if e.timedOut then Timeout else if e.result.Some? then e.result.value else Blocked)
  }

  function TimeOut(s: System, t: Tid): System {
    s.WithEp(t, s.Ep(t).(want := None, armed := false, timedOut := true))
  }

  // The copy half of kMesgTaskCleanup: queued blocks go back in order.
  function Drain(s: System, t: Tid): System
    decreases |s.Queue(t)|
  {
    var q := s.Queue(t);
    if q == [] || q[0] >= |s.blocks| then s
    else Drain(FreeBlock(s.(queues := s.queues[t := q[1..]]), q[0]), t)
  }

  function Cancelled(e: Endpoint): Endpoint {
    e.(want := None, armed := false, result := Some(NotInit))
  }

  predicate WantsFrom(e: Endpoint, sender: Tid) {
    e.init && e.want.Some? && e.want.value.from == Some(sender)
  }

  // kMesgCopyCancelWaitersForSender_: receivers that wait for the dead task and no other fail.
  function CancelWaiters(s: System, sender: Tid): System {
    s.(eps := map r | r in s.eps :: if r != sender && WantsFrom(s.eps[r], sender) then Cancelled(s.eps[r]) else s.eps[r])
  }

  function Kill(s: System, t: Tid): System {
    var s1 := CancelWaiters(Drain(s, t), t);
    s1.(queues := s1.queues[t := []]).WithEp(t, NO_ENDPOINT)
  }

  // ---- runs -------------------------------------------------------------------------------------------

  datatype Op =
    | DoInit(t: Tid)
    | DoSend(from: Tid, to: Tid, payload: Payload)
    | DoRecv(t: Tid, w: Want, wait: Wait)
    | DoResume(t: Tid)
    | DoTimeout(t: Tid)
    | DoKill(t: Tid)

  predicate Enabled(s: System, op: Op) {
    match op
    case DoInit(t) => !s.Ep(t).init
    case DoSend(_, _, _) => s.free != [] ==> s.free[0] < |s.blocks|
    case DoRecv(t, _, _) => !s.Ep(t).inCall
    case DoResume(t) => s.Ep(t).inCall && s.Ep(t).want == None
    case DoTimeout(t) => s.Ep(t).armed
    case DoKill(_) => true
  }

  function Step(s: System, op: Op): System {
    if !Enabled(s, op) then s
    else match op
      case DoInit(t) => s.WithEp(t, s.Ep(t).(init := true))
      case DoSend(from, to, payload) => Send(s, from, to, payload).0
      case DoRecv(t, w, wait) => Recv(s, t, w, wait).0
      case DoResume(t) => Resume(s, t).0
      case DoTimeout(t) => TimeOut(s, t)
      case DoKill(t) => Kill(s, t)
  }

  function Run(s: System, ops: seq<Op>): System {
    if ops == [] then s else Step(Run(s, ops[..|ops| - 1]), ops[|ops| - 1])
  }

  function Boot(nBlocks: nat, maxBytes: nat): System {
    System(maxBytes, seq(nBlocks, _ => Free), seq(nBlocks, b => b), map[], map[])
  }
}
