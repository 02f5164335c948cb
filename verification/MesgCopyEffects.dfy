// What the calls of the copied messages return and do, in any state a run reaches.

module MesgCopyEffects {
  import opened Basics
  import opened MesgCopySpec
  import opened MesgCopyProof

  // The receiver is suspended for a message of this length from this sender, or from any.
  ghost predicate WaitsFor(s: System, to: Tid, from: Tid, bytes: nat) {
    exists w: Want :: s.Ep(to).want == Some(w) && (w.from == None || w.from == Some(from)) && bytes <= w.room
  }

  ghost predicate QueuesStay(s: System, s1: System, but: Tid) {
    forall x: Tid :: x != but ==> s1.Queue(x) == s.Queue(x)
  }

  ghost predicate TasksStay(s: System, s1: System, but: Tid) {
    forall x: Tid :: x != but ==> s1.Ep(x) == s.Ep(x)
  }

  // The payload is in the receiver's buffer, or in a block that was free, at the end of its queue.
  ghost predicate SendDone(s: System, s1: System, from: Tid, to: Tid, payload: Payload) {
    if WaitsFor(s, to, from, |payload|) then
      && s1 == s.(eps := s1.eps) && TasksStay(s, s1, to)
      && s1.Ep(to) == s.Ep(to).(want := None, armed := false, result := Some(Done(payload)))
    else
      && s.free != [] && s1 == s.(free := s1.free, blocks := s1.blocks, queues := s1.queues)
      && s1.Queue(to) == s.Queue(to) + [s.free[0]] && QueuesStay(s, s1, to) && s1.free == s.free[1..]
      && s.free[0] < |s.blocks| && s.blocks[s.free[0]] == Free
      && s1.blocks == s.blocks[s.free[0] := Used(to, from, payload)]
  }

  // Over every run a send succeeds exactly with a payload of an allowed length to a task whose endpoint is
  // set up, while that task waits for it or a block is free.
  lemma SendEffect(n: nat, maxBytes: nat, ops: seq<Op>, from: Tid, to: Tid, payload: Payload)
    ensures var s := Run(Boot(n, maxBytes), ops);
      && s.maxBytes == maxBytes && Enabled(s, DoSend(from, to, payload))
      && (var (s1, ret) := Send(s, from, to, payload);
          && Step(s, DoSend(from, to, payload)) == s1
          && if |payload| == 0 || |payload| > maxBytes then ret == InvalidSize && s1 == s
             else if !s.Ep(to).init then ret == NotInit && s1 == s
             else if WaitsFor(s, to, from, |payload|) || s.free != []
             then ret == Sent && SendDone(s, s1, from, to, payload) else ret == BufferEmpty && s1 == s)
  {
    var s := Run(Boot(n, maxBytes), ops);
    RunOk(n, maxBytes, ops);
    RunMax(n, maxBytes, ops);
    if s.free != [] { assert s.free[0] in s.free; }
    var want := s.Ep(to).want;
    assert WaitsFor(s, to, from, |payload|) <==> want.Some? && want.value.Takes(from, |payload|);
  }

  lemma {:induction false} DrainMax(s: System, t: Tid)
    ensures Drain(s, t).maxBytes == s.maxBytes
    decreases |s.Queue(t)|
  {
    if s.Queue(t) != [] && s.Queue(t)[0] < |s.blocks| { DrainMax(TakenHead(s, t), t); }
  }

  lemma {:induction false} RunMax(n: nat, maxBytes: nat, ops: seq<Op>)
    ensures Run(Boot(n, maxBytes), ops).maxBytes == maxBytes
  {
    if ops != [] {
      var s, op := Run(Boot(n, maxBytes), ops[..|ops| - 1]), ops[|ops| - 1];
      RunMax(n, maxBytes, ops[..|ops| - 1]);
      if op.DoKill? { DrainMax(s, op.t); }
    }
  }

  // A queued message of this filter that fits.
  ghost predicate Suits(s: System, b: nat, w: Want) {
    b < |s.blocks| && s.blocks[b].Used? && (w.from == None || w.from == Some(s.blocks[b].sender))
    && |s.blocks[b].payload| <= w.room
  }

  // q1 is q without its earliest suitable message, in block b.
  ghost predicate Picked(s: System, q: seq<nat>, q1: seq<nat>, w: Want, b: nat) {
    exists i :: 0 <= i < |q| && q[i] == b && Suits(s, b, w) && q1 == q[..i] + q[i + 1..]
      && forall j :: 0 <= j < i ==> !Suits(s, q[j], w)
  }

  // The earliest message that suits is copied out, and its block is the last free one.
  ghost predicate RecvDone(s: System, s1: System, t: Tid, w: Want, payload: Payload) {
    exists b: nat ::
      && Picked(s, s.Queue(t), s1.Queue(t), w, b) && payload == s.blocks[b].payload
      && s1 == s.(queues := s1.queues, free := s.free + [b], blocks := s.blocks[b := Free]) && QueuesStay(s, s1, t)
  }

  lemma PickedAt(s: System, q: seq<nat>, w: Want)
    requires FirstFit(s, q, w) < |q|
    ensures var i := FirstFit(s, q, w); Picked(s, q, q[..i] + q[i + 1..], w, q[i])
  {
    var i := FirstFit(s, q, w);
    assert forall j :: 0 <= j < i ==> !Suits(s, q[j], w);
    assert Suits(s, q[i], w);
  }

  lemma NothingSuits(s: System, q: seq<nat>, w: Want)
    requires FirstFit(s, q, w) == |q|
    ensures forall b <- q :: !Suits(s, b, w)
  {
    assert forall j :: 0 <= j < |q| ==> !Suits(s, q[j], w);
  }

  ghost predicate WaitDone(s: System, s1: System, ret: Ret, t: Tid, w: Want, wait: Wait) {
    if w.room == 0 then ret == InvalidSize && s1 == s
    else if !s.Ep(t).init then ret == NotInit && s1 == s
    else if exists b <- s.Queue(t) :: Suits(s, b, w) then ret.Done? && RecvDone(s, s1, t, w, ret.payload)
    else if wait == NoWait then ret == BufferEmpty && s1 == s
    else
      && ret == Blocked && s1 == s.(eps := s1.eps) && TasksStay(s, s1, t)
      && s1.Ep(t) == s.Ep(t).(inCall := true, want := Some(w), armed := wait == Bounded, result := None)
  }

  lemma RecvIs(s: System, t: Tid, w: Want, wait: Wait)
    ensures var (s1, ret) := Recv(s, t, w, wait); WaitDone(s, s1, ret, t, w, wait)
  {
    var q := s.Queue(t);
    var i := FirstFit(s, q, w);
    if i < |q| {
      PickedAt(s, q, w);
      assert q[i] in q && Suits(s, q[i], w);
    } else {
      NothingSuits(s, q, w);
    }
  }

  // Over every run a receive returns the earliest message that suits while there is one; else it is refused or
  // suspends, waiting for one.
  lemma RecvEffect(n: nat, maxBytes: nat, ops: seq<Op>, t: Tid, w: Want, wait: Wait)
    ensures var s := Run(Boot(n, maxBytes), ops); var (s1, ret) := Recv(s, t, w, wait);
      WaitDone(s, s1, ret, t, w, wait) && (!s.Ep(t).inCall ==> Step(s, DoRecv(t, w, wait)) == s1)
  {
    RecvIs(Run(Boot(n, maxBytes), ops), t, w, wait);
  }

  // A task's endpoint is set up once, and then it can be sent to.
  lemma InitEffect(n: nat, maxBytes: nat, ops: seq<Op>, t: Tid)
    ensures var s := Run(Boot(n, maxBytes), ops); var s1 := Run(Boot(n, maxBytes), ops + [DoInit(t)]);
      && s1.Ep(t) == s.Ep(t).(init := true) && TasksStay(s, s1, t)
      && (s.Ep(t).init ==> s1 == s) && s1 == s.(eps := s1.eps)
  {
    assert (ops + [DoInit(t)])[..|ops|] == ops;
  }

  // A receive that runs again returns what it was given while it slept, or its timeout, and is over.
  lemma ResumeEffect(n: nat, maxBytes: nat, ops: seq<Op>, t: Tid)
    requires var e := Run(Boot(n, maxBytes), ops).Ep(t); e.inCall && e.want == None
    ensures var s := Run(Boot(n, maxBytes), ops); var (s1, ret) := Resume(s, t); var e := s.Ep(t);
      && Step(s, DoResume(t)) == s1 == s.WithEp(t, e.(inCall := false, timedOut := false, result := None))
      && (if e.timedOut then ret == Timeout else Some(ret) == e.result)
  {
    RunOk(n, maxBytes, ops);
    assert EpOk(Run(Boot(n, maxBytes), ops), t);
  }

  // A bounded receive whose timeout runs out waits no more and is marked.
  lemma TimeoutEffect(n: nat, maxBytes: nat, ops: seq<Op>, t: Tid)
    requires Run(Boot(n, maxBytes), ops).Ep(t).armed
    ensures var s := Run(Boot(n, maxBytes), ops);
      Run(Boot(n, maxBytes), ops + [DoTimeout(t)])
        == s.WithEp(t, s.Ep(t).(want := None, armed := false, timedOut := true))
  {
    assert (ops + [DoTimeout(t)])[..|ops|] == ops;
  }
}
