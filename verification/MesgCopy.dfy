// The copied task messages in the code's own form: the static block pool is an array, the free list
// and the receive queues are relinked in place. Every method is proved against MesgCopySpec.

module MesgCopy {
  import opened Basics
  import opened MesgCopySpec
  import opened MesgCopyProof

  class CopyMessages {
    const maxBytes: nat
    const blocks: array<Block>
    var free: seq<nat>
    var queues: map<Tid, seq<nat>>
    var eps: map<Tid, Endpoint>
    var registry: seq<Tid>  // RK_gTaskHandleByPid

    // kMesgCopyPoolEnsureInit_
    constructor (nBlocks: nat, payloadBytes: nat)
      ensures Valid() && fresh(blocks) && Contents() == Boot(nBlocks, payloadBytes)
    {
      maxBytes := payloadBytes;
      blocks := new Block[nBlocks](_ => Block.Free);
      free := seq(nBlocks, b => b);
      queues, eps, registry := map[], map[], [];
      new;
      RunOk(nBlocks, payloadBytes, []);
    }

    ghost function Contents(): System
      reads this, blocks
    {
      System(maxBytes, blocks[..], free, queues, eps)
    }

    // Receivers are among the registered tasks.
    ghost predicate Valid()
      reads this, blocks
    {
      Inv(Contents()) && forall t <- eps :: eps[t].init ==> t in registry
    }

    function Queue(t: Tid): seq<nat>
      reads this
    {
      if t in queues then queues[t] else []
    }

    function Ep(t: Tid): Endpoint
      reads this
    {
      if t in eps then eps[t] else NO_ENDPOINT
    }

    // kMesgCopyEndpointInit, of a task the scheduler has registered.
    method EndpointInit(t: Tid) returns (ok: bool)
      requires Valid() && t in registry
      modifies this`eps
      ensures Valid() && ok == !old(Ep(t)).init && Contents() == Step(old(Contents()), DoInit(t))
    {
      StepOk(Contents(), DoInit(t));
      ok := !Ep(t).init;
      if ok { eps := eps[t := Ep(t).(init := true)]; }
    }

    // kMesgCopyFree_
    method Free(b: nat)
      requires b < blocks.Length
      modifies blocks, this`free
      ensures Contents() == FreeBlock(old(Contents()), b)
    {
      blocks[b] := Block.Free;
      free := free + [b];
    }

    // kMesgCopyDequeueMatching_, with the copy and the free that follow it.
    method DequeueMatching(t: Tid, w: Want) returns (got: Option<Payload>)
      requires Inv(Contents())
      modifies blocks, this`free, this`queues
      ensures (Contents(), got) == Select(old(Contents()), t, w)
    {
      var q := Queue(t);
      var i := 0;
      while i < |q|
        invariant 0 <= i <= |q| && Contents() == old(Contents())
        invariant FirstFit(Contents(), q, w) == FirstFit(Contents(), q, w, i)
      {
        var b := q[i];
        assert b in Contents().Queue(t);
        assert QueuedFor(Contents(), b, t);
        var block := blocks[b];
        if w.Takes(block.sender, |block.payload|) {
          queues := queues[t := q[..i] + q[i + 1..]];
          Free(b);
          return Some(block.payload);
        }
        i := i + 1;
      }
      return None;
    }

    // kMesgCopyStore_ over kMesgCopyAlloc_
    method Store(from: Tid, to: Tid, payload: Payload) returns (ret: Ret)
      requires free != [] ==> free[0] < blocks.Length
      modifies blocks, this`free, this`queues
      ensures (Contents(), ret) == MesgCopySpec.Store(old(Contents()), from, to, payload)
    {
      if |free| == 0 { return BufferEmpty; }
      var b := free[0];
      free := free[1..];
      blocks[b] := Used(to, from, payload);
      queues := queues[to := Queue(to) + [b]];
      return Sent;
    }

    // kMesgSendCopy
    method SendCopy(from: Tid, to: Tid, payload: Payload) returns (ret: Ret)
      requires Valid()
      modifies this, blocks
      ensures Valid() && Enabled(old(Contents()), DoSend(from, to, payload))
      ensures (Contents(), ret) == Send(old(Contents()), from, to, payload)
    {
      SendOk(Contents(), from, to, payload);
      if |payload| == 0 || |payload| > maxBytes { return InvalidSize; }
      if !Ep(to).init { return NotInit; }
      var want := Ep(to).want;
      if want.Some? && want.value.Takes(from, |payload|) {
        eps := eps[to := Ep(to).(want := None, armed := false, result := Some(Done(payload)))];
        return Sent;
      }
      ret := Store(from, to, payload);
    }

    // kMesgRecvCopy, up to the suspension.
    method RecvCopy(t: Tid, w: Want, wait: Wait) returns (ret: Ret)
      requires Valid() && Enabled(Contents(), DoRecv(t, w, wait))
      modifies this, blocks
      ensures Valid() && (Contents(), ret) == Recv(old(Contents()), t, w, wait)
    {
      RecvOk(Contents(), t, w, wait);
      if w.room == 0 { return InvalidSize; }
      if !Ep(t).init { return NotInit; }
      var got := DequeueMatching(t, w);
      if got.Some? { return Done(got.value); }
      if wait == NoWait { return BufferEmpty; }
      eps := eps[t := Ep(t).(inCall := true, want := Some(w), armed := wait == Bounded, result := None)];
      return Blocked;
    }

    // The drain loop of kMesgTaskCleanup.
    method DrainQueue(t: Tid)
      requires Inv(Contents())
      modifies blocks, this`free, this`queues
      ensures Contents() == Drain(old(Contents()), t)
    {
      ghost var target := Drain(Contents(), t);
      while |Queue(t)| > 0
        invariant Inv(Contents()) && Drain(Contents(), t) == target
        decreases |Queue(t)|
      {
        TakeHeadOk(Contents(), t);
        var q := Queue(t);
        queues := queues[t := q[1..]];
        Free(q[0]);
      }
    }

    // kMesgCopyCancelWaitersForSender_
    method CancelWaitersForSender(sender: Tid)
      requires Valid()
      modifies this`eps
      ensures Contents() == CancelWaiters(old(Contents()), sender)
    {
      for idx := 0 to |registry|
        invariant eps.Keys == old(eps).Keys
        invariant forall r <- eps ::
          eps[r] == if r in registry[..idx] && r != sender && WantsFrom(old(eps)[r], sender)
                    then Cancelled(old(eps)[r]) else old(eps)[r]
      {
        var r := registry[idx];
        assert registry[..idx + 1] == registry[..idx] + [r];
        if r != sender && r in eps && WantsFrom(eps[r], sender) {
          eps := eps[r := Cancelled(eps[r])];
        }
      }
      assert registry[..|registry|] == registry;
      assert eps == CancelWaiters(old(Contents()), sender).eps;
    }

    // The copy half of kMesgTaskCleanup.
    method TaskCleanup(t: Tid)
      requires Valid()
      modifies this, blocks
      ensures Valid() && Contents() == Kill(old(Contents()), t)
      ensures Contents().Queue(t) == [] && free == old(free) + old(Contents()).Queue(t)
    {
      KillOk(Contents(), t);
      DrainOk(Contents(), t);
      DrainQueue(t);
      CancelWaitersForSender(t);
      queues := queues[t := []];
      eps := eps[t := NO_ENDPOINT];
    }
  }
}
