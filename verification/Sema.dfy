// The counting semaphore of core/src/ksema.c. A post with tasks waiting hands its token to the first of
// them and never passes it through the count, so no other task can take it in between.

module Sema {
  import opened Basics
  import opened TaskQueue

  datatype PendResult = Taken | WouldBlock | Suspended

  datatype PostResult = Woken(t: Tid) | Counted | Full

  class Semaphore {
    const maxValue: nat
    const prios: Prios
    var value: nat
    var waiting: seq<Tid>
    ghost const initial: nat
    ghost var posted: nat       // posts that were not refused
    ghost var granted: seq<Tid> // the task of every successful pend, the earliest first

    // Tokens are conserved, a token is in the count only while nobody waits for it, and the wait list is
    // in order of priority.
    ghost predicate Valid()
      reads this
    {
      && value <= maxValue && maxValue > 0
      && (waiting != [] ==> value == 0)
      && initial + posted == value + |granted|
      && Distinct(waiting) && Sorted(waiting, prios)
    }

    // kSemaphoreInit; None when the parameters are refused
    static method Init(initValue: nat, maxValue: nat, prios: Prios) returns (s: Option<Semaphore>)
      ensures s.Some? <==> maxValue > 0 && initValue <= maxValue
      ensures s.Some? ==>
        && fresh(s.value) && s.value.Valid() && s.value.value == s.value.initial == initValue
        && s.value.maxValue == maxValue && s.value.prios == prios && s.value.waiting == [] == s.value.granted
    {
      if maxValue == 0 || initValue > maxValue { return None; }
      var sema := new Semaphore(initValue, maxValue, prios);
      s := Some(sema);
    }

    constructor (initValue: nat, maxValue: nat, prios: Prios)
      requires maxValue > 0 && initValue <= maxValue
      ensures Valid() && value == initial == initValue && this.maxValue == maxValue && this.prios == prios
      ensures waiting == [] && posted == 0 && granted == []
    {
      this.maxValue, this.prios, value, waiting := maxValue, prios, initValue, [];
      initial, posted, granted := initValue, 0, [];
    }

    // kSemaphorePend of task t up to the point where it has a token, is refused, or is suspended
    method Pend(t: Tid, wait: bool) returns (r: PendResult)
      requires Valid() && t !in waiting
      modifies this
      ensures Valid() && posted == old(posted)
      ensures r == if old(value) > 0 then Taken else if wait then Suspended else WouldBlock
      ensures value == if r.Taken? then old(value) - 1 else old(value)
      ensures granted == if r.Taken? then old(granted) + [t] else old(granted)
      ensures waiting == if r.Suspended? then EnqByPrio(old(waiting), prios, t) else old(waiting)
    {
      if value > 0 {
        value := if maxValue == 1 then 0 else value - 1;
        granted := granted + [t];
        return Taken;
      }
      if !wait { return WouldBlock; }
      EnqKeepsOrder(waiting, prios, t);
      EnqMembers(waiting, prios, t);
      waiting := EnqByPrio(waiting, prios, t);
      r := Suspended;
    }

    // kSemaphorePost: only a full count refuses a token, and only when nobody waits.
    method Post() returns (r: PostResult)
      requires Valid()
      modifies this
      ensures Valid()
      ensures r.Woken? <==> old(waiting) != []
      ensures r.Full? <==> old(waiting) == [] && old(value) == maxValue
      ensures r.Woken? ==>
        && value == 0 && r.t == old(waiting)[0] && waiting == old(waiting)[1..]
        && granted == old(granted) + [r.t]
        && forall i :: 0 <= i < |waiting| ==> PrioOf(prios, r.t) <= PrioOf(prios, waiting[i])
      ensures !r.Woken? ==>
        && waiting == old(waiting) && granted == old(granted)
        && value == if r.Full? then old(value) else old(value) + 1
      ensures posted == if r.Full? then old(posted) else old(posted) + 1
    {
      if |waiting| > 0 {
        DistinctRest(waiting);
        var t := waiting[0];
        waiting := waiting[1..];
        posted, granted := posted + 1, granted + [t];
        return Woken(t);
      }
      if maxValue == 1 {
        if value != 0 { return Full; }
        value, posted := 1, posted + 1;
        return Counted;
      }
      if value == maxValue { return Full; }
      value, posted := value + 1, posted + 1;
      r := Counted;
    }

    // The wait of t runs out.
    method TimeOut(t: Tid)
      requires Valid() && t in waiting
      modifies this`waiting
      ensures Valid() && waiting == Without(old(waiting), t)
    {
      WithoutMembers(waiting, t);
      WithoutSorted(waiting, t, prios, prios);
      waiting := Without(waiting, t);
    }
  }
}
