// The logger in the code's own form (core/src/klogger.c): one object whose calls change the pool, the queue
// and the records in place. The check of a record is a loop; what other tasks do between its turns is handed
// to it, since they may preempt it there. LoggerProof shows what all these calls keep.

module LoggerService {
  import opened Basics
  import opened Mem
  import opened Logger
  import opened LoggerProof

  // What happens during one turn of the consumer's walk: steps of submitters before its comparison and
  // between that and its read, and what lies in the memory that a walk which went astray reads.
  datatype Pause = Pause(before: seq<Step>, between: seq<Step>, junk: nat)

  const NO_PAUSE := Pause([], [], 0)

  function PauseAt(pauses: seq<Pause>, k: nat): Pause {
    if k < |pauses| then pauses[k] else NO_PAUSE
  }

  predicate BySubmitter(step: Step) {
    step.Take? || step.Fill? || step.Send?
  }

  function Interrupted(s: State, steps: seq<Step>): State {
    if steps == [] then s
    else
      var before := Interrupted(s, steps[..|steps| - 1]);
      if BySubmitter(steps[|steps| - 1]) then Apply(before, steps[|steps| - 1]) else before
  }

  // The second half of a turn, after the comparison.
  function Onwards(s: State, pause: Pause): State {
    var s1 := Interrupted(s, pause.between);
    if !s.consumer.Walking? then s else if s1.consumer.Walking? then FollowLink(s1, pause.junk) else s1
  }

  // One turn of the loop of logRecordValid_
  function Turn(s: State, pause: Pause): State {
    var s1 := Interrupted(s, pause.before);
    if s1.consumer.Walking? then Onwards(CompareBlock(s1), pause) else s1
  }

  // A check after k turns, or at its end if that came sooner.
  function Walked(s: State, pauses: seq<Pause>, k: nat): State {
    if k == 0 then s
    else
      var before := Walked(s, pauses, k - 1);
      if before.consumer.Walking? then Turn(before, PauseAt(pauses, k - 1)) else before
  }

  lemma {:induction false} InterruptedKeeps(s: State, steps: seq<Step>)
    requires Inv(s) && s.consumer.Walking?
    ensures Inv(Interrupted(s, steps)) && Interrupted(s, steps).consumer == s.consumer
  {
    if steps != [] {
      InterruptedKeeps(s, steps[..|steps| - 1]);
      var before, step := Interrupted(s, steps[..|steps| - 1]), steps[|steps| - 1];
      if BySubmitter(step) {
        StepOk(before, step);
        if step.Send? && Enabled(before, step) { SendOk(before, step.t); }
      }
    }
  }

  lemma OnwardsOk(s: State, pause: Pause)
    requires Inv(s) && (s.consumer.Walking? ==> s.consumer.compared)
    ensures var s1 := Onwards(s, pause);
      && Inv(s1) && (s1.consumer.Walking? <==> s.consumer.Walking?)
      && (s1.consumer.Walking? ==> !s1.consumer.compared && s1.consumer.i == s.consumer.i + 1)
  {
    if s.consumer.Walking? {
      InterruptedKeeps(s, pause.between);
      FollowOk(Interrupted(s, pause.between), pause.junk);
    }
  }

  lemma TurnOk(s: State, pause: Pause)
    requires Inv(s) && s.consumer.Walking? && !s.consumer.compared
    ensures var s1 := Turn(s, pause);
      && Inv(s1)
      && (s1.consumer.Walking? ==> !s1.consumer.compared && s1.consumer.i == s.consumer.i + 1 <= LOG_POOL_SIZE)
  {
    InterruptedKeeps(s, pause.before);
    var s0 := Interrupted(s, pause.before);
    CompareOk(s0);
    FreeFits(s0);
    WalkBounded(s0);
    OnwardsOk(CompareBlock(s0), pause);
  }

  lemma FreeFits(s: State)
    requires Owned(s.pool, Carried(s), s.submitting, s.leaked)
    ensures |s.pool.free| <= LOG_POOL_SIZE
  {
    PoolConserves(s.pool);
  }

  lemma WalkBounded(s: State)
    requires |s.pool.free| <= LOG_POOL_SIZE && s.consumer.Walking? && !s.consumer.compared
    ensures s.consumer.i >= LOG_POOL_SIZE ==> !CompareBlock(s).consumer.Walking?
    ensures CompareBlock(s).consumer.Walking? ==> CompareBlock(s).consumer == s.consumer.(compared := true)
  {
  }

  // A check after k turns, if it has not ended.
  predicate AtTurn(s: State, k: nat) {
    s.consumer.Walking? ==> !s.consumer.compared && s.consumer.i == k <= LOG_POOL_SIZE
  }

  // However often it is interrupted, a check ends within one turn more than there are records.
  lemma {:induction false} WalkedOk(s: State, pauses: seq<Pause>, k: nat)
    requires Inv(s) && AtTurn(s, 0)
    ensures Inv(Walked(s, pauses, k)) && AtTurn(Walked(s, pauses, k), k)
  {
    if k > 0 {
      WalkedOk(s, pauses, k - 1);
      NextTurnOk(Walked(s, pauses, k - 1), PauseAt(pauses, k - 1), k - 1);
    }
  }

  lemma NextTurnOk(s: State, pause: Pause, k: nat)
    requires Inv(s) && AtTurn(s, k)
    ensures var s1 := if s.consumer.Walking? then Turn(s, pause) else s; Inv(s1) && AtTurn(s1, k + 1)
  {
    if s.consumer.Walking? { TurnOk(s, pause); }
  }

  lemma {:induction false} WalkedStays(s: State, pauses: seq<Pause>, k: nat, n: nat)
    requires k <= n && !Walked(s, pauses, k).consumer.Walking?
    ensures Walked(s, pauses, n) == Walked(s, pauses, k)
  {
    if k < n { WalkedStays(s, pauses, k, n - 1); }
  }

  // ---- an undisturbed check -------------------------------------------------------------------------------

  // A check at its beginning.
  ghost predicate Begins(s: State) {
    && Threads(s.base, s.pool, s.words)
    && s.consumer.Walking? && !s.consumer.compared && s.consumer.i == 0
    && s.consumer.start == Addrs(s.base, s.pool.free) && OnList(s.consumer)
  }

  function At(s: State, k: nat): State
    requires s.consumer.Walking?
  {
    s.(consumer := s.consumer.(i := k, at := AddrFrom(s.consumer.start, k)))
  }

  // One undisturbed turn: to the next block of the list, or to an end.
  lemma UndisturbedTurn(s: State, k: nat)
    requires Begins(s) && k <= |s.consumer.start|
    ensures var w, s1 := s.consumer, Turn(At(s, k), NO_PAUSE);
      if k == |w.start| then s1 == Conclude(s, true)
      else if w.start[k] == Addr(s.base, w.r) then s1 == Conclude(s, false)
      else s1 == At(s, k + 1)
  {
    if k < |s.consumer.start| { assert LinkedAt(s.words, s.consumer.start, k); }
  }

  ghost predicate FoundBefore(start: seq<nat>, k: nat, a: nat) {
    exists j :: 0 <= j < k && j < |start| && start[j] == a
  }

  lemma FoundStep(start: seq<nat>, k: nat, a: nat)
    ensures FoundBefore(start, k + 1, a) <==> FoundBefore(start, k, a) || (k < |start| && start[k] == a)
  {
  }

  // Found, or past the end, or on the way there.
  ghost predicate After(s: State, s1: State, k: nat)
    requires s.consumer.Walking?
  {
    var w := s.consumer;
    if FoundBefore(w.start, k, Addr(s.base, w.r)) then s1 == Conclude(s, false)
    else if k > |w.start| then s1 == Conclude(s, true)
    else s1 == At(s, k)
  }

  lemma {:induction false} UndisturbedAfter(s: State, k: nat)
    requires Begins(s) && k <= |s.consumer.start| + 1
    ensures After(s, Walked(s, [], k), k)
  {
    if k > 0 {
      UndisturbedAfter(s, k - 1);
      UndisturbedTurn(s, k - 1);
      FoundStep(s.consumer.start, k - 1, Addr(s.base, s.consumer.r));
    }
  }

  lemma UndisturbedConcludes(s: State)
    requires Begins(s)
    ensures Walked(s, [], |s.pool.free| + 1) == Conclude(s, s.consumer.r !in s.pool.free)
  {
    UndisturbedAfter(s, |s.pool.free| + 1);
    AddrsHave(s.base, RECORD_BYTES, s.pool.free, s.consumer.r);
    assert Addr(s.base, s.consumer.r) in s.consumer.start
      <==> FoundBefore(s.consumer.start, |s.pool.free| + 1, Addr(s.base, s.consumer.r));
  }

  // A final check of any pointer to a record, with nothing in between, refuses exactly the free ones; that of
  // the waiting loop waits on exactly for a record in use while output is off.
  lemma UndisturbedRefusesFree(s: State)
    requires Begins(s)
    ensures var r, s1 := s.consumer.r, Walked(s, [], |s.pool.free| + 1);
      if !s.consumer.final then s1 == s.(consumer := if r !in s.pool.free && !s.outputOn then Got(r) else Ready(r))
      else if r in s.pool.free then s1.consumer.Away? && s1.errConsume == s.errConsume + 1
      else s1 == s.(consumer := Passed(r))
  {
    UndisturbedConcludes(s);
  }

  class Log {
    const base: nat
    var pool: Pool
    var words: map<nat, nat>
    var texts: map<nat, string>
    var submitting: map<Tid, Sub>
    var queue: seq<nat>
    var consumer: Consumer
    var outputOn: bool
    var errSend: nat
    var errPool: nat
    var errConsume: nat
    ghost var accepted: seq<string>
    ghost var outcomes: seq<Outcome>
    ghost var leaked: set<nat>

    ghost function Contents(): State
      reads this
    {
      State(base, pool, words, texts, submitting, queue, consumer, outputOn, errSend, errPool, errConsume,
            accepted, outcomes, leaked)
    }

    // kLogInit, over a record pool at this address
    constructor (poolPtr: nat)
      requires poolPtr > 0
      ensures Contents() == Initial(poolPtr) && Inv(Contents())
    {
      base := poolPtr;
      pool, words := FreshPool(LOG_POOL_SIZE), Threaded(poolPtr, LOG_POOL_SIZE);
      texts, submitting, queue, consumer, outputOn := map[], map[], [], Away, true;
      errSend, errPool, errConsume, accepted, outcomes, leaked := 0, 0, 0, [], [], {};
      new;
      InitialOk(poolPtr);
    }

    // The allocation of logSubmit_
    method TakeRecord(t: Tid) returns (got: bool)
      requires t !in submitting
      modifies this`pool, this`submitting, this`errPool
      ensures Contents() == Apply(old(Contents()), Take(t))
      ensures got <==> t in submitting
    {
      var (rest, record) := pool.Take();
      if record.None? {
        errPool := errPool + 1;
        return false;
      }
      pool := rest;
      submitting := submitting[t := Sub(record.value, false)];
      got := true;
    }

    // logSubmit_ writes its record.
    method FillRecord(t: Tid, text: string, tick: nat)
      requires t in submitting && !submitting[t].filled
      modifies this`words, this`texts, this`submitting
      ensures Contents() == Apply(old(Contents()), Fill(t, text, tick))
    {
      var r := submitting[t].r;
      words := words[Addr(base, r) := tick];
      texts := texts[r := text];
      submitting := submitting[t := Sub(r, true)];
    }

    // kMemPartitionFree of a record in use
    method FreeRecord(r: nat)
      modifies this`pool, this`words
      ensures Contents() == GiveBack(old(Contents()), r)
    {
      words := words[Addr(base, r) := AddrFrom(Addrs(base, pool.free), 0)];
      pool := pool.Give(r);
    }

    // The send of logSubmit_, without waiting
    method SendRecord(t: Tid)
      requires t in submitting && submitting[t].filled
      modifies this`submitting, this`queue, this`consumer, this`accepted, this`pool, this`words, this`errSend
      ensures Contents() == Apply(old(Contents()), Send(t))
    {
      var r := submitting[t].r;
      ghost var text := TextOf(Contents(), r);
      submitting := submitting - {t};
      if consumer.Waiting? {
        consumer := Got(r);
        accepted := accepted + [text];
      } else if |queue| >= LOG_POOL_SIZE {
        errSend := errSend + 1;
        FreeRecord(r);
      } else {
        queue := queue + [r];
        accepted := accepted + [text];
      }
    }

    // What submitters do while the consumer is preempted
    method Interrupt(steps: seq<Step>)
      modifies this
      ensures Contents() == Interrupted(old(Contents()), steps)
    {
      for i := 0 to |steps|
        invariant Contents() == Interrupted(old(Contents()), steps[..i])
      {
        assert steps[..i + 1][..i] == steps[..i];
        match steps[i]
        case Take(t) => if t !in submitting { var _ := TakeRecord(t); }
        case Fill(t, text, tick) => if t in submitting && !submitting[t].filled { FillRecord(t, text, tick); }
        case Send(t) => if t in submitting && submitting[t].filled { SendRecord(t); }
        case _ =>
      }
      assert steps[..|steps|] == steps;
    }

    // The waiting loop of LoggerTask, and the refusal of logConsume_
    method Decide(valid: bool)
      requires consumer.Walking?
      modifies this`consumer, this`errConsume, this`leaked, this`outcomes
      ensures Contents() == Conclude(old(Contents()), valid)
    {
      var r := consumer.r;
      if !consumer.final {
        consumer := if valid && !outputOn then Got(r) else Ready(r);
      } else if valid {
        consumer := Passed(r);
      } else {
        outcomes := outcomes + [Lost(TextOf(Contents(), r))];
        consumer, errConsume, leaked := Away, errConsume + 1, leaked + {r};
      }
    }

    // The body of the loop of logRecordValid_
    method CheckBlock(pause: Pause)
      modifies this
      ensures Contents() == Turn(old(Contents()), pause)
    {
      Interrupt(pause.before);
      if !consumer.Walking? { return; }
      if consumer.i >= |pool.free| || consumer.at == 0 {
        Decide(true);
      } else if consumer.at == Addr(base, consumer.r) {
        Decide(false);
      } else {
        consumer := consumer.(compared := true);
      }
      ReadLink(pause);
    }

    method ReadLink(pause: Pause)
      modifies this
      ensures Contents() == Onwards(old(Contents()), pause)
    {
      if !consumer.Walking? { return; }
      Interrupt(pause.between);
      if !consumer.Walking? { return; }
      var at := if consumer.at in words then words[consumer.at] else pause.junk;
      consumer := consumer.(i := consumer.i + 1, at := at, compared := false);
    }

    // logRecordValid_ for the record in the consumer's hands, and what its caller makes of the answer
    method CheckRecord(pauses: seq<Pause>)
      requires Inv(Contents()) && (consumer.Got? || consumer.Ready?)
      modifies this
      ensures Contents() == Walked(StartCheck(old(Contents())), pauses, LOG_POOL_SIZE + 1)
      ensures Inv(Contents()) && !consumer.Walking?
    {
      ghost var s := StartCheck(Contents());
      CheckOk(Contents());
      var start := Addrs(base, pool.free);
      consumer := Walking(consumer.r, consumer.Ready?, start, 0, AddrFrom(start, 0), false);
      var k: nat := 0;
      while consumer.Walking?
        invariant Contents() == Walked(s, pauses, k) && k <= LOG_POOL_SIZE + 1
        decreases LOG_POOL_SIZE + 1 - k
      {
        WalkedOk(s, pauses, k);
        CheckBlock(PauseAt(pauses, k));
        k := k + 1;
      }
      WalkedOk(s, pauses, k);
      WalkedStays(s, pauses, k, LOG_POOL_SIZE + 1);
    }

    // The receive of LoggerTask
    method Receive()
      requires consumer.Away?
      modifies this`queue, this`consumer
      ensures Contents() == ReceiveRecord(old(Contents()))
    {
      if |queue| == 0 {
        consumer := Waiting;
      } else {
        consumer := Got(queue[0]);
        queue := queue[1..];
      }
    }

    // logConsume_ prints the record it accepted, the next accepted text.
    method PrintRecord() returns (line: string)
      requires Inv(Contents()) && consumer.Passed?
      modifies this`consumer, this`outcomes
      ensures Contents() == Logger.PrintRecord(old(Contents()))
      ensures outcomes == old(outcomes) + [Printed(line)]
      ensures |old(outcomes)| < |accepted| && line == accepted[|old(outcomes)|]
    {
      NextAccepted(Contents());
      var r := consumer.r;
      line := if r in texts then texts[r] else "";
      outcomes := outcomes + [Printed(line)];
      consumer := Shown(r);
    }

    // And frees it.
    method Release()
      requires consumer.Shown?
      modifies this`words, this`pool, this`consumer
      ensures Contents() == ReleaseRecord(old(Contents()))
    {
      FreeRecord(consumer.r);
      consumer := Away;
    }
  }

  // The record next to be printed holds the next accepted text.
  lemma NextAccepted(s: State)
    requires Inv(s) && s.consumer.Passed?
    ensures |s.outcomes| < |s.accepted| && s.accepted[|s.outcomes|] == TextOf(s, s.consumer.r)
  {
    assert OnTheWay(s)[0] == s.consumer.r && Texts(s, OnTheWay(s))[0] == TextOf(s, s.consumer.r);
  }
}
