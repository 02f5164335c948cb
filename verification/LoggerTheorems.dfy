// The promises of the logger, over every run of it, and the one it does not keep: the consumer's check can
// refuse a record in use, exactly when a submitter overtakes the walk.

module LoggerTheorems {
  import opened Basics
  import opened Mem
  import opened Logger
  import opened LoggerProof

  // ---- what holds whatever the consumer's check says ------------------------------------------------------

  // A submitter that got a record always finds room in the queue.
  lemma SendNeverFails(base: nat, steps: seq<Step>)
    requires base > 0
    ensures var s := Run(base, steps);
      s.errSend == 0 && forall t <- s.submitting :: |s.queue| < LOG_POOL_SIZE
  {
    RunOk(base, steps);
    var s := Run(base, steps);
    forall t <- s.submitting ensures |s.queue| < LOG_POOL_SIZE {
      QueueHasRoom(s.pool, Carried(s), s.submitting, s.leaked, t);
    }
  }

  lemma {:induction false} NoLosses(outcomes: seq<Outcome>)
    requires Losses(outcomes) == 0
    ensures forall o <- outcomes :: o.Printed?
  {
    if outcomes != [] { NoLosses(outcomes[..|outcomes| - 1]); }
  }

  // The accepted texts are printed in the order of their sends, each once and unchanged, but for those
  // whose record a check refused; if none was refused, all of them.
  lemma PrintsWhatWasAccepted(base: nat, steps: seq<Step>)
    requires base > 0
    ensures var s := Run(base, steps);
      && TextsOf(s.outcomes) <= s.accepted
      && |s.accepted| == |s.outcomes| + |OnTheWay(s)|
      && Losses(s.outcomes) == s.errConsume
      && (s.errConsume == 0 ==> forall o <- s.outcomes :: o.Printed?)
  {
    RunOk(base, steps);
    if Run(base, steps).errConsume == 0 { NoLosses(Run(base, steps).outcomes); }
  }

  lemma HeldIsLeaked(pool: Pool, leaked: set<nat>)
    requires Holders(pool, [], map[], leaked)
    ensures forall b: nat :: pool.Held(b) <==> b in leaked
  {
    forall b: nat | pool.Held(b) ensures b in leaked { assert !InHands(map[], b); }
  }

  lemma FreeAndLeaked(pool: Pool, leaked: set<nat>)
    requires pool.Valid() && forall b: nat :: pool.Held(b) <==> b in leaked
    ensures |pool.free| + |leaked| == pool.nMax
  {
    PoolConserves(pool);
    assert forall b: nat :: b in pool.HeldSet() <==> pool.Held(b);
    assert pool.HeldSet() == leaked;
  }

  // With no log call under way and nothing on the way, all records are free but the refused ones.
  lemma RecordsComeBack(base: nat, steps: seq<Step>)
    requires base > 0
    ensures var s := Run(base, steps);
      s.submitting == map[] && Carried(s) == [] ==> |s.pool.free| + s.errConsume == LOG_POOL_SIZE
  {
    RunOk(base, steps);
    var s := Run(base, steps);
    if s.submitting == map[] && Carried(s) == [] {
      HeldIsLeaked(s.pool, s.leaked);
      FreeAndLeaked(s.pool, s.leaked);
    }
  }

  // ---- when a check leaves its list ---------------------------------------------------------------------

  // What the next link read does to a walk that is still on its list: it stays on it exactly if the block
  // it stands on still begins with its link; and a block begins with anything else only after a submitter
  // took and wrote it. The walk then goes where the time stamp points.
  lemma StaysOnListIff(base: nat, steps: seq<Step>, junk: nat)
    requires base > 0
    requires var w := Run(base, steps).consumer; w.Walking? && w.compared && OnList(w)
    ensures var s := Run(base, steps); var w, w1 := s.consumer, FollowLink(s, junk).consumer;
      && w.i < |w.start| && w.at in s.words && w1.at == s.words[w.at]
      && (OnList(w1) <==> LinkedAt(s.words, w.start, w.i))
      && (!OnList(w1) ==> Written(s, w.at))
  {
    RunOk(base, steps);
    var s := Run(base, steps);
    assert LinkStands(s, s.consumer.start, s.consumer.i);
  }

  // The step that lets a check go astray: the link of a written block is read, with blocks left to compare.
  ghost predicate Overtakes(s: State, step: Step) {
    && step.Follow? && Enabled(s, step) && s.consumer.final && OnList(s.consumer)
    && Written(s, s.consumer.at) && s.consumer.i + 1 < |s.pool.free|
  }

  ghost predicate Overtaken(base: nat, steps: seq<Step>) {
    exists n :: 0 <= n < |steps| && Overtakes(Run(base, steps[..n]), steps[n])
  }

  // A check that was not overtaken is on its list or past its last comparison.
  ghost predicate OnCourse(s: State) {
    s.consumer.Walking? && s.consumer.final ==>
      OnList(s.consumer) || (!s.consumer.compared && s.consumer.i >= |s.pool.free|)
  }

  lemma CompareOnCourse(s: State)
    requires Inv(s) && OnCourse(s) && s.consumer.Walking? && !s.consumer.compared
    ensures OnCourse(CompareBlock(s)) && CompareBlock(s).errConsume == s.errConsume
  {
    var w := s.consumer;
    if w.final && OnList(w) && w.i < |w.start| { assert w.at == w.start[w.i]; }
  }

  lemma FollowOnCourse(s: State, junk: nat)
    requires Inv(s) && OnCourse(s) && Enabled(s, Follow(junk)) && !Overtakes(s, Follow(junk))
    ensures OnCourse(FollowLink(s, junk))
  {
    if s.consumer.final && s.consumer.i + 1 < |s.pool.free| {
      assert LinkStands(s, s.consumer.start, s.consumer.i);
    }
  }

  lemma StepOnCourse(s: State, step: Step)
    requires Inv(s) && OnCourse(s) && !Overtakes(s, step)
    ensures OnCourse(Apply(s, step)) && Apply(s, step).errConsume == s.errConsume
  {
    if Enabled(s, step) {
      match step
      case Compare => CompareOnCourse(s);
      case Follow(junk) => FollowOnCourse(s, junk);
      case Check => CheckHands(s);
      case Send(t) => SendOk(s, t);
      case _ =>
    }
  }

  // No record is refused in a run in which no check is overtaken, whatever the time stamps.
  lemma {:induction false} RefusedOnlyIfOvertaken(base: nat, steps: seq<Step>)
    requires base > 0 && !Overtaken(base, steps)
    ensures Run(base, steps).errConsume == 0 && OnCourse(Run(base, steps))
  {
    if steps != [] {
      var pre, step := steps[..|steps| - 1], steps[|steps| - 1];
      forall n | 0 <= n < |pre| ensures !Overtakes(Run(base, pre[..n]), pre[n]) {
        assert pre[..n] == steps[..n] && pre[n] == steps[n];
      }
      RefusedOnlyIfOvertaken(base, pre);
      RunOk(base, pre);
      StepOnCourse(Run(base, pre), step);
    }
  }

  // A submitter holds, still unwritten, the very block a final check stands on.
  ghost predicate Facing(s: State, t: Tid) {
    && s.consumer.Walking? && s.consumer.final && s.consumer.compared && OnList(s.consumer)
    && t in s.submitting && !s.submitting[t].filled && Addr(s.base, s.submitting[t].r) == s.consumer.at
  }

  function WrittenFirst(s: State, t: Tid, text: string, tick: nat): State {
    Apply(Apply(Apply(s, Fill(t, text, tick)), Follow(0)), Compare)
  }

  // If the submitter writes its record before the link is read, then the check is safe whatever the time
  // stamp exactly if no more blocks are left to compare; else a stamp equal to the record's address makes
  // it refuse the record, which is in use.
  lemma WrittenFirstSafeIff(base: nat, steps: seq<Step>, t: Tid)
    requires base > 0 && Facing(Run(base, steps), t)
    ensures var s := Run(base, steps);
      && s.pool.Held(s.consumer.r)
      && ((forall text, tick :: WrittenFirst(s, t, text, tick).errConsume == s.errConsume)
          <==> s.consumer.i + 1 >= |s.pool.free|)
  {
    RunOk(base, steps);
    var s := Run(base, steps);
    CarriedIsHeld(s);
    var stamp := Addr(s.base, s.consumer.r);
    forall text, tick ensures WrittenFirst(s, t, text, tick).errConsume
      == if s.consumer.i + 1 < |s.pool.free| && tick == stamp then s.errConsume + 1 else s.errConsume
    {
      WrittenFirstIs(s, t, text, tick);
    }
    if s.consumer.i + 1 < |s.pool.free| {
      assert WrittenFirst(s, t, "", stamp).errConsume == s.errConsume + 1;
    }
  }

  lemma WrittenFirstIs(s: State, t: Tid, text: string, tick: nat)
    requires Inv(s) && Facing(s, t)
    ensures WrittenFirst(s, t, text, tick).errConsume ==
      if s.consumer.i + 1 < |s.pool.free| && tick == Addr(s.base, s.consumer.r) then s.errConsume + 1 else s.errConsume
  {
    var s1 := Apply(s, Fill(t, text, tick));
    var s2 := Apply(s1, Follow(0));
    assert s1.consumer == s.consumer && s1.words[s.consumer.at] == tick;
    assert s2.consumer.at == tick && s2.consumer.i == s.consumer.i + 1 && s2.pool == s.pool;
  }

  // A record that is not written yet is written by nobody else.
  lemma FacedIsUnwritten(s: State, t: Tid)
    requires Inv(s) && Facing(s, t)
    ensures !Written(s, s.consumer.at)
  {
    var r := s.submitting[t].r;
    forall q <- s.queue ensures Addr(s.base, q) != Addr(s.base, r) {
      assert q in Carried(s);
      AddrsDiffer(s.base, q, r);
    }
    forall u | u in s.submitting && s.submitting[u].filled
      ensures Addr(s.base, s.submitting[u].r) != Addr(s.base, r)
    {
      AddrsDiffer(s.base, s.submitting[u].r, r);
    }
  }

  // If the link is read first, the check stays on its list, whatever is written afterwards.
  lemma ReadFirstIsSafe(base: nat, steps: seq<Step>, t: Tid, text: string, tick: nat, junk: nat)
    requires base > 0 && Facing(Run(base, steps), t)
    ensures var s := Apply(Apply(Run(base, steps), Follow(junk)), Fill(t, text, tick));
      s.consumer.Walking? && OnList(s.consumer) && s.consumer.i == Run(base, steps).consumer.i + 1
  {
    RunOk(base, steps);
    FacedIsUnwritten(Run(base, steps), t);
    StaysOnListIff(base, steps, junk);
  }

  // ---- a run that refuses a record in use ---------------------------------------------------------------

  lemma RunMore(base: nat, steps: seq<Step>, step: Step)
    ensures Run(base, steps + [step]) == Apply(Run(base, steps), step)
  {
    assert (steps + [step])[..|steps|] == steps;
  }

  // What the failing run depends on: the free blocks left and the first of them.
  ghost predicate FreeFrom(s: State, b: nat) {
    |s.pool.free| == LOG_POOL_SIZE - b && forall k :: 0 <= k < |s.pool.free| ==> s.pool.free[k] == b + k
  }

  lemma TakeNext(s: State, t: Tid, b: nat)
    requires FreeFrom(s, b) && b < LOG_POOL_SIZE && t !in s.submitting
    ensures var s1 := Apply(s, Take(t));
      FreeFrom(s1, b + 1) && s1 == s.(pool := s1.pool, submitting := s.submitting[t := Sub(b, false)])
  {
  }

  lemma CheckNext(s: State, b: nat)
    requires FreeFrom(s, b) && b < LOG_POOL_SIZE && (s.consumer.Got? || s.consumer.Ready?)
    requires s.base > 0 && s.consumer.r < b
    ensures var s1 := Apply(Apply(s, Check), Compare);
      && s1 == s.(consumer := s1.consumer) && s1.consumer.Walking? && s1.consumer.compared && s1.consumer.i == 0
      && s1.consumer.at == Addr(s.base, b) && s1.consumer.r == s.consumer.r && s1.consumer.final == s.consumer.Ready?
  {
    var start := Addrs(s.base, s.pool.free);
    assert start[0] == Addr(s.base, b);
    AddrsDiffer(s.base, b, s.consumer.r);
  }

  // Record 0 was sent and is in the consumer's hands; blocks from b on are free.
  ghost predicate Stage(s: State, b: nat, c: Consumer) {
    && s.consumer == c && FreeFrom(s, b) && s.base > 0 && s.outputOn && s.outcomes == [] && s.errConsume == 0
    && TextOf(s, 0) == "one" && (forall t <- s.submitting :: t < b)
  }

  lemma RecordOneReceived(base: nat) returns (steps: seq<Step>)
    requires base > 0
    ensures Stage(Run(base, steps), 1, Got(0))
  {
    steps := [];
    var s := Initial(base);
    assert FreeFrom(s, 0);
    TakeNext(s, 0, 0);
    steps, s := Then(base, steps, s, Take(0));
    steps, s := Then(base, steps, s, Fill(0, "one", 7));
    steps, s := Then(base, steps, s, Send(0));
    assert s.queue == [0];
    steps, s := Then(base, steps, s, Receive);
  }

  // A check begins, compares the first free block, and another task takes that block.
  lemma FaceNext(base: nat, steps: seq<Step>, b: nat, c: Consumer) returns (steps1: seq<Step>)
    requires Stage(Run(base, steps), b, c) && 0 < b < LOG_POOL_SIZE && (c == Got(0) || c == Ready(0))
    ensures var s, s1 := Run(base, steps), Run(base, steps1);
      && s1 == s.(consumer := s1.consumer, pool := s1.pool, submitting := s.submitting[b := Sub(b, false)])
      && FreeFrom(s1, b + 1) && s1.consumer.Walking? && s1.consumer.compared && s1.consumer.i == 0
      && s1.consumer.at == Addr(s.base, b) && s1.consumer.r == 0 && s1.consumer.final == c.Ready?
      && OnList(s1.consumer)
  {
    var s := Run(base, steps);
    CheckNext(s, b);
    CheckHands(s);
    var s1, s2;
    steps1, s1 := Then(base, steps, s, Check);
    steps1, s2 := Then(base, steps1, s1, Compare);
    TakeNext(s2, b, b);
    steps1, s1 := Then(base, steps1, s2, Take(b));
  }

  // Written with the time stamp 0, the block ends the walk, and the record passes.
  lemma PassedByZero(base: nat, steps: seq<Step>) returns (steps1: seq<Step>)
    requires Stage(Run(base, steps), 1, Got(0))
    ensures Stage(Run(base, steps1), 2, Ready(0))
  {
    steps1 := FaceNext(base, steps, 1, Got(0));
    var s := Run(base, steps1);
    steps1, s := Then(base, steps1, s, Fill(1, "two", 0));
    assert s.words[s.consumer.at] == 0;
    steps1, s := Then(base, steps1, s, Follow(0));
    assert s.consumer.at == 0;
    steps1, s := Then(base, steps1, s, Compare);
  }

  lemma RefusedNext(s: State, t: Tid)
    requires Facing(s, t) && s.consumer.i + 1 < |s.pool.free| && s.base > 0
    ensures var r, s1 := s.consumer.r, WrittenFirst(s, t, "three", Addr(s.base, s.consumer.r));
      && s1.errConsume == s.errConsume + 1 && s1.leaked == s.leaked + {r} && s1.pool == s.pool
      && (r != s.submitting[t].r ==> s1.outcomes == s.outcomes + [Lost(TextOf(s, r))])
  {
    var s1 := Apply(s, Fill(t, "three", Addr(s.base, s.consumer.r)));
    var s2 := Apply(s1, Follow(0));
    assert s1.words[s.consumer.at] == Addr(s.base, s.consumer.r);
    assert s2.consumer.at == Addr(s.base, s.consumer.r) && s2.consumer.i == s.consumer.i + 1;
  }

  lemma ThenWrittenFirst(base: nat, steps: seq<Step>, t: Tid, tick: nat) returns (steps1: seq<Step>)
    requires Facing(Run(base, steps), t)
    ensures Run(base, steps1) == WrittenFirst(Run(base, steps), t, "three", tick)
  {
    var s := Run(base, steps);
    steps1, s := Then(base, steps, s, Fill(t, "three", tick));
    steps1, s := Then(base, steps1, s, Follow(0));
    steps1, s := Then(base, steps1, s, Compare);
  }

  // Task 0 logs and the consumer takes its record. In each of the consumer's checks the block it has just
  // compared is taken by another task and written before its link is read: in the first one with a time
  // stamp of 0, which ends the walk, in the second one with a time stamp that is the record's address.
  lemma RefusalHappens(base: nat) returns (steps: seq<Step>)
    requires base > 0
    ensures var s := Run(base, steps); s.errConsume == 1 && s.pool.Held(0) && s.outcomes == [Lost("one")]
  {
    steps := RecordOneReceived(base);
    steps := PassedByZero(base, steps);
    steps := FaceNext(base, steps, 2, Ready(0));
    var s := Run(base, steps);
    RunOk(base, steps);
    CarriedIsHeld(s);
    RefusedNext(s, 2);
    steps := ThenWrittenFirst(base, steps, 2, Addr(s.base, 0));
  }

  lemma Then(base: nat, steps: seq<Step>, s: State, step: Step) returns (steps1: seq<Step>, s1: State)
    requires s == Run(base, steps)
    ensures steps1 == steps + [step] && s1 == Run(base, steps1) == Apply(s, step)
  {
    steps1, s1 := steps + [step], Apply(s, step);
    RunMore(base, steps, step);
  }
}
