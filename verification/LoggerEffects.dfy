// What the steps of the logger do, in any state a run reaches; that the accepted texts are the submitted
// ones; and that the consumer, left alone, prints the next of them.

module LoggerEffects {
  import opened Basics
  import opened Mem
  import opened Logger
  import opened LoggerProof
  import opened LoggerTheorems
  import opened LoggerService

  // ---- submitting -----------------------------------------------------------------------------------------

  // A log call gets a record exactly while one is free: the first one, which nobody else holds.
  lemma TakeEffect(base: nat, steps: seq<Step>, t: Tid)
    requires base > 0 && t !in Run(base, steps).submitting
    ensures var s := Run(base, steps); var s1 := Apply(s, Take(t));
      if s.pool.free == [] then s1 == s.(errPool := s.errPool + 1)
      else
        var r := s.pool.free[0];
        && s1 == s.(pool := Pool(LOG_POOL_SIZE, s.pool.free[1..]), submitting := s.submitting[t := Sub(r, false)])
        && r !in Carried(s) && r !in s.leaked && forall u <- s.submitting :: s.submitting[u].r != r
  {
    var s := Run(base, steps);
    RunOk(base, steps);
    if s.pool.free != [] { assert s.pool.free[0] in s.pool.free; }
  }

  // The record now holds the text and begins with the time stamp; every other one is as it was.
  lemma FillEffect(base: nat, steps: seq<Step>, t: Tid, text: string, tick: nat)
    requires base > 0 && t in Run(base, steps).submitting && !Run(base, steps).submitting[t].filled
    ensures var s := Run(base, steps); var s1 := Apply(s, Fill(t, text, tick)); var r := s.submitting[t].r;
      && TextOf(s1, r) == text && s1.submitting == s.submitting[t := Sub(r, true)]
      && s1 == s.(words := s1.words, texts := s1.texts, submitting := s1.submitting)
      && Addr(s.base, r) in s1.words && s1.words[Addr(s.base, r)] == tick
      && (forall x: nat :: x != r ==> TextOf(s1, x) == TextOf(s, x))
      && (forall a <- s.words :: a != Addr(s.base, r) ==> a in s1.words && s1.words[a] == s.words[a])
  {
  }

  // A send always succeeds: its record goes to the consumer if that waits, else behind the queue.
  lemma SendEffect(base: nat, steps: seq<Step>, t: Tid)
    requires base > 0 && t in Run(base, steps).submitting && Run(base, steps).submitting[t].filled
    ensures var s := Run(base, steps); var s1 := Apply(s, Send(t)); var r := s.submitting[t].r;
      && s1.accepted == s.accepted + [TextOf(s, r)] && s1.submitting == s.submitting - {t}
      && s1 == s.(accepted := s1.accepted, submitting := s1.submitting, consumer := s1.consumer, queue := s1.queue)
      && (if s.consumer == Waiting then s1.consumer == Got(r) && s1.queue == [] == s.queue
          else s1.consumer == s.consumer && s1.queue == s.queue + [r])
  {
    RunOk(base, steps);
    SendOk(Run(base, steps), t);
  }

  // The text of t's last log call that got as far as writing its record.
  function LastText(base: nat, steps: seq<Step>, t: Tid): string {
    if steps == [] then ""
    else
      var pre, step := steps[..|steps| - 1], steps[|steps| - 1];
      if step.Fill? && step.t == t && Enabled(Run(base, pre), step) then step.text else LastText(base, pre, t)
  }

  // The texts of the log calls, in the order of their sends.
  function Submitted(base: nat, steps: seq<Step>): seq<string> {
    if steps == [] then []
    else
      var pre, step := steps[..|steps| - 1], steps[|steps| - 1];
      Submitted(base, pre) + if step.Send? && Enabled(Run(base, pre), step) then [LastText(base, pre, step.t)] else []
  }

  ghost predicate FilledAs(s: State, t: Tid, text: string) {
    t in s.submitting && s.submitting[t].filled ==> TextOf(s, s.submitting[t].r) == text
  }

  lemma FillKeepsText(s: State, u: Tid, other: string, tick: nat, t: Tid, text: string)
    requires Owned(s.pool, Carried(s), s.submitting, s.leaked) && u in s.submitting && u != t && FilledAs(s, t, text)
    ensures FilledAs(FillRecord(s, u, other, tick), t, text)
  {
    if t in s.submitting { assert s.submitting[u].r != s.submitting[t].r; }
  }

  lemma SameText(s: State, s1: State, t: Tid, text: string)
    requires FilledAs(s, t, text) && s1.texts == s.texts
    requires t in s1.submitting && s1.submitting[t].filled ==> t in s.submitting && s1.submitting[t] == s.submitting[t]
    ensures FilledAs(s1, t, text)
  {
  }

  lemma TakeKeepsText(s: State, u: Tid, t: Tid, text: string)
    requires FilledAs(s, t, text)
    ensures FilledAs(TakeRecord(s, u), t, text)
  {
    SameText(s, TakeRecord(s, u), t, text);
  }

  lemma SendKeepsText(s: State, u: Tid, t: Tid, text: string)
    requires FilledAs(s, t, text) && u in s.submitting
    ensures FilledAs(SendRecord(s, u), t, text)
  {
    SameText(s, SendRecord(s, u), t, text);
  }

  lemma ConsumerKeepsTexts(s: State, step: Step)
    requires Enabled(s, step) && !BySubmitter(step)
    ensures Apply(s, step).texts == s.texts && Apply(s, step).submitting == s.submitting
  {
  }

  lemma StepKeepsText(s: State, step: Step, t: Tid, text: string)
    requires Inv(s) && FilledAs(s, t, text) && !(step.Fill? && step.t == t && Enabled(s, step))
    ensures FilledAs(Apply(s, step), t, text)
  {
    if Enabled(s, step) {
      match step
      case Take(u) => TakeKeepsText(s, u, t, text);
      case Fill(u, other, tick) => FillKeepsText(s, u, other, tick, t, text);
      case Send(u) => SendKeepsText(s, u, t, text);
      case _ => ConsumerKeepsTexts(s, step); SameText(s, Apply(s, step), t, text);
    }
  }

  lemma {:induction false} RecordsKeepTexts(base: nat, steps: seq<Step>, t: Tid)
    requires base > 0
    ensures FilledAs(Run(base, steps), t, LastText(base, steps, t))
  {
    if steps != [] {
      var pre, step := steps[..|steps| - 1], steps[|steps| - 1];
      RecordsKeepTexts(base, pre, t);
      RunOk(base, pre);
      if !(step.Fill? && step.t == t && Enabled(Run(base, pre), step)) {
        StepKeepsText(Run(base, pre), step, t, LastText(base, pre, t));
      }
    }
  }

  lemma StepAccepts(s: State, step: Step)
    requires Inv(s)
    ensures Apply(s, step).accepted ==
      s.accepted + if step.Send? && Enabled(s, step) then [TextOf(s, s.submitting[step.t].r)] else []
  {
    if step.Send? && Enabled(s, step) { SendOk(s, step.t); }
  }

  // Over every interleaving the accepted texts are exactly those the log calls were given, in the order of
  // their sends; so those are what is printed.
  lemma {:induction false} AcceptedAreSubmitted(base: nat, steps: seq<Step>)
    requires base > 0
    ensures var s := Run(base, steps); s.accepted == Submitted(base, steps) && TextsOf(s.outcomes) <= Submitted(base, steps)
  {
    PrintsWhatWasAccepted(base, steps);
    if steps != [] {
      var pre, step := steps[..|steps| - 1], steps[|steps| - 1];
      AcceptedAreSubmitted(base, pre);
      RunOk(base, pre);
      StepAccepts(Run(base, pre), step);
      if step.Send? { RecordsKeepTexts(base, pre, step.t); }
    }
  }

  // ---- consuming ------------------------------------------------------------------------------------------

  // A receive takes the first queued record, or waits for one.
  lemma ReceiveEffect(base: nat, steps: seq<Step>)
    requires Run(base, steps).consumer == Away
    ensures var s := Run(base, steps); var s1 := Apply(s, Receive);
      if s.queue == [] then s1 == s.(consumer := Waiting)
      else s1 == s.(consumer := Got(s.queue[0]), queue := s.queue[1..])
  {
  }

  // A printed record is free again, and the first to be taken.
  lemma ReleaseEffect(base: nat, steps: seq<Step>)
    requires base > 0 && Run(base, steps).consumer.Shown?
    ensures var s := Run(base, steps); var s1 := Apply(s, Release); var r := s.consumer.r;
      && s1 == s.(pool := s1.pool, words := s1.words, consumer := Away)
      && s1.pool.free == [r] + s.pool.free && r !in s.pool.free
  {
    RunOk(base, steps);
    ReleaseOk(Run(base, steps));
  }

  lemma {:induction false} RunThen(s: State, a: seq<Step>, b: seq<Step>)
    ensures RunFrom(s, a + b) == RunFrom(RunFrom(s, a), b)
    decreases |b|
  {
    if b == [] {
      assert a + b == a;
    } else {
      assert (a + b)[..|a + b| - 1] == a + b[..|b| - 1];
      RunThen(s, a, b[..|b| - 1]);
    }
  }

  lemma RunOne(s: State, step: Step)
    ensures RunFrom(s, [step]) == Apply(s, step)
  {
    assert [step][..0] == [];
  }

  function Turns(n: nat): seq<Step> {
    if n == 0 then [] else Turns(n - 1) + [Compare] + [Follow(0)]
  }

  lemma TurnIs(s: State)
    requires s.consumer.Walking? ==> !s.consumer.compared
    ensures Apply(Apply(s, Compare), Follow(0)) == if s.consumer.Walking? then Turn(s, NO_PAUSE) else s
  {
    if s.consumer.Walking? {
      assert Interrupted(s, []) == s;
      var s1 := CompareBlock(s);
      assert Interrupted(s1, []) == s1;
      assert s1.consumer.Walking? ==> s1.consumer.compared;
    }
  }

  // The steps of an undisturbed check are the turns of its loop.
  lemma {:induction false} TurnsAre(s: State, n: nat)
    requires Inv(s) && AtTurn(s, 0)
    ensures RunFrom(s, Turns(n)) == Walked(s, [], n)
  {
    if n > 0 {
      TurnsAre(s, n - 1);
      WalkedOk(s, [], n - 1);
      RunThen(s, Turns(n - 1) + [Compare], [Follow(0)]);
      RunThen(s, Turns(n - 1), [Compare]);
      RunOne(Walked(s, [], n - 1), Compare);
      RunOne(Apply(Walked(s, [], n - 1), Compare), Follow(0));
      TurnIs(Walked(s, [], n - 1));
    }
  }

  lemma CheckRuns(s: State, n: nat)
    requires Inv(s) && (s.consumer.Got? || s.consumer.Ready?)
    ensures RunFrom(s, [Check] + Turns(n)) == Walked(StartCheck(s), [], n)
  {
    RunThen(s, [Check], Turns(n));
    RunOne(s, Check);
    CheckOk(s);
    TurnsAre(StartCheck(s), n);
  }

  lemma CheckBegins(s: State)
    requires Inv(s) && (s.consumer.Got? || s.consumer.Ready?)
    ensures Begins(StartCheck(s)) && StartCheck(s).consumer.final == s.consumer.Ready?
    ensures s.consumer.r !in s.pool.free && |s.pool.free| <= LOG_POOL_SIZE
  {
    CheckOk(s);
    CarriedIsHeld(s);
    FreeFits(s);
  }

  lemma EndedAfter(s: State)
    requires Begins(s) && s.consumer.r !in s.pool.free && |s.pool.free| <= LOG_POOL_SIZE
    ensures var r := s.consumer.r;
      Walked(s, [], 17) == s.(consumer := if s.consumer.final then Passed(r) else if s.outputOn then Ready(r) else Got(r))
  {
    UndisturbedRefusesFree(s);
    WalkedStays(s, [], |s.pool.free| + 1, 17);
  }

  // A check that nobody disturbs passes the record in hand; that of the waiting loop does so once output is on.
  lemma Checked(s: State)
    requires Inv(s) && (s.consumer.Got? || s.consumer.Ready?)
    ensures var r := s.consumer.r;
      RunFrom(s, [Check] + Turns(17)) ==
        s.(consumer := if s.consumer.Ready? then Passed(r) else if s.outputOn then Ready(r) else Got(r))
  {
    CheckRuns(s, 17);
    CheckBegins(s);
    EndedAfter(StartCheck(s));
  }

  // While output is off the consumer goes on waiting with its record, and nothing changes.
  lemma WaitsWhileOff(base: nat, steps: seq<Step>)
    requires base > 0 && !Run(base, steps).outputOn && Run(base, steps).consumer.Got?
    ensures Run(base, steps + ([Check] + Turns(17))) == Run(base, steps)
  {
    RunOk(base, steps);
    RunThen(Initial(base), steps, [Check] + Turns(17));
    Checked(Run(base, steps));
  }

  // Consuming the record in hand, by the consumer alone.
  function Consume(): seq<Step> {
    ([Check] + Turns(17)) + (([Check] + Turns(17)) + ([Print] + [Release]))
  }

  lemma PrintsAndFrees(s: State)
    requires Inv(s) && s.consumer.Passed?
    ensures |s.outcomes| < |s.accepted|
    ensures var s1 := RunFrom(s, [Print] + [Release]);
      && s1.outcomes == s.outcomes + [Printed(s.accepted[|s.outcomes|])] && s1.consumer == Away && s1.queue == s.queue
      && s1.pool.free == [s.consumer.r] + s.pool.free
  {
    NextAccepted(s);
    RunThen(s, [Print], [Release]);
    RunOne(s, Print);
    RunOne(Apply(s, Print), Release);
  }

  lemma ReadyThenPassed(s: State)
    requires Inv(s) && s.consumer.Got?
    ensures var s1 := s.(consumer := Ready(s.consumer.r)); Inv(s1) && Inv(s1.(consumer := Passed(s.consumer.r)))
  {
    ConsumerOk(s, s.(consumer := Ready(s.consumer.r)));
    ConsumerOk(s, s.(consumer := Passed(s.consumer.r)));
  }

  lemma ConsumeFrom(s: State)
    requires Inv(s) && s.outputOn && s.consumer.Got?
    ensures RunFrom(s, Consume()) == RunFrom(s.(consumer := Passed(s.consumer.r)), [Print] + [Release])
  {
    var check := [Check] + Turns(17);
    RunThen(s, check, check + ([Print] + [Release]));
    Checked(s);
    ReadyThenPassed(s);
    var s1 := s.(consumer := Ready(s.consumer.r));
    RunThen(s1, check, [Print] + [Release]);
    Checked(s1);
  }

  // From whatever state a run is in, with a record in its hands and output on, the consumer prints the next
  // accepted text and frees the record, if no other task runs in between.
  lemma ConsumerPrintsNext(base: nat, steps: seq<Step>)
    requires base > 0 && Run(base, steps).outputOn && Run(base, steps).consumer.Got?
    ensures var s, s1 := Run(base, steps), Run(base, steps + Consume());
      && |s.outcomes| < |s.accepted| && s1.outcomes == s.outcomes + [Printed(s.accepted[|s.outcomes|])]
      && s1.consumer == Away && s1.queue == s.queue && s1.pool.free == [s.consumer.r] + s.pool.free
  {
    var s := Run(base, steps);
    RunOk(base, steps);
    RunThen(Initial(base), steps, Consume());
    ConsumeFrom(s);
    ReadyThenPassed(s);
    PrintsAndFrees(s.(consumer := Passed(s.consumer.r)));
  }

  // And once it is switched on, the consumer prints.
  lemma PrintsOnceOn(base: nat, steps: seq<Step>)
    requires base > 0 && Run(base, steps).consumer.Got?
    ensures var s, s1 := Run(base, steps), Run(base, steps + [SetOutput(true)] + Consume());
      && !Run(base, steps + [SetOutput(false)]).outputOn
      && |s.outcomes| < |s.accepted| && s1.outcomes == s.outcomes + [Printed(s.accepted[|s.outcomes|])]
  {
    RunThen(Initial(base), steps, [SetOutput(true)]);
    RunOne(Run(base, steps), SetOutput(true));
    RunThen(Initial(base), steps, [SetOutput(false)]);
    RunOne(Run(base, steps), SetOutput(false));
    ConsumerPrintsNext(base, steps + [SetOutput(true)]);
  }
}
