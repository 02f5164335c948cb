// What the two sides of the line ring do with each byte, in any state a run reaches: when the driver stores a
// byte and when it has no room for it, and that every complete line can be fetched.

module LineEffects {
  import opened LineSpec
  import opened LineProtocol

  // ---- the driver -----------------------------------------------------------------------------------------

  // A data byte needs two free bytes, a line end one.
  predicate EnoughFor(ch: char, room: nat) {
    if ch == '\r' || ch == '\n' then room >= 1 else room >= 2
  }

  // Of the bytes typed the line feed of a CRLF is dropped, and a data byte beyond the 64th of its line; for
  // every other one the driver looks at the room left.
  lemma TypedByteEffect(steps: seq<Step>, ch: char)
    requires Run(Initial(), steps).driver.Idle?
    ensures var s := Run(Initial(), steps); var s1 := Apply(s, Byte(ch));
      && s1.ring == s.ring.(dropLf := ch == '\r') && s1.input == s.input + [ch] && s1.refused == s.refused
      && s1.echo == s.echo && s1.value == s.value && s1.lines == s.lines && |s.ring.bytes| <= 259
      && s1.driver ==
           if ch == '\n' && s.input != [] && s.input[|s.input| - 1] == '\r' then Idle
           else if ch != '\r' && ch != '\n' && |Tail(s.ring.bytes)| >= 64 then Idle
           else Writing(ch, 259 - |s.ring.bytes|)
  {
    RunOk(steps);
  }

  // A byte the driver has room for joins the ring; it is refused exactly if there was not enough room, and
  // nothing else counts as refused. A stored line end is to be posted.
  lemma WriteEffect(steps: seq<Step>)
    requires Run(Initial(), steps).driver.Writing?
    ensures var s := Run(Initial(), steps); var s1 := Apply(s, Write); var ch := s.driver.ch;
      && s1.echo == s.echo && s1.value == s.value && s1.lines == s.lines && s1.input == s.input
      && if EnoughFor(ch, s.driver.room)
         then s1.ring.bytes == s.ring.bytes + [ch] && s1.kept == s.kept + [ch] && s1.refused == s.refused
              && s1.driver == if ch == '\r' || ch == '\n' then Posting else Idle
         else s1.ring.bytes == s.ring.bytes && s1.kept == s.kept && s1.refused == s.refused + 1 && s1.driver == Idle
  {
    RunOk(steps);
  }

  lemma RefusedOnlyByWrite(s: State, step: Step)
    requires Enabled(s, step)
    ensures Apply(s, step).refused ==
      s.refused + if step.Write? && !EnoughFor(s.driver.ch, s.driver.room) then 1 else 0
  {
  }

  // In every step of the run in which a byte was written, the driver had seen enough room for it.
  ghost predicate AlwaysRoom(steps: seq<Step>) {
    forall k :: 0 <= k < |steps| && steps[k].Write? && Run(Initial(), steps[..k]).driver.Writing? ==>
      EnoughFor(Run(Initial(), steps[..k]).driver.ch, Run(Initial(), steps[..k]).driver.room)
  }

  // Over every run nothing is refused exactly if there was always room.
  lemma {:induction false} NothingRefusedIff(steps: seq<Step>)
    ensures Run(Initial(), steps).refused == 0 <==> AlwaysRoom(steps)
  {
    if steps != [] {
      var pre, step := steps[..|steps| - 1], steps[|steps| - 1];
      NothingRefusedIff(pre);
      var s := Run(Initial(), pre);
      if Enabled(s, step) { RefusedOnlyByWrite(s, step); }
      forall k | 0 <= k < |pre| ensures pre[..k] == steps[..k] && pre[k] == steps[k] {}
      assert steps[..|steps| - 1] == pre;
    }
  }

  // With room throughout, the lines delivered and those still in the ring are those of the whole input.
  lemma RoomyRunIsTheSplit(steps: seq<Step>)
    requires AlwaysRoom(steps) && !Run(Initial(), steps).driver.Writing?
    ensures var s := Run(Initial(), steps);
      && s.lines + Lines(s.ring.bytes) == Cuts(Lines(Normal(s.input)))
      && Tail(s.ring.bytes) == Cut(Tail(Normal(s.input)))
  {
    NothingRefusedIff(steps);
    LinesAreTheSplit(steps);
  }

  // ---- the task -------------------------------------------------------------------------------------------

  lemma {:induction false} RunThen(s: State, a: seq<Step>, b: seq<Step>)
    ensures Run(s, a + b) == Run(Run(s, a), b)
    decreases |b|
  {
    if b == [] {
      assert a + b == a;
    } else {
      assert (a + b)[..|a + b| - 1] == a + b[..|b| - 1];
      RunThen(s, a, b[..|b| - 1]);
    }
  }

  function Scans(n: nat): (r: seq<Step>)
    ensures |r| == n
  {
    if n == 0 then [] else [Scan] + Scans(n - 1)
  }

  lemma RunOne(s: State, step: Step)
    ensures Run(s, [step]) == if Enabled(s, step) then Apply(s, step) else s
  {
    assert [step][..0] == [];
  }

  lemma {:induction false} ScansRest(s: State, n: nat)
    requires !s.echo.Scanning?
    ensures Run(s, Scans(n)) == s
  {
    if n > 0 {
      RunThen(s, [Scan], Scans(n - 1));
      RunOne(s, Scan);
      ScansRest(s, n - 1);
    }
  }

  // r is s with the first complete line fetched from the ring.
  ghost predicate Fetched(s: State, r: State) {
    && r.lines + Lines(r.ring.bytes) == s.lines + Lines(s.ring.bytes) && |r.lines| == |s.lines| + 1
    && Tail(r.ring.bytes) == Tail(s.ring.bytes) && r.echo == Busy
    && r.input == s.input && r.kept == s.kept && r.refused == s.refused
  }

  lemma LastScan(s: State)
    requires Inv(s) && s.echo.Scanning? && s.echo.at < s.echo.limit && IsEnd(s.ring.bytes[s.echo.at])
    ensures Fetched(s, ScanByte(s))
  {
    LineOffOk(s);
    var bytes, at := s.ring.bytes, s.echo.at;
    assert bytes == bytes[..at] + [bytes[at]] + bytes[at + 1..];
    FirstLineOff(bytes[..at], bytes[at], bytes[at + 1..]);
    assert s.lines + [s.echo.out] + Lines(bytes[at + 1..]) == s.lines + ([s.echo.out] + Lines(bytes[at + 1..]));
  }

  lemma {:induction false} ScansFetch(s: State, n: nat)
    requires Inv(s) && s.echo.Scanning? && n > s.echo.limit - s.echo.at
    ensures Fetched(s, Run(s, Scans(n)))
    decreases n
  {
    ScanFinds(s);
    ScanOk(s);
    RunThen(s, [Scan], Scans(n - 1));
    RunOne(s, Scan);
    if IsEnd(s.ring.bytes[s.echo.at]) {
      LastScan(s);
      ScansRest(ScanByte(s), n - 1);
    } else {
      ScansFetch(ScanByte(s), n - 1);
    }
  }

  // The same bytes in the ring, the same history.
  ghost predicate SameBytes(s: State, s1: State) {
    s1 == s.(driver := s1.driver, echo := s1.echo, value := s1.value)
  }

  lemma AfterPost(s: State)
    requires Inv(s) && Lines(s.ring.bytes) != []
    ensures var s1 := Run(s, [Post]); Inv(s1) && SameBytes(s, s1) && !s1.driver.Posting?
  {
    RunOne(s, Post);
    if s.driver.Posting? { PostOk(s); }
  }

  // The token of a complete line that is not being posted is there for the task.
  lemma AfterPend(s: State)
    requires Inv(s) && Lines(s.ring.bytes) != [] && !s.driver.Posting?
    ensures var s1 := Run(s, [Pend]); Inv(s1) && SameBytes(s, s1) && (s1.echo.Claimed? || s1.echo.Scanning?)
  {
    RunOne(s, Pend);
    if s.echo.Busy? { PendOk(s); }
  }

  lemma AfterLook(s: State)
    requires Inv(s) && (s.echo.Claimed? || s.echo.Scanning?)
    ensures var s1 := Run(s, [Look]);
      Inv(s1) && SameBytes(s, s1) && s1.echo.Scanning? && s1.echo.limit - s1.echo.at < 260
  {
    RunOne(s, Look);
    if s.echo.Claimed? { LookOk(s); }
  }

  // The rest of a post under way, and the task's own steps.
  function Fetch(): seq<Step> {
    [Post] + ([Pend] + ([Look] + Scans(260)))
  }

  lemma FetchFrom(s: State)
    requires Inv(s) && Lines(s.ring.bytes) != []
    ensures Fetched(s, Run(s, Fetch()))
  {
    RunThen(s, [Post], [Pend] + ([Look] + Scans(260)));
    AfterPost(s);
    var s1 := Run(s, [Post]);
    RunThen(s1, [Pend], [Look] + Scans(260));
    AfterPend(s1);
    var s2 := Run(s1, [Pend]);
    RunThen(s2, [Look], Scans(260));
    AfterLook(s2);
    ScansFetch(Run(s2, [Look]), 260);
  }

  // From whatever state a run is in, with a complete line in the ring, the task's own steps fetch it, after the
  // post that may be under way: it never waits for another line first.
  lemma EveryLineCanBeFetched(steps: seq<Step>)
    requires Lines(Run(Initial(), steps).ring.bytes) != []
    ensures Fetched(Run(Initial(), steps), Run(Initial(), steps + Fetch()))
  {
    RunOk(steps);
    RunThen(Initial(), steps, Fetch());
    FetchFrom(Run(Initial(), steps));
  }
}
