// The line ring between the console driver and the echo task, with the counting semaphore that says a line
// is complete (app/src/tiny_console.c, core/src/ksema.c). The driver's look at the room left, its write,
// and its post are steps of their own, and so are the task's pend, its look at the write position, and
// every byte it scans; the steps of the two sides interleave freely.

module LineProtocol {
  import opened LineSpec

  const READY_MAX: nat := CAPACITY

  // The driver: idle, about to write a byte with the room it saw, or about to post.
  datatype Driver = Idle | Writing(ch: char, room: nat) | Posting

  // The task: busy elsewhere, suspended on the semaphore, given a line, or scanning for it.
  datatype Echo = Busy | Waiting | Claimed | Scanning(at: nat, limit: nat, out: string)

  datatype State = State(
    ring: Ring,
    value: nat,              // of the semaphore
    driver: Driver,
    echo: Echo,
    input: string,           // every byte the driver was called with
    kept: string,            // the normalised input without the bytes the ring had no room for
    refused: nat,            // how many those were
    lost: nat,               // posts the full semaphore refused
    missed: nat,             // snapshots that found no line
    lines: seq<string>)      // what the snapshots returned

  datatype Step = Byte(ch: char) | Write | Post | Pend | Look | Scan

  function Room(r: Ring): nat {
    if |r.bytes| <= CAPACITY then CAPACITY - |r.bytes| else 0
  }

  function Initial(): State {
    State(Ring("", 0, false), 0, Idle, Busy, "", "", 0, 0, 0, [])
  }

  function TakeByte(s: State, ch: char): State
    requires s.driver.Idle?
  {
    var noted := s.(ring := Noted(s.ring, ch), input := s.input + [ch]);
    match OnByte(s.ring, ch)
    case Swallowed => noted
    case TooLong => noted.(kept := s.kept + [ch])
    case ToRing => noted.(driver := Writing(ch, Room(s.ring)))
  }

  function WriteByte(s: State): State
    requires s.driver.Writing?
  {
    var ch, room := s.driver.ch, s.driver.room;
    var stored := s.(ring := Put(s.ring, ch, room));
    if room < Needs(ch) then stored.(driver := Idle, refused := s.refused + 1)
    else stored.(kept := s.kept + [ch], driver := if IsEnd(ch) then Posting else Idle)
  }

  // kSemaphorePost
  function PostLine(s: State): State
    requires s.driver.Posting?
  {
    if s.echo.Waiting? then s.(driver := Idle, echo := Claimed)
    else if s.value == READY_MAX then s.(driver := Idle, lost := s.lost + 1)
    else s.(driver := Idle, value := s.value + 1)
  }

  // kSemaphorePend, waiting forever
  function PendLine(s: State): State
    requires s.echo.Busy?
  {
    if s.value > 0 then s.(value := s.value - 1, echo := Claimed) else s.(echo := Waiting)
  }

  // One turn of the loop of AppLineSnapshot_; the read position moves only once the end is found.
  function ScanByte(s: State): State
    requires s.echo.Scanning? && s.echo.at <= s.echo.limit <= |s.ring.bytes|
  {
    var at, out := s.echo.at, s.echo.out;
    if at == s.echo.limit then s.(echo := Busy, missed := s.missed + 1)
    else
      var ch := s.ring.bytes[at];
      if IsEnd(ch) then
        s.(echo := Busy, ring := s.ring.(bytes := s.ring.bytes[at + 1..]), lines := s.lines + [out])
      else
        s.(echo := Scanning(at + 1, s.echo.limit, if |out| < LINE_BYTES then out + [ch] else out))
  }

  predicate Enabled(s: State, step: Step) {
    match step
    case Byte(_) => s.driver.Idle?
    case Write => s.driver.Writing?
    case Post => s.driver.Posting?
    case Pend => s.echo.Busy?
    case Look => s.echo.Claimed?
    case Scan => s.echo.Scanning? && s.echo.at <= s.echo.limit <= |s.ring.bytes|
  }

  function Apply(s: State, step: Step): State
    requires Enabled(s, step)
  {
    match step
    case Byte(ch) => TakeByte(s, ch)
    case Write => WriteByte(s)
    case Post => PostLine(s)
    case Pend => PendLine(s)
    case Look => s.(echo := Scanning(0, |s.ring.bytes|, ""))
    case Scan => ScanByte(s)
  }

  // A run of the two sides; a step that is not possible is passed over.
  function Run(s: State, steps: seq<Step>): State {
    if steps == [] then s
    else
      var before := Run(s, steps[..|steps| - 1]);
      var step := steps[|steps| - 1];
      if Enabled(before, step) then Apply(before, step) else before
  }

  // ---- what every step keeps ----------------------------------------------------------------------------

  function Tokens(s: State): nat {
    s.value + (if s.echo.Claimed? || s.echo.Scanning? then 1 else 0) + (if s.driver.Posting? then 1 else 0)
  }

  // The token of every line end in the ring is in the semaphore, in the task's hands, or on its way.
  ghost predicate Counted(s: State) {
    && |Lines(s.ring.bytes)| == Tokens(s)
    && (s.echo.Waiting? ==> s.value == 0)
    && s.lost == 0 && s.missed == 0
  }

  // The ring never overflows, and a line that has begun has a place kept for its end.
  ghost predicate Roomy(s: State) {
    && |s.ring.bytes| <= CAPACITY
    && (s.ring.lineBytes > 0 ==> |s.ring.bytes| < CAPACITY)
    && (s.driver.Writing? ==>
          && s.driver.room <= Room(s.ring)
          && (s.ring.lineBytes > 0 ==> s.driver.room >= 1)
          && (IsEnd(s.driver.ch) || s.ring.lineBytes < LINE_BYTES))
  }

  ghost predicate InStep(lines: seq<string>, bytes: string, kept: string) {
    lines + Lines(bytes) == Cuts(Lines(kept)) && Tail(bytes) == Cut(Tail(kept))
  }

  predicate EndsInCR(t: string) {
    t != [] && t[|t| - 1] == CR
  }

  // What was delivered and what is still in the ring are the lines of what was kept.
  ghost predicate Framed(s: State) {
    && InStep(s.lines, s.ring.bytes, s.kept)
    && s.ring.lineBytes == |Tail(s.ring.bytes)|
  }

  ghost predicate Faithful(s: State) {
    && s.ring.dropLf == EndsInCR(s.input)
    && (s.refused == 0 ==> Normal(s.input) == if s.driver.Writing? then s.kept + [s.driver.ch] else s.kept)
  }

  // The task scans bytes the driver no longer touches, and a line is among them.
  ghost predicate InScan(s: State) {
    s.echo.Scanning? ==>
      && s.echo.at <= s.echo.limit <= |s.ring.bytes|
      && NoEnd(s.ring.bytes[..s.echo.at])
      && Lines(s.ring.bytes[..s.echo.limit]) != []
      && s.echo.out == Cut(s.ring.bytes[..s.echo.at])
  }

  ghost predicate Inv(s: State) {
    Counted(s) && Roomy(s) && Framed(s) && Faithful(s) && InScan(s)
  }

  lemma InitialOk()
    ensures Inv(Initial())
  {
    assert Cuts([]) == [];
  }

  lemma NormalAppend(input: string, ch: char)
    ensures Normal(input + [ch]) == if ch == LF && EndsInCR(input) then Normal(input) else Normal(input) + [ch]
    ensures EndsInCR(input + [ch]) <==> ch == CR
  {
    assert (input + [ch])[..|input|] == input;
  }

  lemma TakeByteOk(s: State, ch: char)
    requires Inv(s) && s.driver.Idle?
    ensures Inv(TakeByte(s, ch))
  {
    var s1 := TakeByte(s, ch);
    NormalAppend(s.input, ch);
    if OnByte(s.ring, ch).TooLong? { OverlongOk(s.lines, s.ring.bytes, s.kept, ch); }
    assert s1.ring.bytes == s.ring.bytes;
    assert Framed(s1);
    assert Faithful(s1);
  }

  // A byte beyond the limit of its line is kept nowhere, and the splitter cuts it off.
  lemma OverlongOk(lines: seq<string>, bytes: string, kept: string, ch: char)
    requires InStep(lines, bytes, kept) && |Tail(bytes)| >= LINE_BYTES && !IsEnd(ch)
    ensures InStep(lines, bytes, kept + [ch])
  {
    AppendByte(kept, ch);
    CutAppend(Tail(kept), ch);
  }

  // A byte that joins both the ring and the kept input keeps the two in step.
  lemma JoinOk(lines: seq<string>, bytes: string, kept: string, ch: char)
    requires InStep(lines, bytes, kept) && (IsEnd(ch) || |Tail(bytes)| < LINE_BYTES)
    ensures InStep(lines, bytes + [ch], kept + [ch])
  {
    AppendByte(bytes, ch);
    AppendByte(kept, ch);
    if IsEnd(ch) {
      CutsAppend(Lines(kept), Tail(kept));
      assert lines + (Lines(bytes) + [Tail(bytes)]) == lines + Lines(bytes) + [Tail(bytes)];
    } else {
      CutAppend(Tail(kept), ch);
    }
  }

  // A byte behind the scanned ones does not disturb the scan.
  lemma ScanUndisturbed(s: State, ch: char)
    requires InScan(s)
    ensures InScan(s.(ring := s.ring.(bytes := s.ring.bytes + [ch])))
  {
    if s.echo.Scanning? {
      var bytes := s.ring.bytes;
      assert (bytes + [ch])[..s.echo.at] == bytes[..s.echo.at];
      assert (bytes + [ch])[..s.echo.limit] == bytes[..s.echo.limit];
    }
  }

  lemma WriteByteOk(s: State)
    requires Inv(s) && s.driver.Writing?
    ensures Inv(WriteByte(s))
  {
    var ch, room := s.driver.ch, s.driver.room;
    var s1 := WriteByte(s);
    if room >= Needs(ch) {
      JoinOk(s.lines, s.ring.bytes, s.kept, ch);
      AppendByte(s.ring.bytes, ch);
      ScanUndisturbed(s, ch);
      assert s1.ring.bytes == s.ring.bytes + [ch];
    }
    assert Framed(s1);
    assert Roomy(s1);
  }

  // The semaphore never reaches its maximum: there are more bytes than tokens.
  lemma PostOk(s: State)
    requires Inv(s) && s.driver.Posting?
    ensures Inv(PostLine(s)) && (s.echo.Waiting? || s.value < READY_MAX)
  {
    LinesCount(s.ring.bytes);
  }

  lemma PendOk(s: State)
    requires Inv(s) && s.echo.Busy?
    ensures Inv(PendLine(s))
  {
  }

  lemma LookOk(s: State)
    requires Inv(s) && s.echo.Claimed?
    ensures Inv(Apply(s, Look))
  {
    assert s.ring.bytes[..|s.ring.bytes|] == s.ring.bytes;
  }

  // After a successful pend the scan finds a line end before it runs out of bytes.
  lemma ScanFinds(s: State)
    requires Inv(s) && s.echo.Scanning?
    ensures s.echo.at < s.echo.limit
  {
    if s.echo.at == s.echo.limit { NoEndNoLines(s.ring.bytes[..s.echo.at]); }
  }

  lemma ScanOk(s: State)
    requires Inv(s) && s.echo.Scanning?
    ensures Inv(ScanByte(s))
  {
    ScanFinds(s);
    var bytes, at := s.ring.bytes, s.echo.at;
    if IsEnd(bytes[at]) {
      LineOffOk(s);
    } else {
      assert bytes[..at + 1] == bytes[..at] + [bytes[at]];
    }
  }

  lemma LineOffOk(s: State)
    requires Inv(s) && s.echo.Scanning? && s.echo.at < s.echo.limit && IsEnd(s.ring.bytes[s.echo.at])
    ensures Inv(ScanByte(s)) && s.echo.out == s.ring.bytes[..s.echo.at]
  {
    var bytes, at := s.ring.bytes, s.echo.at;
    var line, rest := bytes[..at], bytes[at + 1..];
    assert bytes == line + [bytes[at]] + rest;
    FirstLineOff(line, bytes[at], rest);
    FirstIsShort(s.lines, line, Lines(rest), Lines(s.kept));
    var s1 := ScanByte(s);
    assert s1.ring.bytes == rest && s1.lines == s.lines + [line];
    assert Framed(s1);
  }

  // A line of the ring is a line that was cut, so the scan copies all of it.
  lemma FirstIsShort(lines: seq<string>, line: string, rest: seq<string>, kept: seq<string>)
    requires lines + ([line] + rest) == Cuts(kept)
    ensures |line| <= LINE_BYTES && lines + [line] + rest == Cuts(kept)
  {
    assert Cuts(kept)[|lines|] == line;
    assert lines + [line] + rest == lines + ([line] + rest);
  }

  lemma StepOk(s: State, step: Step)
    requires Inv(s) && Enabled(s, step)
    ensures Inv(Apply(s, step))
  {
    match step
    case Byte(ch) => TakeByteOk(s, ch);
    case Write => WriteByteOk(s);
    case Post => PostOk(s);
    case Pend => PendOk(s);
    case Look => LookOk(s);
    case Scan => ScanOk(s);
  }

  lemma {:induction false} RunOk(steps: seq<Step>)
    ensures Inv(Run(Initial(), steps))
  {
    if steps == [] {
      InitialOk();
    } else {
      RunOk(steps[..|steps| - 1]);
      var before, step := Run(Initial(), steps[..|steps| - 1]), steps[|steps| - 1];
      if Enabled(before, step) { StepOk(before, step); }
    }
  }

  // ---- theorems over every run ------------------------------------------------------------------------

  // The semaphore's count, a claimed line and a post on its way are exactly the line ends in the ring; no
  // post ever finds the semaphore full, and no snapshot after a pend comes back without a line.
  lemma TokensMatchLines(steps: seq<Step>)
    ensures var s := Run(Initial(), steps);
      && Tokens(s) == |Lines(s.ring.bytes)|
      && s.lost == 0 && s.missed == 0
      && (s.driver.Posting? ==> s.echo.Waiting? || s.value < READY_MAX)
      && (s.echo.Scanning? ==> s.echo.at < s.echo.limit)
  {
    RunOk(steps);
    var s := Run(Initial(), steps);
    if s.driver.Posting? { PostOk(s); }
    if s.echo.Scanning? { ScanFinds(s); }
  }

  // The lines the task gets are the lines of the kept input in order, each of at most LINE_BYTES bytes; if
  // nothing was refused they are the lines of the input, with CR, LF and CRLF as line ends.
  lemma LinesAreTheSplit(steps: seq<Step>)
    ensures var s := Run(Initial(), steps);
      && s.lines <= Cuts(Lines(s.kept))
      && (s.refused == 0 && !s.driver.Writing? ==>
            s.lines + Lines(s.ring.bytes) == Cuts(Lines(Normal(s.input)))
            && Tail(s.ring.bytes) == Cut(Tail(Normal(s.input))))
  {
    RunOk(steps);
  }

  // A line of which a byte is in the ring can always be ended.
  lemma TypedLineCanEnd(steps: seq<Step>)
    ensures var s := Run(Initial(), steps);
      s.driver.Writing? && IsEnd(s.driver.ch) && Tail(s.ring.bytes) != [] ==>
        WriteByte(s).driver.Posting? && WriteByte(s).refused == s.refused
  {
    RunOk(steps);
  }

  // ---- the two calls as wholes --------------------------------------------------------------------------

  // With nothing in between, the driver's two steps are what the callback does to the ring in one go.
  lemma CallbackAtOnce(s: State, ch: char)
    requires s.driver.Idle? && |s.ring.bytes| <= CAPACITY
    ensures var s1 := TakeByte(s, ch);
      (if s1.driver.Writing? then WriteByte(s1).ring else s1.ring)
        == if OnByte(s.ring, ch).ToRing? then Put(Noted(s.ring, ch), ch, CAPACITY - |s.ring.bytes|)
           else Noted(s.ring, ch)
  {
  }

  // The scan run to its end.
  function Scanned(s: State): State
    requires s.echo.Scanning? && s.echo.at <= s.echo.limit <= |s.ring.bytes|
    decreases if s.echo.Scanning? then s.echo.limit - s.echo.at else 0
  {
    var s1 := ScanByte(s);
    if s1.echo.Scanning? then Scanned(s1) else s1
  }

  // The first complete line is gone from the ring and delivered, or nothing was found.
  ghost predicate Snapped(s: State, r: State, end: nat)
    requires end <= |s.ring.bytes|
  {
    if end == 0 then r.ring == s.ring && r.lines == s.lines && r.missed == s.missed + 1
    else
      && r.ring == s.ring.(bytes := s.ring.bytes[end..])
      && r.lines == s.lines + [Cut(s.ring.bytes[..end - 1])] && r.missed == s.missed
  }

  ghost predicate ScanningAt(s: State, at: nat) {
    && at <= |s.ring.bytes| && NoEnd(s.ring.bytes[..at])
    && s.echo == Scanning(at, |s.ring.bytes|, Cut(s.ring.bytes[..at]))
  }

  lemma ScanMovesOn(s: State, at: nat)
    requires ScanningAt(s, at) && at < |s.ring.bytes| && !IsEnd(s.ring.bytes[at])
    ensures ScanningAt(ScanByte(s), at + 1) && ScanByte(s) == s.(echo := ScanByte(s).echo)
  {
    var q := s.ring.bytes;
    assert q[..at + 1] == q[..at] + [q[at]];
    CutAppend(q[..at], q[at]);
  }

  // With nothing in between, the steps of a scan take the first complete line off, or find there is none.
  lemma {:induction false} SnapshotAtOnce(s: State, at: nat)
    requires ScanningAt(s, at)
    ensures Snapped(s, Scanned(s), FirstEnd(s.ring.bytes, at))
    decreases |s.ring.bytes| - at
  {
    if at < |s.ring.bytes| && !IsEnd(s.ring.bytes[at]) {
      ScanMovesOn(s, at);
      SnapshotAtOnce(ScanByte(s), at + 1);
    } else {
      assert Scanned(s) == ScanByte(s);
    }
  }
}
