// Typed lines (app/src/tiny_console.c): the bytes between two line ends, CR, LF and CRLF all being one
// line end, and the queue of bytes that carries them from the console driver to the task that parses them.

module LineSpec {
  const LINE_BYTES: nat := 64
  const RING_BYTES: nat := 260
  const CAPACITY: nat := 259

  const CR: char := '\r'
  const LF: char := '\n'

  predicate IsEnd(ch: char) {
    ch == CR || ch == LF
  }

  // ---- a pure splitter ---------------------------------------------------------------------------------

  // The complete lines of a text, without their ends, and what follows the last end.
  function Lines(t: string): seq<string> {
    if t == [] then []
    else
      var front, last := t[..|t| - 1], t[|t| - 1];
      if IsEnd(last) then Lines(front) + [Tail(front)] else Lines(front)
  }

  function Tail(t: string): (r: string) {
    if t == [] then []
    else
      var front, last := t[..|t| - 1], t[|t| - 1];
      if IsEnd(last) then [] else Tail(front) + [last]
  }

  // CRLF is one line end: a line feed right after a carriage return says nothing.
  function Normal(t: string): string {
    if t == [] then []
    else
      var front, last := t[..|t| - 1], t[|t| - 1];
      if last == LF && front != [] && front[|front| - 1] == CR then Normal(front) else Normal(front) + [last]
  }

  // A line keeps its first LINE_BYTES bytes.
  function Cut(line: string): (r: string)
    ensures |r| <= LINE_BYTES
  {
    if |line| <= LINE_BYTES then line else line[..LINE_BYTES]
  }

  function Cuts(lines: seq<string>): (r: seq<string>)
    ensures |r| == |lines| && forall i :: 0 <= i < |lines| ==> r[i] == Cut(lines[i])
  {
    seq(|lines|, i requires 0 <= i < |lines| => Cut(lines[i]))
  }

  lemma CutAppend(line: string, ch: char)
    ensures Cut(line + [ch]) == if |line| < LINE_BYTES then Cut(line) + [ch] else Cut(line)
    ensures |Cut(line)| < LINE_BYTES <==> |line| < LINE_BYTES
  {
  }

  lemma CutsAppend(lines: seq<string>, line: string)
    ensures Cuts(lines + [line]) == Cuts(lines) + [Cut(line)]
  {
  }

  ghost predicate NoEnd(t: string) {
    forall i :: 0 <= i < |t| ==> !IsEnd(t[i])
  }

  // The length of the first line with its end, or 0 when no line is complete.
  function FirstEnd(t: string, i: nat := 0): (r: nat)
    requires i <= |t|
    ensures r == 0 || i < r <= |t|
    decreases |t| - i
  {
    if i == |t| then 0 else if IsEnd(t[i]) then i + 1 else FirstEnd(t, i + 1)
  }

  lemma {:induction false} FirstEndIs(t: string, i: nat)
    requires i <= |t| && NoEnd(t[..i])
    ensures var r := FirstEnd(t, i);
      if r == 0 then NoEnd(t) else IsEnd(t[r - 1]) && NoEnd(t[..r - 1])
    decreases |t| - i
  {
    assert t[..|t|] == t;
    if i < |t| && !IsEnd(t[i]) {
      assert t[..i + 1] == t[..i] + [t[i]];
      FirstEndIs(t, i + 1);
    }
  }

  // The first line end decides what the first line is.
  lemma FirstLineIs(t: string)
    ensures FirstEnd(t) == 0 ==> Lines(t) == []
    ensures FirstEnd(t) > 0 ==> Lines(t) == [t[..FirstEnd(t) - 1]] + Lines(t[FirstEnd(t)..])
    ensures FirstEnd(t) > 0 ==> Tail(t) == Tail(t[FirstEnd(t)..])
  {
    FirstEndIs(t, 0);
    var end := FirstEnd(t);
    if end == 0 {
      NoEndNoLines(t);
    } else {
      assert t == t[..end - 1] + [t[end - 1]] + t[end..];
      FirstLineOff(t[..end - 1], t[end - 1], t[end..]);
    }
  }

  lemma {:induction false} NoEndNoLines(t: string)
    requires NoEnd(t)
    ensures Lines(t) == [] && Tail(t) == t
  {
    if t != [] { NoEndNoLines(t[..|t| - 1]); }
  }

  lemma AppendByte(t: string, ch: char)
    ensures Lines(t + [ch]) == if IsEnd(ch) then Lines(t) + [Tail(t)] else Lines(t)
    ensures Tail(t + [ch]) == if IsEnd(ch) then [] else Tail(t) + [ch]
  {
    assert (t + [ch])[..|t|] == t;
  }

  // Taking the first line off a text leaves the other lines and the tail.
  lemma {:induction false} FirstLineOff(line: string, ch: char, rest: string)
    requires NoEnd(line) && IsEnd(ch)
    ensures Lines(line + [ch] + rest) == [line] + Lines(rest)
    ensures Tail(line + [ch] + rest) == Tail(rest)
  {
    if rest == [] {
      assert line + [ch] + rest == line + [ch];
      AppendByte(line, ch);
      NoEndNoLines(line);
    } else {
      var front, last := rest[..|rest| - 1], rest[|rest| - 1];
      FirstLineOff(line, ch, front);
      AppendByte(line + [ch] + front, last);
      AppendByte(front, last);
      assert rest == front + [last];
      assert line + [ch] + rest == line + [ch] + front + [last];
    }
  }

  // Every line and the tail are free of line ends, and there are no more lines than bytes.
  lemma {:induction false} LinesCount(t: string)
    ensures |Lines(t)| <= |t| && |Lines(t)| + |Tail(t)| <= |t|
  {
    if t != [] { LinesCount(t[..|t| - 1]); }
  }

  // ---- what the driver callback does with one byte --------------------------------------------------------

  // The bytes in the ring with the two notes the callback keeps.
  datatype Ring = Ring(bytes: string, lineBytes: nat, dropLf: bool)

  datatype Arrival = Swallowed | TooLong | ToRing

  // AppLineByteFromConsole_ up to the point where it turns to the ring
  function OnByte(r: Ring, ch: char): Arrival {
    if ch == LF && r.dropLf then Swallowed
    else if !IsEnd(ch) && r.lineBytes >= LINE_BYTES then TooLong
    else ToRing
  }

  function Noted(r: Ring, ch: char): Ring {
    r.(dropLf := ch == CR)
  }

  // A data byte leaves a place for the line end.
  function Needs(ch: char): nat {
    if IsEnd(ch) then 1 else 2
  }

  // AppLineRingWriteFromConsole_ and what its two callers do next, when they saw this much room.
  function Put(r: Ring, ch: char, room: nat): Ring {
    var stored := if room >= Needs(ch) then r.bytes + [ch] else r.bytes;
    r.(bytes := stored,
       lineBytes := if IsEnd(ch) then 0 else if room >= Needs(ch) then r.lineBytes + 1 else r.lineBytes)
  }
}
