// The shared ring of app/src/tiny_console.c as two positions over a byte array: what the driver callback and
// the snapshot do to the positions is what LineSpec says they do to the queue of bytes.

module LineRing {
  import opened LineSpec

  type Pos = p: nat | p < RING_BYTES

  // AppLineRingNext_
  function Next(pos: Pos): Pos {
    if pos + 1 >= RING_BYTES then 0 else pos + 1
  }

  // The position i bytes after pos.
  function At(pos: Pos, i: nat): Pos
    requires i < RING_BYTES
  {
    if pos + i < RING_BYTES then pos + i else pos + i - RING_BYTES
  }

  function Used(readPos: Pos, writePos: Pos): (n: nat)
    ensures n <= CAPACITY && At(readPos, n) == writePos
  {
    if writePos >= readPos then writePos - readPos else writePos + RING_BYTES - readPos
  }

  // The bytes between two positions, oldest first.
  function Between(bytes: seq<char>, readPos: Pos, writePos: Pos): (q: string)
    requires |bytes| == RING_BYTES
    ensures |q| == Used(readPos, writePos)
  {
    seq(Used(readPos, writePos), i requires 0 <= i < Used(readPos, writePos) => bytes[At(readPos, i)])
  }

  lemma WriteAppends(bytes: seq<char>, readPos: Pos, writePos: Pos, ch: char)
    requires |bytes| == RING_BYTES && Used(readPos, writePos) < CAPACITY
    ensures Between(bytes[writePos := ch], readPos, Next(writePos)) == Between(bytes, readPos, writePos) + [ch]
  {
  }

  lemma ReadDrops(bytes: seq<char>, readPos: Pos, writePos: Pos, n: nat)
    requires |bytes| == RING_BYTES && n <= Used(readPos, writePos)
    ensures Between(bytes, At(readPos, n), writePos) == Between(bytes, readPos, writePos)[n..]
  {
  }

  // One position further, one byte further in the queue.
  lemma NextByte(bytes: seq<char>, readPos: Pos, writePos: Pos, at: nat)
    requires |bytes| == RING_BYTES && at <= Used(readPos, writePos) && At(readPos, at) != writePos
    ensures at < Used(readPos, writePos) && Next(At(readPos, at)) == At(readPos, at + 1)
    ensures Between(bytes, readPos, writePos)[at] == bytes[At(readPos, at)]
  {
  }

  class AppLineRing {
    const bytes: array<char>
    var readPos: Pos
    var writePos: Pos
    var lineBytes: nat
    var dropLf: bool

    ghost predicate Shape()
      reads this
    {
      bytes.Length == RING_BYTES
    }

    ghost function View(): (r: Ring)
      reads this, bytes
      requires Shape()
      ensures |r.bytes| <= CAPACITY
    {
      Ring(Between(bytes[..], readPos, writePos), lineBytes, dropLf)
    }

    constructor ()
      ensures Shape() && View() == Ring("", 0, false) && fresh(bytes)
    {
      bytes := new char[RING_BYTES](_ => '\0');
      readPos, writePos, lineBytes, dropLf := 0, 0, 0, false;
    }

    // AppLineRingFree_
    method Free() returns (n: nat)
      requires Shape()
      ensures n == CAPACITY - |View().bytes|
    {
      if writePos >= readPos { n := RING_BYTES - (writePos - readPos) - 1; } else { n := readPos - writePos - 1; }
    }

    // AppLineRingWriteFromConsole_
    method WriteFromConsole(ch: char, reserveTerm: bool) returns (ok: bool)
      requires Shape()
      modifies this`writePos, bytes
      ensures Shape()
      ensures ok <==> CAPACITY - |old(View()).bytes| >= if reserveTerm then 2 else 1
      ensures View() == if ok then old(View()).(bytes := old(View()).bytes + [ch]) else old(View())
    {
      var free := Free();
      if free < (if reserveTerm then 2 else 1) { return false; }
      WriteAppends(bytes[..], readPos, writePos, ch);
      bytes[writePos] := ch;
      writePos := Next(writePos);
      ok := true;
    }

    // AppLineSubmitFromConsole_
    method SubmitFromConsole(terminator: char) returns (posted: bool)
      requires Shape() && IsEnd(terminator)
      modifies this`writePos, this`lineBytes, bytes
      ensures Shape()
      ensures View() == Put(old(View()), terminator, CAPACITY - |old(View()).bytes|)
      ensures posted <==> |old(View()).bytes| < CAPACITY
    {
      posted := WriteFromConsole(terminator, false);
      lineBytes := 0;
    }

    // AppLineByteFromConsole_. A data byte is stored while its line has fewer than 64 bytes and two bytes are
    // free, a line end while one is; the line feed of a CRLF is none.
    method ByteFromConsole(ch: char) returns (posted: bool)
      requires Shape()
      modifies this`writePos, this`lineBytes, this`dropLf, bytes
      ensures Shape()
      ensures View() == if OnByte(old(View()), ch).ToRing?
                        then Put(Noted(old(View()), ch), ch, CAPACITY - |old(View()).bytes|)
                        else Noted(old(View()), ch)
      ensures View() == old(View()).(
                bytes := old(View()).bytes +
                  if (if ch == '\n' then !old(dropLf) && |old(View()).bytes| <= 258
                      else if ch == '\r' then |old(View()).bytes| <= 258
                      else old(lineBytes) < 64 && |old(View()).bytes| <= 257) then [ch] else [],
                lineBytes :=
                  if ch == '\n' then if old(dropLf) then old(lineBytes) else 0
                  else if ch == '\r' then 0
                  else if old(lineBytes) < 64 && |old(View()).bytes| <= 257 then old(lineBytes) + 1 else old(lineBytes),
                dropLf := ch == '\r')
      ensures posted <==> |old(View()).bytes| <= 258 && (ch == '\r' || (ch == '\n' && !old(dropLf)))
    {
      posted := false;
      if ch == LF {
        if dropLf {
          dropLf := false;
          return;
        }
        posted := SubmitFromConsole(LF);
        return;
      }
      if ch == CR {
        posted := SubmitFromConsole(CR);
        dropLf := true;
        return;
      }
      dropLf := false;
      if lineBytes >= LINE_BYTES { return; }
      var ok := WriteFromConsole(ch, true);
      if ok { lineBytes := lineBytes + 1; }
    }

    // One byte more for the caller, as far as its line buffer goes.
    static method Keep(line: array<char>, out: nat, ghost seen: string, ch: char) returns (out1: nat)
      requires line.Length > LINE_BYTES && out <= LINE_BYTES && line[..out] == Cut(seen)
      modifies line
      ensures out1 <= LINE_BYTES && line[..out1] == Cut(seen + [ch])
    {
      CutAppend(seen, ch);
      out1 := out;
      if out < LINE_BYTES {
        line[out] := ch;
        out1 := out + 1;
      }
    }

    // The scanning loop of AppLineSnapshot_, from the read position to the write position it saw.
    method Scan(line: array<char>) returns (gotLine: bool, out: nat, scanPos: Pos)
      requires Shape() && line.Length > LINE_BYTES && line != bytes
      modifies line
      ensures out <= LINE_BYTES
      ensures var q, end := View().bytes, FirstEnd(View().bytes);
        && (gotLine <==> end > 0)
        && line[..out] == Cut(if gotLine then q[..end - 1] else q)
        && (gotLine ==> scanPos == At(readPos, end))
    {
      ghost var q := View().bytes;
      ghost var at: nat := 0;
      var writeLimit := writePos;
      gotLine, out, scanPos := false, 0, readPos;
      while scanPos != writeLimit
        invariant at <= |q| && scanPos == At(readPos, at)
        invariant FirstEnd(q) == FirstEnd(q, at)
        invariant out <= LINE_BYTES && line[..out] == Cut(q[..at])
        decreases |q| - at
      {
        var ch := bytes[scanPos];
        NextByte(bytes[..], readPos, writePos, at);
        scanPos := Next(scanPos);
        if IsEnd(ch) {
          gotLine := true;
          return;
        }
        out := Keep(line, out, q[..at], ch);
        assert q[..at + 1] == q[..at] + [ch];
        at := at + 1;
      }
      assert at == |q| && q[..at] == q;
    }

    // AppLineSnapshot_: the read position moves behind the first line end, or not at all.
    method Snapshot(line: array<char>) returns (gotLine: bool, out: nat)
      requires Shape() && line.Length > LINE_BYTES && line != bytes
      modifies this`readPos, line
      ensures Shape() && out <= LINE_BYTES
      ensures var q, end := old(View()).bytes, FirstEnd(old(View()).bytes);
        && (gotLine <==> end > 0)
        && line[..out] == Cut(if gotLine then q[..end - 1] else q)
        && View() == old(View()).(bytes := if gotLine then q[end..] else q)
    {
      var scanPos;
      gotLine, out, scanPos := Scan(line);
      if gotLine {
        ReadDrops(bytes[..], readPos, writePos, FirstEnd(View().bytes));
        readPos := scanPos;
      }
    }
  }
}
