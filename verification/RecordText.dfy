// The text form of a record in flash: eight hexadecimal digits for the sequence number, the name and the
// two bytes of the value, high byte first (app/src/record_server.c).

module RecordText {
  import opened Basics
  import opened RecordLog

  const TEXT_CHARS: nat := 8

  function HexNibble(value: nat): (c: char)
    requires value < 16
    ensures HexValue(c) == Some(value)
  {
    if value < 10 then ('0' as int + value) as char else ('A' as int + (value - 10)) as char
  }

  function HexValue(c: char): (r: Option<nat>)
    ensures r.Some? ==> r.value < 16
  {
    if '0' <= c <= '9' then Some(c as int - '0' as int)
    else if 'A' <= c <= 'F' then Some(c as int - 'A' as int + 10)
    else if 'a' <= c <= 'f' then Some(c as int - 'a' as int + 10)
    else None
  }

  function StoreByte(value: Byte): (t: string)
    ensures |t| == 2
  {
    [HexNibble(value / 16), HexNibble(value % 16)]
  }

  // The buffer is zeroed, so a text that ends early reads as a character that is no digit.
  function LoadByte(text: string, pos: nat): Option<Byte> {
    if pos + 1 >= |text| then None
    else
      match HexValue(text[pos])
      case None => None
      case Some(hi) =>
        match HexValue(text[pos + 1])
        case None => None
        case Some(lo) => Some(hi * 16 + lo)
  }

  function ToText(r: Record): (t: string)
    ensures |t| == TEXT_CHARS
  {
    StoreByte(r.seqNo) + StoreByte(r.nome) + StoreByte(r.valor / 0x100) + StoreByte(r.valor % 0x100)
  }

  function FromText(text: string): Option<Record> {
    var seqNo, nome := LoadByte(text, 0), LoadByte(text, 2);
    var hi, lo := LoadByte(text, 4), LoadByte(text, 6);
    if seqNo.None? || nome.None? || hi.None? || lo.None? then None
    else Some(Record(seqNo.value, nome.value, hi.value * 0x100 + lo.value))
  }

  // A text read as a hexadecimal number.
  function HexNumber(t: string): nat {
    if t == [] then 0
    else HexNumber(t[..|t| - 1]) * 16 + if HexValue(t[|t| - 1]).Some? then HexValue(t[|t| - 1]).value else 0
  }

  lemma HexNumberMore(t: string, value: Byte)
    ensures HexNumber(t + StoreByte(value)) == HexNumber(t) * 0x100 + value
  {
    var hi, lo := HexNibble(value / 16), HexNibble(value % 16);
    assert t + StoreByte(value) == t + [hi] + [lo];
    assert (t + [hi] + [lo])[..|t| + 1] == t + [hi] && (t + [hi])[..|t|] == t;
    assert value == value / 16 * 16 + value % 16;
  }

  // A record's text is one big-endian number: the sequence number above the name above the value.
  lemma TextIsOneNumber(r: Record)
    ensures HexNumber(ToText(r)) == r.seqNo * 0x100_0000 + r.nome * 0x1_0000 + r.valor
  {
    HexNumberMore([], r.seqNo);
    assert [] + StoreByte(r.seqNo) == StoreByte(r.seqNo);
    HexNumberMore(StoreByte(r.seqNo), r.nome);
    HexNumberMore(StoreByte(r.seqNo) + StoreByte(r.nome), r.valor / 0x100);
    HexNumberMore(StoreByte(r.seqNo) + StoreByte(r.nome) + StoreByte(r.valor / 0x100), r.valor % 0x100);
  }

  function UpperHex(c: char): char {
    if 'a' <= c <= 'f' then (c as int - 'a' as int + 'A' as int) as char else c
  }

  function UpperText(t: string): (u: string)
    ensures |u| == |t| && forall i :: 0 <= i < |t| ==> u[i] == UpperHex(t[i])
  {
    if t == [] then [] else [UpperHex(t[0])] + UpperText(t[1..])
  }

  ghost predicate IsHex(t: string) {
    forall i :: 0 <= i < |t| ==> HexValue(t[i]).Some?
  }

  lemma ByteRoundTrip(text: string, pos: nat, value: Byte)
    requires pos + 1 < |text| && text[pos..pos + 2] == StoreByte(value)
    ensures LoadByte(text, pos) == Some(value)
  {
    assert text[pos] == text[pos..pos + 2][0] && text[pos + 1] == text[pos..pos + 2][1];
    assert value == value / 16 * 16 + value % 16;
  }

  // Every record survives the trip through flash.
  lemma TextRoundTrip(r: Record)
    ensures FromText(ToText(r)) == Some(r)
  {
    var t := ToText(r);
    assert t[0..2] == StoreByte(r.seqNo) && t[2..4] == StoreByte(r.nome);
    assert t[4..6] == StoreByte(r.valor / 0x100) && t[6..8] == StoreByte(r.valor % 0x100);
    ByteRoundTrip(t, 0, r.seqNo);
    ByteRoundTrip(t, 2, r.nome);
    ByteRoundTrip(t, 4, r.valor / 0x100);
    ByteRoundTrip(t, 6, r.valor % 0x100);
  }

  function UpperPair(text: string, pos: nat): string
    requires pos + 1 < |text|
  {
    [UpperHex(text[pos]), UpperHex(text[pos + 1])]
  }

  lemma UpperPairs(text: string)
    requires |text| >= TEXT_CHARS
    ensures UpperText(text[..TEXT_CHARS])
         == UpperPair(text, 0) + UpperPair(text, 2) + UpperPair(text, 4) + UpperPair(text, 6)
  {
  }

  lemma LoadsAs(text: string, pos: nat)
    requires pos + 1 < |text|
    ensures LoadByte(text, pos).Some? <==> HexValue(text[pos]).Some? && HexValue(text[pos + 1]).Some?
    ensures LoadByte(text, pos).Some? ==> StoreByte(LoadByte(text, pos).value) == UpperPair(text, pos)
  {
    if LoadByte(text, pos).Some? {
      var hi, lo := HexValue(text[pos]).value, HexValue(text[pos + 1]).value;
      assert (hi * 16 + lo) / 16 == hi && (hi * 16 + lo) % 16 == lo;
    }
  }

  // The text of a record read from these four bytes.
  lemma TextOfBytes(a: Byte, b: Byte, hi: Byte, lo: Byte)
    ensures hi * 0x100 + lo < 0x1_0000
    ensures ToText(Record(a, b, hi * 0x100 + lo)) == StoreByte(a) + StoreByte(b) + StoreByte(hi) + StoreByte(lo)
  {
    var v: int := hi * 0x100 + lo;
    assert v / 0x100 == hi && v % 0x100 == lo;
  }

  lemma AcceptedIff(text: string)
    ensures FromText(text).Some? <==> |text| >= TEXT_CHARS && IsHex(text[..TEXT_CHARS])
  {
    if |text| >= TEXT_CHARS {
      LoadsAs(text, 0);
      LoadsAs(text, 2);
      LoadsAs(text, 4);
      LoadsAs(text, 6);
      var t := text[..TEXT_CHARS];
      if FromText(text).Some? {
        forall i | 0 <= i < TEXT_CHARS ensures HexValue(t[i]).Some? { assert t[i] == text[i]; }
      } else if IsHex(t) {
        forall i | 0 <= i < TEXT_CHARS ensures HexValue(text[i]).Some? { assert t[i] == text[i]; }
        assert false;
      }
    }
  }

  lemma LoadedIsUpper(text: string)
    requires FromText(text).Some? && |text| >= TEXT_CHARS
    ensures StoreByte(LoadByte(text, 0).value) + StoreByte(LoadByte(text, 2).value)
          + StoreByte(LoadByte(text, 4).value) + StoreByte(LoadByte(text, 6).value) == UpperText(text[..TEXT_CHARS])
  {
    LoadsAs(text, 0);
    LoadsAs(text, 2);
    LoadsAs(text, 4);
    LoadsAs(text, 6);
    UpperPairs(text);
  }

  lemma LoadedIsText(text: string)
    requires FromText(text).Some?
    ensures ToText(FromText(text).value)
         == StoreByte(LoadByte(text, 0).value) + StoreByte(LoadByte(text, 2).value)
          + StoreByte(LoadByte(text, 4).value) + StoreByte(LoadByte(text, 6).value)
  {
    TextOfBytes(LoadByte(text, 0).value, LoadByte(text, 2).value, LoadByte(text, 4).value, LoadByte(text, 6).value);
  }

  // A text is accepted exactly when its first eight characters are digits, and then it is the text of the
  // record it is read as, but for the case of the letters.
  lemma AcceptedTexts(text: string)
    ensures FromText(text).Some? <==> |text| >= TEXT_CHARS && IsHex(text[..TEXT_CHARS])
    ensures FromText(text).Some? ==> ToText(FromText(text).value) == UpperText(text[..TEXT_CHARS])
  {
    AcceptedIff(text);
    if FromText(text).Some? {
      LoadedIsUpper(text);
      LoadedIsText(text);
    }
  }
}
