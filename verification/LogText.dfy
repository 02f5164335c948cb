// The appending functions of the logger's formatter (core/src/klogger.c): whatever is appended, the buffer
// holds the beginning of the whole text, and nothing is written beyond it while the position counter is below
// its limit.

module LogText {
  import opened Basics

  const ULONG_MAX: nat := 0xFFFF_FFFF
  const TMP_CHARS: nat := 32

  // What a C string of n bytes keeps of a text.
  function Fitting(text: string, n: nat): (r: string)
    ensures n > 0 ==> |r| < n
  {
    if n == 0 then [] else if |text| < n then text else text[..n - 1]
  }

  // logCopyText_: the text, as far as it fits, and a NUL; a null pointer counts as the empty text.
  method CopyText(dst: array<char>, src: Option<string>)
    modifies dst
    ensures dst.Length > 0 ==>
      var kept := Fitting(if src.Some? then src.value else "", dst.Length);
      |kept| < dst.Length && dst[..|kept|] == kept && dst[|kept|] == '\0'
  {
    if dst.Length == 0 { return; }
    if src.None? {
      dst[0] := '\0';
      return;
    }
    var text, i := src.value, 0;
    while i + 1 < dst.Length && i < |text|
      invariant i <= |text| && i < dst.Length
      invariant dst[..i] == text[..i]
    {
      dst[i] := text[i];
      i := i + 1;
    }
    dst[i] := '\0';
    assert i == |Fitting(text, dst.Length)|;
  }

  // ---- digits --------------------------------------------------------------------------------------------

  predicate IsBase(base: nat) {
    base == 10 || base == 16
  }

  function Digit(d: nat, upper: bool): char
    requires d < 16
  {
    if d < 10 then ('0' as int + d) as char
    else if upper then ('A' as int + (d - 10)) as char
    else ('a' as int + (d - 10)) as char
  }

  function DigitValue(c: char): nat {
    if '0' <= c <= '9' then c as int - '0' as int
    else if 'A' <= c <= 'F' then c as int - 'A' as int + 10
    else if 'a' <= c <= 'f' then c as int - 'a' as int + 10
    else 0
  }

  // Division by the base; the code refuses every other base.
  function Quot(value: nat, base: nat): (q: nat)
    requires IsBase(base)
    ensures q <= value && (value > 0 ==> q < value)
  {
    if base == 10 then value / 10 else value / 16
  }

  function Rem(value: nat, base: nat): (r: nat)
    requires IsBase(base)
    ensures r < 16 && r < base
  {
    if base == 10 then value % 10 else value % 16
  }

  function Digits(value: nat, base: nat, upper: bool): (r: string)
    requires IsBase(base)
    ensures r != []
  {
    var last := [Digit(Rem(value, base), upper)];
    if value < base then last else Digits(Quot(value, base), base, upper) + last
  }

  function ValueOf(digits: string, base: nat): nat {
    if digits == [] then 0
    else ValueOf(digits[..|digits| - 1], base) * base + DigitValue(digits[|digits| - 1])
  }

  // The digits of a number are read back as the number, and none but a lone zero starts with a zero.
  lemma {:induction false} DigitsRoundTrip(value: nat, base: nat, upper: bool)
    requires IsBase(base)
    ensures ValueOf(Digits(value, base, upper), base) == value
    ensures value > 0 ==> Digits(value, base, upper)[0] != '0'
  {
    var digits := Digits(value, base, upper);
    var last := [Digit(Rem(value, base), upper)];
    if value < base {
      assert digits[..0] == [];
    } else {
      DigitsRoundTrip(Quot(value, base), base, upper);
      assert digits[..|digits| - 1] == Digits(Quot(value, base), base, upper);
    }
  }

  function Pow2(k: nat): nat {
    if k == 0 then 1 else 2 * Pow2(k - 1)
  }

  // The digits that are still to come when value is left.
  function Left(value: nat, base: nat, upper: bool): string
    requires IsBase(base)
  {
    if value == 0 then "" else Digits(value, base, upper)
  }

  lemma DigitsStep(value: nat, base: nat, upper: bool)
    requires IsBase(base)
    ensures Digits(value, base, upper) == Left(Quot(value, base), base, upper) + [Digit(Rem(value, base), upper)]
  {
  }

  // A text begins with the digits, the last one first.
  ghost predicate Reversed(t: string, digits: string) {
    |digits| <= |t| && forall k :: 0 <= k < |digits| ==> t[k] == digits[|digits| - 1 - k]
  }

  lemma ReversedStep(t: string, digits: string, digit: char)
    requires Reversed(t, digits) && |digits| < |t|
    ensures Reversed(t[|digits| := digit], [digit] + digits)
  {
  }

  lemma MoveDigit(left: string, digit: char, done: string)
    ensures left + [digit] + done == left + ([digit] + done)
  {
  }

  lemma Pow2Of32()
    ensures Pow2(TMP_CHARS) == ULONG_MAX + 1
  {
    assert Pow2(8) == 0x100;
    assert Pow2(16) == 0x1_0000;
    assert Pow2(24) == 0x100_0000;
  }

  // A number below 2^k has at most k digits, so the scratch buffer of the code is never short.
  lemma {:induction false} DigitsFit(value: nat, base: nat, upper: bool, k: nat)
    requires IsBase(base) && k > 0 && value < Pow2(k)
    ensures |Digits(value, base, upper)| <= k
  {
    if value >= base {
      assert k > 1;
      assert Quot(value, base) < Pow2(k - 1);
      DigitsFit(Quot(value, base), base, upper, k - 1);
    }
  }

  function Signed(value: int): string {
    if value < 0 then "-" + Digits(-value, 10, false) else Digits(value, 10, false)
  }

  // Where logAppendChar_ writes when `pos` characters were appended before: the sum is a 32-bit one.
  function Target(pos: nat, bytes: nat): Option<nat> {
    if (pos + 1) % (ULONG_MAX + 1) < bytes then Some(pos) else None
  }

  // The write stays in the buffer exactly if the counter is not at its limit.
  lemma TargetInBoundsIff(pos: nat, bytes: nat)
    requires pos <= ULONG_MAX && 0 < bytes <= ULONG_MAX
    ensures (Target(pos, bytes).Some? ==> Target(pos, bytes).value < bytes) <==> pos < ULONG_MAX
  {
    assert pos < ULONG_MAX ==> (pos + 1) % (ULONG_MAX + 1) == pos + 1;
  }

  class TextBuf {
    const text: array<char>
    var pos: nat
    var overrun: bool         // a write went beyond the buffer
    ghost var written: string // everything appended, whether it fitted or not

    // The buffer holds the beginning of what was appended; it is overrun exactly once the position
    // counter was at its limit before an append.
    ghost predicate Valid()
      reads this, text
    {
      && 0 < text.Length <= ULONG_MAX
      && pos == (if |written| <= ULONG_MAX then |written| else ULONG_MAX)
      && (overrun <==> |written| > ULONG_MAX)
      && text[..|Fitting(written, text.Length)|] == Fitting(written, text.Length)
    }

    constructor (text: array<char>)
      requires 0 < text.Length <= ULONG_MAX
      ensures Valid() && written == "" && this.text == text
    {
      this.text, pos, overrun, written := text, 0, false, "";
    }

    // logAppendChar_
    method AppendChar(ch: char)
      requires Valid()
      modifies this, text
      ensures Valid() && written == old(written) + [ch]
      ensures overrun <==> old(overrun) || old(pos) == ULONG_MAX
    {
      TargetInBoundsIff(pos, text.Length);
      var at := Target(pos, text.Length);
      if at.Some? {
        if at.value < text.Length { text[at.value] := ch; } else { overrun := true; }
      }
      if pos < ULONG_MAX { pos := pos + 1; }
      written := written + [ch];
    }

    // logAppendText_; a null pointer is named
    method AppendText(src: Option<string>)
      requires Valid()
      modifies this, text
      ensures Valid() && written == old(written) + if src.Some? then src.value else "(null)"
    {
      var s := if src.Some? then src.value else "(null)";
      for i := 0 to |s|
        invariant Valid() && written == old(written) + s[..i]
      {
        AppendChar(s[i]);
        assert s[..i + 1] == s[..i] + [s[i]];
      }
      assert s[..|s|] == s;
    }

    // logAppendUnsigned_: the digits are found last one first in a scratch buffer.
    method AppendUnsigned(value: nat, base: nat, upper: bool)
      requires Valid() && value <= ULONG_MAX
      modifies this, text
      ensures Valid()
      ensures written == old(written) + if IsBase(base) then Digits(value, base, upper) else ""
    {
      if base != 10 && base != 16 { return; }
      var tmp: array<char>, n: nat := Scratch(value, base, upper);
      ghost var digits := Digits(value, base, upper);
      while n != 0
        invariant Valid() && n <= |digits| && tmp.Length == TMP_CHARS && fresh(tmp)
        invariant Reversed(tmp[..], digits)
        invariant written == old(written) + digits[..|digits| - n]
      {
        n := n - 1;
        AppendChar(tmp[n]);
        assert digits[..|digits| - n] == digits[..|digits| - n - 1] + [digits[|digits| - n - 1]];
      }
      assert digits[..|digits|] == digits;
    }

    // Its first loop, which stops when the number is used up and not when the buffer is.
    static method Scratch(number: nat, base: nat, upper: bool) returns (tmp: array<char>, n: nat)
      requires IsBase(base) && number <= ULONG_MAX
      ensures fresh(tmp) && tmp.Length == TMP_CHARS && n == |Digits(number, base, upper)| <= TMP_CHARS
      ensures Reversed(tmp[..], Digits(number, base, upper))
    {
      ghost var digits := Digits(number, base, upper);
      Pow2Of32();
      DigitsFit(number, base, upper, TMP_CHARS);
      tmp := new char[TMP_CHARS](_ => '0');
      DigitsStep(number, base, upper);
      tmp[0] := Digit(Rem(number, base), upper);
      ghost var done := [tmp[0]];
      var value: nat := Quot(number, base);
      n := 1;
      while value != 0 && n < TMP_CHARS
        invariant n == |done| && digits == Left(value, base, upper) + done
        invariant Reversed(tmp[..], done)
        decreases value
      {
        var digit := Digit(Rem(value, base), upper);
        DigitsStep(value, base, upper);
        MoveDigit(Left(Quot(value, base), base, upper), digit, done);
        ReversedStep(tmp[..], done, digit);
        tmp[n] := digit;
        done := [digit] + done;
        value := Quot(value, base);
        n := n + 1;
      }
    }

    // logAppendSigned_
    method AppendSigned(value: int)
      requires Valid() && -0x8000_0000 <= value <= 0x7FFF_FFFF
      modifies this, text
      ensures Valid() && written == old(written) + Signed(value)
    {
      var magnitude := value;
      if value < 0 {
        AppendChar('-');
        magnitude := -(value + 1) + 1;
      }
      AppendUnsigned(magnitude, 10, false);
      assert old(written) + "-" + Digits(magnitude, 10, false) == old(written) + ("-" + Digits(magnitude, 10, false));
    }

    // The last act of logFormatText_: the buffer becomes the C string of what fitted.
    method Close()
      requires Valid()
      modifies text
      ensures Valid() && text[|Fitting(written, text.Length)|] == '\0'
    {
      if pos >= text.Length { text[text.Length - 1] := '\0'; } else { text[pos] := '\0'; }
    }
  }
}
