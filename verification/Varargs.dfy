/** sg_varargs of globals.c: the driver's own sprintf, for devices without one, on 32-bit words that wrap around. */
module Varargs {
  import opened Common
  import opened Numerals
  import opened SgStdlib

  const WORD: nat := 0x1_0000_0000
  const PC_BUF: nat := 16

  // ---- Numbers ----

  /** Fill characters in front of `len` others. More than 14 are never written. */
  function Padding(width: nat, len: nat): nat {
    if len < width < len + 15 then width - len else 0
  }

  /** A number in its field; None if it does not fit `pcBuf`. Zeros go behind the sign, blanks before it. */
  function Justified(sign: string, digits: string, fill: char, width: nat): Option<string> {
    var pad := Repeat(fill, Padding(width, |sign| + |digits|));
    if |sign| + |digits| + |pad| > PC_BUF then None
    else Some((if fill == '0' then sign else "") + pad + (if fill == '0' then "" else sign) + digits)
  }

  function Sign(negative: bool): string {
    if negative then "-" else ""
  }

  /** A number is padded to the width asked for exactly up to 16, with one gap: one character is not padded to 16. */
  lemma PaddedToWidth(sign: string, digits: string, fill: char, width: nat)
    requires 1 <= |sign| + |digits| <= 11
    ensures var len, r := |sign| + |digits|, Justified(sign, digits, fill, width);
            r.Some? && |r.value| == (if width < len then len else width) <==> width <= 16 && !(width == 16 && len == 1)
    ensures var len, r := |sign| + |digits|, Justified(sign, digits, fill, width);
            r.None? <==> 16 < width < len + 15
  {
  }

  /** Where the fill goes: blanks in front of the sign, zeros between sign and digits. Beyond width 16 there is none, or the
      number overruns `pcBuf`. */
  lemma PaddedInPlace(sign: string, digits: string, fill: char, width: nat)
    requires 1 <= |sign| + |digits| <= 11 && Justified(sign, digits, fill, width).Some?
    ensures var r, len := Justified(sign, digits, fill, width).value, |sign| + |digits|;
            var from := if fill == '0' then |sign| else 0;
            && |r| >= len && (width >= len + 15 ==> r == sign + digits)
            && (if fill == '0' then r[..|sign|] == sign && r[|r| - |digits|..] == digits else r[|r| - len..] == sign + digits)
            && forall i :: from <= i < from + |r| - len ==> r[i] == fill
  {
    var count := Padding(width, |sign| + |digits|);
    RepeatAll(fill, count);
    var pad := Repeat(fill, count);
    var r := Justified(sign, digits, fill, width).value;
    if fill == '0' {
      assert r == sign + pad + digits;
    } else {
      assert r == pad + (sign + digits);
    }
  }

  lemma {:induction false} RepeatAll(c: char, n: nat)
    ensures forall i :: 0 <= i < n ==> Repeat(c, n)[i] == c
  {
    if n > 0 {
      RepeatAll(c, n - 1);
    }
  }

  function WrappedProduct(x: nat, base: nat): nat {
    x * base % WORD
  }

  function Wrapped(n: int): nat {
    n % WORD
  }

  lemma WrappedLess(n: int)
    ensures Wrapped(Wrapped(n) - 1) == Wrapped(n - 1)
  {
  }

  /** The test of the loop for the weight: the product is not above the value, and dividing gives the factor back. */
  predicate StepsOn(x: nat, base: nat, value: nat)
    requires base > 0
  {
    WrappedProduct(x, base) <= value && WrappedProduct(x, base) / base == x
  }

  /** The loop's overflow test: it steps to the next power exactly when that is not above the value. */
  lemma WrapTest(x: nat, base: nat, value: nat)
    requires 0 < x < WORD && base in {10, 16} && value < WORD
    ensures StepsOn(x, base, value) <==> x * base <= value
    ensures StepsOn(x, base, value) ==> WrappedProduct(x, base) == x * base
  {
    if base == 10 {
      WrapTen(x);
    } else {
      WrapSixteen(x);
    }
  }

  lemma WrapTen(x: nat)
    requires 0 < x < WORD
    ensures x * 10 < WORD ==> x * 10 % WORD == x * 10
    ensures x * 10 % WORD / 10 == x <==> x * 10 < WORD
  {
  }

  lemma WrapSixteen(x: nat)
    requires 0 < x < WORD
    ensures x * 16 < WORD ==> x * 16 % WORD == x * 16
    ensures x * 16 % WORD / 16 == x <==> x * 16 < WORD
  {
  }

  lemma ShortWord(value: nat, base: nat)
    requires value < WORD && base in {10, 16}
    ensures |Digits(value, base)| <= 10
  {
    var k := |Digits(value, base)|;
    DigitsLength(value, base);
    if k > 10 {
      PowerBig(base, k - 1);
      assert false;
    }
  }

  lemma PowerBig(base: nat, k: nat)
    requires base in {10, 16} && k >= 10
    ensures Power(base, k) >= WORD
    decreases k
  {
    if k > 10 {
      PowerBig(base, k - 1);
    } else if base == 10 {
      assert Power(10, 5) == 100000;
      assert Power(10, 10) == 100000 * Power(10, 5);
    } else {
      assert Power(16, 4) == 65536;
      assert Power(16, 8) == 65536 * Power(16, 4);
      assert Power(16, 10) == 256 * Power(16, 8);
    }
  }

  /** `ulIdx` and how often it was stepped: it ends as the largest power of the base that is not above the value, in
      spite of the wrap-around. The width is counted down, and may wrap, on the way. */
  method Weight(value: nat, base: nat, width: nat) returns (ulIdx: nat, ulCount: nat)
    requires value < WORD && base in {10, 16} && width < WORD
    ensures ulIdx == Power(base, |Digits(value, base)| - 1)
    ensures ulCount == Wrapped(width - (|Digits(value, base)| - 1))
  {
    ulIdx, ulCount := 1, width;
    ghost var k := 0;
    ghost var len := |Digits(value, base)|;
    DigitsLength(value, base);
    while StepsOn(ulIdx, base, value)
      invariant ulIdx == Power(base, k) && 0 < ulIdx < WORD
      invariant ulCount == Wrapped(width - k) && k < len
      decreases len - k
    {
      WrapTest(ulIdx, base, value);
      PowerNext(base, k, len, value);
      ulIdx := WrappedProduct(ulIdx, base);
      WrappedLess(width - k);
      ulCount := Wrapped(ulCount - 1);
      k := k + 1;
    }
    WrapTest(ulIdx, base, value);
    PowerEnd(base, k, len, value);
  }

  lemma PowerNext(base: nat, k: nat, len: nat, value: nat)
    requires base in {10, 16} && value < Power(base, len) && Power(base, k) * base <= value
    ensures Power(base, k + 1) == Power(base, k) * base && 0 < Power(base, k + 1) && k + 1 < len
  {
    PowerPositive(base, k + 1);
    if k + 1 >= len {
      PowerGrows(base, len, k + 1);
      assert false;
    }
  }

  lemma PowerEnd(base: nat, k: nat, len: nat, value: nat)
    requires base in {10, 16} && k < len && Power(base, k) * base > value && (len > 1 ==> Power(base, len - 1) <= value)
    ensures k == len - 1
  {
    if k < len - 1 {
      PowerGrows(base, k + 1, len - 1);
      assert false;
    }
  }

  lemma {:induction false} PowerGrows(base: nat, low: nat, high: nat)
    requires base in {10, 16} && low <= high
    ensures 0 < Power(base, low) <= Power(base, high)
    decreases high
  {
    PowerPositive(base, low);
    if low < high {
      PowerGrows(base, low, high - 1);
    }
  }

  lemma PaddingLeft(width: nat, len: nat)
    requires 1 <= len <= 11 && width < WORD
    ensures var count := Wrapped(width - len + 1);
            Padding(width, len) == if 1 < count < 16 then count - 1 else 0
  {
  }

  /** `pcBuf` holds the text written so far; writes past its end are counted and make the result None. */
  ghost predicate Holds(pcBuf: array<char>, ulPos: nat, text: string)
    reads pcBuf
  {
    pcBuf.Length == PC_BUF && ulPos == |text| && (ulPos <= PC_BUF ==> pcBuf[..ulPos] == text)
  }

  method Put(pcBuf: array<char>, ulPos: nat, c: char, ghost text: string) returns (pos: nat)
    requires Holds(pcBuf, ulPos, text)
    modifies pcBuf
    ensures Holds(pcBuf, pos, text + [c])
  {
    if ulPos < PC_BUF {
      pcBuf[ulPos] := c;
    }
    pos := ulPos + 1;
  }

  method PutFill(pcBuf: array<char>, ulPos: nat, cFill: char, count: nat, ghost text: string) returns (pos: nat)
    requires Holds(pcBuf, ulPos, text)
    modifies pcBuf
    ensures Holds(pcBuf, pos, text + Repeat(cFill, count))
  {
    pos := ulPos;
    assert text + "" == text;
    for i := 0 to count
      invariant Holds(pcBuf, pos, text + Repeat(cFill, i))
    {
      pos := Put(pcBuf, pos, cFill, text + Repeat(cFill, i));
      assert text + Repeat(cFill, i) + [cFill] == text + Repeat(cFill, i + 1);
    }
  }

  /** The digits, from the largest weight down. */
  method PutDigits(pcBuf: array<char>, ulPos: nat, value: nat, base: nat, weight: nat, ghost text: string) returns (pos: nat)
    requires Holds(pcBuf, ulPos, text) && base in {10, 16}
    requires weight == Power(base, |Digits(value, base)| - 1)
    modifies pcBuf
    ensures Holds(pcBuf, pos, text + Digits(value, base))
  {
    pos := ulPos;
    ghost var s := Digits(value, base);
    ghost var done: nat := 0;
    var ulIdx := weight;
    PowerPositive(base, |s| - 1);
    assert text + s[..0] == text;
    while ulIdx > 0
      invariant done <= |s| && ulIdx == (if done == |s| then 0 else Power(base, |s| - 1 - done))
      invariant done < |s| ==> ulIdx > 0
      invariant Holds(pcBuf, pos, text + s[..done])
      decreases |s| - done
    {
      DigitAt(value, base, |s| - 1 - done);
      pos := Put(pcBuf, pos, HEX[value / ulIdx % base], text + s[..done]);
      assert text + s[..done] + [s[done]] == text + s[..done + 1];
      LowerWeight(base, |s| - 1 - done);
      done := done + 1;
      ulIdx := ulIdx / base;
    }
    assert s[..|s|] == s;
  }

  lemma LowerWeight(base: nat, k: nat)
    requires base in {10, 16}
    ensures Power(base, k) / base == (if k == 0 then 0 else Power(base, k - 1))
    ensures Power(base, k) > 0 && (k > 0 ==> Power(base, k - 1) > 0)
  {
    PowerPositive(base, k);
    if k > 0 {
      PowerPositive(base, k - 1);
      DivUnique(Power(base, k), base, Power(base, k - 1), 0);
    } else {
      assert 1 / base == 0;
    }
  }

  /** How many fill characters the count that is left asks for. */
  method PadCount(ulCount: nat, negative: bool, ghost width: nat, ghost digits: nat) returns (count: nat)
    requires 1 <= digits <= 10 && width < WORD && ulCount == Wrapped(width - (digits - 1))
    ensures count == Padding(width, |Sign(negative)| + digits)
  {
    count := ulCount;
    if negative {
      WrappedLess(width - (digits - 1));
      count := Wrapped(count - 1);
    }
    PaddingLeft(width, |Sign(negative)| + digits);
    count := if 1 < count < 16 then count - 1 else 0;
  }

  /** The conversion of a number: what ends up in `pcBuf`. */
  method Convert(value: nat, base: nat, negative: bool, width: nat, cFill: char) returns (r: Option<string>)
    requires value < WORD && base in {10, 16} && width < WORD
    ensures r == Justified(Sign(negative), Digits(value, base), cFill, width)
  {
    var pcBuf := new char[PC_BUF](_ => '\0');
    ghost var digits, sign := Digits(value, base), Sign(negative);
    ShortWord(value, base);
    var ulIdx, ulCount := Weight(value, base, width);
    var count := PadCount(ulCount, negative, width, |digits|);
    var ulPos := PutPadded(pcBuf, negative, cFill, count);
    ulPos := PutDigits(pcBuf, ulPos, value, base, ulIdx, Padded(negative, cFill, count));
    assert ulPos == |sign| + count + |digits|;
    if ulPos > PC_BUF {
      return None;
    }
    r := Some(pcBuf[..ulPos]);
  }

  /** Sign and padding. */
  ghost function Padded(negative: bool, fill: char, count: nat): string {
    (if fill == '0' then Sign(negative) else "") + Repeat(fill, count) + (if fill == '0' then "" else Sign(negative))
  }

  method PutPadded(pcBuf: array<char>, negative: bool, cFill: char, count: nat) returns (ulPos: nat)
    requires pcBuf.Length == PC_BUF
    modifies pcBuf
    ensures Holds(pcBuf, ulPos, Padded(negative, cFill, count))
  {
    ulPos := 0;
    ghost var text := "";
    if negative && cFill == '0' {
      ulPos := Put(pcBuf, ulPos, '-', text);
      text := text + "-";
    }
    ulPos := PutFill(pcBuf, ulPos, cFill, count, text);
    text := text + Repeat(cFill, count);
    assert text + "" == text;
    if negative && cFill != '0' {
      ulPos := Put(pcBuf, ulPos, '-', text);
    }
  }
}
