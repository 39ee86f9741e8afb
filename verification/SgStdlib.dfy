/** sg_atoi of sg_stdlib.c: a decimal number read from its right end. */
module SgStdlib {
  import opened Common
  import opened Numerals

  /** Results from here on do not fit an `int`; computing them is undefined in C. */
  const INT_LIMIT: int := 0x8000_0000

  function WithSign(negative: bool, n: int): int {
    if negative then -n else n
  }

  /** The scan of what is left of the text, after `count` digits worth `result`. None is a signed overflow. */
  function Scan(s: string, count: nat, result: nat, negative: bool): Option<int>
    decreases |s|
  {
    if s == "" then Some(WithSign(negative, result))
    else
      var c, left := s[|s| - 1], s[..|s| - 1];
      if c == ' ' then if count == 0 then Scan(left, count, result, negative) else Some(WithSign(negative, result))
      else if c == '-' then Scan(left, count, result, negative || count > 0)
      else if !IsDigit(c) then Some(0)
      else if Power(10, count) >= INT_LIMIT || result + Power(10, count) * DigitValue(c) >= INT_LIMIT then None
      else Scan(left, count + 1, result + Power(10, count) * DigitValue(c), negative)
  }

  function AtoiOf(s: string): Option<int> {
    Scan(s, 0, 0, false)
  }

  method Atoi(buf: string) returns (r: Option<int>)
    ensures r == AtoiOf(buf)
  {
    var someNumberParsed, negative := false, false;
    var result: nat, count: nat := 0, 0;
    var i := |buf| - 1;
    assert buf[..|buf|] == buf;
    while i >= 0
      invariant -1 <= i < |buf| && (someNumberParsed <==> count > 0)
      invariant AtoiOf(buf) == Scan(buf[..i + 1], count, result, negative)
      decreases i
    {
      var c := buf[i];
      assert buf[..i + 1][..i] == buf[..i];
      i := i - 1;
      if c == ' ' {
        if someNumberParsed {
          return Some(WithSign(negative, result));
        }
      } else if c == '-' {
        if someNumberParsed {
          negative := true;
        }
      } else if !IsDigit(c) {
        return Some(0);
      } else {
        someNumberParsed := true;
        var base := 1;
        for k := 0 to count
          invariant base == Power(10, k)
        {
          base := base * 10;
        }
        if base >= INT_LIMIT || result + base * DigitValue(c) >= INT_LIMIT {
          return None;
        }
        result := result + base * DigitValue(c);
        count := count + 1;
      }
    }
    r := Some(WithSign(negative, result));
  }

  // ---- Which numbers are read ----

  function Repeat(c: char, n: nat): (s: string)
    ensures |s| == n
  {
    if n == 0 then "" else Repeat(c, n - 1) + [c]
  }

  lemma LastOf(s: string, t: string, c: char)
    ensures var u := s + (t + [c]);
            u != "" && u[|u| - 1] == c && u[..|u| - 1] == s + t
  {
  }

  lemma {:induction false} BlanksSkipped(s: string, blanks: nat)
    ensures Scan(s + Repeat(' ', blanks), 0, 0, false) == Scan(s, 0, 0, false)
  {
    if blanks == 0 {
      assert s + "" == s;
    } else {
      LastOf(s, Repeat(' ', blanks - 1), ' ');
      BlanksSkipped(s, blanks - 1);
    }
  }

  lemma {:induction false} MinusesRead(s: string, minuses: nat, count: nat, result: nat, negative: bool)
    requires count > 0
    ensures Scan(s + Repeat('-', minuses), count, result, negative) == Scan(s, count, result, negative || minuses > 0)
  {
    if minuses == 0 {
      assert s + "" == s;
    } else {
      LastOf(s, Repeat('-', minuses - 1), '-');
      MinusesRead(s, minuses - 1, count, result, true);
    }
  }

  lemma TenPowers(k: nat)
    requires k <= 10
    ensures Power(10, k) < INT_LIMIT <==> k < 10
    ensures Power(10, k + 1) == 10 * Power(10, k)
  {
    assert Power(10, 3) == 1000;
    assert Power(10, 6) == 1000 * Power(10, 3);
    assert Power(10, 9) == 1000 * Power(10, 6);
    assert Power(10, 10) == 10 * Power(10, 9);
    SmallPowers(k);
  }

  lemma SmallPowers(k: nat)
    ensures k <= 9 ==> Power(10, k) <= Power(10, 9)
    decreases 9 - k
  {
    if k < 9 {
      SmallPowers(k + 1);
    }
  }

  /** Reading digits adds their number, as long as there are at most ten of them and the sum fits an int. */
  lemma {:induction false} DigitsRead(s: string, d: string, count: nat, result: nat, negative: bool)
    requires AllDigits(d) && count <= 10 && result < INT_LIMIT
    ensures Scan(s + d, count, result, negative) == AfterDigits(s, |d|, Number(d), count, result, negative)
    decreases |d|
  {
    if d == "" {
      assert s + d == s;
    } else {
      var front, c := d[..|d| - 1], d[|d| - 1];
      assert d == front + [c];
      assert c in d;
      LastOf(s, front, c);
      TenPowers(count);
      var sum := result + Power(10, count) * DigitValue(c);
      if count < 10 && sum < INT_LIMIT {
        DigitsRead(s, front, count + 1, sum, negative);
      }
      OneMoreDigit(s, |front|, Number(front), DigitValue(c), count, result, negative);
    }
  }

  function AfterDigits(s: string, length: nat, number: nat, count: nat, result: nat, negative: bool): Option<int> {
    var sum := result + Power(10, count) * number;
    if count + length <= 10 && sum < INT_LIMIT then Scan(s, count + length, sum, negative) else None
  }

  lemma OneMoreDigit(s: string, length: nat, high: nat, low: nat, count: nat, result: nat, negative: bool)
    requires count <= 10
    ensures var sum := result + Power(10, count) * low;
            AfterDigits(s, length + 1, 10 * high + low, count, result, negative)
            == if count < 10 && sum < INT_LIMIT then AfterDigits(s, length, high, count + 1, sum, negative) else None
  {
    TenPowers(count);
    Columns(result, Power(10, count), low, high);
  }

  lemma Columns(result: nat, p: nat, low: nat, high: nat)
    ensures result + p * (10 * high + low) == result + p * low + 10 * p * high
    ensures result + p * (10 * high + low) >= result + p * low
  {
    assert p * (10 * high + low) == p * low + 10 * p * high;
  }

  /** What comes out of text whose last word is a number: anything before a blank is ignored, one minus sign or more makes
      it negative, blanks behind it are skipped. It is read exactly when it has at most ten digits and fits an int. */
  lemma AtoiReads(front: string, minuses: nat, digits: string, blanks: nat)
    requires front == "" || front[|front| - 1] == ' '
    requires digits != "" && AllDigits(digits)
    ensures AtoiOf(front + Repeat('-', minuses) + digits + Repeat(' ', blanks))
         == if |digits| <= 10 && Number(digits) < INT_LIMIT then Some(WithSign(minuses > 0, Number(digits))) else None
  {
    var signed := front + Repeat('-', minuses);
    BlanksSkipped(signed + digits, blanks);
    DigitsRead(signed, digits, 0, 0, false);
    assert Power(10, 0) * Number(digits) == Number(digits);
    MinusesRead(front, minuses, |digits|, Number(digits), false);
  }

  /** The usual decimal form of an integer. */
  function Decimal(n: int): string {
    if n < 0 then "-" + Digits(-n, 10) else Digits(n, 10)
  }

  /** Printing and reading back are inverse exactly for the integers whose absolute value fits an int. */
  lemma AtoiOfDecimal(n: int)
    ensures AtoiOf(Decimal(n)) == Some(n) <==> -INT_LIMIT < n < INT_LIMIT
  {
    var magnitude: nat := if n < 0 then -n else n;
    var digits, minuses := Digits(magnitude, 10), if n < 0 then 1 else 0;
    NumberOfDigits(magnitude);
    AtoiReads("", minuses, digits, 0);
    assert Repeat('-', 1) == "-" by {
      assert Repeat('-', 0) == "";
    }
    assert "" + Repeat('-', minuses) + digits + "" == Decimal(n);
    if magnitude < INT_LIMIT {
      ShortNumber(magnitude);
    }
  }

  lemma ShortNumber(n: nat)
    requires n < INT_LIMIT
    ensures |Digits(n, 10)| <= 10
  {
    var k := |Digits(n, 10)|;
    DigitsLength(n, 10);
    if k > 10 {
      PowerMonotone(10, k - 1);
      TenPowers(10);
    }
  }

  lemma {:induction false} PowerMonotone(low: nat, high: nat)
    requires low <= high
    ensures 0 < Power(10, low) <= Power(10, high)
    decreases high
  {
    if low < high {
      PowerMonotone(low, high - 1);
    } else if low > 0 {
      PowerMonotone(low - 1, low - 1);
    }
  }
}
