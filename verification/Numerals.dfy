/** Numbers in positional notation, as the printer and the parser of the driver's own C library use them. */
module Numerals {

  /** `g_pcHex` */
  const HEX: string := "0123456789abcdef"

  /** The digits of `n`, most significant first; zero has one digit. */
  function Digits(n: nat, base: nat): (s: string)
    requires 2 <= base <= 16
    ensures s != ""
    decreases n
  {
    if n < base then [HEX[n]]
    else
      QuotientSmaller(n, base);
      Digits(n / base, base) + [HEX[n % base]]
  }

  lemma MulAtMost(a: nat, b: nat, c: nat)
    requires a <= b
    ensures a * c <= b * c && c * a <= c * b
  {
  }

  lemma QuotientSmaller(n: nat, base: nat)
    requires 2 <= base <= n
    ensures 0 < n / base < n && n == base * (n / base) + n % base
  {
    MulAtMost(2, base, n / base);
  }

  function Power(base: nat, k: nat): nat {
    if k == 0 then 1 else base * Power(base, k - 1)
  }

  lemma PowerPositive(base: nat, k: nat)
    requires base > 0
    ensures Power(base, k) > 0
  {
    if k > 0 {
      PowerPositive(base, k - 1);
    }
  }

  predicate IsDigit(c: char) {
    '0' <= c <= '9'
  }

  predicate AllDigits(s: string) {
    forall c :: c in s ==> IsDigit(c)
  }

  function DigitValue(c: char): nat
    requires IsDigit(c)
  {
    c as int - '0' as int
  }

  /** The number a string of decimal digits stands for. */
  function Number(s: string): nat
    requires AllDigits(s)
  {
    if s == "" then 0 else 10 * Number(s[..|s| - 1]) + DigitValue(s[|s| - 1])
  }

  lemma HexDigit(d: nat)
    requires d < 10
    ensures IsDigit(HEX[d]) && DigitValue(HEX[d]) == d
  {
  }

  /** Printing in base ten and reading back are inverse. */
  lemma {:induction false} NumberOfDigits(n: nat)
    ensures AllDigits(Digits(n, 10)) && Number(Digits(n, 10)) == n
    decreases n
  {
    HexDigit(n % 10);
    var s := Digits(n, 10);
    if n < 10 {
      assert s[..0] == "" && Number("") == 0;
    } else {
      NumberOfDigits(n / 10);
      assert s[..|s| - 1] == Digits(n / 10, 10);
    }
  }

  predicate IsHexDigit(c: char) {
    '0' <= c <= '9' || 'a' <= c <= 'f'
  }

  function HexDigitValue(c: char): nat
    requires IsHexDigit(c)
  {
    if c <= '9' then c as int - '0' as int else 10 + (c as int - 'a' as int)
  }

  /** The number that digits of the base stand for. */
  function HexNumber(s: string, base: nat): nat
    requires forall c :: c in s ==> IsHexDigit(c)
  {
    if s == "" then 0 else base * HexNumber(s[..|s| - 1], base) + HexDigitValue(s[|s| - 1])
  }

  lemma HexDigitRead(d: nat)
    requires d < 16
    ensures IsHexDigit(HEX[d]) && HexDigitValue(HEX[d]) == d && (HEX[d] == '0' <==> d == 0)
  {
  }

  /** The letters are digits of the base, without a zero in front but that of zero itself. */
  predicate StandsFor(s: string, base: nat, n: nat) {
    && s != "" && (s[0] == '0' <==> n == 0)
    && (forall c :: c in s ==> IsHexDigit(c) && HexDigitValue(c) < base)
    && HexNumber(s, base) == n
  }

  lemma OneDigitStands(d: nat, base: nat)
    requires d < base <= 16
    ensures StandsFor([HEX[d]], base, d)
  {
    HexDigitRead(d);
    assert [HEX[d]][..0] == "" && base * HexNumber("", base) == 0;
  }

  lemma OneMoreStands(s: string, base: nat, m: nat, d: nat)
    requires StandsFor(s, base, m) && m > 0 && d < base <= 16
    ensures StandsFor(s + [HEX[d]], base, base * m + d)
  {
    HexDigitRead(d);
    assert (s + [HEX[d]])[..|s|] == s;
    MulAtMost(1, m, base);
  }

  /** Printing in any base. */
  lemma {:induction false} DigitsMean(n: nat, base: nat)
    requires 2 <= base <= 16
    ensures StandsFor(Digits(n, base), base, n)
    decreases n
  {
    if n < base {
      OneDigitStands(n, base);
    } else {
      QuotientSmaller(n, base);
      DigitsMean(n / base, base);
      OneMoreStands(Digits(n / base, base), base, n / base, n % base);
    }
  }

  lemma DivUnique(n: nat, d: nat, q: nat, r: nat)
    requires d > 0 && n == d * q + r && r < d
    ensures n / d == q
  {
    var x, m := n / d, n % d;
    assert n == d * x + m;
    MulStep(d, x);
    MulStep(d, q);
    if x < q {
      MulAtMost(x + 1, q, d);
      assert false;
    }
    if q < x {
      MulAtMost(q + 1, x, d);
      assert false;
    }
  }

  lemma MulStep(d: nat, x: nat)
    ensures d * (x + 1) == d * x + d
  {
  }

  lemma Regroup(p: nat, base: nat, q: nat, s: nat)
    ensures p * (base * q + s) == (base * p) * q + p * s
  {
    assert p * (base * q + s) == p * (base * q) + p * s;
    assert p * (base * q) == (base * p) * q;
  }

  lemma RemainderFits(p: nat, base: nat, s: nat, r: nat)
    requires s < base && r < p
    ensures p * s + r < base * p && base * p > 0
  {
    MulAtMost(s + 1, base, p);
    assert p * s + p == (s + 1) * p;
  }

  /** Dividing twice is dividing by the product. */
  lemma DivDiv(n: nat, p: nat, base: nat)
    requires p > 0 && base > 0
    ensures base * p > 0 && n / p / base == n / (base * p)
  {
    var a, r := n / p, n % p;
    var q, s := a / base, a % base;
    assert n == p * a + r;
    assert a == base * q + s;
    Regroup(p, base, q, s);
    RemainderFits(p, base, s, r);
    DivUnique(n, base * p, q, p * s + r);
  }

  /** How many digits there are: the largest power of the base that is not above `n` has one less. */
  lemma {:induction false} DigitsLength(n: nat, base: nat)
    requires 2 <= base <= 16
    ensures n < Power(base, |Digits(n, base)|)
    ensures |Digits(n, base)| > 1 ==> Power(base, |Digits(n, base)| - 1) <= n
    decreases n
  {
    if n < base {
      assert Power(base, 1) == base * Power(base, 0);
    } else {
      var m, r, k := n / base, n % base, |Digits(n / base, base)|;
      QuotientSmaller(n, base);
      DigitsLength(m, base);
      assert |Digits(n, base)| == k + 1;
      OneDigitMore(n, base, m, r, k);
    }
  }

  lemma OneDigitMore(n: nat, base: nat, m: nat, r: nat, k: nat)
    requires 2 <= base <= 16 && n == base * m + r && r < base && m > 0 && k > 0
    requires m < Power(base, k) && (k > 1 ==> Power(base, k - 1) <= m)
    ensures n < Power(base, k + 1) && Power(base, k) <= n
  {
    MulAtMost(m + 1, Power(base, k), base);
    assert base * (m + 1) == base * m + base;
    if k == 1 {
      assert Power(base, 1) == base * Power(base, 0);
      MulAtMost(1, m, base);
    } else {
      MulAtMost(Power(base, k - 1), m, base);
    }
  }

  /** The digit of weight base^k. */
  lemma {:induction false} DigitAt(n: nat, base: nat, k: nat)
    requires 2 <= base <= 16 && k < |Digits(n, base)|
    ensures Power(base, k) > 0
    ensures Digits(n, base)[|Digits(n, base)| - 1 - k] == HEX[(n / Power(base, k)) % base]
    decreases k
  {
    PowerPositive(base, k);
    if k == 0 {
      assert n / 1 == n;
    } else {
      QuotientSmaller(n, base);
      DigitAt(n / base, base, k - 1);
      DivDiv(n, base, Power(base, k - 1));
      PowerSwap(base, k);
    }
  }

  lemma PowerSwap(base: nat, k: nat)
    requires k > 0
    ensures Power(base, k) == Power(base, k - 1) * base
  {
  }
}
