/** Text forms of numbers: std::to_string of an unsigned integer and of a double. */
module Decimal {
  const MICRO := 1000000

  function Digit(d: nat): char
    requires d < 10
  {
    ('0' as int + d) as char
  }

  predicate IsDigit(c: char) {
    '0' <= c <= '9'
  }

  function Print(n: nat): string {
    if n < 10 then [Digit(n)] else Print(n / 10) + [Digit(n % 10)]
  }

  predicate AllDigits(s: string) {
    forall i :: 0 <= i < |s| ==> IsDigit(s[i])
  }

  function Parse(s: string): nat
    requires AllDigits(s)
  {
    if s == "" then 0 else 10 * Parse(s[..|s| - 1]) + (s[|s| - 1] as int - '0' as int)
  }

  /** Reading back a printed number gives the number. */
  lemma {:induction false} PrintParses(n: nat)
    ensures AllDigits(Print(n)) && Print(n) != ""
    ensures Parse(Print(n)) == n
  {
    if n < 10 {
      assert Parse([Digit(n)][..0]) == 0;
    } else {
      PrintParses(n / 10);
      assert Print(n)[..|Print(n)| - 1] == Print(n / 10);
    }
  }

  lemma PrintInjective(a: nat, b: nat)
    requires Print(a) == Print(b)
    ensures a == b
  {
    PrintParses(a);
    PrintParses(b);
  }

  /** Conversely, a text of digits that does not begin with a zero is the print of the number read from it. */
  lemma {:induction false} ParsePrints(s: string)
    requires s != "" && AllDigits(s) && s[0] != '0'
    ensures Parse(s) > 0 && Print(Parse(s)) == s
  {
    var n := |s| - 1;
    if n == 0 {
      assert Parse(s[..0]) == 0 && s == [s[0]];
    } else {
      ParsePrints(s[..n]);
      PrintSnoc(Parse(s[..n]), s[n] as int - '0' as int);
      assert s == s[..n] + [s[n]];
    }
  }

  lemma PrintSnoc(p: nat, d: nat)
    requires p > 0 && d < 10
    ensures Print(10 * p + d) == Print(p) + [Digit(d)]
  {}

  lemma {:induction false} PrintLeads(n: nat)
    requires n > 0
    ensures Print(n)[0] != '0'
  {
    if n >= 10 {
      PrintLeads(n / 10);
    }
  }

  /** Nearest integer, exact halves to the even neighbour. */
  function Round(x: real): int {
    var f := x.Floor;
    var d := x - f as real;
    if d < 0.5 then f else if d > 0.5 then f + 1 else if f % 2 == 0 then f else f + 1
  }

  lemma RoundIsNearest(x: real)
    ensures -0.5 <= Round(x) as real - x <= 0.5
    ensures Round(x) as real - x == 0.5 || Round(x) as real - x == -0.5 ==> Round(x) % 2 == 0
  {}

  function Micros(t: real): int {
    Round(t * MICRO as real)
  }

  function Abs(x: int): nat {
    if x < 0 then -x else x
  }

  function Pow10(w: nat): (p: nat)
    ensures p >= 1
  {
    if w == 0 then 1 else 10 * Pow10(w - 1)
  }

  const DIGITS: string := "0123456789"

  lemma DigitIs(d: nat)
    requires d < 10
    ensures Digit(d) == DIGITS[d]
  {}

  /** Dropping one digit and then i more is dropping 1 + i. */
  lemma DivDiv(n: nat, p: nat)
    requires p >= 1
    ensures n / (10 * p) == n / 10 / p
  {
    var q := n / 10 / p;
    assert n / 10 == q * p + n / 10 % p;
    assert n == q * (10 * p) + (10 * (n / 10 % p) + n % 10);
    DivUnique(n, 10 * p, q, 10 * (n / 10 % p) + n % 10);
  }

  lemma DivUnique(n: nat, m: nat, q: nat, r: nat)
    requires m >= 1 && n == q * m + r && r < m
    ensures n / m == q
  {
    var d := n / m - q;
    assert n % m == r - d * m;
    assert d >= 1 ==> d * m >= m;
    assert d <= -1 ==> d * m <= 0 - m;
  }

  /** The i-th character of a printed number from the right, i from 0, is its decimal digit of weight 10^i. */
  lemma {:induction false} PrintDigitAt(n: nat, i: nat)
    requires i < |Print(n)|
    ensures Print(n)[|Print(n)| - 1 - i] == DIGITS[n / Pow10(i) % 10]
  {
    DigitIs(n % 10);
    if n >= 10 && i > 0 {
      PrintDigitAt(n / 10, i - 1);
      DivDiv(n, Pow10(i - 1));
    }
  }

  /** A number of w digits. */
  lemma {:induction false} PrintLength(n: nat, w: nat)
    requires w >= 1 && n < Pow10(w) && (w == 1 || n >= Pow10(w - 1))
    ensures |Print(n)| == w
  {
    if w > 1 {
      PrintLength(n / 10, w - 1);
    }
  }

  /** The last w decimal digits of x. */
  function Padded(x: nat, w: nat): (s: string)
    ensures |s| == w && AllDigits(s)
  {
    if w == 0 then "" else Padded(x / 10, w - 1) + [Digit(x % 10)]
  }

  /** So are those of a padded one. */
  lemma {:induction false} PaddedDigitAt(x: nat, w: nat, i: nat)
    requires i < w
    ensures Padded(x, w)[w - 1 - i] == DIGITS[x / Pow10(i) % 10]
  {
    DigitIs(x % 10);
    if i > 0 {
      PaddedDigitAt(x / 10, w - 1, i - 1);
      DivDiv(x, Pow10(i - 1));
    }
  }

  lemma {:induction false} PaddedInjective(x: nat, y: nat, w: nat)
    requires x < Pow10(w) && y < Pow10(w) && Padded(x, w) == Padded(y, w)
    ensures x == y
  {
    if w > 0 {
      assert Padded(x, w)[..w - 1] == Padded(x / 10, w - 1);
      assert Padded(y, w)[..w - 1] == Padded(y / 10, w - 1);
      assert Padded(x, w)[w - 1] == Padded(y, w)[w - 1];
      PaddedInjective(x / 10, y / 10, w - 1);
    }
  }

  /** The point and the six decimals of a number of microseconds. */
  function Decimals(m: nat): (s: string)
    ensures |s| == 7
  {
    "." + Padded(m % MICRO, 6)
  }

  function PrintMicros(m: nat): string {
    Print(m / MICRO) + Decimals(m)
  }

  /** The "%f" form of a double: sign, integer part, point, six decimals. */
  function PrintReal(t: real): string {
    if t < 0.0 then "-" + PrintMicros(Abs(Micros(t))) else PrintMicros(Abs(Micros(t)))
  }

  /** The text of an instant, character by character: sign, whole seconds, point, microseconds. */
  lemma PrintRealIs(t: real)
    ensures var m := Abs(Round(t * 1000000.0));
      && PrintReal(t) == (if t < 0.0 then "-" else "") + Print(m / 1000000) + "." + Padded(m % 1000000, 6)
  {
    var m := Abs(Round(t * 1000000.0));
    assert Micros(t) == Round(t * 1000000.0);
    assert Print(m / 1000000) + "." + Padded(m % 1000000, 6) == PrintMicros(m);
  }

  predicate IsTimeChar(c: char) {
    IsDigit(c) || c == '.'
  }

  lemma NonNegativeText(t: real)
    requires t >= 0.0
    ensures Micros(t) >= 0 && PrintReal(t) == PrintMicros(Micros(t))
    ensures PrintReal(t) != "" && forall i :: 0 <= i < |PrintReal(t)| ==> IsTimeChar(PrintReal(t)[i])
  {
    PrintParses(Micros(t) / MICRO);
  }

  lemma PrintMicrosInjective(a: nat, b: nat)
    requires PrintMicros(a) == PrintMicros(b)
    ensures a == b
  {
    var s, t := PrintMicros(a), PrintMicros(b);
    var n := |s|;
    assert s[n - 6..] == Padded(a % MICRO, 6) && t[n - 6..] == Padded(b % MICRO, 6);
    assert s[..n - 7] == Print(a / MICRO) && t[..n - 7] == Print(b / MICRO);
    assert Pow10(6) == MICRO;
    PaddedInjective(a % MICRO, b % MICRO, 6);
    PrintInjective(a / MICRO, b / MICRO);
  }

  /** A second apart is more than a microsecond apart. */
  lemma MicrosGrow(s: real, t: real)
    requires s + 1.0 <= t
    ensures Micros(s) < Micros(t)
  {
    var x, y := s * MICRO as real, t * MICRO as real;
    assert x + 1000000.0 <= y;
    assert x.Floor as real <= x && y < y.Floor as real + 1.0;
  }

  /** Every number of microseconds is the rounded form of some instant. */
  lemma MicrosOf(m: nat)
    ensures var t := m as real / MICRO as real; t >= 0.0 && Micros(t) == m && PrintReal(t) == PrintMicros(m)
  {
    var t := m as real / MICRO as real;
    assert t * MICRO as real == m as real;
  }

  /** The instant whose text is the given digits, read as seconds, followed by the decimals of m. */
  function Prefixed(digits: string, m: nat): nat
    requires AllDigits(digits)
  {
    Parse(digits) * MICRO + m % MICRO
  }

  lemma PrefixedText(digits: string, m: nat)
    requires digits != "" && AllDigits(digits) && digits[0] != '0'
    ensures PrintMicros(Prefixed(digits, m)) == digits + Decimals(m)
  {
    ParsePrints(digits);
    var n := Prefixed(digits, m);
    assert n / MICRO == Parse(digits) && n % MICRO == m % MICRO;
  }

  lemma PrefixedReal(digits: string, m: nat)
    requires digits != "" && AllDigits(digits) && digits[0] != '0'
    ensures var t := Prefixed(digits, m) as real / MICRO as real;
      t >= 0.0 && PrintReal(t) == digits + Decimals(m)
  {
    PrefixedText(digits, m);
    MicrosOf(Prefixed(digits, m));
  }

  /** What is left of m microseconds when all but the last digit of the seconds are cut off. */
  function WithoutFront(m: nat): nat {
    m / MICRO % 10 * MICRO + m % MICRO
  }

  lemma LastSecondsDigit(m: nat)
    requires m >= 10 * MICRO
    ensures Print(m / MICRO) == Print(m / MICRO / 10) + [Digit(m / MICRO % 10)]
    ensures var t := WithoutFront(m) as real / MICRO as real;
      t >= 0.0 && PrintReal(t) == [Digit(m / MICRO % 10)] + Decimals(m)
  {
    var d, rest := m / MICRO % 10, WithoutFront(m);
    assert rest / MICRO == d && rest % MICRO == m % MICRO;
    assert Print(d) == [Digit(d)];
    MicrosOf(rest);
  }

  /** Two instants print alike only if they round to the same microsecond. */
  lemma PrintRealInjective(s: real, t: real)
    requires s >= 0.0 && t >= 0.0 && PrintReal(s) == PrintReal(t)
    ensures Micros(s) == Micros(t)
  {
    NonNegativeText(s);
    NonNegativeText(t);
    PrintMicrosInjective(Micros(s), Micros(t));
  }
}
