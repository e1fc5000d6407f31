/** Decimal text of a counter or a length, as `format!("{}", n)` prints it. */
module Decimal {

  predicate IsDigit(c: char) { '0' <= c <= '9' }

  predicate AllDigits(s: string) { forall i :: 0 <= i < |s| ==> IsDigit(s[i]) }

  function DigitChar(d: nat): (c: char)
    requires d < 10
    ensures IsDigit(c) && DigitValue(c) == d
  {
    '0' + d as char
  }

  function DigitValue(c: char): nat
    requires IsDigit(c)
  {
    c as int - '0' as int
  }

  function Format(n: nat): (s: string)
    ensures |s| > 0 && AllDigits(s)
  {
    if n < 10 then [DigitChar(n)] else Format(n / 10) + [DigitChar(n % 10)]
  }

  /** Value of a digit string, most significant digit first. */
  function Parse(s: string): nat
    requires AllDigits(s)
  {
    if s == [] then 0 else Parse(s[..|s| - 1]) * 10 + DigitValue(s[|s| - 1])
  }

  lemma {:induction false} ParseFormat(n: nat)
    ensures Parse(Format(n)) == n
  {
    if n >= 10 {
      ParseFormat(n / 10);
      var s := Format(n);
      assert s[..|s| - 1] == Format(n / 10);
    }
  }

  lemma FormatInjective(m: nat, n: nat)
    requires Format(m) == Format(n)
    ensures m == n
  {
    ParseFormat(m);
    ParseFormat(n);
  }

  function Pow10(k: nat): (p: nat)
    ensures p > 0
  {
    if k == 0 then 1 else 10 * Pow10(k - 1)
  }

  lemma NoSmallMultiple(b: int, d: int)
    requires b > 0 && -b < b * d < b
    ensures d == 0
  {
  }

  lemma QuotientIs(a: nat, b: nat, q: nat, r: nat)
    requires b > 0 && a == b * q + r && r < b
    ensures a / b == q
  {
    assert a == b * (a / b) + a % b;
    assert b * (a / b - q) == b * (a / b) - b * q;
    NoSmallMultiple(b, a / b - q);
  }

  lemma DivideTwice(n: nat, p: nat)
    requires p > 0
    ensures n / 10 / p == n / (10 * p)
  {
    var q := n / 10;
    var k, m := q / p, q % p;
    assert q == p * k + m;
    assert n == 10 * p * k + (10 * m + n % 10);
    QuotientIs(n, 10 * p, k, 10 * m + n % 10);
  }

  /** Digit `i` of the text, counted from the left, is that digit of the number. */
  lemma {:induction false} FormatDigits(n: nat, i: nat)
    requires i < |Format(n)|
    ensures Format(n)[i] as int == '0' as int + n / Pow10(|Format(n)| - 1 - i) % 10
  {
    if n >= 10 && i < |Format(n)| - 1 {
      FormatDigits(n / 10, i);
      DivideTwice(n, Pow10(|Format(n)| - 2 - i));
    }
  }

  /** The text has as many digits as the number: no zero in front. */
  lemma {:induction false} FormatLength(n: nat)
    ensures n < Pow10(|Format(n)|) && (n > 0 ==> Pow10(|Format(n)| - 1) <= n)
  {
    if n >= 10 { FormatLength(n / 10); }
  }

  /** Index of the first colon, or the length when there is none. */
  function ColonAt(s: string): nat {
    if s == "" || s[0] == ':' then 0 else 1 + ColonAt(s[1..])
  }

  lemma {:induction false} DigitsBeforeColon(a: string, x: string)
    requires AllDigits(a)
    ensures ColonAt(a + ":" + x) == |a|
  {
    if a == "" {
      assert (a + ":" + x)[0] == ':';
    } else {
      assert (a + ":" + x)[1..] == a[1..] + ":" + x;
      DigitsBeforeColon(a[1..], x);
    }
  }

  /** A digit run is recovered uniquely when a colon ends it. */
  lemma ColonEndsDigits(a: string, x: string, b: string, y: string)
    requires AllDigits(a) && AllDigits(b)
    requires a + ":" + x == b + ":" + y
    ensures a == b && x == y
  {
    var s, t := a + ":" + x, b + ":" + y;
    DigitsBeforeColon(a, x);
    DigitsBeforeColon(b, y);
    assert a == s[..|a|] && b == t[..|b|];
    assert x == s[|a| + 1..] && y == t[|b| + 1..];
  }
}
