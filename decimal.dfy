/** Decimal rendering of whole numbers, as JavaScript's `String(n)` / `n + ""` writes an
    integral Number, and its inverse for digit strings. */
module Decimal {

  predicate IsDigit(ch: char)
  {
    '0' <= ch <= '9'
  }

  predicate AllDigits(s: string)
  {
    forall i :: 0 <= i < |s| ==> IsDigit(s[i])
  }

  function DigitChar(d: nat): (ch: char)
    requires d < 10
    ensures IsDigit(ch) && ch as int - '0' as int == d
  {
    ('0' as int + d) as char
  }

  /** The shortest decimal numeral of `n`: no leading zeros, "0" for zero. */
  function NatDecimal(n: nat): (s: string)
    ensures |s| > 0 && AllDigits(s)
    ensures s[0] == '0' ==> n == 0
    decreases n
  {
    if n < 10 then [DigitChar(n)] else NatDecimal(n / 10) + [DigitChar(n % 10)]
  }

  /** The decimal numeral of an integer, with a leading '-' for negative values. */
  function IntDecimal(n: int): (s: string)
    ensures |s| > 0
    ensures s[0] == '-' <==> n < 0
    ensures n < 0 ==> AllDigits(s[1..])
    ensures n >= 0 ==> AllDigits(s)
  {
    if n < 0 then "-" + NatDecimal(-n) else NatDecimal(n)
  }

  /** The value a digit string denotes. */
  function DigitsValue(s: string): nat
    requires AllDigits(s)
  {
    if s == [] then 0 else 10 * DigitsValue(s[..|s| - 1]) + (s[|s| - 1] as int - '0' as int)
  }

  /** Reading back the numeral gives the number: the rendering loses nothing. */
  lemma {:induction false} NatDecimalRoundTrip(n: nat)
    ensures DigitsValue(NatDecimal(n)) == n
    decreases n
  {
    if n >= 10 {
      var s := NatDecimal(n);
      assert s[..|s| - 1] == NatDecimal(n / 10);
      NatDecimalRoundTrip(n / 10);
    }
  }

  /** Different integers have different numerals. */
  lemma IntDecimalInjective(a: int, b: int)
    requires IntDecimal(a) == IntDecimal(b)
    ensures a == b
  {
    if a < 0 {
      assert NatDecimal(-a) == IntDecimal(a)[1..] == IntDecimal(b)[1..] == NatDecimal(-b);
      NatDecimalRoundTrip(-a);
      NatDecimalRoundTrip(-b);
    } else {
      NatDecimalRoundTrip(a);
      NatDecimalRoundTrip(b);
    }
  }

  /** A numeral followed by text that starts with a non-digit can be split off again:
      the numeral is the longest prefix of the form `-?[0-9]+`. */
  lemma NumeralPrefixUnique(a: int, b: int, x: string, y: string)
    requires |x| > 0 && !IsDigit(x[0]) && |y| > 0 && !IsDigit(y[0])
    requires IntDecimal(a) + x == IntDecimal(b) + y
    ensures a == b && x == y
  {
    var p, q := IntDecimal(a), IntDecimal(b);
    var whole := p + x;
    assert whole[0] == p[0] && whole[0] == q[0];
    var k := if a < 0 then 1 else 0;
    assert b < 0 <==> a < 0;
    // after the optional sign, both numerals are runs of digits ended by a non-digit,
    // so neither can be shorter than the other
    assert |p| > k && |q| > k;
    assert forall i :: k <= i < |p| ==> IsDigit(whole[i]);
    assert forall i :: k <= i < |q| ==> IsDigit(whole[i]);
    assert !IsDigit(whole[|p|]) && !IsDigit(whole[|q|]);
    assert |p| == |q|;
    assert p == whole[..|p|] == q;
    IntDecimalInjective(a, b);
  }
}
