/**
 * Shares as JavaScript computes them (a count divided by a count) and their
 * text as a two-decimal percentage.
 */
module Shares {

  /** The value of `num / den` in JavaScript, kept exact: a fraction, NaN (0 / 0)
      or Infinity (a positive count divided by 0). */
  datatype Quotient = Fraction(num: nat, den: nat) | NaN | Infinity

  /** JavaScript division of two counts. */
  function Divide(num: nat, den: nat): (q: Quotient)
    ensures q.NaN? <==> num == 0 && den == 0
    ensures q.Infinity? <==> num > 0 && den == 0
    ensures q.Fraction? ==> q.den == den > 0 && q.num == num
  {
    if den > 0 then Fraction(num, den) else if num == 0 then NaN else Infinity
  }

  /** `q || 0`: NaN is falsy and becomes 0 (0 itself stays 0); Infinity is truthy and stays. */
  function OrZero(q: Quotient): (r: Quotient)
    ensures !r.NaN?
    ensures q.NaN? ==> r.Fraction? && r.num == 0 && r.den > 0
    ensures !q.NaN? ==> r == q
  {
    if q.NaN? then Fraction(0, 1) else q
  }

  /** A share guarded with `|| 0` is never NaN: it is num / den when den is positive,
      0 when both counts are 0, and Infinity only when a positive count meets a zero one. */
  lemma GuardedShare(num: nat, den: nat)
    ensures var q := OrZero(Divide(num, den));
      && !q.NaN?
      && (den > 0 ==> q == Fraction(num, den))
      && (den == 0 ==> (q.Infinity? <==> num > 0))
      && (q.Fraction? ==> q.den > 0 && q.num * den == num * q.den)
  {
  }

  /** num / den in hundredths of a percent, rounded to the nearest (halves up). */
  function Hundredths(num: nat, den: nat): (h: nat)
    requires den > 0
    ensures 2 * den * h <= 20000 * num + den < 2 * den * (h + 1)
  {
    var a, b := 20000 * num + den, 2 * den;
    assert a == b * (a / b) + a % b;
    a / b
  }

  /** A share of at most one whole is at most 100.00%. */
  lemma HundredthsOfPart(num: nat, den: nat)
    requires 0 < den && num <= den
    ensures Hundredths(num, den) <= 10000
  {
    var h := Hundredths(num, den);
    assert (2 * den) * h < (2 * den) * 10001;
    CancelFactor(2 * den, h, 10001);
  }

  lemma CancelFactor(c: nat, a: nat, b: nat)
    requires c * a < c * b
    ensures a < b
  {
  }

  /** The decimal digit character of d. */
  function Digit(d: nat): (c: char)
    requires d < 10
    ensures '0' <= c <= '9' && (c as int) - ('0' as int) == d
  {
    ['0', '1', '2', '3', '4', '5', '6', '7', '8', '9'][d]
  }

  /** A natural number written in decimal, as JavaScript joins a count into text. */
  function NatToString(n: nat): (s: string)
    ensures |s| > 0 && forall i :: 0 <= i < |s| ==> '0' <= s[i] <= '9'
  {
    if n < 10 then [Digit(n)] else NatToString(n / 10) + [Digit(n % 10)]
  }

  /** The number a string of decimal digits stands for. */
  function DigitsValue(s: string): nat
    requires forall i :: 0 <= i < |s| ==> '0' <= s[i] <= '9'
  {
    if s == [] then 0 else 10 * DigitsValue(s[..|s| - 1]) + ((s[|s| - 1] as int) - ('0' as int))
  }

  /** Writing a count in decimal loses nothing: reading the digits back gives the count. */
  lemma {:induction false} NatToStringRoundTrip(n: nat)
    ensures DigitsValue(NatToString(n)) == n
  {
    if n >= 10 {
      NatToStringRoundTrip(n / 10);
      var s := NatToString(n);
      assert s[..|s| - 1] == NatToString(n / 10);
    }
  }

  /** `d3.format(".2%")`: the share as a percentage with two decimals. */
  function Percentage(q: Quotient): (text: string)
    ensures |text| > 0 && text[|text| - 1] == '%'
  {
    match q
    case Fraction(num, den) =>
      if den == 0 then "NaN%"
      else
        var h := Hundredths(num, den);
        NatToString(h / 100) + "." + [Digit(h % 100 / 10), Digit(h % 10)] + "%"
    case NaN => "NaN%"
    case Infinity => "Infinity%"
  }
}
