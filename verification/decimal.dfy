/**
 * Decimal rendering of integers as JavaScript's template strings and default
 * `sort()` produce it, with the parse that inverts it.
 */
module Decimal {

  predicate IsDigit(c: char) {
    '0' <= c <= '9'
  }

  function DigitChar(d: nat): (c: char)
    requires d < 10
    ensures IsDigit(c)
  {
    "0123456789"[d]
  }

  function DigitValue(c: char): (d: nat)
    requires IsDigit(c)
    ensures d < 10
  {
    (c as int) - ('0' as int)
  }

  /** The decimal digits of `n`, most significant first, with no leading zero. */
  function NatToString(n: nat): (t: string)
    ensures |t| > 0
    ensures forall k :: 0 <= k < |t| ==> IsDigit(t[k])
    ensures n > 0 ==> t[0] != '0'
    ensures n == 0 <==> t == "0"
    decreases n
  {
    if n < 10 then [DigitChar(n)] else NatToString(n / 10) + [DigitChar(n % 10)]
  }

  /** Digits, optionally preceded by a minus sign. */
  predicate IsNumeral(t: string) {
    forall k :: 0 <= k < |t| ==> IsDigit(t[k]) || (k == 0 && t[k] == '-')
  }

  /** `String(x)` for an integer `x`; JavaScript prints these digits for |x| <= 2^53. */
  function IntToString(x: int): (t: string)
    ensures IsNumeral(t)
  {
    if x < 0 then "-" + NatToString(-x) else NatToString(x)
  }

  /** The value of a string of decimal digits. */
  function ParseNat(t: string): nat
    requires forall k :: 0 <= k < |t| ==> IsDigit(t[k])
    decreases |t|
  {
    if |t| == 0 then 0 else ParseNat(t[..|t| - 1]) * 10 + DigitValue(t[|t| - 1])
  }

  /** The value of an optionally negative decimal numeral. */
  function ParseInt(t: string): int
    requires IsNumeral(t)
  {
    if |t| > 0 && t[0] == '-' then -(ParseNat(t[1..]) as int) else ParseNat(t)
  }

  lemma {:induction false} NatRoundTrip(n: nat)
    ensures ParseNat(NatToString(n)) == n
    decreases n
  {
    var t := NatToString(n);
    if n >= 10 {
      NatRoundTrip(n / 10);
      assert t[..|t| - 1] == NatToString(n / 10);
    }
  }

  /** Rendering an integer and parsing it back gives the integer: the rendering loses nothing. */
  lemma IntRoundTrip(x: int)
    ensures ParseInt(IntToString(x)) == x
  {
    if x < 0 {
      var digits := NatToString(-x);
      NatRoundTrip(-x);
      assert ("-" + digits)[1..] == digits;
    } else {
      NatRoundTrip(x);
    }
  }
}
