/**
 * Decimal rendering of integers, as Python's f-string formatting does it
 * (`f"{n}"`): the shortest run of decimal digits, preceded by '-' for a
 * negative number. The exports of app.py write pillar ordinals and point
 * coordinates this way. The parsing functions are the inverse used to show
 * that nothing is lost in the rendering.
 */
module Decimal {
  import opened Options

  predicate IsDigit(ch: char) {
    '0' <= ch <= '9'
  }

  predicate AllDigits(s: string) {
    forall i :: 0 <= i < |s| ==> IsDigit(s[i])
  }

  function DigitChar(d: nat): (ch: char)
    requires d < 10
    ensures IsDigit(ch)
  {
    ('0' as int + d) as char
  }

  function DigitValue(ch: char): (d: nat)
    requires IsDigit(ch)
    ensures d < 10 && DigitChar(d) == ch
  {
    ch as int - '0' as int
  }

  /** The decimal digits of `n`: never empty, only digits, no leading zero. */
  function NatToDecimal(n: nat): (s: string)
    ensures |s| >= 1 && AllDigits(s)
    ensures s[0] == '0' <==> n == 0
    ensures n < 10 <==> |s| == 1
  {
    if n < 10 then [DigitChar(n)]
    else NatToDecimal(n / 10) + [DigitChar(n % 10)]
  }

  /** `f"{z}"` for an integer `z`. */
  function IntToDecimal(z: int): (s: string)
    ensures |s| >= 1
    ensures s[0] == '-' <==> z < 0
    ensures forall i :: 0 <= i < |s| ==> s[i] == '-' || IsDigit(s[i])
    ensures z >= 0 ==> AllDigits(s)
    ensures z < 0 ==> AllDigits(s[1..])
  {
    if z < 0 then "-" + NatToDecimal(-z) else NatToDecimal(z)
  }

  /** The number a run of digits denotes, most significant digit first. */
  function DigitsValue(s: string): nat
    requires AllDigits(s)
  {
    if s == [] then 0
    else DigitsValue(s[..|s| - 1]) * 10 + DigitValue(s[|s| - 1])
  }

  function ParseNat(s: string): Option<nat> {
    if s != [] && AllDigits(s) then Some(DigitsValue(s)) else None
  }

  function ParseInt(s: string): Option<int> {
    if s != [] && s[0] == '-' then
      match ParseNat(s[1..])
      case Some(n) => Some(-(n as int))
      case None => None
    else
      match ParseNat(s)
      case Some(n) => Some(n as int)
      case None => None
  }

  lemma {:induction false} NatToDecimalValue(n: nat)
    ensures DigitsValue(NatToDecimal(n)) == n
  {
    var s := NatToDecimal(n);
    if n >= 10 {
      NatToDecimalValue(n / 10);
      assert s[..|s| - 1] == NatToDecimal(n / 10);
    }
  }

  /** Reading back what NatToDecimal wrote gives the number again. */
  lemma NatRoundTrip(n: nat)
    ensures ParseNat(NatToDecimal(n)) == Some(n)
  {
    NatToDecimalValue(n);
  }

  /** Reading back what IntToDecimal wrote gives the number again. */
  lemma IntRoundTrip(z: int)
    ensures ParseInt(IntToDecimal(z)) == Some(z)
  {
    if z < 0 {
      assert IntToDecimal(z)[1..] == NatToDecimal(-z);
      NatRoundTrip(-z);
    } else {
      NatRoundTrip(z);
    }
  }

  /** Distinct numbers are written differently. */
  lemma NatToDecimalInjective(m: nat, n: nat)
    ensures NatToDecimal(m) == NatToDecimal(n) <==> m == n
  {
    NatRoundTrip(m);
    NatRoundTrip(n);
  }
}
