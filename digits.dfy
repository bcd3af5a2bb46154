/** Decimal text of integers, as Python's `str(n)` and `f"{n:02d}"` produce it. */
module Digits {

  predicate IsDigit(c: char) {
    '0' <= c <= '9'
  }

  predicate AllDigits(s: string) {
    forall i :: 0 <= i < |s| ==> IsDigit(s[i])
  }

  function DigitChar(d: nat): (c: char)
    requires d < 10
    ensures IsDigit(c)
  {
    ('0' as int + d) as char
  }

  function DigitValue(c: char): (d: nat)
    requires IsDigit(c)
    ensures d < 10
  {
    c as int - '0' as int
  }

  /** Decimal digits of `n` without leading zeros: Python's `str(n)` for `n >= 0`. */
  function NatToString(n: nat): (s: string)
    ensures 1 <= |s| && AllDigits(s)
    ensures |s| == 1 <==> n < 10
    ensures n < 100 ==> |s| <= 2
    ensures |s| > 1 ==> s[0] != '0'
    decreases n
  {
    if n < 10 then [DigitChar(n)] else NatToString(n / 10) + [DigitChar(n % 10)]
  }

  /** The number a string of decimal digits denotes. */
  function DecimalValue(s: string): nat
    requires AllDigits(s)
    decreases |s|
  {
    if s == [] then 0 else DecimalValue(s[..|s| - 1]) * 10 + DigitValue(s[|s| - 1])
  }

  /** Reading back the digits that NatToString writes gives the number. */
  lemma {:induction false} DecimalValueOfNatToString(n: nat)
    ensures DecimalValue(NatToString(n)) == n
    decreases n
  {
    if n >= 10 {
      var s := NatToString(n);
      assert s[..|s| - 1] == NatToString(n / 10);
      DecimalValueOfNatToString(n / 10);
    }
  }

  /** A leading zero does not change the number a digit string denotes. */
  lemma {:induction false} LeadingZeroValue(s: string)
    requires AllDigits(s)
    ensures AllDigits("0" + s) && DecimalValue("0" + s) == DecimalValue(s)
    decreases |s|
  {
    var t := "0" + s;
    if s != [] {
      assert t[..|t| - 1] == "0" + s[..|s| - 1];
      LeadingZeroValue(s[..|s| - 1]);
    }
  }

  /** Python's `f"{n:02d}"` for `n >= 0`: at least two digits, zero-padded on the left. */
  function ZeroPad2(n: nat): (s: string)
    ensures AllDigits(s) && 2 <= |s|
    ensures DecimalValue(s) == n
    ensures n < 100 ==> |s| == 2
    ensures |s| > 2 ==> s[0] != '0'
  {
    var digits := NatToString(n);
    DecimalValueOfNatToString(n);
    if |digits| < 2 then
      LeadingZeroValue(digits);
      "0" + digits
    else
      digits
  }

  /** Python's `str(i)` for any integer: a minus sign before the digits of `-i` when `i < 0`. */
  function IntToString(i: int): (s: string)
    ensures 1 <= |s|
    ensures i >= 0 ==> AllDigits(s) && DecimalValue(s) == i
    ensures i < 0 ==> s[0] == '-' && AllDigits(s[1..]) && DecimalValue(s[1..]) == -i
    ensures i >= 0 ==> (|s| > 1 ==> s[0] != '0')
    ensures i < 0 ==> (|s| > 2 ==> s[1] != '0')
  {
    if i < 0 then
      var digits := NatToString(-i);
      DecimalValueOfNatToString(-i);
      assert ("-" + digits)[1..] == digits;
      "-" + digits
    else
      DecimalValueOfNatToString(i);
      NatToString(i)
  }
}
