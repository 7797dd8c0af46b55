/** Decimal rendering of integers, as Go's `%d` verb prints them. */
module Decimal {

  predicate IsDigit(c: char) {
    '0' <= c <= '9'
  }

  predicate AllDigits(s: string) {
    forall k :: 0 <= k < |s| ==> IsDigit(s[k])
  }

  function DigitChar(d: nat): (c: char)
    requires d < 10
    ensures IsDigit(c) && c as int - '0' as int == d
  {
    ('0' as int + d) as char
  }

  /** The base-10 digits of `n`, most significant first, without leading zeros. */
  function FromNat(n: nat): (s: string)
    ensures |s| >= 1 && AllDigits(s)
    ensures 0 < n ==> s[0] != '0'
    ensures n < 10 <==> |s| == 1
    decreases n
  {
    if n < 10 then [DigitChar(n)] else FromNat(n / 10) + [DigitChar(n % 10)]
  }

  /** The value of a string of decimal digits (the inverse of FromNat). */
  function ToNat(s: string): nat
    requires AllDigits(s)
    decreases |s|
  {
    if s == [] then 0
    else ToNat(s[..|s| - 1]) * 10 + (s[|s| - 1] as int - '0' as int)
  }

  lemma {:induction false} ToNatFromNat(n: nat)
    ensures ToNat(FromNat(n)) == n
    decreases n
  {
    var s := FromNat(n);
    if n >= 10 {
      ToNatFromNat(n / 10);
      assert s[..|s| - 1] == FromNat(n / 10);
    }
  }

  /** `%d` of a signed integer: a minus sign before the digits of the magnitude. */
  function FromInt(x: int): (s: string)
    ensures |s| >= 1
    ensures x < 0 <==> s[0] == '-'
    ensures x < 0 ==> AllDigits(s[1..]) && ToNat(s[1..]) == -x
    ensures 0 <= x ==> AllDigits(s) && ToNat(s) == x
    ensures 0 < x ==> s[0] != '0'
    ensures x < 0 ==> |s| >= 2 && s[1] != '0'
    ensures x == 0 ==> s == "0"
  {
    if x < 0 then
      ToNatFromNat(-x);
      assert ("-" + FromNat(-x))[1..] == FromNat(-x);
      "-" + FromNat(-x)
    else
      ToNatFromNat(x);
      FromNat(x)
  }
}
