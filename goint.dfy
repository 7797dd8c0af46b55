/** Go's signed 64-bit integers and their wrap-around addition. */
module GoInt {

  const TWO_63: int := 0x8000_0000_0000_0000
  const TWO_64: int := 0x1_0000_0000_0000_0000

  /** Go's `int64`; Go's `int` on a 64-bit platform has the same range. */
  newtype Int64 = x: int | -0x8000_0000_0000_0000 <= x < 0x8000_0000_0000_0000

  const MAX_INT64: Int64 := 0x7fff_ffff_ffff_ffff
  const MIN_INT64: Int64 := -0x8000_0000_0000_0000

  /** Go's `a + b` on int64: two's-complement wrap-around. The result is the exact
      sum shifted by at most one multiple of 2^64, and equals the sum whenever the
      sum fits. */
  function WrapAdd(a: Int64, b: Int64): (r: Int64)
    ensures r as int == a as int + b as int
         || r as int == a as int + b as int - TWO_64
         || r as int == a as int + b as int + TWO_64
    ensures -TWO_63 <= a as int + b as int < TWO_63 ==> r as int == a as int + b as int
    ensures a as int + b as int >= TWO_63 ==> r as int < 0
    ensures a as int + b as int < -TWO_63 ==> r as int >= 0
  {
    var s := a as int + b as int;
    if s >= TWO_63 then (s - TWO_64) as Int64
    else if s < -TWO_63 then (s + TWO_64) as Int64
    else s as Int64
  }

  /** The 64-bit result is determined by the exact sum: any int64 that differs
      from it by a multiple of 2^64 (here -1, 0 or 1 times) is the wrapped sum. */
  lemma WrapAddUnique(a: Int64, b: Int64, x: Int64, k: int)
    requires -1 <= k <= 1
    requires x as int == a as int + b as int + k * TWO_64
    ensures x == WrapAdd(a, b)
  {
  }

  /** The largest int64 plus one wraps to the smallest. */
  lemma WrapAddOverflow()
    ensures WrapAdd(MAX_INT64, 1) == MIN_INT64
  {
  }
}
