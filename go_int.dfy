/** Go's `int64`: its bounds and the two's-complement wrap-around of `+`. */
module GoInt {

  const MinInt64: int := -0x8000_0000_0000_0000
  const MaxInt64: int := 0x7FFF_FFFF_FFFF_FFFF
  const MaxUint64: int := 0xFFFF_FFFF_FFFF_FFFF
  const TwoTo64: int := 0x1_0000_0000_0000_0000

  type Int64 = x: int | MinInt64 <= x <= MaxInt64

  /** `a + b` on Go int64 values: the mathematical sum reduced into the int64 range. */
  function AddWrap(a: Int64, b: Int64): (r: Int64)
    ensures MinInt64 <= a + b <= MaxInt64 ==> r == a + b
    ensures (a + b - r) % TwoTo64 == 0
    ensures a + b > MaxInt64 ==> r == a + b - TwoTo64
    ensures a + b < MinInt64 ==> r == a + b + TwoTo64
  {
    var sum := a + b;
    if sum > MaxInt64 then sum - TwoTo64
    else if sum < MinInt64 then sum + TwoTo64
    else sum
  }
}
