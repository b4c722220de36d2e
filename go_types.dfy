/** Go's fixed-width integers and the nil-or-value idiom, as the retry and
    random packages use them. */
module GoTypes {

  const MinInt64: int := -0x8000_0000_0000_0000
  const MaxInt64: int := 0x7fff_ffff_ffff_ffff

  /** Go's `int64`, and so also `time.Duration`. */
  newtype int64 = x: int | -0x8000_0000_0000_0000 <= x <= 0x7fff_ffff_ffff_ffff

  /** Go's `uint64`. */
  newtype uint64 = x: int | 0 <= x <= 0xffff_ffff_ffff_ffff

  datatype Option<T> = None | Some(value: T)

  /** The int64 that Go's two's-complement arithmetic produces for the exact
      value x: the unique representative of x modulo 2^64 in int64's range. */
  function WrapInt64(x: int): (r: int64)
    ensures (x - r as int) % 0x1_0000_0000_0000_0000 == 0
    ensures MinInt64 <= x <= MaxInt64 ==> r as int == x
  {
    ((x - MinInt64) % 0x1_0000_0000_0000_0000 + MinInt64) as int64
  }

  /** A sum of two non-negative int64 values wraps exactly when it leaves the
      int64 range, and then it comes out negative: so `a + b <= 0` in Go, with
      b positive, is an exact overflow test. */
  lemma SumWrapsNegative(a: int64, b: int64)
    requires 0 <= a && 0 < b
    ensures WrapInt64(a as int + b as int) <= 0 <==> a as int + b as int > MaxInt64
    ensures a as int + b as int <= MaxInt64 ==> WrapInt64(a as int + b as int) as int == a as int + b as int
    ensures a as int + b as int > MaxInt64 ==>
              WrapInt64(a as int + b as int) as int == a as int + b as int - 0x1_0000_0000_0000_0000
  {
    var s := a as int + b as int;
    if s > MaxInt64 {
      assert s - MinInt64 >= 0x1_0000_0000_0000_0000;
      assert s - MinInt64 < 2 * 0x1_0000_0000_0000_0000;
      assert (s - MinInt64) % 0x1_0000_0000_0000_0000 == s - MinInt64 - 0x1_0000_0000_0000_0000;
    }
  }
}
