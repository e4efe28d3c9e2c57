/** Fixed-width integers as Go sees them: `int64` offsets and sizes, `uint64`
    block coordinates, and the two's-complement wrap-around of their arithmetic. */
module Machine {

  const TWO_63: int := 0x8000_0000_0000_0000
  const TWO_64: int := 0x1_0000_0000_0000_0000
  const MIN_I64: int := -TWO_63
  const MAX_I64: int := TWO_63 - 1

  type i64 = x: int | -0x8000_0000_0000_0000 <= x < 0x8000_0000_0000_0000
  type u64 = x: int | 0 <= x < 0x1_0000_0000_0000_0000

  /** Go's signed 64-bit arithmetic: the mathematical result reduced into
      [MIN_I64, MAX_I64] modulo 2^64. */
  function WrapI64(x: int): (r: i64)
    ensures (x - r) % TWO_64 == 0
    ensures MIN_I64 <= x <= MAX_I64 ==> r == x
  {
    var m := x % TWO_64;
    if m < TWO_63 then m else m - TWO_64
  }

  /** Go's unsigned 64-bit arithmetic and `uint64(...)` conversion. */
  function WrapU64(x: int): (r: u64)
    ensures (x - r) % TWO_64 == 0
    ensures 0 <= x < TWO_64 ==> r == x
  {
    x % TWO_64
  }

  /** Adding an int64 to a non-negative int64 can only overflow upwards, and an
      upward overflow always lands on a negative value. */
  lemma AddNonNegativeWrap(a: i64, b: i64)
    requires 0 <= a
    ensures WrapI64(a + b) == a + b || (a + b > MAX_I64 && WrapI64(a + b) < 0)
  {
    if a + b > MAX_I64 {
      assert TWO_63 <= a + b < TWO_64;
      assert (a + b) % TWO_64 == a + b;
    }
  }
}
