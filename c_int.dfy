/**
 * The C integer types the firmware uses, on Dafny's unbounded integers.
 *
 * Unsigned arithmetic is reduced modulo 2^N (section 6.2.5p9 of ISO C11);
 * signed overflow is undefined (section 6.5p5 of ISO C11) and converting an
 * out-of-range value to a signed type is implementation-defined (section
 * 6.3.1.3 of ISO C11), so the members that model those operations require
 * their operands to stay in range instead of guessing a result.
 */
module CInt {

  const TWO_32: int := 0x1_0000_0000
  const TWO_63: int := 0x8000_0000_0000_0000
  const TWO_64: int := 0x1_0000_0000_0000_0000

  /** uint32_t */
  type u32 = x: int | 0 <= x < TWO_32

  /** uint64_t */
  type u64 = x: int | 0 <= x < TWO_64

  /** int64_t */
  type i64 = x: int | -TWO_63 <= x < TWO_63

  /** The uint64_t value of the mathematical result x: x reduced modulo 2^64. */
  function Wrap64(x: int): (r: u64)
    ensures 0 <= x < TWO_64 ==> r == x
    ensures TWO_64 <= x < 2 * TWO_64 ==> r == x - TWO_64
    ensures -TWO_64 <= x < 0 ==> r == x + TWO_64
    ensures (x - r) % TWO_64 == 0
  {
    x % TWO_64
  }

  /** `x++` on a uint32_t: one more, except that 2^32 - 1 wraps to 0. */
  function Inc32(x: u32): (r: u32)
    ensures x < TWO_32 - 1 ==> r == x + 1
    ensures x == TWO_32 - 1 ==> r == 0
    ensures r != x
  {
    (x + 1) % TWO_32
  }

  /** Conversion of an int64_t to uint64_t (section 6.3.1.3p2 of ISO C11). */
  function ToUnsigned(x: i64): (r: u64)
    ensures x >= 0 ==> r == x
    ensures x < 0 ==> r == x + TWO_64
  {
    Wrap64(x)
  }
}
