/**
  The C integer behaviour the firmware relies on, written out over Dafny's
  unbounded integers. The target is a 32-bit microcontroller: `int`, `long`
  and `unsigned long` are 32 bits wide, `int64_t` is 64 bits wide.
 */
module CInt {

  const U8_LIMIT: int := 0x100
  const U16_LIMIT: int := 0x1_0000
  const U32_LIMIT: int := 0x1_0000_0000
  const INT_MAX: int := 0x7FFF_FFFF
  const INT_MIN: int := -0x8000_0000

  predicate IsU8(x: int) { 0 <= x < U8_LIMIT }
  predicate IsU16(x: int) { 0 <= x < U16_LIMIT }
  predicate IsU32(x: int) { 0 <= x < U32_LIMIT }
  /** A value of a 32-bit `int` or `long`. */
  predicate IsInt32(x: int) { INT_MIN <= x <= INT_MAX }

  /** Storing an integer into a `uint8_t`: the value is kept modulo 256. */
  function ToU8(x: int): (r: int)
    ensures IsU8(r)
    ensures IsU8(x) ==> r == x
    ensures (x - r) % U8_LIMIT == 0
  {
    x % U8_LIMIT
  }

  /** Unsigned 32-bit arithmetic: the mathematical result modulo 2^32. */
  function ToU32(x: int): (r: int)
    ensures IsU32(r)
    ensures IsU32(x) ==> r == x
    ensures (x - r) % U32_LIMIT == 0
  {
    x % U32_LIMIT
  }

  /** The cast `(long)` of an `unsigned long`: the same 32 bits read as two's complement. */
  function ToInt32(u: int): (r: int)
    requires IsU32(u)
    ensures IsInt32(r)
    ensures r == u || r == u - U32_LIMIT
    ensures r < 0 <==> u > INT_MAX
  {
    if u <= INT_MAX then u else u - U32_LIMIT
  }

  function Abs(x: int): nat { if x < 0 then -x else x }

  /**
    C's `/` on signed operands: the quotient is truncated toward zero, so the
    remainder takes the sign of the dividend (unlike Dafny's `/`, whose
    remainder is never negative).
   */
  function Div(a: int, b: int): (q: int)
    requires b != 0
    ensures Abs(a - q * b) < Abs(b)
    ensures a - q * b == 0 || (a - q * b < 0 <==> a < 0)
  {
    if a >= 0 then
      if b > 0 then a / b else -(a / -b)
    else
      if b > 0 then -(-a / b) else -a / -b
  }
}
