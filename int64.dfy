/** Go's signed 64-bit integers and the wrapping `+` that Go applies to them. */
module Int64 {

  const MIN: int := -0x8000_0000_0000_0000
  const MAX: int := 0x7FFF_FFFF_FFFF_FFFF
  /** 2^64: the period of two's-complement wrap-around. */
  const MODULUS: int := 0x1_0000_0000_0000_0000

  newtype int64 = x: int | -0x8000_0000_0000_0000 <= x < 0x8000_0000_0000_0000

  /** Go's `a + b` on int64: the mathematical sum reduced into range modulo 2^64.
      Overflow is silent; the result is off by exactly one period. */
  function Add(a: int64, b: int64): (r: int64)
    ensures MIN <= a as int + b as int <= MAX ==> r as int == a as int + b as int
    ensures a as int + b as int > MAX ==> r as int == a as int + b as int - MODULUS
    ensures a as int + b as int < MIN ==> r as int == a as int + b as int + MODULUS
  {
    var m := (a as int + b as int) % MODULUS;
    if m <= MAX then m as int64 else (m - MODULUS) as int64
  }
}
