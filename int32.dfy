/**
  C#'s `int`: a 32-bit two's-complement integer whose `+` and `-` wrap around
  silently (the default unchecked context). The entity's health arithmetic is
  built from the two operations below.
 */
module Int32 {

  const MIN: int := -0x8000_0000
  const MAX: int := 0x7FFF_FFFF
  const MODULUS: int := 0x1_0000_0000

  newtype int32 = x: int | -0x8000_0000 <= x < 0x8000_0000

  /** True iff `x` is representable as a C# `int`. */
  predicate InRange(x: int) {
    MIN <= x <= MAX
  }

  /** The C# `int` whose bit pattern is the low 32 bits of `x`. */
  function Wrap(x: int): (r: int32)
    ensures InRange(x) ==> r as int == x
    ensures (x - r as int) % MODULUS == 0
  {
    ((x - MIN) % MODULUS + MIN) as int32
  }

  /** Unchecked `a - b`: exact when the difference fits, otherwise off by exactly 2^32. */
  function Sub(a: int32, b: int32): (r: int32)
    ensures InRange(a as int - b as int) ==> r as int == a as int - b as int
    ensures a as int - b as int < MIN ==> r as int == a as int - b as int + MODULUS
    ensures a as int - b as int > MAX ==> r as int == a as int - b as int - MODULUS
  {
    Wrap(a as int - b as int)
  }

  /** Unchecked `a + b`: exact when the sum fits, otherwise off by exactly 2^32. */
  function Add(a: int32, b: int32): (r: int32)
    ensures InRange(a as int + b as int) ==> r as int == a as int + b as int
    ensures a as int + b as int < MIN ==> r as int == a as int + b as int + MODULUS
    ensures a as int + b as int > MAX ==> r as int == a as int + b as int - MODULUS
  {
    Wrap(a as int + b as int)
  }
}
