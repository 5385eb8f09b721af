/** The fixed-width integer types of the source (C# `short` and `int`) and
    the unchecked 32-bit arithmetic it relies on. */
module Numeric {

  const Int16Min: int := -0x8000
  const Int16Max: int := 0x7FFF
  const Int32Min: int := -0x8000_0000
  const Int32Max: int := 0x7FFF_FFFF

  /** C# `short`. */
  type int16 = x: int | Int16Min <= x <= Int16Max

  /** C# `int`. */
  type int32 = x: int | Int32Min <= x <= Int32Max

  /** The result of unchecked C# `int` arithmetic whose mathematical value is `x`:
      the unique 32-bit value congruent to `x` modulo 2^32. */
  function Wrap32(x: int): (r: int32)
    ensures (r - x) % 0x1_0000_0000 == 0
    ensures Int32Min <= x <= Int32Max ==> r == x
  {
    var m := x % 0x1_0000_0000;
    if m <= Int32Max then m else m - 0x1_0000_0000
  }

  /** `Math.Min`. */
  function Min(a: int, b: int): (r: int)
    ensures r <= a && r <= b
    ensures r == a || r == b
  {
    if a <= b then a else b
  }
}
