/** The 64-bit two's complement arithmetic that the emitted machine code performs. */
module Int64 {
  const TWO_63: int := 0x8000_0000_0000_0000
  const TWO_64: int := 0x1_0000_0000_0000_0000

  predicate IsI64(x: int) { -TWO_63 <= x < TWO_63 }

  type i64 = x: int | IsI64(x)

  /** Truncation to 64 bits, read as signed. */
  function Wrap(x: int): i64 {
    if x % TWO_64 < TWO_63 then x % TWO_64 else x % TWO_64 - TWO_64
  }

  function Negate(x: int): i64 { Wrap(-x) }

  function Pow2(k: nat): (r: nat)
    ensures r > 0
  {
    if k == 0 then 1 else 2 * Pow2(k - 1)
  }

  /** idiv: truncation toward zero; a zero divisor skips the division and leaves the dividend. */
  function Quotient(x: int, y: int): int {
    if y == 0 then x
    else if (x >= 0) == (y > 0) then Abs(x) / Abs(y) else -(Abs(x) / Abs(y))
  }

  function Abs(x: int): nat { if x < 0 then -x else x }

  /** sar: an arithmetic shift rounds toward minus infinity. */
  function ShiftRight(x: int, k: nat): int { x / Pow2(k) }

  /** The shift count is the low six bits of cl. */
  function ShiftCount(y: int): nat { y % 64 }

  function Bit(b: bool): i64 { if b then 1 else 0 }

  lemma WrapInRange(x: int)
    requires IsI64(x)
    ensures Wrap(x) == x
  {
  }
}
