/** Ranges of the C integer types that the generators compute with. */
module CTypes {
  /** Largest value of a C `int` (32-bit two's complement). */
  const INT_MAX: int := 0x7fff_ffff
  /** Smallest value of a C `int`. */
  const INT_MIN: int := -0x8000_0000
  /** Largest value of a C `unsigned int` (32 bits). */
  const UINT_MAX: int := 0xffff_ffff

  /** True when `x` is representable as a C `int`. */
  predicate IsCInt(x: int) {
    INT_MIN <= x <= INT_MAX
  }

  /** The values a C `unsigned int` can hold: the element type of the index array. */
  type UInt = x: int | 0 <= x <= UINT_MAX
}
