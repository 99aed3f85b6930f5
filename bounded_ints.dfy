/** Go's fixed-width integer types, as the ranges of unbounded integers. */
module BoundedInts {

  /** Go `byte` (and `uint8`). */
  type byte = x: int | 0 <= x < 0x100

  /** Go `uint16`. */
  type uint16 = x: int | 0 <= x < 0x1_0000

  /** Go `int16`. */
  type int16 = x: int | -0x8000 <= x < 0x8000

  /** Go `int32`. */
  type int32 = x: int | -0x8000_0000 <= x < 0x8000_0000

  /** Go `uint32`; also the bit pattern of a float32, as math.Float32bits gives it. */
  type uint32 = x: int | 0 <= x < 0x1_0000_0000

  /** Go `uint64`; also the bit pattern of a float64, as math.Float64bits gives it. */
  type uint64 = x: int | 0 <= x < 0x1_0000_0000_0000_0000
}
