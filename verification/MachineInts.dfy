/**
 * The fixed-width C++ integer types that appear in the modelled fields.
 * Only their ranges are modelled. The one sum that could wrap in the
 * library, a range's end `position + length`, is computed here without
 * wrap-around.
 */
module MachineInts {

  /** `int` on the platforms the library targets. */
  type Int32 = x: int | -0x8000_0000 <= x < 0x8000_0000

  /** `unsigned long` on a 64-bit platform. */
  type UInt64 = x: int | 0 <= x < 0x1_0000_0000_0000_0000

  /** `sqlite3_int64`, used for database identifiers. */
  type Int64 = x: int | -0x8000_0000_0000_0000 <= x < 0x8000_0000_0000_0000
}
