/** Small shared vocabulary: optional values and bytes. */
module Common {
  datatype Option<+T> = None | Some(value: T)

  /** An unsigned 8-bit value, as C#'s `byte`. */
  type byte = b: int | 0 <= b < 256

  /** A signed 16-bit value, as C#'s `short`. */
  type int16 = n: int | -0x8000 <= n < 0x8000

  const INT32_MAX: int := 0x7fff_ffff
  const INT16_MAX: int := 0x7fff
}
