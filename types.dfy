/** Fixed-width Rust integer types and the Option/Result wrappers the kernel uses. */
module Types {

  /** Rust `u8`. */
  type u8 = x: int | 0 <= x < 0x100

  /** Rust `u16`. */
  type u16 = x: int | 0 <= x < 0x1_0000

  /** Rust `u32`. */
  type u32 = x: int | 0 <= x < 0x1_0000_0000

  datatype Option<T> = None | Some(value: T)

  datatype Result<T, E> = Ok(value: T) | Err(error: E)
}
