/** Shared value types of the generator model: an Option, a Result whose failure is
    one of the generator's fatal conditions, and the fixed-width integers of the
    Rust source. */
module Base {

  datatype Option<+T> = None | Some(value: T)

  /** The ways in which the generator aborts. The Rust build script panics in each of
      these situations; the model returns the failure instead. */
  datatype Fatal =
    | MissingLine(context: string)      // a `Vec` index past the end of the lines
    | MissingField(context: string)     // a `split(..)` result indexed past its end
    | BadNumber(text: string)           // `parse().expect("Cannot parse number")`
    | UnsupportedType(tag: string)      // `panic!("Unsupported type: {}")`
    | OrderOverflow                     // `order + 1` on a `u8` equal to 255
    | NoEnumDefault(enumName: string)   // `[0]` on an empty filter result

  datatype Result<+T> = Ok(value: T) | Err(error: Fatal)

  const I32_MIN: int := -0x8000_0000
  const I32_MAX: int := 0x7fff_ffff
  const U64_MAX: int := 0xffff_ffff_ffff_ffff

  type i32 = x: int | I32_MIN <= x <= I32_MAX
  type u64 = x: int | 0 <= x <= U64_MAX
  type u8 = x: int | 0 <= x < 256
  newtype byte = x: int | 0 <= x < 256
}
