/** Types shared by every part of the engine: the value type of a field,
    Option, the error kinds and Result. */
module Common {

  /** Rust's `i8`, the type of a field's value, of its options and of the
      numbers read from a puzzle. */
  type Int8 = n: int | -128 <= n < 128

  datatype Option<T> = None | Some(value: T)

  /** The failures the engine reports. The source formats each one as a
      message; the model keeps the numbers the message carries. */
  datatype Error =
    | WrongCount(got: nat)                            // parse: the input does not hold 81 tokens
    | AlreadySolved(requested: Int8, existing: Int8)  // set: the field holds a different value
    | NotAnOption(requested: Int8)                    // set: the value is no longer an option
    | NoOptionsLeft                                   // eliminate: the last option was removed

  datatype Result<T> = Ok(value: T) | Err(error: Error)
}
