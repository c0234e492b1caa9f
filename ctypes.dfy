/** The C-level vocabulary of the program: `int`, `error_t` and an option type. */
module CTypes {

  /** Bounds of the 32-bit C `int` (INT_MIN, INT_MAX of <limits.h>). */
  const INT_MIN: int := -0x8000_0000
  const INT_MAX: int := 0x7fff_ffff

  /** A C `int`: every assignment to a variable of this type is checked not to overflow. */
  type Int32 = x: int | INT_MIN <= x <= INT_MAX

  /** `error_t`: the error codes the functions report through their `error` out-parameter. */
  datatype Error =
    | NoError
    | ParsingError
    | EndOfFileError
    | ReadingError
    | EmptyBufferError
    | InvalidValueError

  datatype Option<T> = None | Some(value: T)
}
