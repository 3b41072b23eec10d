/** Types shared by every component model. */
module Prelude {

  type byte = x: int | 0 <= x < 256

  const NEWLINE: byte := 10

  datatype Option<+T> = None | Some(value: T)

  datatype Result<+T, +E> = Success(value: T) | Failure(error: E)
}
