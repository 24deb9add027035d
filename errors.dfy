/**
 * Error kinds raised by the engine and the result wrapper that replaces its exceptions.
 *
 * Each constructor of `Error` names one exception class of the engine:
 * `IoError` is `io::Error`, `InvalidFormat` is `io::InvalidFormatError`,
 * `ArgumentError` is `khepri::ArgumentError`, `OutOfRange` is `std::out_of_range`
 * and `FontError` is `font::FontError`.
 */
module Errors {
  datatype Error = IoError | InvalidFormat | ArgumentError | OutOfRange | FontError

  datatype Result<T> = Ok(value: T) | Err(error: Error)

  datatype Option<T> = None | Some(value: T)
}
