/** Option and Result, used for the values Python signals with None and with exceptions. */
module Wrappers {

  /** A value or nothing (Python's None). */
  datatype Option<T> = None | Some(value: T)

  /** The outcome of reading a file: its lines, or the text of the exception raised. */
  datatype Result<T> = Success(value: T) | Failure(error: string)
}
