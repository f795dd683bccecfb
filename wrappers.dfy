/** Option and Result, used where the C# code returns null or throws. */
module Wrappers {

  /** A value that may be absent: the C# `null`. */
  datatype Option<+T> = None | Some(value: T)

  /** The outcome of an operation that may throw: `Err` carries the exception kind. */
  datatype Result<+T, +E> = Ok(value: T) | Err(error: E)
}
