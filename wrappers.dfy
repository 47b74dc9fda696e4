/** Option and Result, standing in for C#'s null references and exceptions. */
module Wrappers {

  /** `None` plays the role of a C# null reference. */
  datatype Option<+T> = None | Some(value: T)

  /** `Err` plays the role of an exception that escapes the modelled call. */
  datatype Result<+T, +E> = Ok(value: T) | Err(error: E)
}
