/** Option and Result: the model's stand-ins for Java's null and for thrown exceptions. */
module Wrappers {

  /** A value that may be absent (Java null). */
  datatype Option<+T> = None | Some(value: T)

  /** The outcome of a call that may throw; `Err` carries the exception's message. */
  datatype Result<+T> = Ok(value: T) | Err(message: string)
}
