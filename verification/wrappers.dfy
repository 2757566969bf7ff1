/** Option and Result, shared by the other modules. */
module Wrappers {

  /** A value that may be absent: a null pointer, a missing match, a missing neighbor. */
  datatype Option<+T> = None | Some(value: T)

  /** The outcome of an operation that can raise an error (a C++ exception or a fatal exit). */
  datatype Result<+T> = Ok(value: T) | Err(message: string)
}
