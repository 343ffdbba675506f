/** Option and Result values used for the store's absent documents and error returns. */
module Wrappers {

  /** A value that may be absent, such as a storage key that was never written. */
  datatype Option<+T> = None | Some(value: T)

  /** The outcome of an operation that can fail with an error of type E. */
  datatype Result<+T, +E> = Ok(value: T) | Err(error: E)
}
