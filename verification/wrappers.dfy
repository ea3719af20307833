/** Option and Result values used throughout the storefront model. */
module Wrappers {

  /** A value that may be absent: a missing product, a missing session. */
  datatype Option<+T> = None | Some(value: T)

  /** The outcome of a user action that the storefront may reject. */
  datatype Result<+T, +E> = Ok(value: T) | Err(error: E)
}
