/** Option and Result, the two shapes Go's `(value, error)` and nil-able pointers take in this model. */
module Wrappers {

  datatype Option<+T> = None | Some(value: T)

  datatype Result<+T, +E> = Ok(value: T) | Fail(error: E)
}
