/** Option and Result, the two shapes the model uses for "maybe absent" and
    "value or error". */
module Wrappers {

  /** A value that may be missing: Go's nil slice, an absent error, ... */
  datatype Option<+T> = None | Some(value: T)

  /** Either a computed value or the error that stopped the computation. */
  datatype Result<+R, +E> = Success(value: R) | Failure(error: E)
}
