/** Option and Result, the two shapes the event loop needs for values that may
    be absent (Rust's `Option`) and steps that may fail (a panic or an `Err`). */
module Wrappers {

  datatype Option<+T> = None | Some(value: T)

  datatype Result<+R, +E> = Success(value: R) | Failure(error: E)
}
