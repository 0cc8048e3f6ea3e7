/** Option and Result: the outcomes of operations that can decline or fail. */
module Wrappers {

  /** A value that may be absent. */
  datatype Option<+T> = None | Some(value: T)

  /** A value, or the error that stopped it from being built. */
  datatype Result<+T, +E> = Ok(value: T) | Err(error: E)
}
