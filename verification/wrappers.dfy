/** The two result shapes the model needs: an absent value, and Go's `(value, error)` pair. */
module Wrappers {
  datatype Option<+T> = None | Some(value: T)

  datatype Result<+T, +E> = Ok(value: T) | Err(error: E)
}
