/** Shared result types. */
module Prelude {
  datatype Option<+T> = None | Some(value: T)

  datatype Result<+T, +E> = Ok(value: T) | Err(error: E)

  /** What a call to another process does: go through, not go through, or go through and still raise. */
  datatype Remote = Fine | Down | Unheard
}
