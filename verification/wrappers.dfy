/** Failure-compatible results used where the address book returns "nothing" or raises. */
module Wrappers {

  /** A value, or its absence (the source's `None`). */
  datatype Option<+T> = None | Some(value: T)

  /** A value, or the error the source would raise instead of returning. */
  datatype Result<+T, +E> = Success(value: T) | Failure(error: E)

  /** Success without a value, or the error the source would raise. */
  datatype Outcome<+E> = Pass | Fail(error: E)
}
