/** Wrappers for an absent value and for a value-or-error outcome. */
module Wrappers {

  /** A lookup result: `None` when nothing matched (the source's `None`). */
  datatype Option<+T> = None | Some(value: T)

  /** A use-case outcome: the produced value, or the domain error that the source raises. */
  datatype Result<+T, +E> = Success(value: T) | Failure(error: E)
}
