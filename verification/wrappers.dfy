/** Nullable pointers and thrown-or-returned outcomes, shared by every module. */
module Wrappers {

  /** A nullable pointer or an optional value: `None` is `nullptr`. */
  datatype Option<+T> = None | Some(value: T)

  /** The outcome of a call that either returns a value or throws (the engine's `ThrowIfFailed`). */
  datatype Result<+T, +E> = Success(value: T) | Failure(error: E)
}
