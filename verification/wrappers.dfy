/** Failure-carrying values shared by every calculator module. */
module Wrappers {

  /** A value that may be missing; `None` stands for JavaScript's `NaN`
      from a failed `parseFloat`/`parseInt`, or for `null`. */
  datatype Option<+T> = None | Some(value: T)

  /** A computation that either succeeds or reports which error occurred. */
  datatype Result<+R, +E> = Success(value: R) | Failure(error: E)
}
