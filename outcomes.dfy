/** Failure-compatible wrappers shared by the other modules. */
module Outcomes {

  datatype Option<+T> = None | Some(value: T)

  /** A computation that either yields a value or throws `error`. */
  datatype Result<+T, +E> = Success(value: T) | Failure(error: E) {

    predicate IsFailure() {
      Failure?
    }

    function PropagateFailure<U>(): Result<U, E>
      requires Failure?
    {
      Failure(error)
    }

    function Extract(): T
      requires Success?
    {
      value
    }
  }
}
