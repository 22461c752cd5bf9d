/** Failure-compatible result types shared by every module. */
module Wrappers {

  datatype Option<+T> = None | Some(value: T)

  datatype Result<+T, +E> = Success(value: T) | Failure(error: E) {
    predicate IsFailure() { Failure? }

    function PropagateFailure<U>(): Result<U, E>
      requires Failure?
    {
      Failure(error)
    }

    function Extract(): T
      requires Success?
    {
      value
    }
  }

  /** The result of an action that returns nothing but may throw. */
  datatype Outcome<+E> = Pass | Fail(error: E)

  /** A byte of a Node `Buffer`. */
  type byte = x: int | 0 <= x < 256
}
