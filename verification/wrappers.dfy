/** Failure-compatible Option and Result types used for the error paths of the decorator. */
module Wrappers {

  datatype Option<+T> = None | Some(value: T)

  /** Either a value or the error a Python `raise` would have produced. */
  datatype Result<+T, +E> = Success(value: T) | Failure(error: E) {

    predicate IsFailure() {
      Failure?
    }

    function PropagateFailure<U>(): Result<U, E>
      requires Failure?
    {
      Failure(error)
    }

    function Extract(): T
      requires Success?
    {
      value
    }

    /** The same outcome with the error translated by `f`. */
    function MapFailure<E2>(f: E -> E2): Result<T, E2> {
      match this
      case Success(v) => Success(v)
      case Failure(e) => Failure(f(e))
    }
  }
}
