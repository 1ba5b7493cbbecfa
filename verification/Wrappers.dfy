/** Failure-compatible results, optional values and the contents of a file. */
module Wrappers {

  datatype Option<+T> = None | Some(value: T)

  datatype Result<+T, +E> = Success(value: T) | Failure(error: E) {
    predicate IsFailure() {
      Failure?
    }

    function PropagateFailure<U>(): Result<U, E>
      requires Failure?
    {
      Failure(error)
    }

    function Extract(): T
      requires Success?
    {
      value
    }
  }

  /** A file that is replaced atomically: missing, unreadable as its own format, or holding a value. */
  datatype File<+T> = Absent | Garbled | Present(value: T)
}
