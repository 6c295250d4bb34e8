/** Failure-carrying results, standing in for Go's `(value, error)` returns. */
module Wrappers {

  /** An error value of one of the external collaborators (solver, commitment scheme, transcript). */
  datatype Error = Error(message: string)

  datatype Option<+T> = None | Some(value: T)

  datatype Result<+T> = Success(value: T) | Failure(error: Error) {

    predicate IsFailure() {
      Failure?
    }

    function PropagateFailure<U>(): Result<U>
      requires Failure?
    {
      Failure(error)
    }

    function Extract(): T
      requires Success?
    {
      value
    }
  }
}
