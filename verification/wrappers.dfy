/** Failure-compatible result types shared by the graph and cache modules. */
module Wrappers {

  /** Stands for a Java reference that may be null. */
  datatype Option<+T> = None | Some(value: T)

  /** The outcome of an operation that can throw. */
  datatype Result<+R, +E> = Success(value: R) | Failure(error: E) {
    predicate IsFailure() {
      Failure?
    }

    function PropagateFailure<U>(): Result<U, E>
      requires Failure?
    {
      Failure(error)
    }

    function Extract(): R
      requires Success?
    {
      value
    }
  }
}
