/** Failure-compatible result types shared by every module of the model.
    - Option<T>: a value that may be absent (PHP's nullable `?T`).
    - Result<T, E>: a value or the exception that replaced it.
    - Outcome<S, E>: the effects an operation left behind, and whether it ended by
      throwing. Unlike Result, an aborted Outcome still carries the state reached,
      because side effects done before a PHP exception are not undone. */
module Wrappers {

  datatype Option<+T> = None | Some(value: T) {
    function GetOr(default: T): T {
      match this
      case Some(v) => v
      case None => default
    }
  }

  datatype Result<+T, +E> = Success(value: T) | Failure(error: E) {
    predicate IsFailure() {
      Failure?
    }

    function PropagateFailure<U>(): Result<U, E>
      requires Failure?
    {
      Failure(error)
    }

    function Extract(): T
      requires Success?
    {
      value
    }
  }

  datatype Outcome<+S, +E> = Finished(state: S) | Aborted(state: S, error: E)
}
