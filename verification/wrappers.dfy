/** Failure-compatible wrappers used throughout the model: `Option` for the
    JavaScript "found / undefined" outcome of a search, `Result` for an
    evaluation that may throw. */
module Wrappers {

  datatype Option<+T> = None | Some(value: T) {

    /** Returns the value in Some or the given default (JavaScript `x || d`
        when `x` is a possibly-missing string). */
    function GetOr(default: T): T {
      match this
      case Some(v) => v
      case None => default
    }
  }

  datatype Result<+T, +E> = Ok(value: T) | Fail(error: E) {

    predicate IsFailure() {
      Fail?
    }

    function PropagateFailure<U>(): Result<U, E>
      requires Fail?
    {
      Fail(error)
    }

    function Extract(): T
      requires Ok?
    {
      value
    }
  }
}
