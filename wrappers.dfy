/** Option and Result, with the members that let `:-` propagate a failure. */
module Wrappers {

  /** A value that may be absent (Python's None, a pandas NA cell). */
  datatype Option<+T> = None | Some(value: T)

  /** The outcome of a Python call that either returns `value` or raises `error`. */
  datatype Result<+T, +E> = Ok(value: T) | Err(error: E) {

    predicate IsFailure() {
      Err?
    }

    function PropagateFailure<U>(): Result<U, E>
      requires Err?
    {
      Err(error)
    }

    function Extract(): T
      requires Ok?
    {
      value
    }
  }

  /** The outcome of a Python call that returns nothing or raises `error`. */
  datatype Outcome<+E> = Pass | Fail(error: E)
}
