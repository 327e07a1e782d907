/** Optional values and the success/failure results that stand for the collector's exceptions. */
module Outcomes {

  datatype Option<+T> = None | Some(value: T)

  /** The value of a call that may raise: `Err` carries the code of the exception. */
  datatype Result<+T, +E> = Ok(value: T) | Err(error: E) {
    predicate IsFailure() {
      Err?
    }

    function PropagateFailure<U>(): Result<U, E>
      requires Err?
    {
      Err(error)
    }

    function Extract(): T
      requires Ok?
    {
      value
    }
  }
}
