/** Optional values and results. */
module Wrappers {

  datatype Option<+T> = None | Some(value: T)

  /** The outcome of a lowering step: a value, or the error that rejects the query. */
  datatype Result<+T, +E> = Ok(value: T) | Err(error: E) {
    predicate IsFailure() { Err? }

    function PropagateFailure<U>(): Result<U, E>
      requires Err?
    {
      Err(error)
    }

    function Extract(): T
      requires Ok?
    {
      value
    }
  }
}
