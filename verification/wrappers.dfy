/** Failure-compatible datatypes used by the repository model. */
module Wrappers {

  datatype Option<+T> = None | Some(value: T)

  /** The outcome of a repository operation: a value, or the error the operation ends with. */
  datatype Result<+T, +E> = Ok(value: T) | Err(error: E) {

    predicate IsFailure() {
      Err?
    }

    function PropagateFailure<U>(): Result<U, E>
      requires Err?
    {
      Err(error)
    }

    function Extract(): T
      requires Ok?
    {
      value
    }
  }
}
