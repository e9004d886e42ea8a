/** Option and Result, the two wrappers every stage uses for "maybe" and "value or error". */
module Wrappers {

  datatype Option<+T> = None | Some(value: T)

  /** A stage result: either the produced value or the kind of exception the source raises. */
  datatype Result<+T, +E> = Ok(value: T) | Err(error: E) {
    predicate IsFailure() { Err? }

    function PropagateFailure<U>(): Result<U, E>
      requires Err?
    {
      Err(error)
    }

    function Extract(): T
      requires Ok?
    {
      value
    }
  }
}
