/** Option and Result values for the partial operations of the model. */
module Wrappers {

  datatype Option<+T> = None | Some(value: T)

  /** `Err` stands for a Python exception that escapes the operation. */
  datatype Result<+T, +E> = Ok(value: T) | Err(error: E) {

    predicate IsFailure() {
      Err?
    }

    function PropagateFailure<U>(): Result<U, E>
      requires Err?
    {
      Err(error)
    }

    function Extract(): T
      requires Ok?
    {
      value
    }
  }
}
