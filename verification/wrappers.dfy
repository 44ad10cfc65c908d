/** Failure-carrying datatypes shared by every module of the model.
    A JavaScript `throw` (or a Solidity `revert`) is modelled as `Err`
    carrying the error message; a normal return is `Ok`. */
module Wrappers {

  datatype Option<+T> = None | Some(value: T)

  datatype Result<+T, +E> = Ok(value: T) | Err(error: E) {

    predicate IsFailure() {
      Err?
    }

    function PropagateFailure<U>(): Result<U, E>
      requires Err?
    {
      Err(error)
    }

    function Extract(): T
      requires Ok?
    {
      value
    }
  }
}
