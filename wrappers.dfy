// Option and Result, for values that may be missing and for operations
// that throw in the original program.
module Wrappers {

  datatype Option<+T> = None | Some(value: T)

  /** Ok, or the exception that was thrown.  The three members let `:-`
      pass an exception on, as a C++ function does by not catching it. */
  datatype Result<+T, +E> = Ok(value: T) | Err(error: E)
  {
    predicate IsFailure() { Err? }

    function PropagateFailure<U>(): Result<U, E>
      requires Err?
    {
      Err(error)
    }

    function Extract(): T
      requires Ok?
    {
      value
    }
  }
}
