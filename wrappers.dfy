/** Failure-carrying values shared by the other modules. */
module Wrappers {

  /** A value that may be absent (a parse that did not match). */
  datatype Option<+T> = None | Some(value: T) {
    predicate IsFailure() {
      None?
    }

    function PropagateFailure<U>(): Option<U>
      requires None?
    {
      None
    }

    function Extract(): T
      requires Some?
    {
      value
    }
  }

  /** A value or the error that stopped the computation (a raised exception). */
  datatype Result<+T, +E> = Ok(value: T) | Err(error: E)
}
