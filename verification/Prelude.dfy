/** Result and option types shared by every module. */
module Prelude {

  datatype Option<+T> = None | Some(value: T)

  /** A value, or the error of an exception that was thrown instead. */
  datatype Result<+T, +E> = Ok(value: T) | Err(error: E) {
    predicate IsFailure() { Err? }

    function PropagateFailure<U>(): Result<U, E>
      requires Err?
    {
      Err(error)
    }

    function Extract(): T
      requires Ok?
    {
      value
    }
  }
}
