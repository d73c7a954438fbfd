/** Results that may be missing or may have failed. */
module Wrappers {

  datatype Option<+T> = None | Some(value: T)

  /** A value or the error that took its place; `:-` ends the caller with that error, if there is one. */
  datatype Result<+T, +E> = Ok(value: T) | Err(error: E) {
    predicate IsFailure() {
      Err?
    }

    function PropagateFailure(): Option<E> {
      match this
      case Ok(_) => None
      case Err(e) => Some(e)
    }

    function Extract(): T
      requires Ok?
    {
      value
    }
  }
}
