/** Failure-compatible result types shared by every module of the model.
    The failures are the Python exceptions the modelled code lets escape. */
module Wrappers {

  datatype Option<+T> = None | Some(value: T) {
    function GetOr(default: T): T {
      match this
      case Some(v) => v
      case None => default
    }
  }

  /** The exception kinds raised by the modelled code; none of them is caught there. */
  datatype PyError =
    | KeyError    // a missing dictionary key
    | IndexError  // a list index out of range
    | ValueError  // a malformed timestamp or number, or a date out of range

  datatype Result<+T> = Success(value: T) | Failure(error: PyError) {
    predicate IsFailure() {
      Failure?
    }

    function PropagateFailure<U>(): Result<U>
      requires Failure?
    {
      Failure(error)
    }

    function Extract(): T
      requires Success?
    {
      value
    }
  }
}
