/** Failure-carrying datatypes shared by every part of the model. */
module Outcome {

  /** An optional value, used for `undefined`-or-value results. */
  datatype Option<+T> = None | Some(value: T) {
    function GetOr(default: T): T {
      match this
      case Some(v) => v
      case None => default
    }
  }

  /** Either a value or an error; a thrown exception in the scripts is an `Err`. */
  datatype Result<+T, +E> = Ok(value: T) | Err(error: E) {
    predicate IsFailure() {
      Err?
    }
  }
}
