/** Option, Result and Outcome: the error paths of the engine (a thrown or
    rejected `libError`, an `undefined` lookup) as values. */
module Wrappers {

  datatype Option<+T> = None | Some(value: T) {
    function GetOr(default: T): T {
      match this
      case Some(v) => v
      case None => default
    }
  }

  datatype Result<+R, +E> = Ok(value: R) | Err(error: E)

  /** The result of an operation that returns nothing useful when it succeeds
      (an `async` method resolving to an empty response). */
  datatype Outcome<+E> = Pass | Fail(error: E)
}
