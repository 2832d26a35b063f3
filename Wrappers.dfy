/** Option and Result, and the three ways the manager's file operations fail. */
module Wrappers {

  datatype Option<T> = None | Some(value: T)

  /** The exceptions `AppPowerManager` lets escape to its caller. */
  datatype Error =
    | PathPolicy   // ValueError from a path-safety guard
    | NotFound     // FileNotFoundError: the original app is missing
    | IOFailure    // any OS error, or the `Exception` that `ensure_app_created` wraps one in

  datatype Result<T> = Ok(value: T) | Err(error: Error)
  {
    predicate IsFailure() { Err? }
  }
}
