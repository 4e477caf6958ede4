/** Outcome types shared by the model of the route-extraction script. */
module Wrappers {

  /** A value or nothing; a locator scan that finds nothing yields `None`
      (the `False` a `_locate` callback returns). */
  datatype Option<+T> = None | Some(value: T)

  /** The three exception classes the script's top level distinguishes:
      a page-element timeout, a browser/driver error, and anything else. */
  datatype Failure = TimeoutFailure | DriverFailure | OtherFailure

  /** A step that either produces a value or raises one of the failures above. */
  datatype Result<+T> = Ok(value: T) | Err(error: Failure)
}
