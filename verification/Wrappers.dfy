/** Failure-carrying results shared by the modules below. */
module Wrappers {

  datatype Option<+T> = None | Some(value: T)

  /** A call that either returns a value or throws; `error` names the exception. */
  datatype Result<+T> = Success(value: T) | Failure(error: string)

  /** A call without a return value that either completes or throws. */
  datatype Outcome = Pass | Fail(error: string)
}
