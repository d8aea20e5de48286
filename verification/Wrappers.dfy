/** Option and Result, shared by every other module. */
module Wrappers {
  datatype Option<+T> = None | Some(value: T)

  datatype Result<+R, +E> = Success(value: R) | Failure(error: E)

  /** An error answer; only the HTTP status of the program's `ApiError` is kept, not its message. */
  datatype ApiError = ApiError(status: nat)
}
