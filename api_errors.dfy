/**
 * The error value the registry's endpoints answer with: an HTTP status and
 * a message. Any other error converted into it gets the status
 * `InternalServerError` unless a handler sets another one.
 */
module ApiErrors {
  /** The HTTP statuses the registry's handlers and guards choose. */
  datatype Status = BadRequest | Unauthorized | NotFound | Conflict | UpgradeRequired | InternalServerError

  datatype ApiError = ApiError(status: Status, message: string)

  /** `Error::from`: a wrapped error keeps its message and answers 500. */
  function Internal(message: string): (e: ApiError)
    ensures e.status == InternalServerError && e.message == message
  {
    ApiError(InternalServerError, message)
  }
}
