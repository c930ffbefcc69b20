/** The outcomes a handler produces: the `ApiError` class of
    recipe-api/src/utils/ApiError.js, plain errors, and replies. */
module Http {

  /** `new ApiError(statusCode, message, errors)`; `errors` is the field-level
      message map and defaults to `{}`. */
  datatype ApiError = ApiError(statusCode: int, message: string, errors: map<string, string>)

  /** What a handler throws or passes to `next`: an `ApiError`, or a plain
      `Error` (a failed `normalizeSteps`, a failed base64 check, a storage error). */
  datatype Error = Api(api: ApiError) | Thrown(message: string)

  /** What a handler answers: a status with a body value, or a status with
      an error message. */
  datatype Reply<+T> = Success(status: int, value: T) | Failure(status: int, message: string)

  /** The reply for an error thrown at a handler's throw point: an `ApiError`
      carries its own status, anything else is a 500. */
  function ErrorReply<T>(e: Error): (r: Reply<T>)
    ensures r.Failure?
    ensures e.Api? ==> r.status == e.api.statusCode && r.message == e.api.message
    ensures e.Thrown? ==> r.status == 500 && r.message == e.message
  {
    match e
    case Api(a) => Failure(a.statusCode, a.message)
    case Thrown(m) => Failure(500, m)
  }

  function NotFound(message: string): Error {
    Api(ApiError(404, message, map[]))
  }

  function BadRequest(message: string): Error {
    Api(ApiError(400, message, map[]))
  }

  function Forbidden(message: string): Error {
    Api(ApiError(403, message, map[]))
  }
}
