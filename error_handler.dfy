/** The error-handling middleware of recipe-api/src/middleware/errorHandler.js,
    and the catch-all that recipe-api/src/index.js installs instead of it. */
module ErrorHandler {
  import opened Http

  const InternalError := "Internal server error"
  const SomethingWrong := "Something went wrong!"

  /** `{ status, message, errors }` */
  datatype ErrorBody = ErrorBody(status: string, message: string, errors: map<string, string>)

  datatype ErrorResponse = ErrorResponse(statusCode: int, body: ErrorBody)

  /** An `ApiError` sets the status and is copied into the body, marked `fail`
      below 500 and `error` from 500 on; any other error becomes a bare 500. */
  function HandleError(e: Error): (r: ErrorResponse)
    ensures e.Api? ==> && r.statusCode == e.api.statusCode
                       && r.body.message == e.api.message && r.body.errors == e.api.errors
    ensures e.Api? ==> (r.body.status == "fail" <==> e.api.statusCode < 500)
    ensures r.body.status in {"fail", "error"}
    ensures e.Thrown? ==> r == ErrorResponse(500, ErrorBody("error", InternalError, map[]))
  {
    match e
    case Api(a) => ErrorResponse(a.statusCode, ErrorBody(if a.statusCode < 500 then "fail" else "error", a.message, a.errors))
    case Thrown(_) => ErrorResponse(500, ErrorBody("error", InternalError, map[]))
  }

  /** The handler agrees with the status each controller's throw point
      produces, and keeps an `ApiError`'s message; it hides every other
      error's message. */
  lemma HandleErrorAgreesWithThrowPoints(e: Error)
    ensures HandleError(e).statusCode == ErrorReply<int>(e).status
    ensures e.Api? ==> HandleError(e).body.message == ErrorReply<int>(e).message
    ensures e.Thrown? ==> HandleError(e).body.message == InternalError
  {
  }

  /** `app.use((err, req, res, next) => res.status(500).json({ error: ... }))`:
      whatever reaches it, the answer is a 500 with one fixed message. */
  function CatchAll(e: Error): (int, string) {
    (500, SomethingWrong)
  }

  /** Because only the catch-all is mounted, an `ApiError` passed to `next`
      (a failed body validation or param check, say) is answered with 500,
      not the status the error carries. */
  lemma CatchAllLosesStatus(a: ApiError)
    requires a.statusCode != 500
    ensures CatchAll(Api(a)).0 != HandleError(Api(a)).statusCode
  {
  }
}
