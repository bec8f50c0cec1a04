/** The central error handler mounted after all routes. */
module ErrorMiddleware {
  import opened Common

  /** The status the error response is sent with: a throw that left the
      status at 200 is an internal error. */
  function FinalStatus(status: int): (r: int)
    ensures r != StatusOk
    ensures status == StatusOk ==> r == StatusServerError
    ensures status != StatusOk ==> r == status
  {
    if status == StatusOk then StatusServerError else status
  }

  /** Mapping the status a second time changes nothing. */
  lemma FinalStatusIdempotent(status: int)
    ensures FinalStatus(FinalStatus(status)) == FinalStatus(status)
  {
  }

  /** The JSON error body `{ message, stack }` and the status it is sent with. */
  datatype ErrorReply = ErrorReply(status: int, error: Failure, stack: Option<string>)

  /** `errorHandler(err, req, res, next)` with `res.statusCode == status`. */
  function ErrorHandler(status: int, err: Failure, env: Env): (r: ErrorReply)
    ensures r.status == FinalStatus(status) && r.error == err
    ensures r.stack.None? <==> env.production
    ensures r.stack.Some? ==> r.stack.value == env.stackOf(err)
  {
    ErrorReply(FinalStatus(status), err, if env.production then None else Some(env.stackOf(err)))
  }
}
