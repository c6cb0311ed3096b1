/** `errorMiddleware`: turns the error passed to `next` into the HTTP status and
    the JSON body `{ status, message, error }`. */
module ErrorMiddleware {
  import opened Wrappers
  import opened HttpExceptions

  /** The fields the middleware reads from the error: `status` (`None` when undefined),
      `message` and `error`. */
  datatype ErrorValue = ErrorValue(status: Option<int>, message: string, error: Option<string>)

  /** The error value of an `HttpException`. */
  function FromException(e: HttpException): ErrorValue {
    ErrorValue(Some(e.status), e.message, e.error)
  }

  /** The JSON body; `error: None` is a property that `JSON.stringify` leaves out. */
  datatype ErrorBody = ErrorBody(status: int, message: string, error: Option<string>)

  datatype Response = Response(httpStatus: int, body: ErrorBody)

  const DefaultStatus := 500
  const DefaultMessage := "Something went wrong"

  /** `error.status || 500`. */
  function StatusOrDefault(status: Option<int>): (r: int)
    ensures r != 0
    ensures status.Some? && status.value != 0 ==> r == status.value
    ensures status.None? || status.value == 0 ==> r == DefaultStatus
  {
    match status
    case Some(s) => if s != 0 then s else DefaultStatus
    case None => DefaultStatus
  }

  function Render(e: ErrorValue): (r: Response)
    ensures r.body.status == r.httpStatus
    ensures r.httpStatus == StatusOrDefault(e.status)
    ensures e.message != "" ==> r.body.message == e.message
    ensures e.message == "" ==> r.body.message == DefaultMessage
    ensures r.body.error == e.error
  {
    var status := StatusOrDefault(e.status);
    Response(status, ErrorBody(status, if e.message != "" then e.message else DefaultMessage, e.error))
  }

  /** An exception made by one of the five subclasses is answered with that
      subclass's fixed status and label, and its message unless it is empty. */
  lemma RenderSubclass(c: Subclass, message: string)
    ensures var r := Render(FromException(Raise(c, message)));
      r.httpStatus == Raise(c, message).statusCode.Code() &&
      r.httpStatus == match c
        case BadRequestClass => 400
        case UniqueConstraintClass => 409
        case InternalErrorClass => 500
        case NotFoundClass => 404
        case UnauthorizedClass => 401
    ensures message != "" ==> Render(FromException(Raise(c, message))).body.message == message
    ensures Render(FromException(Raise(c, message))).body.error == Raise(c, message).error
  {
  }

  /** Every consistent exception is answered with its own status: the default
      500 is used only for errors whose status is missing or zero. */
  lemma RenderException(e: HttpException)
    requires Consistent(e)
    ensures Render(FromException(e)).httpStatus == e.statusCode.Code()
    ensures Render(FromException(e)).body == ErrorBody(e.status, if e.message == "" then DefaultMessage else e.message, e.error)
  {
  }
}
