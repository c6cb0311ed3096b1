/** What a handler gets back from the persistence layer, and what it does with
    the Express response: either it sends a reply itself or it passes an
    exception to `next`. */
module Outcomes {
  import opened Wrappers
  import opened HttpExceptions
  import ErrorMiddleware

  /** The fields of a thrown JavaScript error that the handlers read:
      `err.code` (`None` when undefined), `err.name` and `err.meta?.target`
      (already turned into text; `None` when undefined). */
  datatype ErrorInfo = ErrorInfo(code: Option<string>, name: string, metaTarget: Option<string>)

  /** A JavaScript `TypeError`, as thrown by reading a property of `undefined`. */
  const TypeErrorInfo := ErrorInfo(None, "TypeError", None)

  /** A JavaScript `SyntaxError`, as thrown by `new RegExp` on a malformed pattern. */
  const SyntaxErrorInfo := ErrorInfo(None, "SyntaxError", None)

  /** The awaited result of a persistence call: a value, or a thrown error. */
  datatype Db<T> = Done(value: T) | Threw(error: ErrorInfo)

  /** One action of a request handler on the response: `res.status(status).json(body)`
      (`Send`), or `next(error)` (`Next`), which hands the exception to the error middleware. */
  datatype Reply<T> = Send(status: int, body: T) | Next(error: HttpException)

  /** The HTTP status the client receives for a reply: its own for `Send`, the
      error middleware's for `Next`. */
  function ReplyStatus<T>(r: Reply<T>): int {
    match r
    case Send(status, _) => status
    case Next(e) => ErrorMiddleware.Render(ErrorMiddleware.FromException(e)).httpStatus
  }
}
