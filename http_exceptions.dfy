/** The `HttpException` record, its `StatusCode` enumeration and the five
    subclasses that fix a status and an error label. */
module HttpExceptions {
  import opened Wrappers

  /** The `StatusCode` enumeration. */
  datatype StatusCode =
    | BadRequest
    | Unauthorized
    | Forbidden
    | NotFound
    | Conflict
    | InternalServerError
    | Success
    | Created
    | NoContent
  {
    /** The numeric value of the enumeration member. */
    function Code(): int {
      match this
      case BadRequest => 400
      case Unauthorized => 401
      case Forbidden => 403
      case NotFound => 404
      case Conflict => 409
      case InternalServerError => 500
      case Success => 200
      case Created => 201
      case NoContent => 204
    }
  }

  /** The reverse mapping of the numeric enumeration: the member with value `n`, if any. */
  function StatusFromCode(n: int): (r: Option<StatusCode>)
    ensures r.Some? ==> r.value.Code() == n
    ensures r.None? ==> forall s: StatusCode :: s.Code() != n
  {
    if n == 400 then Some(BadRequest)
    else if n == 401 then Some(Unauthorized)
    else if n == 403 then Some(Forbidden)
    else if n == 404 then Some(NotFound)
    else if n == 409 then Some(Conflict)
    else if n == 500 then Some(InternalServerError)
    else if n == 200 then Some(StatusCode.Success)
    else if n == 201 then Some(Created)
    else if n == 204 then Some(NoContent)
    else None
  }

  /** The nine values are pairwise distinct, so the numeric value names exactly
      one member. */
  lemma StatusCodeRoundTrip(s: StatusCode, n: int)
    ensures StatusFromCode(s.Code()) == Some(s)
    ensures StatusFromCode(n) == Some(s) <==> s.Code() == n
  {
  }

  /** An exception: all fields are read-only, so a value of this immutable
      datatype is the whole object. `error` is `None` when the optional third
      constructor argument is absent. */
  datatype HttpException = HttpException(status: int, message: string, statusCode: StatusCode, error: Option<string>)

  /** `status` and `statusCode` hold the same value. */
  predicate Consistent(e: HttpException) {
    e.status == e.statusCode.Code()
  }

  /** `new HttpException(message, status, error)`. */
  function NewHttpException(message: string, status: StatusCode, error: Option<string>): (e: HttpException)
    ensures Consistent(e)
    ensures e.statusCode == status && e.message == message && e.error == error
  {
    HttpException(status.Code(), message, status, error)
  }

  /** The constructor loses nothing and makes every consistent exception:
      reading the fields back and constructing again gives the same value. */
  lemma ConstructorRoundTrip(e: HttpException, message: string, status: StatusCode, error: Option<string>)
    ensures Consistent(e) <==> NewHttpException(e.message, e.statusCode, e.error) == e
    ensures var f := NewHttpException(message, status, error);
      f.message == message && f.statusCode == status && f.error == error && f.status == status.Code()
  {
  }

  function BadRequestException(message: string): (e: HttpException)
    ensures Consistent(e) && e.status == 400
    ensures e.message == message && e.error == Some("Bad Request")
  {
    NewHttpException(message, BadRequest, Some("Bad Request"))
  }

  function UniqueConstraintException(message: string): (e: HttpException)
    ensures Consistent(e) && e.status == 409
    ensures e.message == message && e.error == Some("Conflict")
  {
    NewHttpException(message, Conflict, Some("Conflict"))
  }

  function InternalErrorException(message: string): (e: HttpException)
    ensures Consistent(e) && e.status == 500
    ensures e.message == message && e.error == Some("Internal Server Error")
  {
    NewHttpException(message, InternalServerError, Some("Internal Server Error"))
  }

  function NotFoundException(message: string): (e: HttpException)
    ensures Consistent(e) && e.status == 404
    ensures e.message == message && e.error == Some("Not Found")
  {
    NewHttpException(message, NotFound, Some("Not Found"))
  }

  function UnauthorizedException(message: string): (e: HttpException)
    ensures Consistent(e) && e.status == 401
    ensures e.message == message && e.error == Some("Unauthorized")
  {
    NewHttpException(message, Unauthorized, Some("Unauthorized"))
  }

  /** The five subclasses. */
  datatype Subclass = BadRequestClass | UniqueConstraintClass | InternalErrorClass | NotFoundClass | UnauthorizedClass

  function Raise(c: Subclass, message: string): HttpException {
    match c
    case BadRequestClass => BadRequestException(message)
    case UniqueConstraintClass => UniqueConstraintException(message)
    case InternalErrorClass => InternalErrorException(message)
    case NotFoundClass => NotFoundException(message)
    case UnauthorizedClass => UnauthorizedException(message)
  }

  /** Which subclass made an exception, recovered from its status. */
  function SubclassOf(e: HttpException): Option<Subclass> {
    if e.status == 400 then Some(BadRequestClass)
    else if e.status == 409 then Some(UniqueConstraintClass)
    else if e.status == 500 then Some(InternalErrorClass)
    else if e.status == 404 then Some(NotFoundClass)
    else if e.status == 401 then Some(UnauthorizedClass)
    else None
  }

  /** The subclasses have pairwise distinct statuses: the status alone tells
      which subclass an exception came from, whatever its message. */
  lemma SubclassFromStatus(c: Subclass, message: string)
    ensures SubclassOf(Raise(c, message)) == Some(c)
    ensures Raise(c, message).message == message
  {
  }
}
