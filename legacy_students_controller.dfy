/** The older TypeScript `StudentsController`: every failure is an Internal
    Error except a create that the database refuses as a known request error,
    and the not-found replies are sent directly with status 404. */
module LegacyStudentsController {
  import opened Wrappers
  import opened Json
  import opened HttpExceptions
  import opened Outcomes
  import Cpf
  import StudentsService

  const ServerErrorMessage := "Internal server error"
  const RaInUseMessage := "RA is already in use"
  const NotFoundMessage := "User not found"

  /** The name Prisma gives the errors of its known-request class. */
  const KnownRequestErrorName := "PrismaClientKnownRequestError"

  /** The JSON bodies this controller sends itself. */
  datatype Body = Rows(rows: seq<Record>) | Row(row: Record) | Message(message: string) | NoBody

  /** The error that every failing handler passes on. */
  function ServerError(): (e: HttpException)
    ensures Consistent(e) && e.status == 500 && e.message == ServerErrorMessage
  {
    InternalErrorException(ServerErrorMessage)
  }

  /** `findAll`: the rows, or 500 whatever went wrong. */
  function FindAll(fetched: Db<seq<Record>>): (r: Reply<Body>)
    ensures fetched.Done? <==> r.Send?
    ensures fetched.Done? ==> r == Send(200, Rows(fetched.value))
    ensures fetched.Threw? ==> r == Next(ServerError())
  {
    match fetched
    case Done(rows) => Send(StatusCode.Success.Code(), Rows(rows))
    case Threw(_) => Next(ServerError())
  }

  /** `findById` and `findByRa`: the record, a 404 sent directly with
      `{ message: "User not found" }`, or 500. */
  function FindOne(found: Db<Option<Record>>): (r: Reply<Body>)
    ensures found.Done? && found.value.Some? ==> r == Send(200, Row(found.value.value))
    ensures found == Done(None) ==> r == Send(404, Message(NotFoundMessage))
    ensures found.Threw? ==> r == Next(ServerError())
  {
    match found
    case Done(Some(row)) => Send(StatusCode.Success.Code(), Row(row))
    case Done(None) => Send(StatusCode.NotFound.Code(), Message(NotFoundMessage))
    case Threw(_) => Next(ServerError())
  }

  /** The `catch` of `create`: a known request error is an RA conflict,
      anything else a server error. */
  function CreateFailure(err: ErrorInfo): (e: HttpException)
    ensures Consistent(e)
    ensures err.name == KnownRequestErrorName ==> e == UniqueConstraintException(RaInUseMessage)
    ensures err.name != KnownRequestErrorName ==> e == ServerError()
    ensures e.status == 409 <==> err.name == KnownRequestErrorName
  {
    if err.name == KnownRequestErrorName then UniqueConstraintException(RaInUseMessage)
    else ServerError()
  }

  /** The error thrown by the older service's `create`, which this controller
      calls without a `next` callback: a rejected CPF makes `normalizeCpf`
      call `undefined`, which throws a `TypeError`. */
  function ServiceFailure(data: Record): (err: Option<ErrorInfo>)
    ensures StudentsService.CpfCheck(data).Accepted? <==> err.None?
    ensures StudentsService.CpfCheck(data).Rejected? ==> err == Some(TypeErrorInfo)
  {
    match StudentsService.CpfCheck(data)
    case Accepted => None
    case Rejected(_) => Some(TypeErrorInfo)
    case Crashed(thrown) => Some(thrown)
  }

  /** `create`: 201 with the new record, or the classified failure of the
      service or of the insert. */
  function Create(data: Record, insert: Db<Record>): (r: Reply<Body>)
    ensures ServiceFailure(data).Some? ==> r == Next(CreateFailure(ServiceFailure(data).value))
    ensures ServiceFailure(data).None? && insert.Done? ==> r == Send(201, Row(insert.value))
    ensures ServiceFailure(data).None? && insert.Threw? ==> r == Next(CreateFailure(insert.error))
  {
    match ServiceFailure(data)
    case Some(err) => Next(CreateFailure(err))
    case None =>
      match insert
      case Done(row) => Send(StatusCode.Created.Code(), Row(row))
      case Threw(err) => Next(CreateFailure(err))
  }

  /** Every CPF the validator does not accept ends in 500, never in 400 or 409. */
  lemma RejectedCpfIsServerError(data: Record, insert: Db<Record>)
    requires !StudentsService.CpfCheck(data).Accepted?
    ensures Create(data, insert) == Next(ServerError())
    ensures ReplyStatus(Create(data, insert)) == 500
  {
    var err := ServiceFailure(data).value;
    assert err == TypeErrorInfo || err == SyntaxErrorInfo;
  }

  /** A unique-constraint refusal of the insert is a 409 Conflict. */
  lemma DuplicateRaIsConflict(data: Record, thrown: ErrorInfo)
    requires StudentsService.CpfCheck(data).Accepted? && thrown.name == KnownRequestErrorName
    ensures ReplyStatus(Create(data, Threw(thrown))) == 409
    ensures Create(data, Threw(thrown)).error.message == RaInUseMessage
  {
  }

  /** The reply of `update`, and the data handed to the service. */
  datatype UpdateTrace = UpdateTrace(reply: Reply<Body>, forwarded: Record)

  /** `update`: the body is forwarded as it is, `ra` and `cpf` included. */
  function Update(body: Record, updated: Db<Record>): (t: UpdateTrace)
    ensures t.forwarded.Keys == body.Keys && forall k :: k in body ==> t.forwarded[k] == body[k]
    ensures updated.Done? ==> t.reply == Send(200, Row(updated.value))
    ensures updated.Threw? ==> t.reply == Next(ServerError())
  {
    var reply := match updated
      case Done(row) => Send(StatusCode.Success.Code(), Row(row))
      case Threw(_) => Next(ServerError());
    UpdateTrace(reply, map k | k in body :: body[k])
  }

  /** `delete`: 204 with no body, or 500. */
  function Delete(deleted: Db<()>): (r: Reply<Body>)
    ensures deleted.Done? ==> r == Send(204, NoBody)
    ensures deleted.Threw? ==> r == Next(ServerError())
  {
    match deleted
    case Done(_) => Send(StatusCode.NoContent.Code(), NoBody)
    case Threw(_) => Next(ServerError())
  }

  /** Apart from `create`, a failure never reaches the client as anything but
      500, whatever the database reported. */
  lemma FailuresAreServerErrors(err: ErrorInfo, body: Record)
    ensures ReplyStatus(FindAll(Threw(err))) == 500
    ensures ReplyStatus(FindOne(Threw(err))) == 500
    ensures ReplyStatus(Update(body, Threw(err)).reply) == 500
    ensures ReplyStatus(Delete(Threw(err))) == 500
  {
  }
}
