/** The compiled `StudentsController`: list with pagination, create, update.
    (`findById` and `findByRa` are `Handlers.FindOne`; `delete` is
    `Handlers.Remove`.) */
module StudentsController {
  import opened Wrappers
  import opened Json
  import opened HttpExceptions
  import opened Outcomes
  import opened ExceptionHandler
  import opened Pagination
  import Cpf
  import StudentsService
  import UsersController
  import ErrorMiddleware

  const NoStudentsMessage := "No students found"
  const ImmutableFieldsMessage := "RA and CPF fields cannot be updated"

  // --------------------------------------------------------------- findAll

  /** `findAll(req, res, next)`: the page is clamped and then passed to the
      service as `page - 1`; an empty page is Not Found. */
  function FindAll(page: Option<int>, limit: Option<int>, order: Option<string>, fetched: Db<Listing>): (t: UsersController.ListTrace)
    ensures t.query == FindAllQuery(Some(ClampPage(page) - 1), Some(ClampLimit(limit)), order)
    ensures fetched.Threw? ==> t.reply == Next(SharedHandler(fetched.error))
    ensures fetched.Done? && |fetched.value.rows| == 0 ==> t.reply == Next(NotFoundException(NoStudentsMessage))
    ensures fetched.Done? && |fetched.value.rows| > 0 ==>
      t.reply == Send(200, Envelope(fetched.value, ClampPage(page), ClampLimit(limit)))
  {
    var p, l := ClampPage(page), ClampLimit(limit);
    var query := FindAllQuery(Some(p - 1), Some(l), order);
    match fetched
    case Done(listing) =>
      if |listing.rows| == 0 then UsersController.ListTrace(query, Next(NotFoundException(NoStudentsMessage)))
      else UsersController.ListTrace(query, Send(StatusCode.Success.Code(), Envelope(listing, p, l)))
    case Threw(err) => UsersController.ListTrace(query, Next(SharedHandler(err)))
  }

  /** Composed with the service's own `- 1`, pages 1 and 2 both start at row 0
      and page `p >= 2` starts at row `(p - 2) * limit`. */
  lemma FindAllOffset(page: Option<int>, limit: Option<int>, order: Option<string>, fetched: Db<Listing>)
    ensures var p, l := ClampPage(page), ClampLimit(limit);
      FindAll(page, limit, order, fetched).query.take == l &&
      FindAll(page, limit, order, fetched).query.skip == if p <= 2 then 0 else (p - 2) * l
  {
  }

  /** As written, the first two pages request the same rows. */
  lemma FirstTwoPagesCoincide(limit: Option<int>, order: Option<string>, fetched: Db<Listing>)
    ensures FindAll(Some(1), limit, order, fetched).query == FindAll(Some(2), limit, order, fetched).query
  {
  }

  /** An empty page is Not Found even when the collection is not empty. */
  lemma EmptyPageIsNotFound(page: Option<int>, limit: Option<int>, order: Option<string>, count: nat)
    ensures ReplyStatus(FindAll(page, limit, order, Done(Listing(count, []))).reply) == 404
  {
  }

  /** The evidently intended `findAll`: the page passed to the service unchanged,
      as the users controller does. */
  function FindAllIntended(page: Option<int>, limit: Option<int>, order: Option<string>, fetched: Db<Listing>): (t: UsersController.ListTrace)
    ensures t.query == UsersController.FindAll(page, limit, order, fetched).query
    ensures t.reply == FindAll(page, limit, order, fetched).reply
  {
    var p, l := ClampPage(page), ClampLimit(limit);
    UsersController.ListTrace(FindAllQuery(Some(p), Some(l), order), FindAll(page, limit, order, fetched).reply)
  }

  /** With the correction, every row `n >= 0` is on exactly one page. */
  lemma IntendedPagesPartitionRows(page: int, limit: Option<int>, order: Option<string>, fetched: Db<Listing>, n: int)
    requires page >= 1 && n >= 0
    ensures OnPage(FindAllIntended(Some(page), limit, order, fetched).query, n) <==> page == n / ClampLimit(limit) + 1
  {
    PagesPartitionRows(ClampLimit(limit), order, n, page);
  }

  // ---------------------------------------------------------------- create

  /** The replies of a handler in the order it makes them, and the record it
      handed to the persistence layer, if any. */
  datatype CreateTrace = CreateTrace(replies: seq<Reply<Record>>, inserted: Option<Record>)

  /** `create(req, res, next)`: the service's `next(error)` for a rejected CPF
      does not stop the insert, whose result is then answered as well. */
  function Create(data: Record, insert: Db<Record>): (t: CreateTrace)
    ensures t.inserted == StudentsService.Create(data).record
    ensures |t.replies| >= 1
    ensures StudentsService.CpfCheck(data).Crashed? ==>
      t.replies == [Next(SharedHandler(StudentsService.CpfCheck(data).thrown))]
    ensures StudentsService.CpfCheck(data).Rejected? ==>
      t.replies == [Next(StudentsService.CpfCheck(data).error), InsertReply(insert)]
    ensures StudentsService.CpfCheck(data).Accepted? ==> t.replies == [InsertReply(insert)]
  {
    var step := StudentsService.Create(data);
    match step.validation
    case Crashed(err) => CreateTrace([Next(SharedHandler(err))], None)
    case Rejected(e) => CreateTrace([Next(e), InsertReply(insert)], step.record)
    case Accepted => CreateTrace([InsertReply(insert)], step.record)
  }

  /** The answer to the persistence call of `create`. */
  function InsertReply(insert: Db<Record>): (r: Reply<Record>)
    ensures insert.Done? ==> r == Send(201, insert.value)
    ensures insert.Threw? ==> r == Next(SharedHandler(insert.error))
  {
    match insert
    case Done(row) => Send(StatusCode.Created.Code(), row)
    case Threw(err) => Next(SharedHandler(err))
  }

  /** A body without a string CPF ends in 500 before anything is inserted. */
  lemma CreateWithoutCpf(data: Record, insert: Db<Record>)
    requires "cpf" !in data
    ensures Create(data, insert).inserted == None
    ensures |Create(data, insert).replies| == 1 && ReplyStatus(Create(data, insert).replies[0]) == 500
  {
  }

  /** As written, a CPF that is too short is reported as a Bad Request and the
      student is inserted all the same. */
  lemma InvalidCpfStillInserted(row: Record)
    ensures var data := map["cpf" := JStr("123")];
      var t := Create(data, Done(row));
      ReplyStatus(t.replies[0]) == 400 && t.inserted == Some(data) &&
      t.replies == [Next(BadRequestException(Cpf.LengthMessage)), Send(201, row)]
  {
    Cpf.TooShortRejected();
  }

  /** The evidently intended `create`: insert only a CPF that passed. */
  function CreateChecked(data: Record, insert: Db<Record>): (t: CreateTrace)
    ensures |t.replies| == 1
    ensures t.inserted.Some? <==> StudentsService.CpfCheck(data).Accepted?
    ensures t.inserted.Some? ==> t.inserted.value == data
    ensures StudentsService.CpfCheck(data).Rejected? ==> t.replies == [Next(StudentsService.CpfCheck(data).error)]
  {
    var step := StudentsService.Create(data);
    match step.validation
    case Crashed(err) => CreateTrace([Next(SharedHandler(err))], None)
    case Rejected(e) => CreateTrace([Next(e)], None)
    case Accepted => Create(data, insert)
  }

  /** With the correction, a rejected CPF yields exactly one 400 and no insert. */
  lemma CheckedRejectsWithoutInsert(data: Record, insert: Db<Record>)
    requires StudentsService.CpfCheck(data).Rejected?
    ensures CreateChecked(data, insert).inserted == None
    ensures ReplyStatus(CreateChecked(data, insert).replies[0]) == 400
  {
    Cpf.RejectionsAreBadRequests(data["cpf"].s);
  }

  // ---------------------------------------------------------------- update

  /** The reply of `update`, and the data handed to the service, if any. */
  datatype UpdateTrace = UpdateTrace(reply: Reply<Record>, forwarded: Option<Record>)

  /** The RA/CPF guard: a truthy `ra` or `cpf` in the body. */
  predicate TouchesImmutable(body: Record) {
    Truthy(Property(body, "ra")) || Truthy(Property(body, "cpf"))
  }

  /** `update(req, res, next)`: `const { ra, cpf, ...updatableData } = data`. */
  function Update(body: Record, updated: Db<Record>): (t: UpdateTrace)
    ensures TouchesImmutable(body) <==> t.forwarded.None?
    ensures TouchesImmutable(body) ==> t.reply == Next(BadRequestException(ImmutableFieldsMessage))
    ensures t.forwarded.Some? ==> "ra" !in t.forwarded.value && "cpf" !in t.forwarded.value
    ensures t.forwarded.Some? ==> forall k :: k in body && k != "ra" && k != "cpf" ==>
      k in t.forwarded.value && t.forwarded.value[k] == body[k]
    ensures t.forwarded.Some? ==> t.forwarded.value.Keys <= body.Keys
    ensures t.forwarded.Some? && updated.Done? ==> t.reply == Send(200, updated.value)
    ensures t.forwarded.Some? && updated.Threw? ==> t.reply == Next(SharedHandler(updated.error))
  {
    var updatableData := body - {"ra", "cpf"};
    if TouchesImmutable(body) then UpdateTrace(Next(BadRequestException(ImmutableFieldsMessage)), None)
    else
      match updated
      case Done(row) => UpdateTrace(Send(StatusCode.Success.Code(), row), Some(updatableData))
      case Threw(err) => UpdateTrace(Next(SharedHandler(err)), Some(updatableData))
  }

  /** The client of a guarded update receives 400 with the guard's message
      and the label "Bad Request". */
  lemma GuardedUpdateResponse(body: Record, updated: Db<Record>)
    requires TouchesImmutable(body)
    ensures var r := ErrorMiddleware.Render(ErrorMiddleware.FromException(Update(body, updated).reply.error));
      r.httpStatus == 400 && r.body.message == ImmutableFieldsMessage && r.body.error == Some("Bad Request")
  {
  }

  /** A falsy `ra` (here the empty string) passes the guard and is still
      dropped from the forwarded data; a new RA is refused. */
  lemma FalsyRaDropped(updated: Db<Record>)
    ensures Update(map["ra" := JStr(""), "name" := JStr("Jane")], updated).forwarded == Some(map["name" := JStr("Jane")])
    ensures Update(map["ra" := JStr("newRA")], updated).forwarded == None
  {
    var body := map["ra" := JStr(""), "name" := JStr("Jane")];
    assert body - {"ra", "cpf"} == map["name" := JStr("Jane")];
  }
}
