/** `UsersController.findAll`: clamped paging, the service query, and the
    paginated envelope. (`findById` is `Handlers.FindOne`.) */
module UsersController {
  import opened Wrappers
  import opened Json
  import opened HttpExceptions
  import opened Outcomes
  import opened ExceptionHandler
  import opened Pagination

  /** The query a list request sends to the service, and the reply. */
  datatype ListTrace = ListTrace(query: Query, reply: Reply<PageBody>)

  /** `findAll(req, res, next)`: the page and limit of the query string are
      clamped and passed unchanged to the service. */
  function FindAll(page: Option<int>, limit: Option<int>, order: Option<string>, fetched: Db<Listing>): (t: ListTrace)
    ensures t.query.take == ClampLimit(limit)
    ensures t.query.skip == (ClampPage(page) - 1) * ClampLimit(limit)
    ensures fetched.Threw? ==> t.reply == Next(SharedHandler(fetched.error))
    ensures fetched.Done? ==> t.reply.Send? && t.reply.status == 200
    ensures fetched.Done? ==> t.reply.body == Envelope(fetched.value, ClampPage(page), ClampLimit(limit))
  {
    var p, l := ClampPage(page), ClampLimit(limit);
    var query := FindAllQuery(Some(p), Some(l), order);
    match fetched
    case Done(listing) => ListTrace(query, Send(StatusCode.Success.Code(), Envelope(listing, p, l)))
    case Threw(err) => ListTrace(query, Next(SharedHandler(err)))
  }

  /** Page 1, and a missing or non-positive page, start at row 0; the envelope
      reports enough pages to hold every row. */
  lemma FindAllFirstPage(limit: Option<int>, order: Option<string>, fetched: Db<Listing>)
    ensures FindAll(Some(1), limit, order, fetched).query.skip == 0
    ensures FindAll(None, limit, order, fetched).query.skip == 0
    ensures FindAll(Some(-3), limit, order, fetched).query.skip == 0
    ensures fetched.Done? && fetched.value.count > 0 ==>
      var info := FindAll(None, limit, order, fetched).reply.body.pagination;
      (info.totalPages - 1) * info.limit < info.totalItems <= info.totalPages * info.limit
  {
  }

  /** Successive pages of the users list neither overlap nor leave gaps. */
  lemma UsersPagesPartitionRows(page: int, limit: Option<int>, order: Option<string>, fetched: Db<Listing>, n: int)
    requires page >= 1 && n >= 0
    ensures var l := ClampLimit(limit);
      OnPage(FindAll(Some(page), limit, order, fetched).query, n) <==> page == n / l + 1
  {
    PagesPartitionRows(ClampLimit(limit), order, n, page);
  }
}
