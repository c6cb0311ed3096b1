/** Request-handler rules shared, line for line, by the users controller and
    the compiled students controller: fetching one record and deleting one.
    Every failure of the persistence call is classified by the shared
    `ExceptionHandler`. */
module Handlers {
  import opened Wrappers
  import opened Json
  import opened HttpExceptions
  import opened Outcomes
  import opened ExceptionHandler

  const NotFoundMessage := "User not found"

  /** `findById` (users and students) and `findByRa` (students): the record
      with status 200, or Not Found "User not found" when there is none. */
  function FindOne(found: Db<Option<Record>>): (r: Reply<Record>)
    ensures found == Done(None) ==> r == Next(NotFoundException(NotFoundMessage))
    ensures found.Done? && found.value.Some? ==> r == Send(200, found.value.value)
    ensures found.Threw? ==> r == Next(SharedHandler(found.error))
  {
    match found
    case Done(Some(row)) => Send(StatusCode.Success.Code(), row)
    case Done(None) => Next(NotFoundException(NotFoundMessage))
    case Threw(err) => Next(SharedHandler(err))
  }

  /** `delete`: status 204 with no body, or the classified failure. */
  function Remove(deleted: Db<()>): (r: Reply<()>)
    ensures deleted.Done? ==> r == Send(204, ())
    ensures deleted.Threw? ==> r == Next(SharedHandler(deleted.error))
  {
    match deleted
    case Done(_) => Send(NoContent.Code(), ())
    case Threw(err) => Next(SharedHandler(err))
  }

  /** What the client of `FindOne` can receive: 200, 404, or one of the
      classifier's 400, 409 and 500; 404 exactly when there is no record. */
  lemma FindOneStatuses(found: Db<Option<Record>>)
    ensures ReplyStatus(FindOne(found)) in {200, 404, 400, 409, 500}
    ensures ReplyStatus(FindOne(found)) == 404 <==> found == Done(None)
  {
    if found.Threw? {
      assert Consistent(SharedHandler(found.error));
    }
  }

  /** What the client of `Remove` can receive: 204 on success, else 400, 409 or 500. */
  lemma RemoveStatuses(deleted: Db<()>)
    ensures ReplyStatus(Remove(deleted)) in {204, 400, 409, 500}
    ensures ReplyStatus(Remove(deleted)) == 204 <==> deleted.Done?
  {
  }
}
