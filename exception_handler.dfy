/** `ExceptionHandler`: the table from a persistence error's code or name to the
    HTTP exception reported for it. The shared copy and the students' copy
    differ only in the message for `P2000`, so both are one `Classify`
    with that message as a parameter. */
module ExceptionHandler {
  import opened Wrappers
  import opened HttpExceptions
  import opened Outcomes

  /** The lookup key: `err.code` when it is truthy, else `err.name`. */
  function LookupKey(err: ErrorInfo): (k: string)
    ensures err.code.Some? && err.code.value != "" ==> k == err.code.value
    ensures err.code.None? || err.code.value == "" ==> k == err.name
  {
    match err.code
    case Some(c) => if c != "" then c else err.name
    case None => err.name
  }

  /** The keys of the table. */
  datatype Entry = UniqueViolation | RecordNotFound | ValueTooLong | ValidationError

  function Lookup(key: string): (r: Option<Entry>)
    ensures r == Some(UniqueViolation) <==> key == "P2002"
    ensures r == Some(RecordNotFound) <==> key == "P2025"
    ensures r == Some(ValueTooLong) <==> key == "P2000"
    ensures r == Some(ValidationError) <==> key == "PrismaClientValidationError"
  {
    if key == "P2002" then Some(UniqueViolation)
    else if key == "P2025" then Some(RecordNotFound)
    else if key == "P2000" then Some(ValueTooLong)
    else if key == "PrismaClientValidationError" then Some(ValidationError)
    else None
  }

  /** The text of `${err.meta?.target}`. */
  function TargetText(target: Option<string>): string {
    match target
    case Some(t) => t
    case None => "undefined"
  }

  function ConflictMessage(target: Option<string>): string {
    TargetText(target) + " is already in use"
  }

  const SharedTooLongMessage := "field exceeds the maximum length"
  const StudentsTooLongMessage := "The field is too long"

  function Classify(err: ErrorInfo, tooLongMessage: string): (e: HttpException)
    ensures Consistent(e)
    ensures e.status in {400, 409, 500}
  {
    match Lookup(LookupKey(err))
    case Some(UniqueViolation) => UniqueConstraintException(ConflictMessage(err.metaTarget))
    case Some(RecordNotFound) => BadRequestException("Record not found")
    case Some(ValueTooLong) => BadRequestException(tooLongMessage)
    case Some(ValidationError) => BadRequestException("The field is missing or invalid")
    case None => InternalErrorException("Internal server error")
  }

  /** `ExceptionHandler` of the shared utilities. */
  function SharedHandler(err: ErrorInfo): (e: HttpException)
    ensures Consistent(e)
    ensures e.status in {400, 409, 500}
    ensures LookupKey(err) == "P2000" ==> e == BadRequestException(SharedTooLongMessage)
  {
    Classify(err, SharedTooLongMessage)
  }

  /** `ExceptionHandler` of the students module. */
  function StudentsHandler(err: ErrorInfo): (e: HttpException)
    ensures Consistent(e)
    ensures e.status in {400, 409, 500}
    ensures LookupKey(err) == "P2000" ==> e == BadRequestException(StudentsTooLongMessage)
  {
    Classify(err, StudentsTooLongMessage)
  }

  /** The whole table, row by row, for either copy. */
  lemma ClassifyTable(err: ErrorInfo, tooLongMessage: string)
    ensures var k, e := LookupKey(err), Classify(err, tooLongMessage);
      && (k == "P2002" ==> e == UniqueConstraintException(TargetText(err.metaTarget) + " is already in use"))
      && (k == "P2025" ==> e == BadRequestException("Record not found"))
      && (k == "P2000" ==> e == BadRequestException(tooLongMessage))
      && (k == "PrismaClientValidationError" ==> e == BadRequestException("The field is missing or invalid"))
      && (k !in {"P2002", "P2025", "P2000", "PrismaClientValidationError"} ==> e == InternalErrorException("Internal server error"))
  {
  }

  /** The status is 409 exactly for a unique violation, 500 exactly for an
      unknown key, and 400 for the three other keys. */
  lemma ClassifyStatus(err: ErrorInfo, tooLongMessage: string)
    ensures var k, e := LookupKey(err), Classify(err, tooLongMessage);
      && (e.status == 409 <==> k == "P2002")
      && (e.status == 400 <==> k in {"P2025", "P2000", "PrismaClientValidationError"})
      && (e.status == 500 <==> Lookup(k).None?)
  {
  }

  /** A truthy code shadows the name: code `X9999` with a validation-error name
      still yields 500, while the same name with no code yields 400. */
  lemma CodeShadowsName()
    ensures SharedHandler(ErrorInfo(Some("X9999"), "PrismaClientValidationError", None)) == InternalErrorException("Internal server error")
    ensures SharedHandler(ErrorInfo(None, "PrismaClientValidationError", None)) == BadRequestException("The field is missing or invalid")
    ensures SharedHandler(ErrorInfo(Some(""), "PrismaClientValidationError", None)).status == 400
  {
  }

  /** A unique violation on `email` is reported as "email is already in use". */
  lemma UniqueViolationMessage()
    ensures SharedHandler(ErrorInfo(Some("P2002"), "PrismaClientKnownRequestError", Some("email"))) == UniqueConstraintException("email is already in use")
    ensures SharedHandler(ErrorInfo(Some("P2002"), "PrismaClientKnownRequestError", None)).message == "undefined is already in use"
  {
    var known := ErrorInfo(Some("P2002"), "PrismaClientKnownRequestError", Some("email"));
    assert LookupKey(known) == "P2002";
    assert ConflictMessage(Some("email")) == "email is already in use";
    assert ConflictMessage(None) == "undefined is already in use";
  }

  /** The two copies agree on every key in status and label, and their messages
      differ exactly for `P2000`. */
  lemma CopiesAgree(err: ErrorInfo)
    ensures SharedHandler(err).status == StudentsHandler(err).status
    ensures SharedHandler(err).error == StudentsHandler(err).error
    ensures SharedHandler(err).message != StudentsHandler(err).message <==> LookupKey(err) == "P2000"
  {
  }
}
