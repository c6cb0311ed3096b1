# class-backend request rules in Dafny

This project models the decision logic of the class-backend CRUD service, an
Express and Prisma backend that manages users and students. The logic covered is:

- the CPF validator `normalizeCpf`, with its two modulus-11 check digits;
- the e-mail validator `normalizeEmail`;
- the two copies of the persistence-error classifier `ExceptionHandler`;
- the `HttpException` family and the `errorMiddleware` serializer;
- the bearer-token extraction of `requireAuth`;
- the pagination arithmetic of the users and students list endpoints;
- the request rules of the users controller, of the compiled students
  controller and service, and of the older TypeScript students controller.

Every persistence call, and JWT verification, becomes an input. A database
result is a `Db<T>` (`Done(value)` or `Threw(error)`). The token verifier is a
function parameter. Where a handler would call `res.status(..).json(..)` or
`next(error)`, the model returns the reply as a value (`Send(status, body)` or
`Next(exception)`). The only mutable state in the core is the `userId` that
`requireAuth` sets on the request. It is a field of the class
`AuthMiddleware.AuthRequest`, which `RequireAuth` modifies.

Modules follow the source files:

| module | source |
|---|---|
| `Cpf` | src/shared/utils/normalize-cpf.utils.ts |
| `Email` | src/shared/utils/normalize-email.utils.ts |
| `ExceptionHandler` | src/shared/utils/exception-handler.ts and src/module/core/students/utils/exception-handler.ts |
| `HttpExceptions` | src/shared/exception/*.ts |
| `ErrorMiddleware` | src/shared/middleware/error.middleware.ts |
| `AuthMiddleware` | src/shared/middleware/auth.middleware.ts |
| `Pagination` | the `findAll` arithmetic of the services and controllers |
| `Handlers` | `findById`/`findByRa`/`delete`, shared by the users and compiled students controllers |
| `UsersController` | src/module/core/users/controller/users.controller.ts |
| `StudentsService` | dist/src/module/core/students/service/students.service.js |
| `StudentsController` | dist/src/module/core/students/controller/students.controller.js |
| `LegacyStudentsController` | src/module/core/students/controller/students.controller.ts |

`Wrappers`, `Strings`, `Json` and `Outcomes` hold the shared vocabulary:

- `Option` and `Result`;
- digit and letter classes, and first and last index;
- JSON values, records and JavaScript truthiness;
- the `ErrorInfo` of a thrown error (`code`, `name`, `meta.target`), and the reply of a handler.

## The repeated-digit test

src/shared/utils/normalize-cpf.utils.ts:5-14 tests for a repeated digit once.
The pattern is built from the first character of the RAW input, repeated eleven
times. It is tested against the STRIPPED digits, after the length check:

- `Cpf.SameNumberPatternOf` turns the raw first character into a pattern;
- `Cpf.SameNumberTest` applies that pattern to the stripped digits.

The outcome for eleven stripped ones therefore depends on the raw first character:

- '1': rejected as "Invalid CPF" (`Cpf.RepeatedDigitRejected`, `Cpf.AllOnesRejected`);
- '.', '^', '$' or '|': rejected as "Invalid CPF", as is every other eleven-digit
  input behind them (`Cpf.LeadingDotRejectsAll`, `Cpf.EmptyMatchPrefixRejectsAll`,
  `Cpf.RepeatedOnesBehindMetacharacters`);
- '\\', '(', ')', '[', '*', '+' or '?': the pattern constructor throws
  (`Cpf.RejectionsAreBadRequests`);
- any other non-digit: accepted (`Cpf.LiteralPrefixAccepted`, `Cpf.LeadingSpaceAcceptsRepeated`).

The consequences are under "## Findings".

## Model

| member | source | states |
|---|---|---|
| Cpf.StripNonDigits | src/shared/utils/normalize-cpf.utils.ts:6 | the stripped CPF consists of digits only and is no longer than the input |
| Cpf.StripKeepsDigits | src/shared/utils/normalize-cpf.utils.ts:6 | stripping keeps every digit: each digit occurs as often in the result as in the input |
| Cpf.StripConcat | src/shared/utils/normalize-cpf.utils.ts:6 | stripping a concatenation is the concatenation of the stripped parts |
| Cpf.StripDigitsUnchanged | src/shared/utils/normalize-cpf.utils.ts:6 | a string of digits is unchanged by stripping |
| Cpf.StripIdempotent | src/shared/utils/normalize-cpf.utils.ts:6 | stripping twice equals stripping once |
| Cpf.SameNumberPatternOf | src/shared/utils/normalize-cpf.utils.ts:5 | a digit as first character gives the literal pattern of that digit eleven times |
| Cpf.DigitChar | src/shared/utils/normalize-cpf.utils.ts:26 | the character written for a value 0..9 is the digit of that value |
| Cpf.CheckDigitOfSum | src/shared/utils/normalize-cpf.utils.ts:24-26 | always a single decimal digit, and "0" exactly when the remainder mod 11 is below 2; its value otherwise is pinned by `Cpf.CheckDigitReference` |
| Cpf.CheckDigit | src/shared/utils/normalize-cpf.utils.ts:16-27 | the check digit of a digit string is a single decimal digit |
| Cpf.CheckDigitReference | src/shared/utils/normalize-cpf.utils.ts:24-26 | the check digit equals the digit-preserving reference formula ((10·sum) mod 11) mod 10, so the two-character "10" never arises |
| Cpf.NineDigitWeights | src/shared/utils/normalize-cpf.utils.ts:18-22 | for 9 digits, the loop's weights are 10 down to 2 |
| Cpf.TenDigitWeights | src/shared/utils/normalize-cpf.utils.ts:18-22 | for 10 digits, the loop's weights are 11 down to 2 |
| Cpf.VerifyingDigit | src/shared/utils/normalize-cpf.utils.ts:16-27 | the `for` loop that accumulates the weighted sum yields the check digit of its input |
| Cpf.Candidate | src/shared/utils/normalize-cpf.utils.ts:29-34 | the rebuilt CPF has 11 digits and keeps the first nine of the input |
| Cpf.NormalizeCpf | src/shared/utils/normalize-cpf.utils.ts:4-39 | the validator's straight-line early returns produce the outcome of `Validate` |
| Cpf.CandidateMatches | src/shared/utils/normalize-cpf.utils.ts:29-36 | the rebuilt CPF equals the input iff its 10th and 11th digits are the two computed check digits |
| Cpf.RejectionsAreBadRequests | src/shared/utils/normalize-cpf.utils.ts:8-39 | every rejection is one Bad Request with one of the two messages; the validator throws iff the input is empty or its first character makes the pattern malformed |
| Cpf.WrongLength | src/shared/utils/normalize-cpf.utils.ts:8-10 | a stripped length other than 11 gives Bad Request "CPF must have 11 digits" |
| Cpf.RepeatedDigitRejected | src/shared/utils/normalize-cpf.utils.ts:5-14 | when the raw first character is a digit d and the stripped CPF is d eleven times, the result is Bad Request "Invalid CPF" |
| Cpf.CheckDigitsDecide | src/shared/utils/normalize-cpf.utils.ts:29-38 | for a digit-first input with 11 non-repeated stripped digits, accepted iff both check digits match, else Bad Request "Invalid CPF" |
| Cpf.DigitsVerdict | src/shared/utils/normalize-cpf.utils.ts:12-38 | for 11 non-repeated digits, the verdict is exactly the check-digit comparison |
| Cpf.TamperedCheckDigit | src/shared/utils/normalize-cpf.utils.ts:36-38 | changing the last digit of an accepted CPF makes it rejected |
| Cpf.IncrementedCheckDigit | src/shared/utils/normalize-cpf.utils.ts:36-38 | incrementing the last digit (mod 10) of an accepted CPF makes it rejected |
| Cpf.VerdictFromSums | src/shared/utils/normalize-cpf.utils.ts:16-38 | given the two weighted sums, the verdict is the comparison with their check digits |
| Cpf.ServiceTestCpfAccepted | src/module/core/students/tests/students-service.test.ts:50 | "02431097684" is accepted |
| Cpf.ControllerTestCpfAccepted | src/module/core/students/tests/students-controller.test.ts:48 | "03461242632" is accepted |
| Cpf.ReferenceCpfAccepted | src/shared/utils/normalize-cpf.utils.ts:16-38 | the textbook CPF "11144477735" is accepted |
| Cpf.AllOnesRejected | src/shared/utils/normalize-cpf.utils.ts:12-14 | "11111111111" is rejected as "Invalid CPF" |
| Cpf.TooShortRejected | src/shared/utils/normalize-cpf.utils.ts:8-10 | "123" is rejected as "CPF must have 11 digits" |
| Cpf.TooLongRejected | src/shared/utils/normalize-cpf.utils.ts:8-10 | a 12-digit input is rejected as "CPF must have 11 digits" |
| Cpf.DigitsOfWrongLength | src/shared/utils/normalize-cpf.utils.ts:8-10 | any non-empty run of digits that is not eleven long is rejected as "CPF must have 11 digits" |
| Cpf.RepeatedDigitsPassCheckDigits | src/shared/utils/normalize-cpf.utils.ts:12-36 | every repeated-digit CPF passes the check-digit comparison, so only the repeated-digit test rejects it |
| Cpf.ValidateIntended | src/shared/utils/normalize-cpf.utils.ts:5-14 | the corrected validator never throws |
| Cpf.IntendedIgnoresFormatting | src/shared/utils/normalize-cpf.utils.ts:5-6 | the corrected verdict depends only on the stripped digits |
| Cpf.IntendedAccepts | src/shared/utils/normalize-cpf.utils.ts:5-38 | the corrected validator accepts iff there are 11 stripped digits, they are not all equal, and both check digits match |
| Cpf.IntendedAgreesOnDigitFirst | src/shared/utils/normalize-cpf.utils.ts:5-14 | on inputs starting with a digit, the corrected validator agrees with the code as written |
| Cpf.LeadingSpaceAcceptsRepeated | src/shared/utils/normalize-cpf.utils.ts:5-12 | as written, " 11111111111" is accepted |
| Cpf.LiteralPrefixAccepted | src/shared/utils/normalize-cpf.utils.ts:5-14 | as written, behind a literal non-digit first character, eleven digits with matching check digits are accepted, repeated ones included |
| Cpf.LeadingSpaceRejectedWhenCorrected | src/shared/utils/normalize-cpf.utils.ts:12-14 | corrected, " 11111111111" is rejected as "Invalid CPF" |
| Cpf.IntendedRejectsRepeated | src/shared/utils/normalize-cpf.utils.ts:12-14 | corrected, eleven equal digits are always rejected as "Invalid CPF" |
| Cpf.LeadingDotRejectsAll | src/shared/utils/normalize-cpf.utils.ts:5-14 | as written, a '.' in front of any 11 digits is rejected as "Invalid CPF" |
| Cpf.EmptyMatchPrefixRejectsAll | src/shared/utils/normalize-cpf.utils.ts:5-14 | as written, a '^', '$' or vertical bar in front of any 11 digits is rejected as "Invalid CPF" |
| Cpf.RepeatedOnesBehindMetacharacters | src/shared/utils/normalize-cpf.utils.ts:5-14 | as written, eleven ones behind '.', '^', '$' or a vertical bar are rejected as "Invalid CPF" |
| Cpf.IntendedIgnoresPrefix | src/shared/utils/normalize-cpf.utils.ts:5-6 | corrected, a non-digit in front changes nothing |
| Cpf.LeadingDotRejectsValid | src/shared/utils/normalize-cpf.utils.ts:5-14 | ".02431097684" is rejected as written and accepted when corrected |
| Email.MatchIsUnique | src/shared/utils/normalize-email.utils.ts:5 | a match of the pattern has its '@' at the first '@' and its dot at the last '.', and has no other '@' |
| Email.ValidIffMatches | src/shared/utils/normalize-email.utils.ts:5-6 | the executable test holds iff some split of the string matches local@domain.tld of the pattern |
| Email.NormalizeEmail | src/shared/utils/normalize-email.utils.ts:8-10 | on success the e-mail is returned unchanged; on failure the result is Bad Request "The email is not valid" |
| Email.NormalizeEmailMatches | src/shared/utils/normalize-email.utils.ts:4-11 | the e-mail is accepted iff it matches the pattern |
| Email.AcceptedHasOneAt | src/shared/utils/normalize-email.utils.ts:5 | an accepted e-mail contains exactly one '@', with a non-empty part before it |
| Email.AcceptedTopLevel | src/shared/utils/normalize-email.utils.ts:5 | after the last '.' of an accepted e-mail come at least two letters and only letters, and the domain before that dot is non-empty |
| Email.SampleEmailAccepted | src/shared/utils/normalize-email.utils.ts:5-8 | "john@example.com" is accepted unchanged |
| Email.SampleEmailRefused | src/shared/utils/normalize-email.utils.ts:5-10 | "john@example" is refused with "The email is not valid" |
| ExceptionHandler.LookupKey | src/shared/utils/exception-handler.ts:18 | the key is the code when it is truthy, otherwise the name |
| ExceptionHandler.Lookup | src/shared/utils/exception-handler.ts:6-16 | the table has exactly the keys P2002, P2025, P2000 and PrismaClientValidationError |
| ExceptionHandler.Classify | src/shared/utils/exception-handler.ts:5-22 | the classifier is total, its exception is consistent, and its status is 400, 409 or 500 |
| ExceptionHandler.SharedHandler | src/shared/utils/exception-handler.ts:12 | the shared copy answers P2000 with "field exceeds the maximum length" |
| ExceptionHandler.StudentsHandler | src/module/core/students/utils/exception-handler.ts:12 | the students' copy answers P2000 with "The field is too long" |
| ExceptionHandler.ClassifyTable | src/shared/utils/exception-handler.ts:7-21 | P2002 gives Conflict "<target> is already in use"; P2025 gives Bad Request "Record not found"; P2000 gives Bad Request with the copy's message; PrismaClientValidationError gives Bad Request "The field is missing or invalid"; any other key gives Internal Error "Internal server error" |
| ExceptionHandler.ClassifyStatus | src/shared/utils/exception-handler.ts:6-21 | 409 iff the key is P2002, 500 iff it is not in the table, otherwise 400 |
| ExceptionHandler.CodeShadowsName | src/shared/utils/exception-handler.ts:18 | code "X9999" with name PrismaClientValidationError gives 500; without a code, or with the empty code, the name decides |
| ExceptionHandler.UniqueViolationMessage | src/shared/utils/exception-handler.ts:7-8 | the conflict message embeds the target, or "undefined" when there is none |
| ExceptionHandler.CopiesAgree | src/module/core/students/utils/exception-handler.ts:6-21 | for every error, both copies agree on status and label; the messages differ iff the key is P2000 |
| HttpExceptions.StatusFromCode | src/shared/exception/http-exception.exception.ts:16-26 | a number maps back to the enum member with that value, or to none when no member has it |
| HttpExceptions.StatusCodeRoundTrip | src/shared/exception/http-exception.exception.ts:16-26 | code and enum member convert into each other, so the nine values are pairwise distinct |
| HttpExceptions.NewHttpException | src/shared/exception/http-exception.exception.ts:7-13 | `status` and `statusCode` both equal the status argument; message and optional error are stored unchanged |
| HttpExceptions.ConstructorRoundTrip | src/shared/exception/http-exception.exception.ts:2-13 | an exception is consistent iff rebuilding it from its fields gives it back; a constructed one returns its arguments |
| HttpExceptions.BadRequestException | src/shared/exception/bad-request.exception.ts:4-5 | status 400, label "Bad Request", message unchanged, `statusCode` equals `status` |
| HttpExceptions.UniqueConstraintException | src/shared/exception/unique-constraint.exception.ts:4-5 | status 409, label "Conflict", message unchanged, `statusCode` equals `status` |
| HttpExceptions.InternalErrorException | src/shared/exception/internal-error.exception.ts:4-5 | status 500, label "Internal Server Error", message unchanged, `statusCode` equals `status` |
| HttpExceptions.NotFoundException | src/shared/exception/not-found.exception.ts:4-5 | status 404, label "Not Found", message unchanged, `statusCode` equals `status` |
| HttpExceptions.UnauthorizedException | src/shared/exception/unauthorized.exception.ts:4-5 | status 401, label "Unauthorized", message unchanged, `statusCode` equals `status` |
| HttpExceptions.SubclassFromStatus | src/shared/exception/http-exception.exception.ts:16-22 | the subclass of an exception is recovered from its status, and its message is kept |
| ErrorMiddleware.StatusOrDefault | src/shared/middleware/error.middleware.ts:10 | the status when it is truthy, else 500 |
| ErrorMiddleware.Render | src/shared/middleware/error.middleware.ts:10-13 | the body's status equals the HTTP status; the message defaults to "Something went wrong" when empty; the error label passes through |
| ErrorMiddleware.RenderSubclass | src/shared/middleware/error.middleware.ts:10-13 | for every subclass, the response status is that subclass's fixed code |
| ErrorMiddleware.RenderException | src/shared/middleware/error.middleware.ts:10-13 | a consistent exception is answered with its own status code and fields |
| AuthMiddleware.Split | src/shared/middleware/auth.middleware.ts:13 | splitting always yields at least one field |
| AuthMiddleware.SplitJoin | src/shared/middleware/auth.middleware.ts:13 | joining the fields with single spaces gives the header back, and no field contains a space |
| AuthMiddleware.ExtractTokenIsSecondField | src/shared/middleware/auth.middleware.ts:12-13 | the token is field 1 of the header split on single spaces |
| AuthMiddleware.LaterFieldsIgnored | src/shared/middleware/auth.middleware.ts:13 | "scheme token" and "scheme token rest" give the same token |
| AuthMiddleware.Authenticate | src/shared/middleware/auth.middleware.ts:15-25 | every refusal is a 401; proceeding means the token was present and verified to that user |
| AuthMiddleware.MissingToken | src/shared/middleware/auth.middleware.ts:15 | a missing or empty token gives Unauthorized "Access token required", whatever the verifier |
| AuthMiddleware.TokenPresent | src/shared/middleware/auth.middleware.ts:16-25 | with a non-empty token, a failed verification gives Unauthorized "Invalid or required token" and a success proceeds with the payload's user |
| AuthMiddleware.EmptyTokenCases | src/shared/middleware/auth.middleware.ts:13-15 | no header, "Bearer" and "Bearer  x" are all refused as missing a token |
| AuthMiddleware.AuthRequest.constructor | src/shared/middleware/auth.middleware.ts:12 | a request starts with its header and no user |
| AuthMiddleware.RequireAuth | src/shared/middleware/auth.middleware.ts:7-27 | the outcome is `Authenticate`'s; `userId` is set to the payload's user on success and left unchanged otherwise |
| Pagination.NumberOr | src/module/core/users/service/users.service.ts:9-11 | `Number(x) || d`: the value unless it is missing or zero |
| Pagination.Clamp | src/module/core/users/controller/users.controller.ts:20-21 | the clamped value is at least 1, a positive value is kept, a negative one becomes 1, and a missing or zero one takes the default |
| Pagination.ClampPage | src/module/core/users/controller/users.controller.ts:20 | the page is at least 1 |
| Pagination.ClampLimit | src/module/core/users/controller/users.controller.ts:21 | the limit is at least 1 and defaults to 10 |
| Pagination.FindAllQuery | src/module/core/users/service/users.service.ts:8-17 | take is the limit or 10; skip is (page or 1, minus 1) times take; the order defaults to "desc" |
| Pagination.OffsetIsWholePages | src/module/core/users/service/users.service.ts:9-14 | skip is a whole number of pages, and page 1 starts at 0 |
| Pagination.PagesPartitionRows | src/module/core/users/service/users.service.ts:10-14 | consecutive pages are contiguous, and every row n is on page n / limit + 1 and on no other |
| Pagination.TotalPages | src/module/core/users/controller/users.controller.ts:38 | ceil(count / limit): 0 for no rows, otherwise (pages − 1)·limit < count ≤ pages·limit |
| Pagination.Envelope | src/module/core/users/controller/users.controller.ts:32-40 | the envelope carries the rows, echoes page and limit, and reports the count and its page total |
| Handlers.FindOne | src/module/core/users/controller/users.controller.ts:51-64 | the record with 200, Not Found "User not found" when there is none, or the classified failure |
| Handlers.Remove | src/module/core/users/controller/users.controller.ts:67-77 | 204 on success, or the classified failure |
| Handlers.FindOneStatuses | dist/src/module/core/students/controller/students.controller.js:44-74 | the client receives 200, 404, 400, 409 or 500, and 404 exactly when no record was found |
| Handlers.RemoveStatuses | dist/src/module/core/students/controller/students.controller.js:107-118 | the client receives 204 exactly on success, otherwise 400, 409 or 500 |
| UsersController.FindAll | src/module/core/users/controller/users.controller.ts:18-48 | the service gets take = limit and skip = (page − 1)·limit; a result is sent with 200 in the envelope; a failure is classified |
| UsersController.FindAllFirstPage | src/module/core/users/controller/users.controller.ts:20-38 | page 1, a missing page and a negative page start at row 0; the reported page count covers every row |
| UsersController.UsersPagesPartitionRows | src/module/core/users/controller/users.controller.ts:20-29 | every row is on exactly one page of the users list |
| StudentsService.CpfCheck | dist/src/module/core/students/service/students.service.js:20-21 | a string CPF is validated; any other CPF value makes the validator throw a TypeError |
| StudentsService.Create | dist/src/module/core/students/service/students.service.js:19-23 | the record is built unless validation threw, and it equals the body as supplied |
| StudentsService.RecordKeepsRawCpf | dist/src/module/core/students/service/students.service.js:20-22 | the record keeps the CPF unnormalised, and is built even when the CPF was rejected |
| StudentsController.FindAll | dist/src/module/core/students/controller/students.controller.js:12-42 | the service gets page − 1; an empty result is Not Found "No students found"; otherwise 200 with the envelope; a failure is classified |
| StudentsController.FindAllOffset | dist/src/module/core/students/controller/students.controller.js:14-21 | composed with the service, skip is 0 for pages 1 and 2 and (page − 2)·limit beyond |
| StudentsController.FirstTwoPagesCoincide | dist/src/module/core/students/controller/students.controller.js:21 | pages 1 and 2 send the same query |
| StudentsController.EmptyPageIsNotFound | dist/src/module/core/students/controller/students.controller.js:23-25 | an empty page gives 404 whatever the total count |
| StudentsController.FindAllIntended | dist/src/module/core/students/controller/students.controller.js:21 | corrected, the query is the users controller's and the reply is unchanged |
| StudentsController.IntendedPagesPartitionRows | dist/src/module/core/students/controller/students.controller.js:14-21 | corrected, every row is on exactly one page |
| StudentsController.Create | dist/src/module/core/students/controller/students.controller.js:76-87 | a thrown validator is classified and nothing is inserted; a rejected CPF is reported, then the insert is answered as well (201 or the classified failure); an accepted CPF gets only the insert's answer |
| StudentsController.InsertReply | dist/src/module/core/students/controller/students.controller.js:80-85 | 201 with the new record, or the classified failure |
| StudentsController.CreateWithoutCpf | dist/src/module/core/students/controller/students.controller.js:76-87 | a body without a CPF ends in one 500 reply and no insert |
| StudentsController.InvalidCpfStillInserted | dist/src/module/core/students/service/students.service.js:21-22 | as written, CPF "123" is answered 400, the student is inserted, and a 201 reply is then attempted |
| StudentsController.CreateChecked | dist/src/module/core/students/controller/students.controller.js:76-87 | corrected, one reply, and an insert iff the CPF is accepted |
| StudentsController.CheckedRejectsWithoutInsert | dist/src/module/core/students/controller/students.controller.js:76-87 | corrected, a rejected CPF yields one 400 and no insert |
| StudentsController.Update | dist/src/module/core/students/controller/students.controller.js:89-105 | a truthy `ra` or `cpf` gives Bad Request "RA and CPF fields cannot be updated" and no update; otherwise the forwarded data is the body without `ra` and `cpf`, every other field unchanged |
| StudentsController.GuardedUpdateResponse | dist/src/module/core/students/controller/students.controller.js:95-97 | the client of a guarded update receives 400 with that message and the label "Bad Request" |
| StudentsController.FalsyRaDropped | dist/src/module/core/students/controller/students.controller.js:93-98 | an empty `ra` passes the guard and is still dropped; a new RA is refused |
| LegacyStudentsController.ServerError | src/module/core/students/controller/students.controller.ts:21 | the failure of the older handlers is a 500 "Internal server error" |
| LegacyStudentsController.FindAll | src/module/core/students/controller/students.controller.ts:14-23 | the rows with 200, or 500 for any failure |
| LegacyStudentsController.FindOne | src/module/core/students/controller/students.controller.ts:26-55 | the record with 200, 404 with message "User not found" sent directly, or 500 |
| LegacyStudentsController.CreateFailure | src/module/core/students/controller/students.controller.ts:65-70 | a known request error gives Conflict "RA is already in use", anything else 500; 409 iff the error is of that kind |
| LegacyStudentsController.ServiceFailure | src/module/core/students/service/students.service.ts:20-23 | the older service throws iff the CPF is not accepted, since its `next` is undefined |
| LegacyStudentsController.Create | src/module/core/students/controller/students.controller.ts:58-72 | 201 with the new record, or the classified failure of the service or of the insert |
| LegacyStudentsController.RejectedCpfIsServerError | src/module/core/students/controller/students.controller.ts:62-70 | every CPF the validator does not accept ends in 500 |
| LegacyStudentsController.DuplicateRaIsConflict | src/module/core/students/controller/students.controller.ts:67-69 | a known-request refusal of the insert gives 409 "RA is already in use" |
| LegacyStudentsController.Update | src/module/core/students/controller/students.controller.ts:75-86 | the body is forwarded unchanged, `ra` and `cpf` included; 200 with the result, or 500 |
| LegacyStudentsController.Delete | src/module/core/students/controller/students.controller.ts:89-99 | 204 with no body, or 500 |
| LegacyStudentsController.FailuresAreServerErrors | src/module/core/students/controller/students.controller.ts:14-99 | a failure of findAll, findById/findByRa, update or delete always reaches the client as 500 |

## Left out

- Prisma persistence is not modelled. Query results and thrown errors are inputs (`Db<T>`). A thrown error is its `code`, `name` and `meta.target`.
- `meta.target` is taken as text already formatted for the conflict message. Prisma usually gives an array of field names, which the template literal joins with commas; that joining is not modelled.
- JWT verification is a function parameter from token to payload or failure. The payload's `userId` is taken to be a string.
- bcrypt, the auth controller and auth service, logging, routing, server bootstrap and the OpenAPI comments are not part of this model.
- `Promise.all` is treated as two sequential calls. The count and the rows of a list request arrive together as one `Listing`.
- `Number()` parsing of the query string is not modelled. A parsed page or limit is an `Option<int>`, with `None` for missing or NaN. Fractional values are not modelled.
- Express behaviour is not modelled beyond the reply values:
  - what happens to a second reply after the first: the compiled students `create` can make two, and Express sends only the first, the 400;
  - the `throw next(...)` idiom, where `next` returns nothing and the throw reaches Express.
- The JavaScript `RegExp` engine is not modelled. The first character of a raw CPF only selects one of four pattern kinds in `Cpf.SameNumberPatternOf`:
  - a literal run of one character;
  - '.', which matches any eleven characters;
  - '^', '$' and '|', which match the empty string;
  - '\\', '(', ')', '[', '*', '+' and '?', which make the constructor throw a SyntaxError.
- Other regex metacharacters in first position are not modelled. '{', ']' and '}' are taken as literals.
- `ExceptionHandler` is keyed only by the four table keys. A key that names an `Object.prototype` member, such as "constructor", is not modelled.
- A non-string `cpf` in the body (a number, an array) is not modelled. Every non-string value is taken to make the validator throw a TypeError at its first statement. For some values, such as an array, JavaScript would go further.
- `LegacyStudentsController.CreateFailure`: `instanceof PrismaClientKnownRequestError` is modelled as the error's name being "PrismaClientKnownRequestError".
- The users controller's `delete` is `Handlers.Remove`, and the compiled students controller's `findById`, `findByRa` and `delete` reuse `Handlers.FindOne` and `Handlers.Remove`. The compiled and duplicated copies of the exceptions, the middleware and the e-mail validator share the definitions above.
- The student exceptions of src/module/core/students/exception are not modelled separately. They have the same status and label as the shared classes, and the older controller uses them under those definitions.

## Findings

| source | as written | input that shows it | evidently intended | confidence | as-written member | corrected member |
|---|---|---|---|---|---|---|
| dist/src/module/core/students/controller/students.controller.js:21 | the controller passes `page - 1` to a service that subtracts 1 again | page 1 and page 2 both give skip 0, and page 3 gives skip = limit | page p starts at row (p − 1)·limit, as in the users controller | high, not executed | StudentsController.FirstTwoPagesCoincide | StudentsController.IntendedPagesPartitionRows |
| src/shared/utils/normalize-cpf.utils.ts:5 | the repeated-digit pattern is built from the first raw character, not from the stripped digits | " 11111111111" is accepted, and ".02431097684" (a valid CPF behind a dot) is rejected | reject exactly the stripped CPFs made of one repeated digit | high, not executed | Cpf.LeadingSpaceAcceptsRepeated | Cpf.LeadingSpaceRejectedWhenCorrected |
| dist/src/module/core/students/service/students.service.js:21-22 | the outcome of `normalizeCpf` is ignored, and the student is inserted anyway | body `{"cpf": "123"}` gets a 400, is still inserted, and a 201 reply is then attempted | insert only a CPF that passed validation | high, not executed | StudentsController.InvalidCpfStillInserted | StudentsController.CheckedRejectsWithoutInsert |
