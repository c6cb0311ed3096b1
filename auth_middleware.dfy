/** `requireAuth`: take the token from the Authorization header, verify it and,
    on success only, record the user id on the request. Token verification
    is a parameter: a function from the token to its payload, or `None` where
    the verifier throws. */
module AuthMiddleware {
  import opened Wrappers
  import opened Strings
  import opened HttpExceptions

  /** `s.split(" ")`. */
  function Split(s: string): (parts: seq<string>)
    ensures |parts| >= 1
    decreases |s|
  {
    match FirstIndex(s, ' ')
    case None => [s]
    case Some(i) => [s[..i]] + Split(s[i + 1..])
  }

  /** `parts.join(" ")`. */
  function Join(parts: seq<string>): string
    requires |parts| >= 1
  {
    if |parts| == 1 then parts[0] else parts[0] + " " + Join(parts[1..])
  }

  /** Splitting loses nothing, and no field contains a space. */
  lemma {:induction false} SplitJoin(s: string)
    ensures Join(Split(s)) == s
    ensures forall k :: 0 <= k < |Split(s)| ==> ' ' !in Split(s)[k]
    decreases |s|
  {
    match FirstIndex(s, ' ')
    case None =>
    case Some(i) =>
      SplitJoin(s[i + 1..]);
      assert s == s[..i] + " " + s[i + 1..];
      assert Split(s)[1..] == Split(s[i + 1..]);
  }

  /** `authHeader?.split(" ")[1]`: `None` is `undefined`. */
  function ExtractToken(header: Option<string>): Option<string> {
    match header
    case None => None
    case Some(h) =>
      var fields := Split(h);
      if |fields| > 1 then Some(fields[1]) else None
  }

  /** The token directly: what lies between the first space and the next
      space (or the end); there is none without a space. */
  function SecondField(h: string): Option<string> {
    match FirstIndex(h, ' ')
    case None => None
    case Some(i) =>
      var rest := h[i + 1..];
      match FirstIndex(rest, ' ')
      case None => Some(rest)
      case Some(k) => Some(rest[..k])
  }

  lemma ExtractTokenIsSecondField(h: string)
    ensures ExtractToken(Some(h)) == SecondField(h)
  {
    match FirstIndex(h, ' ')
    case None =>
    case Some(i) =>
      var rest := h[i + 1..];
      SplitFirst(h);
      SplitFirst(rest);
  }

  /** The first field is everything up to the first space; there is a second
      field exactly when there is a space. */
  lemma SplitFirst(s: string)
    ensures Split(s)[0] == (match FirstIndex(s, ' ') case None => s case Some(i) => s[..i])
    ensures FirstIndex(s, ' ').Some? ==> Split(s)[1..] == Split(s[FirstIndex(s, ' ').value + 1..])
    ensures |Split(s)| > 1 <==> FirstIndex(s, ' ').Some?
  {
  }

  /** Fields after the second are ignored: with no space in `scheme` and in
      `token`, the token is the same whatever follows it. */
  lemma LaterFieldsIgnored(scheme: string, token: string, rest: string)
    requires ' ' !in scheme && ' ' !in token
    ensures ExtractToken(Some(scheme + " " + token)) == Some(token)
    ensures ExtractToken(Some(scheme + " " + token + " " + rest)) == Some(token)
  {
    var h1, h2 := scheme + " " + token, scheme + " " + token + " " + rest;
    assert h1[..|scheme|] == scheme;
    FirstIndexAt(h1, ' ', |scheme|);
    assert h1[|scheme| + 1..] == token;
    assert h2[..|scheme|] == scheme;
    FirstIndexAt(h2, ' ', |scheme|);
    var tail := token + " " + rest;
    assert h2[|scheme| + 1..] == tail;
    assert tail[..|token|] == token;
    FirstIndexAt(tail, ' ', |token|);
    ExtractTokenIsSecondField(h1);
    ExtractTokenIsSecondField(h2);
  }

  /** The verified access token's payload. */
  datatype Payload = Payload(userId: string)

  /** `next()` with the user id recorded, or `next(error)`. */
  datatype AuthOutcome = Proceed(userId: string) | Refuse(error: HttpException)

  const MissingTokenMessage := "Access token required"
  const InvalidTokenMessage := "Invalid or required token"

  function Authenticate(header: Option<string>, verify: string -> Option<Payload>): (r: AuthOutcome)
    ensures r.Refuse? ==> r.error.status == 401
    ensures r.Proceed? ==> ExtractToken(header).Some? && verify(ExtractToken(header).value) == Some(Payload(r.userId))
  {
    match ExtractToken(header)
    case None => Refuse(UnauthorizedException(MissingTokenMessage))
    case Some(token) =>
      if token == "" then Refuse(UnauthorizedException(MissingTokenMessage))
      else
        match verify(token)
        case None => Refuse(UnauthorizedException(InvalidTokenMessage))
        case Some(payload) => Proceed(payload.userId)
  }

  /** Without a non-empty token the request is refused as unauthenticated, and
      the verifier is not consulted: any two verifiers give the same result. */
  lemma MissingToken(header: Option<string>, verify: string -> Option<Payload>, other: string -> Option<Payload>)
    requires ExtractToken(header).None? || ExtractToken(header) == Some("")
    ensures Authenticate(header, verify) == Refuse(UnauthorizedException(MissingTokenMessage))
    ensures Authenticate(header, verify) == Authenticate(header, other)
  {
  }

  /** With a non-empty token, the verifier alone decides. */
  lemma TokenPresent(header: Option<string>, verify: string -> Option<Payload>)
    requires ExtractToken(header).Some? && ExtractToken(header).value != ""
    ensures var token := ExtractToken(header).value;
      Authenticate(header, verify) ==
        match verify(token)
        case None => Refuse(UnauthorizedException(InvalidTokenMessage))
        case Some(p) => Proceed(p.userId)
  {
  }

  /** A missing header, a header without a space, and two spaces in a row are
      all "Access token required". */
  lemma EmptyTokenCases(verify: string -> Option<Payload>)
    ensures Authenticate(None, verify) == Refuse(UnauthorizedException(MissingTokenMessage))
    ensures Authenticate(Some("Bearer"), verify) == Refuse(UnauthorizedException(MissingTokenMessage))
    ensures Authenticate(Some("Bearer  x"), verify) == Refuse(UnauthorizedException(MissingTokenMessage))
  {
    assert ' ' !in "Bearer";
    LaterFieldsIgnored("Bearer", "", "x");
    assert "Bearer" + " " + "" + " " + "x" == "Bearer  x";
  }

  /** The request object; only `userId` is ever written. */
  class AuthRequest {
    const authorization: Option<string>
    var userId: Option<string>

    constructor (authorization: Option<string>)
      ensures this.authorization == authorization && userId == None
    {
      this.authorization := authorization;
      userId := None;
    }
  }

  /** `requireAuth(req, res, next)`: `req.userId` is assigned on the success path only. */
  method RequireAuth(req: AuthRequest, verify: string -> Option<Payload>) returns (outcome: AuthOutcome)
    modifies req
    ensures outcome == Authenticate(req.authorization, verify)
    ensures outcome.Proceed? ==> req.userId == Some(outcome.userId)
    ensures outcome.Refuse? ==> req.userId == old(req.userId)
  {
    var token := ExtractToken(req.authorization);
    if token.None? || token.value == "" {
      return Refuse(UnauthorizedException(MissingTokenMessage));
    }
    var payload := verify(token.value);
    if payload.None? {
      return Refuse(UnauthorizedException(InvalidTokenMessage));
    }
    req.userId := Some(payload.value.userId);
    return Proceed(payload.value.userId);
  }
}
