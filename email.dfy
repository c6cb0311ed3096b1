/** `normalizeEmail`: the anchored pattern
    `^[a-zA-Z0-9._%+-]+@[a-zA-Z0-9.-]+\.[a-zA-Z]{2,}$`, restated over
    character classes, and its success-or-Bad-Request result. */
module Email {
  import opened Wrappers
  import opened Strings
  import opened HttpExceptions

  /** `[a-zA-Z0-9._%+-]` */
  predicate IsLocalChar(c: char) {
    IsLetter(c) || IsDigit(c) || c in "._%+-"
  }

  /** `[a-zA-Z0-9.-]` */
  predicate IsDomainChar(c: char) {
    IsLetter(c) || IsDigit(c) || c in ".-"
  }

  /** `[a-zA-Z0-9._%+-]+` */
  predicate IsLocalPart(s: string) {
    |s| >= 1 && forall i :: 0 <= i < |s| ==> IsLocalChar(s[i])
  }

  /** `[a-zA-Z0-9.-]+` */
  predicate IsDomainPart(s: string) {
    |s| >= 1 && forall i :: 0 <= i < |s| ==> IsDomainChar(s[i])
  }

  /** `[a-zA-Z]{2,}` */
  predicate IsTopLevel(s: string) {
    |s| >= 2 && forall i :: 0 <= i < |s| ==> IsLetter(s[i])
  }

  /** The pattern matches `s` with its '@' at `at` and its escaped '.' at `dot`. */
  predicate MatchesAt(s: string, at: int, dot: int) {
    0 <= at < dot < |s| && s[at] == '@' && s[dot] == '.' &&
    IsLocalPart(s[..at]) && IsDomainPart(s[at + 1..dot]) && IsTopLevel(s[dot + 1..])
  }

  /** The anchored pattern matches `s`: some choice of its '@' and its last '.' fits. */
  ghost predicate MatchesPattern(s: string) {
    exists at, dot :: MatchesAt(s, at, dot)
  }

  /** The test without backtracking: the '@' must be the first one, and the
      escaped '.' must be the last dot. */
  predicate IsValidEmail(s: string) {
    match FirstIndex(s, '@')
    case None => false
    case Some(at) =>
      match LastIndex(s, '.')
      case None => false
      case Some(dot) => MatchesAt(s, at, dot)
  }

  /** Neither the domain part nor the top-level part contains an '@', so a
      match fixes the '@' and the dot. */
  lemma MatchIsUnique(s: string, at: int, dot: int)
    requires MatchesAt(s, at, dot)
    ensures FirstIndex(s, '@') == Some(at) && LastIndex(s, '.') == Some(dot)
    ensures '@' !in s[..at] && '@' !in s[at + 1..]
  {
    assert !IsLocalChar('@') && !IsDomainChar('@') && !IsLetter('@') && !IsLetter('.');
    var local, domain, top := s[..at], s[at + 1..dot], s[dot + 1..];
    assert s[at + 1..] == domain + ['.'] + top;
    assert '@' !in local by {
      forall i | 0 <= i < |local| ensures local[i] != '@' { assert IsLocalChar(local[i]); }
    }
    assert '@' !in domain by {
      forall i | 0 <= i < |domain| ensures domain[i] != '@' { assert IsDomainChar(domain[i]); }
    }
    assert '@' !in top && '.' !in top by {
      forall i | 0 <= i < |top| ensures top[i] != '@' && top[i] != '.' { assert IsLetter(top[i]); }
    }
  }

  /** The deterministic test is exactly the pattern. */
  lemma ValidIffMatches(s: string)
    ensures IsValidEmail(s) <==> MatchesPattern(s)
  {
    if MatchesPattern(s) {
      var at, dot :| MatchesAt(s, at, dot);
      MatchIsUnique(s, at, dot);
    }
  }

  const InvalidEmailMessage := "The email is not valid"

  /** `normalizeEmail(email, next)`: the e-mail itself, or the Bad Request passed to `next`. */
  function NormalizeEmail(email: string): (r: Result<string, HttpException>)
    ensures r.Success? ==> r.value == email
    ensures r.Failure? ==> r.error == BadRequestException(InvalidEmailMessage)
  {
    if IsValidEmail(email) then Result.Success(email) else Failure(BadRequestException(InvalidEmailMessage))
  }

  /** The e-mail is accepted, unchanged, exactly when the pattern matches it. */
  lemma NormalizeEmailMatches(email: string)
    ensures NormalizeEmail(email).Success? <==> MatchesPattern(email)
  {
    ValidIffMatches(email);
  }

  /** An accepted e-mail has exactly one '@', and a non-empty part before it. */
  lemma AcceptedHasOneAt(email: string)
    requires NormalizeEmail(email).Success?
    ensures multiset(email)['@'] == 1
    ensures exists at :: 0 < at < |email| && email[at] == '@' && '@' !in email[..at] && '@' !in email[at + 1..]
  {
    var at, dot := FirstIndex(email, '@').value, LastIndex(email, '.').value;
    assert MatchesAt(email, at, dot);
    MatchIsUnique(email, at, dot);
    var before, after := email[..at], email[at + 1..];
    assert email == before + [email[at]] + after;
    assert multiset(before)['@'] == 0 && multiset(after)['@'] == 0;
    assert multiset(email) == multiset(before) + multiset{'@'} + multiset(after);
  }

  /** After the last '.' of an accepted e-mail come at least two letters and
      nothing else, and between the '@' and that dot there is a non-empty domain. */
  lemma AcceptedTopLevel(email: string)
    requires NormalizeEmail(email).Success?
    ensures LastIndex(email, '.').Some? && FirstIndex(email, '@').Some?
    ensures var dot, at := LastIndex(email, '.').value, FirstIndex(email, '@').value;
      IsTopLevel(email[dot + 1..]) && at + 1 < dot && IsDomainPart(email[at + 1..dot])
  {
  }

  /** The address used by the controller test is accepted. */
  lemma SampleEmailAccepted()
    ensures NormalizeEmail("john@example.com") == Result.Success("john@example.com")
  {
    var good := "john@example.com";
    assert IsLocalPart(good[..4]) by { assert good[..4] == "john"; }
    assert IsDomainPart(good[5..12]) by { assert good[5..12] == "example"; }
    assert IsTopLevel(good[13..]) by { assert good[13..] == "com"; }
    assert MatchesAt(good, 4, 12);
    MatchIsUnique(good, 4, 12);
  }

  /** An address with no dot after the '@' is refused. */
  lemma SampleEmailRefused()
    ensures NormalizeEmail("john@example") == Result.Failure(BadRequestException(InvalidEmailMessage))
  {
    assert '.' !in "john@example";
  }
}
