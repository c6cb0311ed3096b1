/** `normalizeCpf`: the Brazilian CPF check with two modulus-11 check digits.
    The source reports a failure through `next(error)` and returns nothing on
    success; here the outcome is a value. */
module Cpf {
  import opened Wrappers
  import opened Strings
  import opened HttpExceptions
  import opened Outcomes

  /** `Accepted`: nothing was reported. `Rejected`: exactly one exception was
      passed to `next`. `Crashed`: the function threw before reporting anything. */
  datatype CpfOutcome = Accepted | Rejected(error: HttpException) | Crashed(thrown: ErrorInfo)

  const LengthMessage := "CPF must have 11 digits"
  const InvalidMessage := "Invalid CPF"

  // ---------------------------------------------------------------- stripping

  /** `cpf.replace(/\D/g, "")`. */
  function StripNonDigits(s: string): (r: string)
    ensures AllDigits(r)
    ensures |r| <= |s|
  {
    if s == [] then []
    else if IsDigit(s[0]) then [s[0]] + StripNonDigits(s[1..])
    else StripNonDigits(s[1..])
  }

  /** Stripping removes exactly the non-digits: every digit occurs as often
      in the result as in the input. */
  lemma {:induction false} StripKeepsDigits(s: string, c: char)
    requires IsDigit(c)
    ensures multiset(StripNonDigits(s))[c] == multiset(s)[c]
  {
    if s != [] {
      assert s == [s[0]] + s[1..];
      StripKeepsDigits(s[1..], c);
    }
  }

  /** Stripping keeps the order of the digits: it distributes over concatenation. */
  lemma {:induction false} StripConcat(a: string, b: string)
    ensures StripNonDigits(a + b) == StripNonDigits(a) + StripNonDigits(b)
  {
    if a == [] {
      assert a + b == b;
    } else {
      assert (a + b)[1..] == a[1..] + b;
      StripConcat(a[1..], b);
    }
  }

  /** A string of digits is left unchanged. */
  lemma {:induction false} StripDigitsUnchanged(s: string)
    requires AllDigits(s)
    ensures StripNonDigits(s) == s
  {
    if s != [] {
      StripDigitsUnchanged(s[1..]);
    }
  }

  /** Stripping twice is stripping once. */
  lemma StripIdempotent(s: string)
    ensures StripNonDigits(StripNonDigits(s)) == StripNonDigits(s)
  {
    StripDigitsUnchanged(StripNonDigits(s));
  }

  // ------------------------------------------------------ the repeated-digit regex

  /** What `new RegExp(c.repeat(11))` is for a first character `c`: a literal
      string of eleven `c`; `.` repeated, which matches any eleven characters;
      a pattern that matches the empty string (`^`, `$` or `|` repeated); or a
      malformed pattern, on which `new RegExp` throws a `SyntaxError`. */
  datatype SameNumberPattern = Literal(c: char) | AnyEleven | MatchesEmpty | Malformed

  function SameNumberPatternOf(c: char): (p: SameNumberPattern)
    ensures IsDigit(c) ==> p == Literal(c)
  {
    if c == '.' then AnyEleven
    else if c in "^$|" then MatchesEmpty
    else if c in "\\()[*+?" then Malformed
    else Literal(c)
  }

  /** `same_number.test(cpf)`, at the one point where it is used: on a stripped
      string of exactly eleven characters. */
  predicate SameNumberTest(p: SameNumberPattern, cpf: string)
    requires |cpf| == 11 && !p.Malformed?
  {
    match p
    case Literal(c) => cpf == Repeat(c, 11)
    case AnyEleven => true
    case MatchesEmpty => true
  }

  // -------------------------------------------------------------- check digits

  function DigitValue(c: char): (n: int)
    requires IsDigit(c)
    ensures 0 <= n <= 9
  {
    c as int - '0' as int
  }

  function DigitChar(n: int): (c: char)
    requires 0 <= n <= 9
    ensures IsDigit(c) && DigitValue(c) == n
  {
    ('0' as int + n) as char
  }

  /** The sum over the first `k` positions `i` of `digit(s[i]) * (|s| + 1 - i)`. */
  function WeightedSum(s: string, k: nat): int
    requires AllDigits(s) && k <= |s|
  {
    if k == 0 then 0
    else WeightedSum(s, k - 1) + DigitValue(s[k - 1]) * (|s| + 1 - (k - 1))
  }

  /** The check digit of a remainder sum: "0" when `sum % 11 < 2`, else `11 - sum % 11`;
      because `sum % 11 <= 10`, that is never more than one decimal digit. */
  function CheckDigitOfSum(sum: int): (d: char)
    ensures IsDigit(d)
    ensures d == '0' <==> sum % 11 < 2
  {
    var rest := sum % 11;
    if rest < 2 then '0' else DigitChar(11 - rest)
  }

  /** `verifyingDigits(s)` as a value. */
  function CheckDigit(s: string): (d: char)
    requires AllDigits(s)
    ensures IsDigit(d)
  {
    CheckDigitOfSum(WeightedSum(s, |s|))
  }

  /** `a % 11 == r` for the unique `q` and `0 <= r < 11` with `a == 11 * q + r`. */
  lemma Mod11OfDecomposition(a: int, q: int, r: int)
    requires a == 11 * q + r && 0 <= r < 11
    ensures a % 11 == r
  {
    var q', r' := a / 11, a % 11;
    assert 11 * (q - q') == r' - r;
  }

  /** The usual reference formula, `(10 * sum mod 11) mod 10`, gives the same digit. */
  lemma CheckDigitReference(sum: int)
    ensures DigitValue(CheckDigitOfSum(sum)) == ((10 * sum) % 11) % 10
  {
    var q, rest := sum / 11, sum % 11;
    if rest == 0 {
      Mod11OfDecomposition(10 * sum, 10 * q, 0);
    } else {
      Mod11OfDecomposition(10 * sum, 10 * q + rest - 1, 11 - rest);
    }
  }

  /** The weights for nine digits run from 10 down to 2. */
  lemma NineDigitWeights(s: string)
    requires AllDigits(s) && |s| == 9
    ensures WeightedSum(s, 9) ==
      10 * DigitValue(s[0]) + 9 * DigitValue(s[1]) + 8 * DigitValue(s[2]) +
      7 * DigitValue(s[3]) + 6 * DigitValue(s[4]) + 5 * DigitValue(s[5]) +
      4 * DigitValue(s[6]) + 3 * DigitValue(s[7]) + 2 * DigitValue(s[8])
  {
    assert WeightedSum(s, 1) == 10 * DigitValue(s[0]);
    assert WeightedSum(s, 3) == WeightedSum(s, 1) + 9 * DigitValue(s[1]) + 8 * DigitValue(s[2]);
    assert WeightedSum(s, 5) == WeightedSum(s, 3) + 7 * DigitValue(s[3]) + 6 * DigitValue(s[4]);
    assert WeightedSum(s, 7) == WeightedSum(s, 5) + 5 * DigitValue(s[5]) + 4 * DigitValue(s[6]);
    assert WeightedSum(s, 9) == WeightedSum(s, 7) + 3 * DigitValue(s[7]) + 2 * DigitValue(s[8]);
  }

  /** The weights for ten digits run from 11 down to 2. */
  lemma TenDigitWeights(s: string)
    requires AllDigits(s) && |s| == 10
    ensures WeightedSum(s, 10) ==
      11 * DigitValue(s[0]) + 10 * DigitValue(s[1]) + 9 * DigitValue(s[2]) +
      8 * DigitValue(s[3]) + 7 * DigitValue(s[4]) + 6 * DigitValue(s[5]) +
      5 * DigitValue(s[6]) + 4 * DigitValue(s[7]) + 3 * DigitValue(s[8]) + 2 * DigitValue(s[9])
  {
    assert WeightedSum(s, 1) == 11 * DigitValue(s[0]);
    assert WeightedSum(s, 2) == WeightedSum(s, 1) + 10 * DigitValue(s[1]);
    assert WeightedSum(s, 4) == WeightedSum(s, 2) + 9 * DigitValue(s[2]) + 8 * DigitValue(s[3]);
    assert WeightedSum(s, 6) == WeightedSum(s, 4) + 7 * DigitValue(s[4]) + 6 * DigitValue(s[5]);
    assert WeightedSum(s, 8) == WeightedSum(s, 6) + 5 * DigitValue(s[6]) + 4 * DigitValue(s[7]);
    assert WeightedSum(s, 10) == WeightedSum(s, 8) + 3 * DigitValue(s[8]) + 2 * DigitValue(s[9]);
  }

  /** `verifyingDigits`: the loop that accumulates the weighted sum. */
  method VerifyingDigit(digits: string) returns (d: char)
    requires AllDigits(digits)
    ensures d == CheckDigit(digits)
  {
    var sum := 0;
    for i := 0 to |digits|
      invariant sum == WeightedSum(digits, i)
    {
      var constant := |digits| + 1 - i;
      sum := sum + DigitValue(digits[i]) * constant;
    }
    var rest := sum % 11;
    d := if rest < 2 then '0' else DigitChar(11 - rest);
  }

  // ------------------------------------------------------------ normalizeCpf

  /** The eleven digits that `cpf` should be: its first nine digits followed by
      the two check digits computed from them. */
  function Candidate(cpf: string): (r: string)
    requires AllDigits(cpf) && |cpf| == 11
    ensures |r| == 11 && AllDigits(r) && r[..9] == cpf[..9]
  {
    var first := CheckDigit(cpf[..9]);
    var second := CheckDigit(cpf[..9] + [first]);
    cpf[..9] + [first] + [second]
  }

  /** What `normalizeCpf(raw, next)` does, as a value. */
  function Validate(raw: string): CpfOutcome {
    if |raw| == 0 then Crashed(TypeErrorInfo)
    else
      var sameNumber := SameNumberPatternOf(raw[0]);
      if sameNumber.Malformed? then Crashed(SyntaxErrorInfo)
      else
        var cpf := StripNonDigits(raw);
        if |cpf| != 11 then Rejected(BadRequestException(LengthMessage))
        else if SameNumberTest(sameNumber, cpf) then Rejected(BadRequestException(InvalidMessage))
        else if Candidate(cpf) != cpf then Rejected(BadRequestException(InvalidMessage))
        else Accepted
  }

  /** `normalizeCpf`, step by step, with `verifyingDigits` run twice. */
  method NormalizeCpf(raw: string) returns (outcome: CpfOutcome)
    ensures outcome == Validate(raw)
  {
    if |raw| == 0 {
      return Crashed(TypeErrorInfo);
    }
    var sameNumber := SameNumberPatternOf(raw[0]);
    if sameNumber.Malformed? {
      return Crashed(SyntaxErrorInfo);
    }
    var cpf := StripNonDigits(raw);
    if |cpf| != 11 {
      return Rejected(BadRequestException(LengthMessage));
    }
    if SameNumberTest(sameNumber, cpf) {
      return Rejected(BadRequestException(InvalidMessage));
    }
    var firstNine := cpf[..9];
    var first := VerifyingDigit(firstNine);
    var second := VerifyingDigit(firstNine + [first]);
    var correctCpf := firstNine + [first] + [second];
    if correctCpf != cpf {
      return Rejected(BadRequestException(InvalidMessage));
    }
    return Accepted;
  }

  // ---------------------------------------------------------- properties

  /** The candidate equals `cpf` exactly when its 10th and 11th digits are the
      check digits of the nine and of the ten digits before them. */
  lemma CandidateMatches(cpf: string)
    requires AllDigits(cpf) && |cpf| == 11
    ensures Candidate(cpf) == cpf <==> cpf[9] == CheckDigit(cpf[..9]) && cpf[10] == CheckDigit(cpf[..10])
  {
    var first := CheckDigit(cpf[..9]);
    var c := Candidate(cpf);
    assert c[9] == first;
    if cpf[9] == first {
      assert cpf[..9] + [first] == cpf[..10];
      assert cpf[..10] + [cpf[10]] == cpf;
    }
  }

  /** Every failure is a single Bad Request with one of the two messages. */
  lemma RejectionsAreBadRequests(raw: string)
    ensures Validate(raw).Rejected? ==>
      Validate(raw).error.status == 400 &&
      Validate(raw).error.message in {LengthMessage, InvalidMessage}
    ensures Validate(raw).Crashed? <==> |raw| == 0 || SameNumberPatternOf(raw[0]).Malformed?
  {
  }

  /** A stripped length other than 11 is reported as such, whatever the digits. */
  lemma WrongLength(raw: string)
    requires |raw| > 0 && !SameNumberPatternOf(raw[0]).Malformed?
    requires |StripNonDigits(raw)| != 11
    ensures Validate(raw) == Rejected(BadRequestException(LengthMessage))
  {
  }

  /** When the raw input starts with a digit `d`, eleven `d`s are rejected. */
  lemma RepeatedDigitRejected(raw: string)
    requires |raw| > 0 && IsDigit(raw[0])
    requires StripNonDigits(raw) == Repeat(raw[0], 11)
    ensures Validate(raw) == Rejected(BadRequestException(InvalidMessage))
  {
  }

  /** For eleven digits that start with the raw first character and are not all
      the same, the input is accepted exactly when both check digits match,
      and is otherwise rejected as invalid. */
  lemma CheckDigitsDecide(raw: string)
    requires |raw| > 0 && IsDigit(raw[0])
    requires var cpf := StripNonDigits(raw); |cpf| == 11 && cpf != Repeat(raw[0], 11)
    ensures var cpf := StripNonDigits(raw);
      Validate(raw) == if cpf[9] == CheckDigit(cpf[..9]) && cpf[10] == CheckDigit(cpf[..10])
                       then Accepted else Rejected(BadRequestException(InvalidMessage))
  {
    CandidateMatches(StripNonDigits(raw));
  }

  /** The verdict on a string of eleven digits that are not all the same. */
  lemma DigitsVerdict(cpf: string)
    requires AllDigits(cpf) && |cpf| == 11 && cpf != Repeat(cpf[0], 11)
    ensures Validate(cpf) == if cpf[9] == CheckDigit(cpf[..9]) && cpf[10] == CheckDigit(cpf[..10])
                             then Accepted else Rejected(BadRequestException(InvalidMessage))
  {
    StripDigitsUnchanged(cpf);
    CheckDigitsDecide(cpf);
  }

  /** Changing the last digit of an accepted CPF to any other digit makes it invalid. */
  lemma {:induction false} TamperedCheckDigit(cpf: string, d: char)
    requires AllDigits(cpf) && |cpf| == 11 && Validate(cpf) == Accepted
    requires IsDigit(d) && d != cpf[10]
    ensures Validate(cpf[..10] + [d]) == Rejected(BadRequestException(InvalidMessage))
  {
    StripDigitsUnchanged(cpf);
    CandidateMatches(cpf);
    var t := cpf[..10] + [d];
    assert t[..10] == cpf[..10] && t[..9] == cpf[..9] && t[0] == cpf[0];
    assert AllDigits(t);
    if t == Repeat(t[0], 11) {
      StripDigitsUnchanged(t);
      RepeatedDigitRejected(t);
    } else {
      DigitsVerdict(t);
    }
  }

  /** In particular, adding 1 modulo 10 to the last digit of an accepted CPF. */
  lemma IncrementedCheckDigit(cpf: string)
    requires AllDigits(cpf) && |cpf| == 11 && Validate(cpf) == Accepted
    ensures Validate(cpf[..10] + [DigitChar((DigitValue(cpf[10]) + 1) % 10)]) == Rejected(BadRequestException(InvalidMessage))
  {
    TamperedCheckDigit(cpf, DigitChar((DigitValue(cpf[10]) + 1) % 10));
  }

  /** Eleven digits of which the first and the `k`-th differ, given the two weighted sums. */
  lemma VerdictFromSums(cpf: string, k: nat, sum9: int, sum10: int)
    requires AllDigits(cpf) && |cpf| == 11 && k < 11 && cpf[0] != cpf[k]
    requires WeightedSum(cpf[..9], 9) == sum9 && WeightedSum(cpf[..10], 10) == sum10
    ensures Validate(cpf) == if cpf[9] == CheckDigitOfSum(sum9) && cpf[10] == CheckDigitOfSum(sum10)
                             then Accepted else Rejected(BadRequestException(InvalidMessage))
  {
    assert Repeat(cpf[0], 11)[k] == cpf[0];
    DigitsVerdict(cpf);
  }

  /** The CPF used by the students service test is accepted. */
  lemma ServiceTestCpfAccepted()
    ensures Validate("02431097684") == Accepted
  {
    var cpf := "02431097684";
    assert AllDigits(cpf);
    NineDigitWeights(cpf[..9]);
    TenDigitWeights(cpf[..10]);
    VerdictFromSums(cpf, 1, 146, 194);
  }

  /** The CPF used by the students controller test is accepted. */
  lemma ControllerTestCpfAccepted()
    ensures Validate("03461242632") == Accepted
  {
    var cpf := "03461242632";
    assert AllDigits(cpf);
    NineDigitWeights(cpf[..9]);
    TenDigitWeights(cpf[..10]);
    VerdictFromSums(cpf, 1, 151, 185);
  }

  /** A third well-formed CPF is accepted. */
  lemma ReferenceCpfAccepted()
    ensures Validate("11144477735") == Accepted
  {
    var cpf := "11144477735";
    assert AllDigits(cpf);
    NineDigitWeights(cpf[..9]);
    TenDigitWeights(cpf[..10]);
    VerdictFromSums(cpf, 3, 162, 204);
  }

  /** Eleven ones are rejected as invalid. */
  lemma AllOnesRejected()
    ensures Validate("11111111111") == Rejected(BadRequestException(InvalidMessage))
  {
    var cpf := Repeat('1', 11);
    StripDigitsUnchanged(cpf);
    RepeatedDigitRejected(cpf);
    assert cpf == "11111111111";
  }

  /** Three digits are too few. */
  lemma TooShortRejected()
    ensures Validate("123") == Rejected(BadRequestException(LengthMessage))
  {
    DigitsOfWrongLength("123");
  }

  /** Twelve digits are too many. */
  lemma TooLongRejected()
    ensures Validate("123456789012") == Rejected(BadRequestException(LengthMessage))
  {
    DigitsOfWrongLength("123456789012");
  }

  /** Any non-empty run of digits that is not eleven long fails the length check. */
  lemma DigitsOfWrongLength(s: string)
    requires |s| > 0 && AllDigits(s) && |s| != 11
    ensures Validate(s) == Rejected(BadRequestException(LengthMessage))
  {
    StripDigitsUnchanged(s);
    WrongLength(s);
  }

  /** Eleven equal digits always carry matching check digits, so only the
      repeated-digit test rejects them. */
  lemma RepeatedDigitsPassCheckDigits(d: char)
    requires IsDigit(d)
    ensures Candidate(Repeat(d, 11)) == Repeat(d, 11)
  {
    var s, v := Repeat(d, 11), DigitValue(d);
    assert s[..9] == Repeat(d, 9);
    assert s[..10] == Repeat(d, 10);
    NineDigitWeights(s[..9]);
    TenDigitWeights(s[..10]);
    if v == 0 {
      assert CheckDigitOfSum(0) == d;
    } else {
      Mod11OfDecomposition(54 * v, 5 * v - 1, 11 - v);
      Mod11OfDecomposition(65 * v, 6 * v - 1, 11 - v);
      assert CheckDigitOfSum(54 * v) == d && CheckDigitOfSum(65 * v) == d;
    }
    CandidateMatches(s);
  }

  // ------------------------------------------- the repeated-digit test, corrected

  /** The rule the repeated-digit test evidently means: reject eleven equal
      digits after stripping, whatever the first raw character is. */
  function ValidateIntended(raw: string): (r: CpfOutcome)
    ensures !r.Crashed?
  {
    var cpf := StripNonDigits(raw);
    if |cpf| != 11 then Rejected(BadRequestException(LengthMessage))
    else if cpf == Repeat(cpf[0], 11) then Rejected(BadRequestException(InvalidMessage))
    else if Candidate(cpf) != cpf then Rejected(BadRequestException(InvalidMessage))
    else Accepted
  }

  /** The corrected verdict depends only on the digits: separators anywhere,
      including in front, change nothing. */
  lemma IntendedIgnoresFormatting(raw: string)
    ensures ValidateIntended(raw) == ValidateIntended(StripNonDigits(raw))
  {
    StripIdempotent(raw);
  }

  /** The corrected rule accepts exactly the eleven-digit strings that are not
      one repeated digit and whose check digits match. */
  lemma IntendedAccepts(raw: string)
    ensures var cpf := StripNonDigits(raw);
      ValidateIntended(raw) == Accepted <==>
        |cpf| == 11 && cpf != Repeat(cpf[0], 11) &&
        cpf[9] == CheckDigit(cpf[..9]) && cpf[10] == CheckDigit(cpf[..10])
  {
    var cpf := StripNonDigits(raw);
    if |cpf| == 11 {
      CandidateMatches(cpf);
    }
  }

  /** Where the raw input starts with a digit, the source already follows the
      corrected rule. */
  lemma IntendedAgreesOnDigitFirst(raw: string)
    requires |raw| > 0 && IsDigit(raw[0])
    ensures ValidateIntended(raw) == Validate(raw)
  {
    assert StripNonDigits(raw) == [raw[0]] + StripNonDigits(raw[1..]);
  }

  /** As written, the first raw character decides the repeated-digit test: a
      leading space lets eleven ones through. */
  lemma LeadingSpaceAcceptsRepeated()
    ensures Validate(" 11111111111") == Accepted
  {
    var ones := Repeat('1', 11);
    RepeatedDigitsPassCheckDigits('1');
    LiteralPrefixAccepted(' ', ones);
    assert [' '] + ones == " 11111111111";
  }

  /** Behind a first character that is taken literally and is not a digit,
      any eleven digits that pass the check-digit comparison are accepted,
      repeated ones included. */
  lemma {:induction false} LiteralPrefixAccepted(c: char, cpf: string)
    requires !IsDigit(c) && SameNumberPatternOf(c) == Literal(c)
    requires AllDigits(cpf) && |cpf| == 11 && Candidate(cpf) == cpf
    ensures Validate([c] + cpf) == Accepted
  {
    var raw := [c] + cpf;
    StripDigitsUnchanged(cpf);
    assert raw[1..] == cpf;
    assert StripNonDigits(raw) == cpf;
    assert cpf != Repeat(c, 11) by { assert IsDigit(cpf[0]); }
  }

  /** The corrected rule rejects that input. */
  lemma LeadingSpaceRejectedWhenCorrected()
    ensures ValidateIntended(" 11111111111") == Rejected(BadRequestException(InvalidMessage))
  {
    var ones := Repeat('1', 11);
    IntendedIgnoresPrefix(' ', ones);
    IntendedRejectsRepeated('1');
    assert [' '] + ones == " 11111111111";
  }

  /** The corrected rule rejects every repeated digit. */
  lemma IntendedRejectsRepeated(d: char)
    requires IsDigit(d)
    ensures ValidateIntended(Repeat(d, 11)) == Rejected(BadRequestException(InvalidMessage))
  {
    StripDigitsUnchanged(Repeat(d, 11));
  }

  /** As written, a leading '.' makes the repeated-digit pattern match any
      eleven digits, so every eleven-digit input behind a '.' is rejected. */
  lemma {:induction false} LeadingDotRejectsAll(cpf: string)
    requires AllDigits(cpf) && |cpf| == 11
    ensures Validate(['.'] + cpf) == Rejected(BadRequestException(InvalidMessage))
  {
    var raw := ['.'] + cpf;
    StripDigitsUnchanged(cpf);
    assert raw[1..] == cpf;
  }

  /** As written, a leading '^', '$' or '|' gives a pattern that matches the
      empty string, so every eleven-digit input behind one is rejected. */
  lemma {:induction false} EmptyMatchPrefixRejectsAll(c: char, cpf: string)
    requires c in "^$|" && AllDigits(cpf) && |cpf| == 11
    ensures Validate([c] + cpf) == Rejected(BadRequestException(InvalidMessage))
  {
    var raw := [c] + cpf;
    StripDigitsUnchanged(cpf);
    assert raw[1..] == cpf;
  }

  /** As written, eleven ones are rejected behind '.', '^', '$' and '|' as well
      as without a prefix. */
  lemma RepeatedOnesBehindMetacharacters()
    ensures Validate(['.'] + Repeat('1', 11)) == Rejected(BadRequestException(InvalidMessage))
    ensures Validate(['^'] + Repeat('1', 11)) == Rejected(BadRequestException(InvalidMessage))
    ensures Validate(['$'] + Repeat('1', 11)) == Rejected(BadRequestException(InvalidMessage))
    ensures Validate(['|'] + Repeat('1', 11)) == Rejected(BadRequestException(InvalidMessage))
  {
    var ones := Repeat('1', 11);
    LeadingDotRejectsAll(ones);
    EmptyMatchPrefixRejectsAll('^', ones);
    EmptyMatchPrefixRejectsAll('$', ones);
    EmptyMatchPrefixRejectsAll('|', ones);
  }

  /** A separator in front changes nothing under the corrected rule. */
  lemma {:induction false} IntendedIgnoresPrefix(c: char, cpf: string)
    requires !IsDigit(c)
    ensures ValidateIntended([c] + cpf) == ValidateIntended(cpf)
  {
    assert ([c] + cpf)[1..] == cpf;
  }

  /** A valid CPF behind a '.' is rejected as written and accepted when corrected. */
  lemma LeadingDotRejectsValid()
    ensures Validate(['.'] + "02431097684") == Rejected(BadRequestException(InvalidMessage))
    ensures ValidateIntended(['.'] + "02431097684") == Accepted
  {
    var valid := "02431097684";
    assert AllDigits(valid);
    LeadingDotRejectsAll(valid);
    IntendedIgnoresPrefix('.', valid);
    ServiceTestCpfAccepted();
    IntendedAgreesOnDigitFirst(valid);
  }
}
