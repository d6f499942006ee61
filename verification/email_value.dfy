/** `EmailValueType` (email.value.ts): an email address accepted by
    `^[^\s@]+@[^\s@]+\.[^\s@]+$` and stored exactly as given. */
module EmailValue {
  import opened Value
  import opened Exceptions
  import opened JsText

  /** `[^\s@]` */
  predicate EmailChar(c: char) {
    !IsWhitespace(c) && c != '@'
  }

  /** One way the pattern matches `s`: `at` is the '@' and `dot` the '.'
      that splits the part after it. Every other character is `[^\s@]`, and
      each of the three runs is non-empty. */
  predicate MatchesAt(s: string, at: int, dot: int) {
    && 0 < at && at + 1 < dot && dot + 1 < |s|
    && s[at] == '@' && s[dot] == '.'
    && (forall k | 0 <= k < |s| && k != at :: EmailChar(s[k]))
  }

  /** The regular expression read as a language: some choice of '@' and
      '.' makes it match. */
  predicate MatchesEmailPattern(s: string) {
    exists at, dot | 0 <= at < |s| && 0 <= dot < |s| :: MatchesAt(s, at, dot)
  }

  /** Index of the first `c` in `s`, or `|s|` when there is none. */
  function IndexOf(s: string, c: char): (i: nat)
    ensures i <= |s|
    ensures i < |s| ==> s[i] == c
    ensures forall j | 0 <= j < i :: s[j] != c
  {
    if |s| == 0 then 0
    else if s[0] == c then 0
    else 1 + IndexOf(s[1..], c)
  }

  /** `validateEmail` as a single left-to-right scan: the first '@' starts
      the domain, no other character may be whitespace or '@', and the
      domain has a '.' with text on both sides. */
  predicate ValidateEmail(email: string) {
    var at := IndexOf(email, '@');
    && 0 < at && at + 4 <= |email|
    && (forall k | 0 <= k < |email| && k != at :: EmailChar(email[k]))
    && '.' in email[at + 2 .. |email| - 1]
  }

  /** The scan accepts exactly the strings the pattern matches. */
  lemma ValidateEmailMatchesPattern(s: string)
    ensures ValidateEmail(s) <==> MatchesEmailPattern(s)
  {
    var at := IndexOf(s, '@');
    if ValidateEmail(s) {
      var mid := s[at + 2 .. |s| - 1];
      var j :| 0 <= j < |mid| && mid[j] == '.';
      assert s[at + 2 + j] == '.';
      assert MatchesAt(s, at, at + 2 + j);
    }
    if MatchesEmailPattern(s) {
      var a, d :| 0 <= a < |s| && 0 <= d < |s| && MatchesAt(s, a, d);
      assert !EmailChar(s[at]);
      assert at == a;
      var mid := s[at + 2 .. |s| - 1];
      assert mid[d - (at + 2)] == '.';
    }
  }

  datatype EmailValueType = EmailValueType(base: ValueType<string>) {

    function GetValue(): string {
      base.GetValue()
    }

    /** What every email built by `Create` satisfies. */
    predicate Valid() {
      MatchesEmailPattern(GetValue())
    }
  }

  /** `new EmailValueType(value)`: accepts exactly what the pattern matches,
      stores it unchanged, and otherwise throws INVALID_EMAIL. */
  function Create(value: string): (r: Result<EmailValueType>)
    ensures r.Ok? <==> MatchesEmailPattern(value)
    ensures r.Ok? ==> r.value.GetValue() == value && r.value.Valid()
    ensures r.Err? ==> r.error == UsersError(InvalidEmail)
  {
    ValidateEmailMatchesPattern(value);
    if ValidateEmail(value) then Ok(EmailValueType(Wrap(value)))
    else Err(UsersError(InvalidEmail))
  }

  /** `EmailValueType.fromString` */
  function FromString(value: string): (r: Result<EmailValueType>)
    ensures r == Create(value)
  {
    Create(value)
  }

  /** What an accepted address looks like: exactly one '@', no whitespace,
      and after the '@' a '.' with text on both sides. */
  lemma AcceptedEmailShape(s: string)
    requires MatchesEmailPattern(s)
    ensures Count(s, '@') == 1
    ensures forall k | 0 <= k < |s| :: !IsWhitespace(s[k])
    ensures var domain := s[IndexOf(s, '@') + 1..];
            |domain| >= 3 && '.' in domain[1 .. |domain| - 1]
  {
    ValidateEmailMatchesPattern(s);
    var at := IndexOf(s, '@');
    assert s == s[..at] + [s[at]] + s[at + 1..];
    assert '@' !in s[..at];
    forall k | at + 1 <= k < |s|
      ensures s[k] != '@'
    {
      assert EmailChar(s[k]);
    }
    assert '@' !in s[at + 1..];
    CountAppend(s[..at] + [s[at]], s[at + 1..], '@');
    CountAppend(s[..at], [s[at]], '@');
    forall k | 0 <= k < |s|
      ensures !IsWhitespace(s[k])
    {
      if k != at {
        assert EmailChar(s[k]);
      }
    }
    var domain := s[at + 1..];
    assert domain[1 .. |domain| - 1] == s[at + 2 .. |s| - 1];
  }
}
