/** `PhoneValueType` (phone.value.ts): a phone number accepted by
    `^\+?[1-9]\d{1,14}$` and stored exactly as given. */
module PhoneValue {
  import opened Value
  import opened Exceptions
  import opened JsText

  /** The number with its optional leading '+' removed. */
  function Digits(s: string): string {
    if |s| > 0 && s[0] == '+' then s[1..] else s
  }

  /** `PhoneValueType.isStringValid`: total, never throws. */
  predicate IsStringValid(value: string) {
    var d := Digits(value);
    2 <= |d| <= 15 && '1' <= d[0] <= '9' && AllDigits(d)
  }

  /** One way `phoneRegex` matches: `k` characters (0 or 1) are taken by
      `\+?`, then one `[1-9]` and between 1 and 14 `\d`. */
  predicate MatchesAt(s: string, k: int) {
    && 0 <= k <= 1 && k < |s|
    && (k == 1 ==> s[0] == '+')
    && '1' <= s[k] <= '9'
    && 1 <= |s| - k - 1 <= 14
    && (forall i | k < i < |s| :: IsDigit(s[i]))
  }

  /** `phoneRegex` read as a language. */
  predicate MatchesPhonePattern(s: string) {
    exists k | 0 <= k <= 1 :: MatchesAt(s, k)
  }

  /** `isStringValid` accepts exactly what the pattern matches. */
  lemma IsStringValidMatchesPattern(s: string)
    ensures IsStringValid(s) <==> MatchesPhonePattern(s)
  {
    if IsStringValid(s) {
      if |s| > 0 && s[0] == '+' {
        assert MatchesAt(s, 1);
      } else {
        assert MatchesAt(s, 0);
      }
    }
    if MatchesPhonePattern(s) {
      var k :| 0 <= k <= 1 && MatchesAt(s, k);
      if k == 0 {
        assert s[0] != '+';
        assert Digits(s) == s;
      } else {
        assert Digits(s) == s[1..];
      }
    }
  }

  datatype PhoneValueType = PhoneValueType(base: ValueType<string>) {

    function GetValue(): string {
      base.GetValue()
    }

    predicate Valid() {
      IsStringValid(GetValue())
    }
  }

  /** `new PhoneValueType(value)`: accepts exactly what `isStringValid`
      accepts, stores it unchanged, and otherwise throws INVALID_PHONE. */
  function Create(value: string): (r: Result<PhoneValueType>)
    ensures r.Ok? <==> MatchesPhonePattern(value)
    ensures r.Ok? ==> r.value.GetValue() == value && r.value.Valid()
    ensures r.Err? ==> r.error == UsersError(InvalidPhone)
  {
    IsStringValidMatchesPattern(value);
    if IsStringValid(value) then Ok(PhoneValueType(Wrap(value)))
    else Err(UsersError(InvalidPhone))
  }

  /** `PhoneValueType.fromString` */
  function FromString(value: string): (r: Result<PhoneValueType>)
    ensures r == Create(value)
  {
    Create(value)
  }

  /** An accepted number is 2 to 15 digits after an optional '+', never
      starts with '0', and holds no '@' (so it can never be an email). */
  lemma AcceptedPhoneShape(s: string)
    requires IsStringValid(s)
    ensures 2 <= |Digits(s)| <= 15
    ensures AllDigits(Digits(s)) && Digits(s)[0] != '0'
    ensures s == Digits(s) || s == "+" + Digits(s)
    ensures '@' !in s
  {
    if |s| > 0 && s[0] == '+' {
      assert s == "+" + s[1..];
    }
  }
}
