/** `NameValueType` (name.value.ts): a first name, surname or patronymic.
    It must not be blank, may hold only Latin or Cyrillic letters, whitespace
    and '-', and is stored with its first character upper-cased and the rest
    lower-cased. */
module NameValue {
  import opened Value
  import opened Exceptions
  import opened JsText

  predicate IsLatinLower(c: char) { 'a' <= c <= 'z' }
  predicate IsLatinUpper(c: char) { 'A' <= c <= 'Z' }
  /** `а-я` and `ё` */
  predicate IsCyrillicLower(c: char) { '\U{0430}' <= c <= '\U{044F}' || c == '\U{0451}' }
  /** `А-Я` and `Ё` */
  predicate IsCyrillicUpper(c: char) { '\U{0410}' <= c <= '\U{042F}' || c == '\U{0401}' }

  predicate IsLower(c: char) { IsLatinLower(c) || IsCyrillicLower(c) }
  predicate IsUpper(c: char) { IsLatinUpper(c) || IsCyrillicUpper(c) }

  /** `[a-zA-Zа-яА-ЯёЁ\s-]` */
  predicate InNameAlphabet(c: char) {
    IsLower(c) || IsUpper(c) || IsWhitespace(c) || c == '-'
  }

  /** `toUpperCase` on one character of the name alphabet; every other
      character of the alphabet (whitespace, '-') is left alone. */
  function ToUpperChar(c: char): (u: char)
    ensures IsLower(c) ==> IsUpper(u)
    ensures !IsLower(c) ==> u == c
  {
    if IsLatinLower(c) || ('\U{0430}' <= c <= '\U{044F}') then (c as int - 32) as char
    else if c == '\U{0451}' then '\U{0401}'
    else c
  }

  /** `toLowerCase` on one character of the name alphabet. */
  function ToLowerChar(c: char): (l: char)
    ensures IsUpper(c) ==> IsLower(l)
    ensures !IsUpper(c) ==> l == c
  {
    if IsLatinUpper(c) || ('\U{0410}' <= c <= '\U{042F}') then (c as int + 32) as char
    else if c == '\U{0401}' then '\U{0451}'
    else c
  }

  /** `value.charAt(0).toUpperCase() + value.slice(1).toLowerCase()` */
  function Capitalize(s: string): string
    requires |s| > 0
  {
    [ToUpperChar(s[0])] + seq(|s| - 1, i requires 0 <= i < |s| - 1 => ToLowerChar(s[i + 1]))
  }

  /** The input the constructor accepts: not empty, not only whitespace
      (`!value || value.trim().length === 0`), and every character in the
      alphabet. */
  predicate AcceptedName(s: string) {
    && |s| > 0
    && (exists i | 0 <= i < |s| :: !IsWhitespace(s[i]))
    && (forall i | 0 <= i < |s| :: InNameAlphabet(s[i]))
  }

  /** Starts with a non-lower-case character, continues with non-upper-case
      ones. */
  predicate IsCapitalized(s: string) {
    |s| > 0 && !IsLower(s[0]) && forall i | 1 <= i < |s| :: !IsUpper(s[i])
  }

  /** The same string when case is ignored. */
  predicate SameUpToCase(a: string, b: string) {
    |a| == |b| && forall i | 0 <= i < |a| :: ToLowerChar(a[i]) == ToLowerChar(b[i])
  }

  datatype NameValueType = NameValueType(base: ValueType<string>) {

    function GetValue(): string {
      base.GetValue()
    }

    /** What every name built by `Create` satisfies. */
    predicate Valid() {
      AcceptedName(GetValue()) && IsCapitalized(GetValue())
    }
  }

  /** `new NameValueType(value)`: rejects blank input and input outside the
      alphabet with INVALID_NAME; otherwise stores the capitalised form, which
      has the input's length and differs from it only in case. */
  function Create(value: string): (r: Result<NameValueType>)
    ensures r.Ok? <==> AcceptedName(value)
    ensures r.Err? ==> r.error == UsersError(InvalidName)
    ensures r.Ok? ==> && r.value.Valid()
                      && SameUpToCase(r.value.GetValue(), value)
  {
    if |value| == 0 || (forall i | 0 <= i < |value| :: IsWhitespace(value[i])) then
      Err(UsersError(InvalidName))
    else if !(forall i | 0 <= i < |value| :: InNameAlphabet(value[i])) then
      Err(UsersError(InvalidName))
    else
      CapitalizeKeepsName(value);
      Ok(NameValueType(Wrap(Capitalize(value))))
  }

  /** `NameValueType.fromString` */
  function FromString(value: string): (r: Result<NameValueType>)
    ensures r == Create(value)
  {
    Create(value)
  }

  lemma CapitalizeKeepsName(s: string)
    requires AcceptedName(s)
    ensures AcceptedName(Capitalize(s))
    ensures IsCapitalized(Capitalize(s))
    ensures SameUpToCase(Capitalize(s), s)
  {
    var c := Capitalize(s);
    forall k | 0 <= k < |s|
      ensures InNameAlphabet(c[k]) && ToLowerChar(c[k]) == ToLowerChar(s[k])
      ensures IsWhitespace(c[k]) == IsWhitespace(s[k])
      ensures k == 0 ==> !IsLower(c[k])
      ensures k > 0 ==> !IsUpper(c[k])
    {
      CaseMapping(s[k]);
      if k > 0 {
        assert c[k] == ToLowerChar(s[k]);
      }
    }
    var i :| 0 <= i < |s| && !IsWhitespace(s[i]);
    assert !IsWhitespace(c[i]);
  }

  /** Both case mappings stay in the alphabet, keep whitespace, and agree
      once lower-cased. */
  lemma CaseMapping(x: char)
    requires InNameAlphabet(x)
    ensures InNameAlphabet(ToUpperChar(x)) && InNameAlphabet(ToLowerChar(x))
    ensures ToLowerChar(ToUpperChar(x)) == ToLowerChar(x)
    ensures ToLowerChar(ToLowerChar(x)) == ToLowerChar(x)
    ensures !IsLower(ToUpperChar(x)) && !IsUpper(ToLowerChar(x))
    ensures IsWhitespace(ToUpperChar(x)) == IsWhitespace(x)
    ensures IsWhitespace(ToLowerChar(x)) == IsWhitespace(x)
  {
  }

  /** A capitalised string is determined by its letters: two capitalised
      names over the alphabet that agree up to case are equal. So the
      constructor's contract pins the stored value down completely. */
  lemma CapitalizedUnique(a: string, b: string)
    requires AcceptedName(a) && AcceptedName(b)
    requires IsCapitalized(a) && IsCapitalized(b)
    requires SameUpToCase(a, b)
    ensures a == b
  {
    forall i | 0 <= i < |a|
      ensures a[i] == b[i]
    {
      assert ToLowerChar(a[i]) == ToLowerChar(b[i]);
    }
  }

  /** Normalisation is idempotent: building a name from a stored name gives
      that same name back. `fromDb` relies on this when it re-validates the
      names it reads. */
  lemma {:induction false} CreateStoredName(n: NameValueType)
    requires n.Valid()
    ensures Create(n.GetValue()) == Ok(n)
  {
    var v := n.GetValue();
    var r := Create(v);
    CapitalizedUnique(r.value.GetValue(), v);
  }

  /** Creating twice is creating once. */
  lemma CreateIdempotent(s: string)
    requires Create(s).Ok?
    ensures Create(Create(s).value.GetValue()) == Create(s)
  {
    CreateStoredName(Create(s).value);
  }
}
