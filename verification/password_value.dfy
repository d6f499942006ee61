/** `PasswordValueType` (password.value.ts): a plaintext password of at
    least 8 characters, any characters at all. It is only ever hashed or
    compared, never stored. */
module PasswordValue {
  import opened Value
  import opened Exceptions
  import opened JsText

  const MIN_LENGTH: nat := 8

  datatype PasswordValueType = PasswordValueType(base: ValueType<string>) {

    function GetValue(): string {
      base.GetValue()
    }
  }

  /** `new PasswordValueType(value)`: rejects a `length` (in UTF-16 code
      units) below 8 with INVALID_PASSWORD, and otherwise stores the input
      unchanged. */
  function Create(value: string): (r: Result<PasswordValueType>)
    ensures r.Ok? <==> Utf16Length(value) >= MIN_LENGTH
    ensures r.Ok? ==> r.value.GetValue() == value
    ensures r.Err? ==> r.error == AuthError(InvalidPassword)
  {
    if Utf16Length(value) < MIN_LENGTH then Err(AuthError(InvalidPassword))
    else Ok(PasswordValueType(Wrap(value)))
  }

  /** `PasswordValueType.fromString` */
  function FromString(value: string): (r: Result<PasswordValueType>)
    ensures r == Create(value)
  {
    Create(value)
  }

  /** Eight characters always suffice, whatever they are; fewer than eight
      are rejected unless astral characters bring the code-unit count up. */
  lemma PasswordLengthRule(value: string)
    ensures |value| >= MIN_LENGTH ==> Create(value).Ok?
    ensures Utf16Length(value) < MIN_LENGTH ==> Create(value) == Err(AuthError(InvalidPassword))
    ensures (forall i | 0 <= i < |value| :: value[i] as int <= 0xFFFF) ==>
              (Create(value).Ok? <==> |value| >= MIN_LENGTH)
  {
  }
}
