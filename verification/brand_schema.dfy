/** `UserIdSchema` (brand.schema.ts): `z.number().int().positive()`, the
    number passed on unchanged as a `UserId`; `.int()` bounds it by
    `Number.MAX_SAFE_INTEGER`. */
module BrandSchema {
  import opened Exceptions
  import opened ZodNumber
  import opened Users

  function ParseUserId(x: JsNumber): (r: Result<UserId>)
    ensures r.Ok? <==> IsInt(x) && x.v > 0.0
    ensures r.Ok? ==> r.value as real == x.v && 0 < r.value <= MAX_SAFE_INTEGER
    ensures r.Err? ==> r.error == ValidationFailed
  {
    if IsInt(x) && x.v > 0.0 then Ok(x.v.Floor) else Err(ValidationFailed)
  }

  /** An accepted id is never 0, so an entity carrying it is saved by
      UPDATE and never by INSERT. */
  lemma ParsedIdNeverInserts(x: JsNumber, u: UserEntity)
    requires ParseUserId(x).Ok?
    ensures u.(id := ParseUserId(x).value).id != 0
  {
  }
}
