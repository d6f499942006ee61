/** `PaginationQuerySchema` (pagination.ts): `limit` and `offset` query
    parameters, coerced to numbers, with their bounds and defaults. A value
    that fails a check fails the whole parse. */
module Pagination {
  import opened Wrappers
  import opened Exceptions
  import opened ZodNumber

  const MAX_LIMIT: nat := 20

  /** `limit`: absent gives 20; otherwise an integer in 1..20. */
  function ParseLimit(x: Option<JsNumber>): (r: Result<nat>)
    ensures x.None? ==> r == Ok(MAX_LIMIT)
    ensures x.Some? ==> (r.Ok? <==> IsInt(x.value) && 1.0 <= x.value.v <= MAX_LIMIT as real)
    ensures x.Some? && r.Ok? ==> r.value as real == x.value.v
    ensures r.Ok? ==> 1 <= r.value <= MAX_LIMIT
    ensures r.Err? ==> r.error == ValidationFailed
  {
    match x
    case None => Ok(MAX_LIMIT)
    case Some(n) =>
      if IsInt(n) && 1.0 <= n.v <= MAX_LIMIT as real then Ok(n.v.Floor as nat) else Err(ValidationFailed)
  }

  /** `offset`: absent gives 0; otherwise a safe integer of at least 0. */
  function ParseOffset(x: Option<JsNumber>): (r: Result<nat>)
    ensures x.None? ==> r == Ok(0)
    ensures x.Some? ==> (r.Ok? <==> IsInt(x.value) && 0.0 <= x.value.v)
    ensures x.Some? && r.Ok? ==> r.value as real == x.value.v
    ensures r.Err? ==> r.error == ValidationFailed
  {
    match x
    case None => Ok(0)
    case Some(n) =>
      if IsInt(n) && 0.0 <= n.v then Ok(n.v.Floor as nat) else Err(ValidationFailed)
  }

  /** Parsing an accepted value back from its own number gives it again;
      a whole offset is accepted exactly when it is a safe integer. */
  lemma ParseBoundsStable(limit: nat, offset: nat)
    ensures 1 <= limit <= MAX_LIMIT ==> ParseLimit(Some(Finite(limit as real))) == Ok(limit)
    ensures offset <= MAX_SAFE_INTEGER ==> ParseOffset(Some(Finite(offset as real))) == Ok(offset)
    ensures offset > MAX_SAFE_INTEGER ==> ParseOffset(Some(Finite(offset as real))) == Err(ValidationFailed)
  {
  }
}
