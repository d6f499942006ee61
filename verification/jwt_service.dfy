/** `JwtService` (jwt.service.ts): what goes into an access token and when
    it expires. Signing and verifying belong to @nestjs/jwt and are passed in
    as a `Signer`; `JWT_SECRET` and `JWT_EXPIRES_IN` are a `JwtConfig`. */
module JwtService {
  import opened Wrappers
  import opened Exceptions
  import opened Roles
  import opened DbSchema
  import opened Users

  /** `AccessTokenPayload` (types.ts) */
  datatype AccessTokenPayload = AccessTokenPayload(user: UserId, role: Role)

  /** The secret, and the lifetime in seconds (`Number(JWT_EXPIRES_IN)`). */
  datatype JwtConfig = JwtConfig(secret: string, expiresIn: nat)

  /** `jwt.sign(payload, { secret, expiresIn })` and
      `jwt.verifyAsync(token, { secret })`, the latter giving `None` where
      the library rejects the token. */
  datatype Signer = Signer(
    sign: (AccessTokenPayload, string, nat) -> string,
    verify: (string, string) -> Option<AccessTokenPayload>)

  /** The library reads back what it signed with the same secret (an
      assumption about @nestjs/jwt within the token's lifetime, used only as a
      stated premise). */
  ghost predicate VerifiesOwnTokens(s: Signer) {
    forall p: AccessTokenPayload, secret: string, expiresIn: nat ::
      s.verify(s.sign(p, secret, expiresIn), secret) == Some(p)
  }

  /** `signWithMeta`'s argument: a user entity or a ready payload. */
  datatype SignInput = EntityInput(entity: UserEntity) | PayloadInput(payload: AccessTokenPayload)

  datatype SignedAccessToken = SignedAccessToken(token: string, expiresAt: Time)

  /** The payload that gets signed: an entity contributes its id and role, a
      payload is taken as it is. */
  function PayloadOf(input: SignInput): (p: AccessTokenPayload)
    ensures input.EntityInput? ==> p == AccessTokenPayload(input.entity.id, input.entity.role)
    ensures input.PayloadInput? ==> p == input.payload
  {
    match input
    case EntityInput(u) => AccessTokenPayload(u.id, u.role)
    case PayloadInput(p) => p
  }

  /** `signWithMeta`: the token signs `PayloadOf(input)` with the configured
      secret and lifetime; it expires `expiresIn` seconds after `now`. */
  function SignWithMeta(input: SignInput, cfg: JwtConfig, signer: Signer, now: Time): (r: SignedAccessToken)
    ensures r.token == signer.sign(PayloadOf(input), cfg.secret, cfg.expiresIn)
    ensures r.expiresAt - now == cfg.expiresIn * 1000
  {
    SignedAccessToken(signer.sign(PayloadOf(input), cfg.secret, cfg.expiresIn), now + cfg.expiresIn * 1000)
  }

  /** `sign`: the token part of `signWithMeta`. */
  function Sign(input: SignInput, cfg: JwtConfig, signer: Signer, now: Time): (token: string)
    ensures token == SignWithMeta(input, cfg, signer, now).token
  {
    SignWithMeta(input, cfg, signer, now).token
  }

  /** `verifyAsync`: whatever the library rejects becomes INVALID_TOKEN. */
  function VerifyAsync(token: string, cfg: JwtConfig, signer: Signer): (r: Result<AccessTokenPayload>)
    ensures r.Ok? <==> signer.verify(token, cfg.secret).Some?
    ensures r.Ok? ==> r.value == signer.verify(token, cfg.secret).value
    ensures r.Err? ==> r.error == AuthError(InvalidToken)
  {
    match signer.verify(token, cfg.secret)
    case Some(p) => Ok(p)
    case None => Err(AuthError(InvalidToken))
  }

  /** A token signed for a user verifies to that user's id and role. */
  lemma SignVerifyRoundTrip(u: UserEntity, cfg: JwtConfig, signer: Signer, now: Time)
    requires VerifiesOwnTokens(signer)
    ensures VerifyAsync(Sign(EntityInput(u), cfg, signer, now), cfg, signer) == Ok(AccessTokenPayload(u.id, u.role))
  {
    var p := AccessTokenPayload(u.id, u.role);
    assert signer.verify(signer.sign(p, cfg.secret, cfg.expiresIn), cfg.secret) == Some(p);
  }
}
