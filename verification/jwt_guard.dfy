/** `JwtAuthGuard` (jwt.guard.ts): takes the access token from an
    `Authorization: Bearer <token>` header and lets the request through with
    the verified payload. */
module JwtGuard {
  import opened Wrappers
  import opened Exceptions
  import opened JsText
  import opened JwtService
  import Users

  const BEARER: string := "Bearer"

  /** The header is "Bearer", one space, then `token` (non-empty, no space),
      then either nothing or a space and anything. */
  predicate BearerShape(h: string, token: string) {
    && token != "" && ' ' !in token
    && |h| >= 7 + |token|
    && h[..7] == BEARER + " "
    && h[7..7 + |token|] == token
    && (|h| == 7 + |token| || h[7 + |token|] == ' ')
  }

  /** `extractTokenFromHeaders`: `const [type, token] = header.split(' ')`;
      a missing or empty header, a first segment other than "Bearer", or an
      absent or empty second segment give no token. */
  function ExtractTokenFromHeaders(authorization: Option<string>): (t: Option<string>)
    ensures authorization.None? || authorization.value == "" ==> t.None?
    ensures t.Some? ==> t.value != "" && ' ' !in t.value
  {
    if authorization.None? || authorization.value == "" then None
    else
      var parts := Split(authorization.value, ' ');
      if parts[0] != BEARER || |parts| < 2 || parts[1] == "" then None
      else Some(parts[1])
  }

  /** The header yields exactly the tokens of the Bearer shape. */
  lemma ExtractIffBearer(h: string, token: string)
    ensures ExtractTokenFromHeaders(Some(h)) == Some(token) <==> BearerShape(h, token)
  {
    if BearerShape(h, token) {
      var rest := h[7..];
      assert h == BEARER + [' '] + rest;
      assert ' ' !in BEARER;
      SplitAfterPiece(BEARER, rest, ' ');
      if |h| == 7 + |token| {
        assert rest == token;
        SplitNoSep(token, ' ');
      } else {
        var tail := h[8 + |token|..];
        assert rest == token + [' '] + tail;
        SplitAfterPiece(token, tail, ' ');
      }
    }
    if ExtractTokenFromHeaders(Some(h)) == Some(token) {
      var parts := Split(h, ' ');
      JoinSplit(h, ' ');
      assert parts[0] == BEARER && parts[1] == token;
      assert Join(parts, ' ') == parts[0] + [' '] + Join(parts[1..], ' ');
      if |parts| == 2 {
        assert Join(parts[1..], ' ') == token;
        assert h == BEARER + [' '] + token;
      } else {
        var more := Join(parts[2..], ' ');
        assert parts[1..][1..] == parts[2..];
        assert Join(parts[1..], ' ') == token + [' '] + more;
        assert h == BEARER + [' '] + token + [' '] + more;
      }
    }
  }

  /** Segments after the second are ignored. */
  lemma ExtraSegmentsIgnored()
    ensures ExtractTokenFromHeaders(Some("Bearer a b")) == Some("a")
  {
    var h := "Bearer a b";
    assert h[..7] == BEARER + " " && h[7..8] == "a" && h[8] == ' ';
    assert BearerShape(h, "a");
    ExtractIffBearer(h, "a");
  }

  /** `canActivate`: no token is Unauthorized without consulting the
      verifier; otherwise the verified payload becomes `request.user` and
      `request.role`, and a rejected token INVALID_TOKEN. */
  function CanActivate(authorization: Option<string>, cfg: JwtConfig, signer: Signer): (r: Result<AccessTokenPayload>)
    ensures ExtractTokenFromHeaders(authorization).None? ==> r == Err(Unauthorized)
    ensures ExtractTokenFromHeaders(authorization).Some? ==>
              r == VerifyAsync(ExtractTokenFromHeaders(authorization).value, cfg, signer)
    ensures r.Ok? ==> ExtractTokenFromHeaders(authorization).Some?
                      && signer.verify(ExtractTokenFromHeaders(authorization).value, cfg.secret) == Some(r.value)
  {
    match ExtractTokenFromHeaders(authorization)
    case None => Err(Unauthorized)
    case Some(token) => VerifyAsync(token, cfg, signer)
  }

  /** A request carrying `Bearer <access token>` for a user is let through
      as that user with that role. */
  lemma GuardAcceptsIssuedToken(u: Users.UserEntity, cfg: JwtConfig, signer: Signer, now: int)
    requires VerifiesOwnTokens(signer)
    requires var t := Sign(EntityInput(u), cfg, signer, now); t != "" && ' ' !in t
    ensures CanActivate(Some(BEARER + " " + Sign(EntityInput(u), cfg, signer, now)), cfg, signer)
            == Ok(AccessTokenPayload(u.id, u.role))
  {
    var t := Sign(EntityInput(u), cfg, signer, now);
    var h := BEARER + " " + t;
    assert h[..7] == BEARER + " " && h[7..7 + |t|] == t;
    ExtractIffBearer(h, t);
    SignVerifyRoundTrip(u, cfg, signer, now);
  }
}
