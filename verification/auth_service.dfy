/** `AuthService` (auth.service.ts): registration, login and refresh-token
    rotation over the users table. Each call sees one clock reading, the
    three UUIDs one `createRefreshToken` would draw, bcrypt and the JWT
    library, all gathered in an `Env`. An `Outcome` records the table
    afterwards, what the call returned or threw, and the `save` calls it made
    in order. */
module AuthService {
  import opened Wrappers
  import opened Exceptions
  import opened Roles
  import opened DbSchema
  import opened Users
  import opened UsersRepository
  import opened RefreshTokenCrypto
  import opened JwtService
  import opened AuthSchema

  datatype Env = Env(
    now: Time,
    uuid1: string, uuid2: string, uuid3: string,
    hasher: Hasher,
    jwt: JwtConfig,
    signer: Signer)

  /** `crypto.randomUUID()` returned well-formed UUIDs. */
  predicate WellFormedUuids(env: Env) {
    IsUuid(env.uuid1) && IsUuid(env.uuid2) && IsUuid(env.uuid3)
  }

  /** The refresh token this call would issue. */
  function IssuedToken(env: Env): (t: IssuedRefreshToken)
    ensures t == CreateRefreshToken(env.uuid1, env.uuid2, env.uuid3, env.now)
  {
    CreateRefreshToken(env.uuid1, env.uuid2, env.uuid3, env.now)
  }

  datatype TokenResponse = TokenResponse(token: string, expiresAt: Time)
  datatype AuthTokens = AuthTokens(access: TokenResponse, refresh: TokenResponse)

  datatype SaveKind = InsertSave | UpdateSave

  datatype Outcome = Outcome(store: Store, result: Result<AuthTokens>, saves: seq<SaveKind>)

  /** Which statement `save` issues for an entity. */
  function KindOf(u: UserEntity): (k: SaveKind)
    ensures k == InsertSave <==> u.id == 0
  {
    if u.id == 0 then InsertSave else UpdateSave
  }

  /** A usable session: a truthy token with an expiry that has not passed
      (under the assumed meaning of `isRefreshTokenExpired`). */
  predicate HasLiveSession(u: UserEntity, now: Time) {
    && u.refreshToken.Some? && u.refreshToken.value != ""
    && u.refreshTokenExpiredAfter.Some?
    && !IsRefreshTokenExpired(u, now)
  }

  /** `rotateRefreshToken`: a fresh token valid for 24 hours; nothing else
      changes. */
  function RotateRefreshToken(u: UserEntity, env: Env): (r: UserEntity)
    ensures SameExceptSession(r, u)
    ensures r.refreshToken == Some(IssuedToken(env).token)
    ensures r.refreshTokenExpiredAfter == Some(env.now + REFRESH_TOKEN_TTL_MS)
    ensures WellFormedUuids(env) ==> HasLiveSession(r, env.now)
  {
    var t := IssuedToken(env);
    SetRefreshTokenExpiredAfter(SetRefreshToken(u, Some(t.token)), Some(t.expiredAfter))
  }

  /** `ensureRefreshToken`: rotates exactly when there is no live session and
      says whether it did; a live session is left alone. */
  function EnsureRefreshToken(u: UserEntity, env: Env): (r: (bool, UserEntity))
    ensures r.0 <==> !HasLiveSession(u, env.now)
    ensures !r.0 ==> r.1 == u
    ensures r.0 ==> r.1 == RotateRefreshToken(u, env)
    ensures WellFormedUuids(env) ==> HasLiveSession(r.1, env.now)
  {
    if u.refreshToken.None? || u.refreshToken.value == ""
       || u.refreshTokenExpiredAfter.None?
       || IsRefreshTokenExpired(u, env.now)
    then (true, RotateRefreshToken(u, env))
    else (false, u)
  }

  /** `buildTokens`: an access token for the user and the stored refresh
      token; a falsy token or a missing expiry is an invalid state. */
  function BuildTokens(u: UserEntity, env: Env): (r: Result<AuthTokens>)
    ensures r.Ok? <==> u.refreshToken.Some? && u.refreshToken.value != "" && u.refreshTokenExpiredAfter.Some?
    ensures r.Err? ==> r.error == AuthError(InvalidRefreshToken)
    ensures r.Ok? ==>
              && r.value.access.token == Sign(EntityInput(u), env.jwt, env.signer, env.now)
              && r.value.access.expiresAt == env.now + env.jwt.expiresIn * 1000
              && r.value.refresh == TokenResponse(u.refreshToken.value, u.refreshTokenExpiredAfter.value)
  {
    var access := SignWithMeta(EntityInput(u), env.jwt, env.signer, env.now);
    if u.refreshToken.None? || u.refreshToken.value == "" || u.refreshTokenExpiredAfter.None?
    then Err(AuthError(InvalidRefreshToken))
    else Ok(AuthTokens(TokenResponse(access.token, access.expiresAt),
                       TokenResponse(u.refreshToken.value, u.refreshTokenExpiredAfter.value)))
  }

  /** The common tail of `login` and `register`: ensure a session, save the
      user if it rotated, and build the tokens from the in-memory user. */
  function Issue(st: Store, u: UserEntity, env: Env, saves: seq<SaveKind>): (o: Outcome)
    ensures HasLiveSession(u, env.now) ==> o == Outcome(st, BuildTokens(u, env), saves)
    ensures !HasLiveSession(u, env.now) ==> o.saves == saves + [KindOf(u)]
    ensures Valid(st) ==> Valid(o.store)
  {
    var (rotated, u') := EnsureRefreshToken(u, env);
    if !rotated then Outcome(st, BuildTokens(u', env), saves)
    else
      var s := Save(st, u', env.now);
      if s.result.Err? then Outcome(s.store, Err(s.result.error), saves + [KindOf(u')])
      else Outcome(s.store, BuildTokens(u', env), saves + [KindOf(u')])
  }

  /** The entity `register` builds: defaults everywhere, the plaintext
      password to be hashed. */
  function NewUserParams(p: RegisterInput): (q: UserEntityParams)
    ensures q.password == Some(p.password) && q.id.None? && q.role.None?
    ensures q.refreshToken.None? && q.refreshTokenExpiredAfter.None?
  {
    UserEntityParams(None, p.name, p.surname, p.patronymic, p.phone, p.email,
                     Some(p.password), None, None, None, None, None, None)
  }

  /** `register`: the email and then the phone must be free; the new user
      is inserted, given a session, saved again, and handed its tokens. */
  function Register(st: Store, p: RegisterInput, env: Env): (o: Outcome)
    ensures o.saves == [] ==> o.store == st
    ensures |o.saves| <= 2 && (o.saves != [] ==> o.saves[0] == InsertSave)
    ensures Valid(st) ==> Valid(o.store)
  {
    match GetByEmailOrNull(st, p.email)
    case Err(e) => Outcome(st, Err(e), [])
    case Ok(Some(_)) => Outcome(st, Err(UsersError(UserAlreadyExists)), [])
    case Ok(None) =>
      match GetByPhoneOrNull(st, p.phone)
      case Err(e) => Outcome(st, Err(e), [])
      case Ok(Some(_)) => Outcome(st, Err(UsersError(UserAlreadyExists)), [])
      case Ok(None) =>
        match Users.Create(NewUserParams(p), env.hasher.hash, env.now)
        case Err(e) => Outcome(st, Err(e), [])
        case Ok(newUser) => InsertAndIssue(st, newUser, env)
  }

  /** Without a live session, `issue` is one rotation and one save. */
  lemma IssueRotates(st: Store, u: UserEntity, env: Env, saves: seq<SaveKind>)
    requires !HasLiveSession(u, env.now)
    ensures var u' := RotateRefreshToken(u, env);
            var s := Save(st, u', env.now);
            Issue(st, u, env, saves)
            == Outcome(s.store, if s.result.Err? then Err(s.result.error) else BuildTokens(u', env),
                       saves + [KindOf(u')])
  {
  }

  /** The second half of `register`: insert, then ensure a session. */
  function InsertAndIssue(st: Store, newUser: UserEntity, env: Env): (o: Outcome)
    requires newUser.id == 0
    ensures |o.saves| <= 2 && o.saves != [] && o.saves[0] == InsertSave
    ensures Valid(st) ==> Valid(o.store)
  {
    var s := Save(st, newUser, env.now);
    if s.result.Err? then Outcome(s.store, Err(s.result.error), [InsertSave])
    else Issue(s.store, s.result.value, env, [InsertSave])
  }

  /** `login`: find the user by phone or email, check the password, then
      ensure a session as `register` does. */
  function Login(st: Store, input: LoginInput, env: Env): (o: Outcome)
    ensures o.saves == [] ==> o.store == st
    ensures |o.saves| <= 1
    ensures Valid(st) ==> Valid(o.store)
  {
    match GetByPhoneOrEmail(st, input.login)
    case Err(e) => Outcome(st, Err(e), [])
    case Ok(candidate) =>
      match ComparePassword(candidate, input.password, env.hasher)
      case Err(e) => Outcome(st, Err(e), [])
      case Ok(_) => Issue(st, candidate, env, [])
  }

  /** `refreshTokens`: the presented token must be a user's current one,
      and unexpired; the session is then always rotated and saved. */
  function RefreshTokens(st: Store, token: RefreshToken, env: Env): (o: Outcome)
    ensures o.saves == [] ==> o.store == st
    ensures |o.saves| <= 1
    ensures Valid(st) ==> Valid(o.store)
  {
    match GetByRefreshToken(st, token)
    case Err(e) => Outcome(st, Err(e), [])
    case Ok(None) => Outcome(st, Err(AuthError(InvalidRefreshToken)), [])
    case Ok(Some(user)) =>
      if user.refreshToken.None? || user.refreshToken.value == "" || user.refreshToken.value != token
      then Outcome(st, Err(AuthError(InvalidRefreshToken)), [])
      else if IsRefreshTokenExpired(user, env.now)
      then Outcome(st, Err(AuthError(ExpiredRefreshToken)), [])
      else
        var u := RotateRefreshToken(user, env);
        var s := Save(st, u, env.now);
        if s.result.Err? then Outcome(s.store, Err(s.result.error), [KindOf(u)])
        else Outcome(s.store, BuildTokens(u, env), [KindOf(u)])
  }

  /** A taken email or phone ends `register` with USER_ALREADY_EXISTS
      before anything is written. */
  lemma RegisterConflict(st: Store, p: RegisterInput, env: Env)
    requires Consistent(st)
    requires HasEmail(st, p.email.GetValue()) || HasPhone(st, p.phone.GetValue())
    ensures Register(st, p, env) == Outcome(st, Err(UsersError(UserAlreadyExists)), [])
  {
  }

  /** A registration the value objects accept but the table's CHECK
      constraints refuse fails at the INSERT: no row is written, and the
      serial value the INSERT drew is gone. */
  lemma RegisterRejectedByDb(st: Store, p: RegisterInput, env: Env)
    requires Consistent(st)
    requires !HasEmail(st, p.email.GetValue()) && !HasPhone(st, p.phone.GetValue())
    requires !PhoneNumberFormat(p.phone.GetValue()) || !EmailFormat(p.email.GetValue())
    requires HashesNonEmpty(env.hasher)
    ensures Register(st, p, env) == Outcome(Store(st.rows, st.nextId + 1), Err(ConstraintViolation), [InsertSave])
  {
    var newUser := Users.Create(NewUserParams(p), env.hasher.hash, env.now).value;
    assert newUser.phone == p.phone && newUser.email == p.email && newUser.passwordHash != "";
    assert Insert(st, SaveValues(newUser), env.now).result.Err?;
  }

  /** A wrong password fails `login` before any rotation or save. */
  lemma LoginWrongPassword(st: Store, input: LoginInput, env: Env)
    requires GetByPhoneOrEmail(st, input.login).Ok?
    requires !env.hasher.compare(input.password.GetValue(), GetByPhoneOrEmail(st, input.login).value.passwordHash)
    ensures Login(st, input, env) == Outcome(st, Err(AuthError(InvalidPassword)), [])
  {
  }

  /** A user with a live session logs in without a save and gets the stored
      refresh token and expiry back unchanged. */
  lemma LoginKeepsLiveSession(st: Store, input: LoginInput, env: Env)
    requires GetByPhoneOrEmail(st, input.login).Ok?
    requires var u := GetByPhoneOrEmail(st, input.login).value;
             env.hasher.compare(input.password.GetValue(), u.passwordHash) && HasLiveSession(u, env.now)
    ensures var u := GetByPhoneOrEmail(st, input.login).value;
            var o := Login(st, input, env);
            && o.store == st && o.saves == []
            && o.result.Ok?
            && o.result.value.refresh == TokenResponse(u.refreshToken.value, u.refreshTokenExpiredAfter.value)
  {
  }

  /** Under bcrypt's law, the password a user registered with, or last set,
      passes the check at login. */
  lemma LoginAcceptsOwnPassword(u: UserEntity, pw: Password, h: Hasher)
    requires CompareAcceptsOwnHash(h)
    ensures ComparePassword(SetPassword(u, pw, h), pw, h).Ok?
  {
  }

  /** A user without a live session who logs in correctly gets a fresh
      24-hour refresh token, which one UPDATE stores in that user's row and
      nowhere else; the access token is signed for the user's id and role. */
  lemma LoginRotatesStaleSession(st: Store, input: LoginInput, env: Env)
    requires Consistent(st) && WellFormedUuids(env)
    requires GetByPhoneOrEmail(st, input.login).Ok?
    requires var u := GetByPhoneOrEmail(st, input.login).value;
             env.hasher.compare(input.password.GetValue(), u.passwordHash) && !HasLiveSession(u, env.now)
    ensures var u := GetByPhoneOrEmail(st, input.login).value;
            var o := Login(st, input, env);
            var i := IndexOfId(st.rows, u.id);
            && o.saves == [UpdateSave]
            && o.result.Ok?
            && o.result.value.refresh == TokenResponse(IssuedToken(env).token, env.now + REFRESH_TOKEN_TTL_MS)
            && o.result.value.access.token
               == Sign(PayloadInput(AccessTokenPayload(u.id, u.role)), env.jwt, env.signer, env.now)
            && i < |st.rows| && |o.store.rows| == |st.rows|
            && o.store == Store(st.rows[i := o.store.rows[i]], st.nextId)
            && o.store.rows[i].refreshToken == Some(IssuedToken(env).token)
  {
    var u := GetByPhoneOrEmail(st, input.login).value;
    var i := LoginContinuesAsIssue(st, input, env);
    ReissueStoredUser(st, i, u, env, []);
    ReissueStoredRow(st, i, u, env, []);
    assert [] + [UpdateSave] == [UpdateSave];
  }

  /** Past the password check, `login` is `issue` for the user read from
      the row the lookup found. */
  lemma LoginContinuesAsIssue(st: Store, input: LoginInput, env: Env) returns (i: nat)
    requires Consistent(st)
    requires GetByPhoneOrEmail(st, input.login).Ok?
    requires var u := GetByPhoneOrEmail(st, input.login).value;
             env.hasher.compare(input.password.GetValue(), u.passwordHash)
    ensures var u := GetByPhoneOrEmail(st, input.login).value;
            && i < |st.rows| && FromDb(st.rows[i]) == Ok(u)
            && IndexOfId(st.rows, u.id) == i
            && Login(st, input, env) == Issue(st, u, env, [])
  {
    var u := GetByPhoneOrEmail(st, input.login).value;
    i := LoginLookupFromRow(st, input.login);
    LoadedUserResaves(st, i, u);
  }

  /** Saving the rotated session of the user read from row `i` succeeds and
      rewrites that row only. */
  lemma RotatedUserSaves(st: Store, i: nat, u: UserEntity, env: Env)
    requires Valid(st)
    requires i < |st.rows| && FromDb(st.rows[i]) == Ok(u)
    ensures var s := Save(st, RotateRefreshToken(u, env), env.now);
            && IndexOfId(st.rows, u.id) == i && u.id != 0
            && s.result.Ok?
            && |s.store.rows| == |st.rows|
            && s.store == Store(st.rows[i := s.store.rows[i]], st.nextId)
  {
    LoadedUserResaves(st, i, u);
    SaveUpdateRoundTrip(st, RotateRefreshToken(u, env), env.now);
  }

  /** The tokens built for a freshly rotated user: an access token for its
      id and role, and the new refresh token with its 24-hour expiry. */
  lemma RotatedTokens(u: UserEntity, env: Env)
    requires WellFormedUuids(env)
    ensures var t := BuildTokens(RotateRefreshToken(u, env), env);
            && t.Ok?
            && t.value.refresh == TokenResponse(IssuedToken(env).token, env.now + REFRESH_TOKEN_TTL_MS)
            && t.value.access.token == Sign(PayloadInput(AccessTokenPayload(u.id, u.role)), env.jwt, env.signer, env.now)
  {
  }

  /** A token no row holds is refused before any other check, with nothing
      written. */
  lemma RefreshRejectsUnknown(st: Store, token: RefreshToken, env: Env)
    requires forall i | 0 <= i < |st.rows| :: st.rows[i].refreshToken != Some(token)
    ensures RefreshTokens(st, token, env) == Outcome(st, Err(AuthError(InvalidRefreshToken)), [])
  {
  }

  /** A user's current token past its expiry is refused as expired, with
      nothing written. */
  lemma RefreshRejectsExpired(st: Store, token: RefreshToken, env: Env)
    requires token != ""
    requires GetByRefreshToken(st, token).Ok? && GetByRefreshToken(st, token).value.Some?
    requires IsRefreshTokenExpired(GetByRefreshToken(st, token).value.value, env.now)
    ensures RefreshTokens(st, token, env) == Outcome(st, Err(AuthError(ExpiredRefreshToken)), [])
  {
  }

  /** A user's current, unexpired token is exchanged for a fresh one: one
      UPDATE writes it into that user's row, and both tokens are returned. */
  lemma RefreshRotates(st: Store, token: RefreshToken, env: Env)
    requires Consistent(st) && WellFormedUuids(env) && token != ""
    requires GetByRefreshToken(st, token).Ok? && GetByRefreshToken(st, token).value.Some?
    requires !IsRefreshTokenExpired(GetByRefreshToken(st, token).value.value, env.now)
    ensures var u := GetByRefreshToken(st, token).value.value;
            var o := RefreshTokens(st, token, env);
            var i := IndexOfId(st.rows, u.id);
            && o.saves == [UpdateSave]
            && o.result.Ok?
            && o.result.value.refresh == TokenResponse(IssuedToken(env).token, env.now + REFRESH_TOKEN_TTL_MS)
            && o.result.value.access.token
               == Sign(PayloadInput(AccessTokenPayload(u.id, u.role)), env.jwt, env.signer, env.now)
            && i < |st.rows| && st.rows[i].refreshToken == Some(token)
            && |o.store.rows| == |st.rows|
            && o.store == Store(st.rows[i := o.store.rows[i]], st.nextId)
            && o.store.rows[i].refreshToken == Some(IssuedToken(env).token)
  {
    var u := GetByRefreshToken(st, token).value.value;
    var i := TokenLookupFromRow(st, token);
    RotatedUserSaves(st, i, u, env);
    RefreshIsRotation(st, token, env);
    RotatedTokens(u, env);
    LoadedUserResaves(st, i, u);
    RotatedRowKeepsIdentity(st, i, RotateRefreshToken(u, env), env.now);
  }

  /** Past the two checks, `refreshTokens` is one rotation and one save. */
  lemma RefreshIsRotation(st: Store, token: RefreshToken, env: Env)
    requires token != ""
    requires GetByRefreshToken(st, token).Ok? && GetByRefreshToken(st, token).value.Some?
    requires !IsRefreshTokenExpired(GetByRefreshToken(st, token).value.value, env.now)
    ensures var u' := RotateRefreshToken(GetByRefreshToken(st, token).value.value, env);
            var s := Save(st, u', env.now);
            RefreshTokens(st, token, env)
            == Outcome(s.store, if s.result.Err? then Err(s.result.error) else BuildTokens(u', env), [KindOf(u')])
  {
  }

  /** Refresh tokens are single-use: once a refresh has rotated the only
      row holding `token`, presenting `token` again is refused. */
  lemma RefreshRevokesOldToken(st: Store, token: RefreshToken, env: Env, later: Env)
    requires Consistent(st) && WellFormedUuids(env) && token != ""
    requires GetByRefreshToken(st, token).Ok? && GetByRefreshToken(st, token).value.Some?
    requires !IsRefreshTokenExpired(GetByRefreshToken(st, token).value.value, env.now)
    requires IssuedToken(env).token != token
    requires forall i, j | 0 <= i < j < |st.rows| ::
               st.rows[i].refreshToken != Some(token) || st.rows[j].refreshToken != Some(token)
    ensures var o := RefreshTokens(st, token, env);
            RefreshTokens(o.store, token, later) == Outcome(o.store, Err(AuthError(InvalidRefreshToken)), [])
  {
    RefreshRotates(st, token, env);
    var o := RefreshTokens(st, token, env);
    var i := IndexOfId(st.rows, GetByRefreshToken(st, token).value.value.id);
    forall j | 0 <= j < |o.store.rows| ensures o.store.rows[j].refreshToken != Some(token) {
      if j != i {
        assert o.store.rows[j] == st.rows[j];
        if j < i {
          assert st.rows[j].refreshToken != Some(token);
        } else {
          assert st.rows[j].refreshToken != Some(token);
        }
      }
    }
    RefreshRejectsUnknown(o.store, token, later);
  }

  /** A registration with a free email and phone, which the table's CHECK
      constraints accept, inserts one Inspector row at the next id, gives it
      a fresh session with a second save, and returns that session's tokens. */
  lemma RegisterSucceeds(st: Store, p: RegisterInput, env: Env)
    requires Consistent(st) && WellFormedUuids(env) && HashesNonEmpty(env.hasher)
    requires p.Valid()
    requires !HasEmail(st, p.email.GetValue()) && !HasPhone(st, p.phone.GetValue())
    requires PhoneNumberFormat(p.phone.GetValue()) && EmailFormat(p.email.GetValue())
    ensures var o := Register(st, p, env);
            var n := |st.rows|;
            && o.saves == [InsertSave, UpdateSave]
            && o.result.Ok?
            && o.result.value.refresh == TokenResponse(IssuedToken(env).token, env.now + REFRESH_TOKEN_TTL_MS)
            && o.result.value.access.token
               == Sign(PayloadInput(AccessTokenPayload(st.nextId, Inspector)), env.jwt, env.signer, env.now)
            && |o.store.rows| == n + 1 && o.store.rows[..n] == st.rows
            && o.store.rows[n].id == st.nextId && o.store.rows[n].roleId == Inspector
            && o.store.rows[n].phoneNumber == p.phone.GetValue() && o.store.rows[n].email == p.email.GetValue()
            && o.store.rows[n].passwordHash == env.hasher.hash(p.password.GetValue())
            && o.store.rows[n].refreshToken == Some(IssuedToken(env).token)
  {
    var newUser := RegisterBuildsInsertable(st, p, env);
    InsertThenRotate(st, newUser, env);
    InsertThenRotateSaves(st, newUser, env);
    InsertThenRotateAccess(st, newUser, env);
    InsertThenRotateRow(st, newUser, env);
  }

  /** With both keys free, `register` goes on to insert the entity it built:
      an inspector with the given keys and the hashed password. */
  lemma RegisterBuildsInsertable(st: Store, p: RegisterInput, env: Env) returns (newUser: UserEntity)
    requires Consistent(st) && HashesNonEmpty(env.hasher)
    requires p.Valid()
    requires !HasEmail(st, p.email.GetValue()) && !HasPhone(st, p.phone.GetValue())
    requires PhoneNumberFormat(p.phone.GetValue()) && EmailFormat(p.email.GetValue())
    ensures Insertable(st, newUser)
    ensures Register(st, p, env) == InsertAndIssue(st, newUser, env)
    ensures newUser.role == Inspector && newUser.phone == p.phone && newUser.email == p.email
    ensures newUser.passwordHash == env.hasher.hash(p.password.GetValue())
  {
    newUser := Users.Create(NewUserParams(p), env.hasher.hash, env.now).value;
    assert Register(st, p, env) == InsertAndIssue(st, newUser, env);
    assert !Clashes(st.rows, p.phone.GetValue(), p.email.GetValue(), -1);
  }

  /** What the INSERT of `register` needs to succeed: a new, well-formed
      user with a hash and no session, whose phone number and email pass
      the CHECK constraints and are held by no row. */
  predicate Insertable(st: Store, newUser: UserEntity) {
    && newUser.id == 0 && newUser.WellFormed() && newUser.passwordHash != ""
    && newUser.refreshToken.None?
    && PhoneNumberFormat(newUser.phone.GetValue()) && EmailFormat(newUser.email.GetValue())
    && !Clashes(st.rows, newUser.phone.GetValue(), newUser.email.GetValue(), -1)
  }

  /** The second half of a successful `register`: the INSERT, then the
      UPDATE that stores the new session; these are the tokens returned. */
  lemma InsertThenRotate(st: Store, newUser: UserEntity, env: Env)
    requires Valid(st) && WellFormedUuids(env)
    requires Insertable(st, newUser)
    ensures var o := InsertAndIssue(st, newUser, env);
            && o.result.Ok?
            && o.result.value.refresh == TokenResponse(IssuedToken(env).token, env.now + REFRESH_TOKEN_TTL_MS)
  {
    var st1, saved := InsertedThenIssued(st, newUser, env);
    ReissueStoredUser(st1, |st.rows|, saved, env, [InsertSave]);
  }

  /** A successful `register` issues two statements: the INSERT, then the
      UPDATE that stores the session. */
  lemma InsertThenRotateSaves(st: Store, newUser: UserEntity, env: Env)
    requires Valid(st)
    requires Insertable(st, newUser)
    ensures InsertAndIssue(st, newUser, env).saves == [InsertSave, UpdateSave]
  {
    SaveInsertRoundTrip(st, newUser, env.now);
    assert [InsertSave] + [UpdateSave] == [InsertSave, UpdateSave];
  }

  /** The access token `register` returns is signed for the new row's id
      and the new user's role. */
  lemma InsertThenRotateAccess(st: Store, newUser: UserEntity, env: Env)
    requires Valid(st) && WellFormedUuids(env)
    requires Insertable(st, newUser)
    ensures var o := InsertAndIssue(st, newUser, env);
            && o.result.Ok?
            && o.result.value.access.token
               == Sign(PayloadInput(AccessTokenPayload(st.nextId, newUser.role)), env.jwt, env.signer, env.now)
  {
    var st1, saved := InsertedThenIssued(st, newUser, env);
    ReissueStoredUser(st1, |st.rows|, saved, env, [InsertSave]);
  }

  /** The table after a successful `register`: one new row at the next id
      holding the new user's identity and session. */
  lemma InsertThenRotateRow(st: Store, newUser: UserEntity, env: Env)
    requires Valid(st)
    requires Insertable(st, newUser)
    ensures var o := InsertAndIssue(st, newUser, env);
            var n := |st.rows|;
            && |o.store.rows| == n + 1 && o.store.rows[..n] == st.rows
            && o.store.rows[n].id == st.nextId && o.store.rows[n].roleId == newUser.role
            && o.store.rows[n].phoneNumber == newUser.phone.GetValue()
            && o.store.rows[n].email == newUser.email.GetValue()
            && o.store.rows[n].passwordHash == newUser.passwordHash
            && o.store.rows[n].refreshToken == Some(IssuedToken(env).token)
  {
    var n := |st.rows|;
    var st1, saved := InsertedThenIssued(st, newUser, env);
    ReissueStoredRow(st1, n, saved, env, [InsertSave]);
    var o := Issue(st1, saved, env, [InsertSave]);
    assert o.store.rows[..n] == st1.rows[..n];
  }

  /** After the INSERT, `register` continues as `issue` on the table with
      the new row and the user read back from it. */
  lemma InsertedThenIssued(st: Store, newUser: UserEntity, env: Env) returns (st1: Store, saved: UserEntity)
    requires Valid(st)
    requires Insertable(st, newUser)
    ensures InsertAndIssue(st, newUser, env) == Issue(st1, saved, env, [InsertSave])
    ensures saved == newUser.(id := st.nextId, createdAt := env.now, updatedAt := Some(env.now))
    ensures |st1.rows| == |st.rows| + 1 && st1.rows[..|st.rows|] == st.rows
    ensures FromDb(st1.rows[|st.rows|]) == Ok(saved)
    ensures Valid(st1)
  {
    st1 := Save(st, newUser, env.now).store;
    saved := InsertedRow(st, newUser, env.now);
  }

  /** `issue` for the user read from row `i` when that user has no live
      session: one UPDATE, and the tokens of the fresh session. */
  lemma ReissueStoredUser(st: Store, i: nat, u: UserEntity, env: Env, saves: seq<SaveKind>)
    requires Valid(st) && WellFormedUuids(env)
    requires i < |st.rows| && FromDb(st.rows[i]) == Ok(u) && !HasLiveSession(u, env.now)
    ensures var o := Issue(st, u, env, saves);
            && o.saves == saves + [UpdateSave]
            && o.result.Ok?
            && o.result.value.refresh == TokenResponse(IssuedToken(env).token, env.now + REFRESH_TOKEN_TTL_MS)
            && o.result.value.access.token
               == Sign(PayloadInput(AccessTokenPayload(u.id, u.role)), env.jwt, env.signer, env.now)
  {
    RotatedUserSaves(st, i, u, env);
    IssueRotates(st, u, env, saves);
    RotatedTokens(u, env);
  }

  /** The same `issue` rewrites row `i`, and only it, with the user's
      identity and the fresh session. */
  lemma ReissueStoredRow(st: Store, i: nat, u: UserEntity, env: Env, saves: seq<SaveKind>)
    requires Valid(st)
    requires i < |st.rows| && FromDb(st.rows[i]) == Ok(u) && !HasLiveSession(u, env.now)
    ensures var o := Issue(st, u, env, saves);
            && |o.store.rows| == |st.rows|
            && o.store == Store(st.rows[i := o.store.rows[i]], st.nextId)
            && o.store.rows[i].id == u.id && o.store.rows[i].roleId == u.role
            && o.store.rows[i].phoneNumber == u.phone.GetValue() && o.store.rows[i].email == u.email.GetValue()
            && o.store.rows[i].passwordHash == u.passwordHash
            && o.store.rows[i].refreshToken == Some(IssuedToken(env).token)
  {
    RotatedUserSaves(st, i, u, env);
    LoadedUserResaves(st, i, u);
    IssueRotates(st, u, env, saves);
    RotatedRowKeepsIdentity(st, i, RotateRefreshToken(u, env), env.now);
  }

  /** The INSERT of a new user appends a row that reads back as the user
      with the id, timestamps and empty session the table gave it. */
  lemma InsertedRow(st: Store, newUser: UserEntity, now: Time) returns (saved: UserEntity)
    requires Valid(st)
    requires Insertable(st, newUser)
    ensures var s := Save(st, newUser, now);
            && s.result == Ok(saved)
            && saved == newUser.(id := st.nextId, createdAt := now, updatedAt := Some(now))
            && |s.store.rows| == |st.rows| + 1 && s.store.rows[..|st.rows|] == st.rows
            && FromDb(s.store.rows[|st.rows|]) == Ok(saved)
            && Valid(s.store)
  {
    SaveInsertRoundTrip(st, newUser, now);
    saved := Save(st, newUser, now).result.value;
    var k := SavedRow(st, newUser, now);
  }

  /** The UPDATE of a user read from row `i` writes that row with the
      user's id, role, keys, hash (when non-empty) and session. */
  lemma RotatedRowKeepsIdentity(st: Store, i: nat, u: UserEntity, now: Time)
    requires Valid(st) && i < |st.rows| && u.WellFormed() && u.id == st.rows[i].id && u.id != 0
    requires IndexOfId(st.rows, u.id) == i && u.passwordHash != ""
    requires PhoneNumberFormat(u.phone.GetValue()) && EmailFormat(u.email.GetValue())
    requires !Clashes(st.rows, u.phone.GetValue(), u.email.GetValue(), u.id)
    ensures var s := Save(st, u, now);
            && i < |s.store.rows|
            && s.store.rows[i].id == u.id && s.store.rows[i].roleId == u.role
            && s.store.rows[i].phoneNumber == u.phone.GetValue() && s.store.rows[i].email == u.email.GetValue()
            && s.store.rows[i].passwordHash == u.passwordHash
            && s.store.rows[i].refreshToken == u.refreshToken
  {
    var i' := IndexOfId(st.rows, u.id);
    var (st', row) := Update(st, u.id, SavePatch(u), now).value;
  }

  /** With well-formed UUIDs the session `issue` hands out is complete, so
      `buildTokens` never reaches its invalid-state error. */
  lemma IssueCompletesSession(st: Store, u: UserEntity, env: Env, saves: seq<SaveKind>)
    requires WellFormedUuids(env)
    ensures Issue(st, u, env, saves).result != Err(AuthError(InvalidRefreshToken))
  {
    var (rotated, u') := EnsureRefreshToken(u, env);
    assert BuildTokens(u', env).Ok?;
    if rotated {
      assert Save(st, u', env.now).result.Err? ==> Save(st, u', env.now).result.error in SaveErrors;
    }
  }

  /** `login` never ends in the invalid-state error. */
  lemma LoginNeverInvalidState(st: Store, input: LoginInput, env: Env)
    requires WellFormedUuids(env)
    ensures Login(st, input, env).result != Err(AuthError(InvalidRefreshToken))
  {
    var r := GetByPhoneOrEmail(st, input.login);
    if r.Ok? && ComparePassword(r.value, input.password, env.hasher).Ok? {
      assert Login(st, input, env) == Issue(st, r.value, env, []);
      IssueCompletesSession(st, r.value, env, []);
    }
  }

  /** `register` never ends in the invalid-state error. */
  lemma RegisterNeverInvalidState(st: Store, p: RegisterInput, env: Env)
    requires WellFormedUuids(env)
    ensures Register(st, p, env).result != Err(AuthError(InvalidRefreshToken))
  {
    var c := Users.Create(NewUserParams(p), env.hasher.hash, env.now);
    if GetByEmailOrNull(st, p.email) == Ok(None) && GetByPhoneOrNull(st, p.phone) == Ok(None) && c.Ok? {
      assert Register(st, p, env) == InsertAndIssue(st, c.value, env);
      InsertAndIssueCompletesSession(st, c.value, env);
    }
  }

  /** Neither save of `register` leads to the invalid-state error. */
  lemma InsertAndIssueCompletesSession(st: Store, newUser: UserEntity, env: Env)
    requires WellFormedUuids(env) && newUser.id == 0
    ensures InsertAndIssue(st, newUser, env).result != Err(AuthError(InvalidRefreshToken))
  {
    var s := Save(st, newUser, env.now);
    if s.result.Ok? {
      IssueCompletesSession(s.store, s.result.value, env, [InsertSave]);
    }
  }

  /** Every table `issue` leaves behind still reads back row by row. */
  lemma IssueKeepsConsistent(st: Store, u: UserEntity, env: Env, saves: seq<SaveKind>)
    requires Consistent(st) && u.WellFormed()
    ensures Consistent(Issue(st, u, env, saves).store)
  {
    var (rotated, u') := EnsureRefreshToken(u, env);
    if rotated {
      SaveKeepsConsistent(st, u', env.now);
    }
  }

  /** `login` keeps every row readable, whatever the input. */
  lemma LoginKeepsConsistent(st: Store, input: LoginInput, env: Env)
    requires Consistent(st)
    ensures Consistent(Login(st, input, env).store)
  {
    if GetByPhoneOrEmail(st, input.login).Ok? {
      var i := LoginLookupFromRow(st, input.login);
      var u := GetByPhoneOrEmail(st, input.login).value;
      LoadedUserResaves(st, i, u);
      IssueKeepsConsistent(st, u, env, []);
    }
  }

  /** `register` of parsed input keeps every row readable. */
  lemma RegisterKeepsConsistent(st: Store, p: RegisterInput, env: Env)
    requires Consistent(st) && p.Valid()
    ensures Consistent(Register(st, p, env).store)
  {
    var c := Users.Create(NewUserParams(p), env.hasher.hash, env.now);
    if GetByEmailOrNull(st, p.email) == Ok(None) && GetByPhoneOrNull(st, p.phone) == Ok(None) && c.Ok? {
      assert Register(st, p, env) == InsertAndIssue(st, c.value, env);
      InsertAndIssueKeepsConsistent(st, c.value, env);
    } else {
      assert Register(st, p, env).store == st;
    }
  }

  lemma InsertAndIssueKeepsConsistent(st: Store, newUser: UserEntity, env: Env)
    requires Consistent(st) && newUser.id == 0 && newUser.WellFormed()
    ensures Consistent(InsertAndIssue(st, newUser, env).store)
  {
    SaveKeepsConsistent(st, newUser, env.now);
    var s := Save(st, newUser, env.now);
    if s.result.Ok? {
      IssueKeepsConsistent(s.store, s.result.value, env, [InsertSave]);
    }
  }

  /** `refreshTokens` keeps every row readable, whatever the token. */
  lemma RefreshKeepsConsistent(st: Store, token: RefreshToken, env: Env)
    requires Consistent(st)
    ensures Consistent(RefreshTokens(st, token, env).store)
  {
    var r := GetByRefreshToken(st, token);
    if r.Ok? && r.value.Some? && token != "" && !IsRefreshTokenExpired(r.value.value, env.now) {
      RotationKeepsConsistent(st, token, env);
    } else {
      RefusalWritesNothing(st, token, env);
    }
  }

  /** A refresh that fails one of its checks writes nothing. */
  lemma RefusalWritesNothing(st: Store, token: RefreshToken, env: Env)
    requires var r := GetByRefreshToken(st, token);
             !(r.Ok? && r.value.Some? && token != "" && !IsRefreshTokenExpired(r.value.value, env.now))
    ensures RefreshTokens(st, token, env).store == st
  {
  }

  lemma RotationKeepsConsistent(st: Store, token: RefreshToken, env: Env)
    requires Consistent(st) && token != ""
    requires GetByRefreshToken(st, token).Ok? && GetByRefreshToken(st, token).value.Some?
    requires !IsRefreshTokenExpired(GetByRefreshToken(st, token).value.value, env.now)
    ensures Consistent(RefreshTokens(st, token, env).store)
  {
    var u := GetByRefreshToken(st, token).value.value;
    var i := TokenLookupFromRow(st, token);
    LoadedUserResaves(st, i, u);
    RefreshIsRotation(st, token, env);
    SaveKeepsConsistent(st, RotateRefreshToken(u, env), env.now);
  }
}

