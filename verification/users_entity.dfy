/** `UserEntity` (users.entity.ts): the user aggregate with its construction
    rules, password check, setters and `fromDb` rehydration. The entity is
    an immutable value here; each setter returns the changed entity. Hashing
    and comparison (bcrypt with a random salt) are passed in as a `Hasher`. */
module Users {
  import opened Wrappers
  import opened Exceptions
  import opened Roles
  import opened DbSchema
  import EmailValue
  import PhoneValue
  import NameValue
  import PasswordValue

  type UserId = int
  type HashedPassword = string
  type RefreshToken = string

  type Email = EmailValue.EmailValueType
  type Phone = PhoneValue.PhoneValueType
  type Name = NameValue.NameValueType
  type Password = PasswordValue.PasswordValueType

  /** `hashPassword` and `comparePassword` of bcrypt.ts, applied to the
      plaintext of a password. */
  datatype Hasher = Hasher(hash: string -> HashedPassword, compare: (string, HashedPassword) -> bool)

  /** bcrypt never returns an empty hash. An assumption about the library,
      used only as a stated premise. */
  ghost predicate HashesNonEmpty(h: Hasher) {
    forall p: string :: h.hash(p) != ""
  }

  /** bcrypt accepts a password against its own hash. An assumption about
      the library, used only as a stated premise. */
  ghost predicate CompareAcceptsOwnHash(h: Hasher) {
    forall p: string :: h.compare(p, h.hash(p))
  }

  /** The login of `getByPhoneOrEmail`: a phone or an email value object. */
  datatype Login = PhoneLogin(phone: Phone) | EmailLogin(email: Email)

  /** `UserEntityParams`; `Maybe<T>` fields are `Option`s. */
  datatype UserEntityParams = UserEntityParams(
    role: Option<Role>,
    name: Name,
    surname: Name,
    patronymic: Option<Name>,
    phone: Phone,
    email: Email,
    password: Option<Password>,
    id: Option<UserId>,
    passwordHash: Option<HashedPassword>,
    refreshToken: Option<RefreshToken>,
    refreshTokenExpiredAfter: Option<Time>,
    createdAt: Option<Time>,
    updatedAt: Option<Time>)

  datatype UserEntity = UserEntity(
    id: UserId,
    role: Role,
    name: Name,
    surname: Name,
    patronymic: Option<Name>,
    phone: Phone,
    email: Email,
    createdAt: Time,
    updatedAt: Option<Time>,
    refreshToken: Option<RefreshToken>,
    refreshTokenExpiredAfter: Option<Time>,
    passwordHash: HashedPassword)
  {
    /** Every value object inside is one its constructor could have built. */
    predicate WellFormed() {
      && name.Valid() && surname.Valid()
      && (patronymic.Some? ==> patronymic.value.Valid())
      && phone.Valid() && email.Valid()
    }
  }

  /** `value || null` for a string: the empty string is falsy. */
  function OrNull(s: Option<string>): (r: Option<string>)
    ensures r.Some? <==> s.Some? && s.value != ""
    ensures r.Some? ==> r == s
  {
    if s.Some? && s.value != "" then s else None
  }

  /** `!password && !passwordHash`: no plaintext, and no hash or an empty
      one. */
  predicate MissingCredential(p: UserEntityParams) {
    p.password.None? && (p.passwordHash.None? || p.passwordHash.value == "")
  }

  /** `new UserEntity(params)`: fails with INVALID_PASSWORD without a
      credential; otherwise id defaults to 0, role to Inspector, createdAt to
      now, a falsy refresh token or missing expiry/updatedAt to null, and the
      hash is the hash of the plaintext when there is one (even if a hash was
      supplied too), or else the supplied hash verbatim. */
  function Create(p: UserEntityParams, hash: string -> HashedPassword, now: Time): (r: Result<UserEntity>)
    ensures r.Err? <==> MissingCredential(p)
    ensures r.Err? ==> r.error == AuthError(InvalidPassword)
    ensures r.Ok? ==> var u := r.value;
      && (p.id.None? ==> u.id == 0) && (p.id.Some? ==> u.id == p.id.value)
      && (p.role.None? ==> u.role == Inspector) && (p.role.Some? ==> u.role == p.role.value)
      && u.name == p.name && u.surname == p.surname && u.patronymic == p.patronymic
      && u.phone == p.phone && u.email == p.email
      && (u.refreshToken.Some? <==> p.refreshToken.Some? && p.refreshToken.value != "")
      && (u.refreshToken.Some? ==> u.refreshToken == p.refreshToken)
      && u.refreshTokenExpiredAfter == p.refreshTokenExpiredAfter
      && (p.createdAt.None? ==> u.createdAt == now) && (p.createdAt.Some? ==> u.createdAt == p.createdAt.value)
      && u.updatedAt == p.updatedAt
      && (p.password.Some? ==> u.passwordHash == hash(p.password.value.GetValue()))
      && (p.password.None? ==> u.passwordHash == p.passwordHash.value && u.passwordHash != "")
  {
    if MissingCredential(p) then Err(AuthError(InvalidPassword))
    else
      Ok(UserEntity(
        p.id.GetOr(0),
        p.role.GetOr(Inspector),
        p.name, p.surname, p.patronymic, p.phone, p.email,
        p.createdAt.GetOr(now),
        p.updatedAt,
        OrNull(p.refreshToken),
        p.refreshTokenExpiredAfter,
        if p.password.Some? then hash(p.password.value.GetValue()) else p.passwordHash.value))
  }

  /** With a hasher that never returns "", every entity has a credential. */
  lemma CreatedHasCredential(p: UserEntityParams, h: Hasher, now: Time)
    requires HashesNonEmpty(h)
    requires Create(p, h.hash, now).Ok?
    ensures Create(p, h.hash, now).value.passwordHash != ""
  {
  }

  /** `comparePassword`: fails with INVALID_PASSWORD exactly when bcrypt
      says the candidate does not match the stored hash. Nothing changes. */
  function ComparePassword(u: UserEntity, candidate: Password, h: Hasher): (r: Result<()>)
    ensures r.Ok? <==> h.compare(candidate.GetValue(), u.passwordHash)
    ensures r.Err? ==> r.error == AuthError(InvalidPassword)
  {
    if !h.compare(candidate.GetValue(), u.passwordHash) then Err(AuthError(InvalidPassword))
    else Ok(())
  }

  /** Everything except the password hash is equal. */
  predicate SameExceptHash(a: UserEntity, b: UserEntity) {
    a == b.(passwordHash := a.passwordHash)
  }

  /** Everything except the role is equal. */
  predicate SameExceptRole(a: UserEntity, b: UserEntity) {
    a == b.(role := a.role)
  }

  /** Everything except the refresh token and its expiry is equal. */
  predicate SameExceptSession(a: UserEntity, b: UserEntity) {
    a == b.(refreshToken := a.refreshToken, refreshTokenExpiredAfter := a.refreshTokenExpiredAfter)
  }

  /** `set password`: stores the hash of the new password and nothing else;
      with bcrypt's law, the new password then passes `comparePassword`. */
  function SetPassword(u: UserEntity, newPassword: Password, h: Hasher): (r: UserEntity)
    ensures SameExceptHash(r, u)
    ensures r.passwordHash == h.hash(newPassword.GetValue())
    ensures CompareAcceptsOwnHash(h) ==> ComparePassword(r, newPassword, h).Ok?
  {
    u.(passwordHash := h.hash(newPassword.GetValue()))
  }

  /** `set role` */
  function SetRole(u: UserEntity, newRole: Role): (r: UserEntity)
    ensures SameExceptRole(r, u) && r.role == newRole
  {
    u.(role := newRole)
  }

  /** `set refreshToken`: takes the value as given (no `|| null` here). */
  function SetRefreshToken(u: UserEntity, token: Option<RefreshToken>): (r: UserEntity)
    ensures SameExceptSession(r, u)
    ensures r.refreshToken == token && r.refreshTokenExpiredAfter == u.refreshTokenExpiredAfter
  {
    u.(refreshToken := token)
  }

  /** `set refreshTokenExpiredAfter` */
  function SetRefreshTokenExpiredAfter(u: UserEntity, date: Option<Time>): (r: UserEntity)
    ensures SameExceptSession(r, u)
    ensures r.refreshTokenExpiredAfter == date && r.refreshToken == u.refreshToken
  {
    u.(refreshTokenExpiredAfter := date)
  }

  /** `isRefreshTokenExpired()` is called by the auth service but is not
      defined in users.entity.ts. This is the ASSUMED meaning: an expiry is
      recorded and it is not in the future. */
  predicate IsRefreshTokenExpired(u: UserEntity, now: Time) {
    u.refreshTokenExpiredAfter.Some? && u.refreshTokenExpiredAfter.value <= now
  }

  /** The patronymic of `fromDb`: null or "" become null, anything else is
      re-validated as a name. */
  function RehydratePatronymic(p: Option<string>): (r: Result<Option<Name>>)
    ensures (p.None? || p.value == "") ==> r == Ok(None)
    ensures p.Some? && p.value != "" ==>
              match NameValue.Create(p.value)
              case Ok(n) => r == Ok(Some(n))
              case Err(e) => r == Err(e)
  {
    if p.None? || p.value == "" then Ok(None)
    else match NameValue.FromString(p.value)
      case Ok(n) => Ok(Some(n))
      case Err(e) => Err(e)
  }

  /** The names of a row pass their value objects. */
  predicate RowNamesValid(row: UserRow) {
    && NameValue.AcceptedName(row.name)
    && NameValue.AcceptedName(row.surname)
    && (row.patronymic.Some? && row.patronymic.value != "" ==> NameValue.AcceptedName(row.patronymic.value))
  }

  /** Every value `fromDb` re-validates passes, and the hash is non-empty. */
  predicate RowRehydrates(row: UserRow) {
    && RowNamesValid(row)
    && PhoneValue.MatchesPhonePattern(row.phoneNumber)
    && EmailValue.MatchesEmailPattern(row.email)
    && row.passwordHash != ""
  }

  /** `UserEntity.fromDb(row)`: re-validates name, surname, patronymic,
      phone and email in that order (the first failure is thrown), then
      constructs from the stored hash. Names come back capitalised, phone and
      email verbatim, an empty refresh token as null. */
  function FromDb(row: UserRow): (r: Result<UserEntity>)
    ensures r.Ok? <==> RowRehydrates(row)
    ensures !RowNamesValid(row) ==> r == Err(UsersError(InvalidName))
    ensures RowNamesValid(row) && !PhoneValue.MatchesPhonePattern(row.phoneNumber) ==>
              r == Err(UsersError(InvalidPhone))
    ensures (RowNamesValid(row) && PhoneValue.MatchesPhonePattern(row.phoneNumber)
             && !EmailValue.MatchesEmailPattern(row.email)) ==>
              r == Err(UsersError(InvalidEmail))
    ensures (RowNamesValid(row) && PhoneValue.MatchesPhonePattern(row.phoneNumber)
             && EmailValue.MatchesEmailPattern(row.email) && row.passwordHash == "") ==>
              r == Err(AuthError(InvalidPassword))
    ensures r.Ok? ==> var u := r.value;
      && u.WellFormed()
      && u.id == row.id && u.role == row.roleId
      && NameValue.SameUpToCase(u.name.GetValue(), row.name)
      && NameValue.SameUpToCase(u.surname.GetValue(), row.surname)
      && (u.patronymic.None? <==> row.patronymic.None? || row.patronymic.value == "")
      && (u.patronymic.Some? ==> NameValue.SameUpToCase(u.patronymic.value.GetValue(), row.patronymic.value))
      && u.phone.GetValue() == row.phoneNumber && u.email.GetValue() == row.email
      && u.passwordHash == row.passwordHash
      && u.refreshToken == OrNull(row.refreshToken)
      && u.refreshTokenExpiredAfter == row.refreshTokenExpiredAfter
      && u.createdAt == row.createdAt && u.updatedAt == Some(row.updatedAt)
  {
    var name :- NameValue.FromString(row.name);
    var surname :- NameValue.FromString(row.surname);
    var patronymic :- RehydratePatronymic(row.patronymic);
    var phone :- PhoneValue.FromString(row.phoneNumber);
    var email :- EmailValue.FromString(row.email);
    // No plaintext is passed, so the hash function is never applied.
    Create(UserEntityParams(
             Some(row.roleId), name, surname, patronymic, phone, email,
             None, Some(row.id), Some(row.passwordHash),
             row.refreshToken, row.refreshTokenExpiredAfter,
             Some(row.createdAt), Some(row.updatedAt)),
           (plain: string) => "", row.createdAt)
  }
}
