/** `UsersService` (users.service.ts): an older store front with its own
    `upsert`, which writes the same identity columns as the repository's
    `save` but never the refresh token or its expiry, and the same three
    lookups. */
module UsersService {
  import opened Wrappers
  import opened Exceptions
  import opened DbSchema
  import opened Users
  import opened UsersRepository

  /** The `.set(...)` of `upsert`: identity columns, the role, the hash when
      truthy, and no session columns. */
  function UpsertPatch(u: UserEntity): (p: Patch)
    ensures p == SavePatch(u).(refreshToken := None, refreshTokenExpiredAfter := None)
    ensures p.refreshToken.None? && p.refreshTokenExpiredAfter.None?
  {
    Patch(u.email.GetValue(), u.phone.GetValue(), u.name.GetValue(), u.surname.GetValue(),
          PatronymicColumn(u.patronymic), Some(u.role),
          if u.passwordHash != "" then Some(u.passwordHash) else None,
          None, None)
  }

  /** The `.values(...)` of `upsert`: no session columns, so both are NULL. */
  function UpsertValues(u: UserEntity): (v: NewUser)
    ensures v == SaveValues(u).(refreshToken := None, refreshTokenExpiredAfter := None)
  {
    NewUser(u.name.GetValue(), u.surname.GetValue(), PatronymicColumn(u.patronymic),
            u.passwordHash, u.email.GetValue(), u.phone.GetValue(), u.role, None, None)
  }

  /** `upsert(entity)`: id 0 inserts (and needs a hash), any other id
      updates; the refresh token and its expiry are never written. */
  function Upsert(st: Store, u: UserEntity, now: Time): (s: Step<UserEntity>)
    ensures u.id != 0 && IndexOfId(st.rows, u.id) == |st.rows| ==> s == Step(st, Err(MissingRow))
    ensures u.id == 0 && u.passwordHash == "" ==> s == Step(st, Err(AuthError(InvalidPassword)))
    ensures u.id == 0 && u.passwordHash != "" ==> s.store.nextId == st.nextId + 1
    ensures s.result.Err? && s.result.error == ConstraintViolation ==>
              && s.store.rows == st.rows
              && (u.id != 0 ==> s.store == st)
    ensures u.id == 0 && s.store.rows != st.rows ==>
              |s.store.rows| == |st.rows| + 1 && s.store.rows[..|st.rows|] == st.rows
              && s.store.rows[|st.rows|].refreshToken.None?
              && s.store.rows[|st.rows|].refreshTokenExpiredAfter.None?
    ensures u.id != 0 && s.store != st ==>
              var i := IndexOfId(st.rows, u.id);
              && i < |st.rows| && |s.store.rows| == |st.rows|
              && s.store == Store(st.rows[i := s.store.rows[i]], st.nextId)
              && s.store.rows[i].refreshToken == st.rows[i].refreshToken
              && s.store.rows[i].refreshTokenExpiredAfter == st.rows[i].refreshTokenExpiredAfter
    ensures Valid(st) ==> Valid(s.store)
  {
    if u.id != 0 then
      match Update(st, u.id, UpsertPatch(u), now)
      case Err(e) => Step(st, Err(e))
      case Ok((st', row)) => Step(st', FromDb(row))
    else if u.passwordHash == "" then Step(st, Err(AuthError(InvalidPassword)))
    else
      var w := Insert(st, UpsertValues(u), now);
      if w.result.Err? then Step(w.store, Err(w.result.error))
      else Step(w.store, FromDb(w.result.value))
  }

  /** `upsert` is the repository's `save` of the same user with its session
      replaced by the stored one (on update) or by none (on insert). */
  lemma UpsertIsSaveWithoutSession(st: Store, u: UserEntity, now: Time)
    ensures u.id == 0 ==>
              Upsert(st, u, now) == Save(st, u.(refreshToken := None, refreshTokenExpiredAfter := None), now)
    ensures u.id != 0 && IndexOfId(st.rows, u.id) < |st.rows| ==>
              var stored := st.rows[IndexOfId(st.rows, u.id)];
              Upsert(st, u, now) == Save(st, u.(refreshToken := stored.refreshToken,
                                                refreshTokenExpiredAfter := stored.refreshTokenExpiredAfter), now)
  {
    if u.id != 0 && IndexOfId(st.rows, u.id) < |st.rows| {
      var i := IndexOfId(st.rows, u.id);
      var stored := st.rows[i];
      var u' := u.(refreshToken := stored.refreshToken, refreshTokenExpiredAfter := stored.refreshTokenExpiredAfter);
      assert Apply(UpsertPatch(u), stored, now) == Apply(SavePatch(u'), stored, now);
    }
  }

  /** `getByPhoneOrEmail`, as in the repository. */
  function GetByPhoneOrEmail(st: Store, login: Login): (r: Result<UserEntity>)
    ensures r == UsersRepository.GetByPhoneOrEmail(st, login)
    ensures r.Ok? ==> match login
                      case PhoneLogin(p) => r.value.phone == p
                      case EmailLogin(e) => r.value.email == e
  {
    match login
    case PhoneLogin(p) => GetByPhone(st, p)
    case EmailLogin(e) => GetByEmail(st, e)
  }

  /** `getByEmail`: the user with this email, or USER_NOT_FOUND. */
  function GetByEmail(st: Store, email: Email): (r: Result<UserEntity>)
    ensures r == UsersRepository.GetByEmail(st, email)
    ensures !HasEmail(st, email.GetValue()) ==> r == Err(UsersError(UserNotFound))
  {
    FirstOrThrow(st.rows, (row: UserRow) => row.email == email.GetValue())
  }

  /** `getByPhone`: the user with this phone number, or USER_NOT_FOUND. */
  function GetByPhone(st: Store, phone: Phone): (r: Result<UserEntity>)
    ensures r == UsersRepository.GetByPhone(st, phone)
    ensures !HasPhone(st, phone.GetValue()) ==> r == Err(UsersError(UserNotFound))
  {
    FirstOrThrow(st.rows, (row: UserRow) => row.phoneNumber == phone.GetValue())
  }
}
