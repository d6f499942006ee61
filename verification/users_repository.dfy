/** `UsersRepository` (users.repository.ts): `save` turns an entity into an
    INSERT or an UPDATE and reads the returned row back with `fromDb`; the
    lookups are `findFirst` on one column followed by `fromDb`. Every call
    takes the table and returns it with its outcome, so a write whose read-back
    throws is still visible. */
module UsersRepository {
  import opened Wrappers
  import opened Exceptions
  import opened JsText
  import opened Roles
  import opened DbSchema
  import opened Users
  import EmailValue
  import PhoneValue
  import NameValue

  /** The table invariants, and every stored row reads back through
      `fromDb` without throwing. */
  ghost predicate Consistent(st: Store) {
    Valid(st) && forall i | 0 <= i < |st.rows| :: RowRehydrates(st.rows[i])
  }

  /** `patronymic?.getValue() ?? null` */
  function PatronymicColumn(p: Option<Name>): (c: Option<string>)
    ensures c.Some? <==> p.Some?
    ensures c.Some? ==> c.value == p.value.GetValue()
  {
    if p.Some? then Some(p.value.GetValue()) else None
  }

  /** The `.set(...)` of `save` for an existing user. An entity's role is
      never undefined, so `roleId` is always written; the hash only when it is
      truthy. The setters of the refresh token and its expiry accept
      undefined, and `save` would then leave that column out of the patch;
      but no code modelled here ever stores undefined there (`create`,
      `fromDb` and the rotation all give a value or null), so the entity
      holds a value or NULL and both columns are always written. */
  function SavePatch(u: UserEntity): (p: Patch)
    ensures p.email == u.email.GetValue() && p.phoneNumber == u.phone.GetValue()
    ensures p.name == u.name.GetValue() && p.surname == u.surname.GetValue()
    ensures p.patronymic == PatronymicColumn(u.patronymic)
    ensures p.roleId == Some(u.role)
    ensures p.passwordHash.Some? <==> u.passwordHash != ""
    ensures p.passwordHash.Some? ==> p.passwordHash.value == u.passwordHash
    ensures p.refreshToken == Some(u.refreshToken)
    ensures p.refreshTokenExpiredAfter == Some(u.refreshTokenExpiredAfter)
  {
    Patch(u.email.GetValue(), u.phone.GetValue(), u.name.GetValue(), u.surname.GetValue(),
          PatronymicColumn(u.patronymic), Some(u.role),
          if u.passwordHash != "" then Some(u.passwordHash) else None,
          Some(u.refreshToken), Some(u.refreshTokenExpiredAfter))
  }

  /** The `.values(...)` of `save` for a new user. */
  function SaveValues(u: UserEntity): (v: NewUser)
    ensures v.email == u.email.GetValue() && v.phoneNumber == u.phone.GetValue()
    ensures v.name == u.name.GetValue() && v.surname == u.surname.GetValue()
    ensures v.patronymic == PatronymicColumn(u.patronymic)
    ensures v.roleId == u.role && v.passwordHash == u.passwordHash
    ensures v.refreshToken == u.refreshToken
    ensures v.refreshTokenExpiredAfter == u.refreshTokenExpiredAfter
  {
    NewUser(u.name.GetValue(), u.surname.GetValue(), PatronymicColumn(u.patronymic),
            u.passwordHash, u.email.GetValue(), u.phone.GetValue(), u.role,
            u.refreshToken, u.refreshTokenExpiredAfter)
  }

  /** What `save` can throw: the database's refusals, the missing hash of
      a new user, and the read-back's validation errors. */
  const SaveErrors: set<Error> := {
    ConstraintViolation, MissingRow, AuthError(InvalidPassword),
    UsersError(InvalidName), UsersError(InvalidPhone), UsersError(InvalidEmail)}

  /** `save(entity)`: id 0 creates (and needs a hash), any other id updates
      the row with that id. The written row is read back with `fromDb`; an
      UPDATE that matches nothing leaves `updated[0]` undefined. */
  function Save(st: Store, u: UserEntity, now: Time): (s: Step<UserEntity>)
    ensures u.id != 0 && IndexOfId(st.rows, u.id) == |st.rows| ==> s == Step(st, Err(MissingRow))
    ensures u.id == 0 && u.passwordHash == "" ==> s == Step(st, Err(AuthError(InvalidPassword)))
    ensures u.id == 0 && u.passwordHash != "" ==>
              && s.store.nextId == st.nextId + 1
              && (s.store.rows == st.rows <==> Insert(st, SaveValues(u), now).result.Err?)
    ensures s.result.Err? && s.result.error == ConstraintViolation ==>
              && s.store.rows == st.rows
              && (u.id != 0 ==> s.store == st)
    ensures s.result.Err? ==> s.result.error in SaveErrors
    ensures u.id == 0 && s.store.rows != st.rows ==>
              |s.store.rows| == |st.rows| + 1 && s.store.rows[..|st.rows|] == st.rows
              && s.store.rows[|st.rows|].id == st.nextId
    ensures u.id != 0 && s.store != st ==>
              var i := IndexOfId(st.rows, u.id);
              i < |st.rows| && |s.store.rows| == |st.rows|
              && s.store == Store(st.rows[i := s.store.rows[i]], st.nextId)
    ensures s.result.Ok? ==> var r := s.result.value;
              && r.WellFormed()
              && r.phone == u.phone && r.email == u.email && r.role == u.role
              && r.refreshTokenExpiredAfter == u.refreshTokenExpiredAfter
              && r.refreshToken == OrNull(u.refreshToken)
              && r.updatedAt == Some(now)
              && (u.id != 0 ==> r.id == u.id)
              && (u.id == 0 ==> r.id == st.nextId && r.createdAt == now)
    ensures Valid(st) ==> Valid(s.store)
  {
    if u.id != 0 then
      match Update(st, u.id, SavePatch(u), now)
      case Err(e) => Step(st, Err(e))
      case Ok((st', row)) => Step(st', FromDb(row))
    else if u.passwordHash == "" then Step(st, Err(AuthError(InvalidPassword)))
    else
      var w := Insert(st, SaveValues(u), now);
      if w.result.Err? then Step(w.store, Err(w.result.error))
      else Step(w.store, FromDb(w.result.value))
  }

  /** The DB's phone CHECK is stricter than the phone value object: a stored
      number always passes `PhoneValueType`. */
  lemma DbPhoneIsPhone(s: string)
    requires PhoneNumberFormat(s)
    ensures PhoneValue.MatchesPhonePattern(s)
  {
    if |s| == 12 {
      forall i | 1 < i < |s| ensures IsDigit(s[i]) {
        assert s[i] == s[2..][i - 2];
      }
      assert PhoneValue.MatchesAt(s, 1);
    } else {
      forall i | 0 < i < |s| ensures IsDigit(s[i]) {
        assert s[i] == s[1..][i - 1];
      }
      assert PhoneValue.MatchesAt(s, 0);
    }
  }

  /** Likewise for email: every address the DB accepts passes
      `EmailValueType`. */
  lemma DbEmailIsEmail(s: string)
    requires EmailFormat(s)
    ensures EmailValue.MatchesEmailPattern(s)
  {
    var at, dot :| 0 <= at < |s| && 0 <= dot < |s| && EmailFormatAt(s, at, dot);
    forall k | 0 <= k < |s| && k != at ensures EmailValue.EmailChar(s[k]) {
      if k < at {
        assert LocalChar(s[k]);
      } else if k < dot {
        assert DomainChar(s[k]);
      } else if k > dot {
        assert IsAsciiLetter(s[k]);
      }
    }
    assert EmailValue.MatchesAt(s, at, dot);
  }

  /** The converse fails for the phone: the value object lets through a
      number the DB refuses, so such a registration ends in a constraint
      violation rather than INVALID_PHONE. */
  lemma PhoneWiderThanDb()
    ensures PhoneValue.MatchesPhonePattern("+15551234567")
    ensures !PhoneNumberFormat("+15551234567")
  {
    assert PhoneValue.MatchesAt("+15551234567", 1);
  }

  /** And for the email: `a@b.c` passes the value object, while the DB
      wants a top-level domain of at least two ASCII letters. */
  lemma EmailWiderThanDb()
    ensures EmailValue.MatchesEmailPattern("a@b.c")
    ensures !EmailFormat("a@b.c")
  {
    assert EmailValue.MatchesAt("a@b.c", 1, 3);
    assert !IsWhitespace('a') && !IsWhitespace('b') && !IsWhitespace('.') && !IsWhitespace('c');
  }

  /** A row written from a well-formed entity that the DB accepted reads
      back as that entity, with the columns the DB owns (id, timestamps) and
      the session columns taken from the row. */
  lemma WrittenRowReadsBack(u: UserEntity, row: UserRow)
    requires u.WellFormed()
    requires row.name == u.name.GetValue() && row.surname == u.surname.GetValue()
    requires row.patronymic == PatronymicColumn(u.patronymic)
    requires row.phoneNumber == u.phone.GetValue() && row.email == u.email.GetValue()
    requires RowChecks(row) && row.passwordHash != ""
    ensures RowRehydrates(row)
    ensures FromDb(row) == Ok(u.(id := row.id, role := row.roleId, createdAt := row.createdAt,
                                 updatedAt := Some(row.updatedAt),
                                 refreshToken := OrNull(row.refreshToken),
                                 refreshTokenExpiredAfter := row.refreshTokenExpiredAfter,
                                 passwordHash := row.passwordHash))
  {
    DbPhoneIsPhone(row.phoneNumber);
    DbEmailIsEmail(row.email);
    NameValue.CreateStoredName(u.name);
    NameValue.CreateStoredName(u.surname);
    if u.patronymic.Some? {
      NameValue.CreateStoredName(u.patronymic.value);
    }
  }

  /** Saving a new, well-formed user that the DB accepts stores one row at
      the next id and returns the user as given, except for what the DB
      assigns and the `|| null` on the refresh token. */
  lemma SaveInsertRoundTrip(st: Store, u: UserEntity, now: Time)
    requires u.id == 0 && u.WellFormed() && u.passwordHash != ""
    requires PhoneNumberFormat(u.phone.GetValue()) && EmailFormat(u.email.GetValue())
    requires !Clashes(st.rows, u.phone.GetValue(), u.email.GetValue(), -1)
    ensures var s := Save(st, u, now);
            && |s.store.rows| == |st.rows| + 1 && s.store.rows[..|st.rows|] == st.rows
            && s.result == Ok(u.(id := st.nextId, createdAt := now, updatedAt := Some(now),
                                 refreshToken := OrNull(u.refreshToken)))
  {
    WrittenRowReadsBack(u, Insert(st, SaveValues(u), now).result.value);
  }

  /** Saving an existing, well-formed user that the DB accepts replaces its
      row and returns the user as given; an empty hash keeps the stored one,
      and `createdAt` is the stored one. */
  lemma SaveUpdateRoundTrip(st: Store, u: UserEntity, now: Time)
    requires u.id != 0 && u.WellFormed()
    requires IndexOfId(st.rows, u.id) < |st.rows| && RowRehydrates(st.rows[IndexOfId(st.rows, u.id)])
    requires PhoneNumberFormat(u.phone.GetValue()) && EmailFormat(u.email.GetValue())
    requires !Clashes(st.rows, u.phone.GetValue(), u.email.GetValue(), u.id)
    ensures var i := IndexOfId(st.rows, u.id);
            var stored := st.rows[i];
            var s := Save(st, u, now);
            && |s.store.rows| == |st.rows|
            && s.store == Store(st.rows[i := s.store.rows[i]], st.nextId)
            && s.result == Ok(u.(createdAt := stored.createdAt, updatedAt := Some(now),
                                 refreshToken := OrNull(u.refreshToken),
                                 passwordHash := if u.passwordHash != "" then u.passwordHash
                                                 else stored.passwordHash))
  {
    var (st', row) := Update(st, u.id, SavePatch(u), now).value;
    WrittenRowReadsBack(u, row);
  }

  /** An accepted INSERT of a well-formed user keeps every row readable. */
  lemma InsertKeepsConsistent(st: Store, u: UserEntity, now: Time)
    requires Consistent(st) && u.WellFormed() && u.passwordHash != ""
    requires Insert(st, SaveValues(u), now).result.Ok?
    ensures Consistent(Insert(st, SaveValues(u), now).store)
    ensures RowRehydrates(Insert(st, SaveValues(u), now).result.value)
  {
    var st' := Insert(st, SaveValues(u), now).store;
    var row := Insert(st, SaveValues(u), now).result.value;
    WrittenRowReadsBack(u, row);
    forall j | 0 <= j < |st'.rows| ensures RowRehydrates(st'.rows[j]) {
      if j < |st.rows| {
        assert st'.rows[j] == st.rows[j];
      }
    }
  }

  /** An accepted UPDATE from a well-formed user keeps every row readable. */
  lemma UpdateKeepsConsistent(st: Store, u: UserEntity, now: Time)
    requires Consistent(st) && u.WellFormed()
    requires Update(st, u.id, SavePatch(u), now).Ok?
    ensures Consistent(Update(st, u.id, SavePatch(u), now).value.0)
    ensures RowRehydrates(Update(st, u.id, SavePatch(u), now).value.1)
  {
    var i := IndexOfId(st.rows, u.id);
    assert RowRehydrates(st.rows[i]);
    var (st', row) := Update(st, u.id, SavePatch(u), now).value;
    WrittenRowReadsBack(u, row);
    forall j | 0 <= j < |st'.rows| ensures RowRehydrates(st'.rows[j]) {
      if j != i {
        assert st'.rows[j] == st.rows[j];
      }
    }
  }

  /** Saving a well-formed user keeps every row readable; when it fails, no
      row is written and the failure is the DB's or the missing credential. */
  lemma SaveKeepsConsistent(st: Store, u: UserEntity, now: Time)
    requires Consistent(st) && u.WellFormed()
    ensures Consistent(Save(st, u, now).store)
    ensures Save(st, u, now).result.Err? ==>
              && Save(st, u, now).store.rows == st.rows
              && Save(st, u, now).result.error in {ConstraintViolation, MissingRow, AuthError(InvalidPassword)}
  {
    if u.id != 0 {
      if Update(st, u.id, SavePatch(u), now).Ok? {
        UpdateKeepsConsistent(st, u, now);
      }
    } else if u.passwordHash != "" && Insert(st, SaveValues(u), now).result.Ok? {
      InsertKeepsConsistent(st, u, now);
    }
  }

  /** A user read back from row `i` of a consistent table can be saved by
      UPDATE without tripping any constraint: its id is that row's, and its
      phone and email are that row's, which the table holds once. */
  lemma LoadedUserResaves(st: Store, i: nat, u: UserEntity)
    requires Valid(st) && i < |st.rows| && FromDb(st.rows[i]) == Ok(u)
    ensures u.WellFormed() && u.id == st.rows[i].id && u.id != 0
    ensures IndexOfId(st.rows, u.id) == i
    ensures PhoneNumberFormat(u.phone.GetValue()) && EmailFormat(u.email.GetValue())
    ensures !Clashes(st.rows, u.phone.GetValue(), u.email.GetValue(), u.id)
  {
    ReadBackRow(st.rows[i], u);
    var k := IndexOfId(st.rows, u.id);
    if k != i {
      IdsUnique(st, k, i);
    }
    RowHoldsItsKeys(st, i);
  }

  /** The table's ids are unique. */
  lemma IdsUnique(st: Store, a: nat, b: nat)
    requires Valid(st) && a < |st.rows| && b < |st.rows| && st.rows[a].id == st.rows[b].id
    ensures a == b
  {
  }

  /** Re-writing a row's own phone and email clashes with no other row. */
  lemma RowHoldsItsKeys(st: Store, i: nat)
    requires Valid(st) && i < |st.rows|
    ensures !Clashes(st.rows, st.rows[i].phoneNumber, st.rows[i].email, st.rows[i].id)
  {
    var r := st.rows[i];
    forall j | 0 <= j < |st.rows| && st.rows[j].id != r.id
      ensures st.rows[j].phoneNumber != r.phoneNumber && st.rows[j].email != r.email
    {
      assert j != i;
    }
  }

  /** `findFirst` + `fromDb` + `throw USER_NOT_FOUND` when nothing matches. */
  function FirstOrThrow(rows: seq<UserRow>, p: UserRow -> bool): (r: Result<UserEntity>)
    ensures (forall i | 0 <= i < |rows| :: !p(rows[i])) ==> r == Err(UsersError(UserNotFound))
    ensures (exists i | 0 <= i < |rows| :: p(rows[i])) ==>
              exists i | 0 <= i < |rows| :: p(rows[i]) && r == FromDb(rows[i])
  {
    var i := FirstIndex(rows, p);
    if i == |rows| then Err(UsersError(UserNotFound)) else FromDb(rows[i])
  }

  /** `findFirst` + `fromDb`, or null when nothing matches. */
  function FirstOrNull(rows: seq<UserRow>, p: UserRow -> bool): (r: Result<Option<UserEntity>>)
    ensures (forall i | 0 <= i < |rows| :: !p(rows[i])) ==> r == Ok(None)
    ensures (exists i | 0 <= i < |rows| :: p(rows[i])) ==>
              exists i | 0 <= i < |rows| :: p(rows[i]) && r == SomeOf(FromDb(rows[i]))
  {
    var i := FirstIndex(rows, p);
    if i == |rows| then Ok(None) else SomeOf(FromDb(rows[i]))
  }

  function SomeOf(r: Result<UserEntity>): (o: Result<Option<UserEntity>>)
    ensures o.Ok? <==> r.Ok?
    ensures o.Ok? ==> o.value == Some(r.value)
    ensures o.Err? ==> o.error == r.error
  {
    match r
    case Ok(u) => Ok(Some(u))
    case Err(e) => Err(e)
  }

  predicate HasEmail(st: Store, email: string) {
    exists i | 0 <= i < |st.rows| :: st.rows[i].email == email
  }

  predicate HasPhone(st: Store, phone: string) {
    exists i | 0 <= i < |st.rows| :: st.rows[i].phoneNumber == phone
  }

  predicate HasId(st: Store, id: int) {
    exists i | 0 <= i < |st.rows| :: st.rows[i].id == id
  }

  /** `getByEmail`: the user with this email, or USER_NOT_FOUND. */
  function GetByEmail(st: Store, email: Email): (r: Result<UserEntity>)
    ensures !HasEmail(st, email.GetValue()) ==> r == Err(UsersError(UserNotFound))
    ensures r.Ok? ==> r.value.email == email && HasEmail(st, email.GetValue())
    ensures Consistent(st) ==> (r.Ok? <==> HasEmail(st, email.GetValue()))
  {
    FirstOrThrow(st.rows, (row: UserRow) => row.email == email.GetValue())
  }

  /** `getByEmailOrNull` */
  function GetByEmailOrNull(st: Store, email: Email): (r: Result<Option<UserEntity>>)
    ensures !HasEmail(st, email.GetValue()) ==> r == Ok(None)
    ensures r.Ok? && r.value.Some? ==> r.value.value.email == email
    ensures Consistent(st) ==> r.Ok? && (r.value.Some? <==> HasEmail(st, email.GetValue()))
  {
    FirstOrNull(st.rows, (row: UserRow) => row.email == email.GetValue())
  }

  /** `getByPhone`: the user with this phone number, or USER_NOT_FOUND. */
  function GetByPhone(st: Store, phone: Phone): (r: Result<UserEntity>)
    ensures !HasPhone(st, phone.GetValue()) ==> r == Err(UsersError(UserNotFound))
    ensures r.Ok? ==> r.value.phone == phone && HasPhone(st, phone.GetValue())
    ensures Consistent(st) ==> (r.Ok? <==> HasPhone(st, phone.GetValue()))
  {
    FirstOrThrow(st.rows, (row: UserRow) => row.phoneNumber == phone.GetValue())
  }

  /** `getByPhoneOrNull` */
  function GetByPhoneOrNull(st: Store, phone: Phone): (r: Result<Option<UserEntity>>)
    ensures !HasPhone(st, phone.GetValue()) ==> r == Ok(None)
    ensures r.Ok? && r.value.Some? ==> r.value.value.phone == phone
    ensures Consistent(st) ==> r.Ok? && (r.value.Some? <==> HasPhone(st, phone.GetValue()))
  {
    FirstOrNull(st.rows, (row: UserRow) => row.phoneNumber == phone.GetValue())
  }

  /** `getById`: the user with this id, or USER_NOT_FOUND. */
  function GetById(st: Store, id: UserId): (r: Result<UserEntity>)
    ensures !HasId(st, id) ==> r == Err(UsersError(UserNotFound))
    ensures r.Ok? ==> r.value.id == id && HasId(st, id)
    ensures Consistent(st) ==> (r.Ok? <==> HasId(st, id))
  {
    FirstOrThrow(st.rows, (row: UserRow) => row.id == id)
  }

  /** `getByRefreshToken`: the first user holding this token, or null.
      SQL equality never matches a NULL column. */
  function GetByRefreshToken(st: Store, token: RefreshToken): (r: Result<Option<UserEntity>>)
    ensures (forall i | 0 <= i < |st.rows| :: st.rows[i].refreshToken != Some(token)) ==> r == Ok(None)
    ensures r.Ok? && r.value.Some? ==> r.value.value.refreshToken == OrNull(Some(token))
    ensures Consistent(st) ==>
              r.Ok? && (r.value.Some? <==> exists i | 0 <= i < |st.rows| :: st.rows[i].refreshToken == Some(token))
  {
    FirstOrNull(st.rows, (row: UserRow) => row.refreshToken == Some(token))
  }

  /** `getByPhoneOrEmail`: dispatches on the kind of login. */
  function GetByPhoneOrEmail(st: Store, login: Login): (r: Result<UserEntity>)
    ensures login.PhoneLogin? ==> r == GetByPhone(st, login.phone)
    ensures login.EmailLogin? ==> r == GetByEmail(st, login.email)
    ensures r.Ok? ==> match login
                      case PhoneLogin(p) => r.value.phone == p
                      case EmailLogin(e) => r.value.email == e
  {
    match login
    case PhoneLogin(p) => GetByPhone(st, p)
    case EmailLogin(e) => GetByEmail(st, e)
  }

  /** The entity `save` returns is the read-back of the row it wrote: the
      appended row on INSERT, the row with the entity's id on UPDATE. */
  lemma SavedRow(st: Store, u: UserEntity, now: Time) returns (i: nat)
    requires Save(st, u, now).result.Ok?
    ensures i < |Save(st, u, now).store.rows|
    ensures FromDb(Save(st, u, now).store.rows[i]) == Save(st, u, now).result
    ensures u.id == 0 ==> i == |st.rows|
    ensures u.id != 0 ==> i == IndexOfId(st.rows, u.id)
  {
    if u.id != 0 {
      i := IndexOfId(st.rows, u.id);
    } else {
      i := |st.rows|;
    }
  }

  /** A user found by login was read back from some row of the table. */
  lemma LoginLookupFromRow(st: Store, login: Login) returns (i: nat)
    requires GetByPhoneOrEmail(st, login).Ok?
    ensures i < |st.rows| && FromDb(st.rows[i]) == GetByPhoneOrEmail(st, login)
  {
    match login
    case PhoneLogin(p) =>
      i := FirstIndex(st.rows, (row: UserRow) => row.phoneNumber == p.GetValue());
    case EmailLogin(e) =>
      i := FirstIndex(st.rows, (row: UserRow) => row.email == e.GetValue());
  }

  /** A user found by refresh token was read back from a row holding it. */
  lemma TokenLookupFromRow(st: Store, token: RefreshToken) returns (i: nat)
    requires GetByRefreshToken(st, token).Ok? && GetByRefreshToken(st, token).value.Some?
    ensures i < |st.rows| && st.rows[i].refreshToken == Some(token)
    ensures FromDb(st.rows[i]) == Ok(GetByRefreshToken(st, token).value.value)
  {
    i := FirstIndex(st.rows, (row: UserRow) => row.refreshToken == Some(token));
  }

  /** The WHERE of `findMany`: `inArray(users.id, ids)` for a non-empty
      list, no filter otherwise. */
  predicate Selected(row: UserRow, ids: Option<seq<UserId>>) {
    ids.None? || |ids.value| == 0 || row.id in ids.value
  }

  /** The rows passing the WHERE, in table order. */
  function FilterRows(rows: seq<UserRow>, ids: Option<seq<UserId>>): (r: seq<UserRow>)
    ensures |r| <= |rows|
    ensures forall x | x in r :: x in rows && Selected(x, ids)
    ensures forall x | x in rows && Selected(x, ids) :: x in r
  {
    if |rows| == 0 then []
    else (if Selected(rows[0], ids) then [rows[0]] else []) + FilterRows(rows[1..], ids)
  }

  /** OFFSET then LIMIT; an absent bound does not restrict. */
  function Page<T>(xs: seq<T>, limit: Option<nat>, offset: Option<nat>): (r: seq<T>)
    ensures var off := offset.GetOr(0);
            && (off >= |xs| ==> r == [])
            && (off < |xs| ==> |r| == if limit.Some? && limit.value < |xs| - off then limit.value else |xs| - off)
            && forall k | 0 <= k < |r| :: off + k < |xs| && r[k] == xs[off + k]
  {
    var off := offset.GetOr(0);
    var rest := if off >= |xs| then [] else xs[off..];
    if limit.Some? && limit.value < |rest| then rest[..limit.value] else rest
  }

  /** `xs.map(f)` where `f` may throw: the first failing element's error,
      or every result in order. */
  function MapResult<A, B>(xs: seq<A>, f: A -> Result<B>): (r: Result<seq<B>>)
    ensures r.Ok? <==> forall i | 0 <= i < |xs| :: f(xs[i]).Ok?
    ensures r.Ok? ==> |r.value| == |xs| && forall i | 0 <= i < |xs| :: f(xs[i]) == Ok(r.value[i])
    ensures r.Err? ==> exists i | 0 <= i < |xs| :: f(xs[i]) == Err(r.error)
  {
    if |xs| == 0 then Ok([])
    else
      match f(xs[0])
      case Err(e) => Err(e)
      case Ok(y) =>
        match MapResult(xs[1..], f)
        case Err(e) =>
          assert forall i | 0 <= i < |xs[1..]| :: xs[1..][i] == xs[i + 1];
          Err(e)
        case Ok(ys) =>
          assert forall i | 1 <= i < |xs| :: xs[i] == xs[1..][i - 1] && ([y] + ys)[i] == ys[i - 1];
          Ok([y] + ys)
  }

  /** `rows.map(fromDb)`: the first row that fails to read back throws. */
  function RehydrateAll(rows: seq<UserRow>): (r: Result<seq<UserEntity>>)
    ensures r.Ok? <==> forall i | 0 <= i < |rows| :: RowRehydrates(rows[i])
    ensures r.Ok? ==> |r.value| == |rows| && forall i | 0 <= i < |rows| :: FromDb(rows[i]) == Ok(r.value[i])
    ensures r.Err? ==> exists i | 0 <= i < |rows| :: FromDb(rows[i]) == Err(r.error)
  {
    MapResult(rows, FromDb)
  }

  /** `findMany({ ids, limit, offset })`: the selected rows in table order,
      one page of them, each read back. */
  function FindMany(st: Store, ids: Option<seq<UserId>>, limit: Option<nat>, offset: Option<nat>): (r: Result<seq<UserEntity>>)
    ensures r.Ok? && limit.Some? ==> |r.value| <= limit.value
    ensures r.Ok? ==> forall k | 0 <= k < |r.value| ::
              exists i | 0 <= i < |st.rows| :: Selected(st.rows[i], ids) && FromDb(st.rows[i]) == Ok(r.value[k])
    ensures r.Ok? && ids.Some? && |ids.value| > 0 ==> forall k | 0 <= k < |r.value| :: r.value[k].id in ids.value
    ensures Consistent(st) ==> r.Ok?
  {
    var page := Page(FilterRows(st.rows, ids), limit, offset);
    PageRowsAreSelected(st, ids, limit, offset);
    FindManySound(st, ids, page);
    RehydrateAll(page)
  }

  /** Every row of a page is a selected row of the table. */
  lemma PageRowsAreSelected(st: Store, ids: Option<seq<UserId>>, limit: Option<nat>, offset: Option<nat>)
    ensures var page := Page(FilterRows(st.rows, ids), limit, offset);
            forall k | 0 <= k < |page| :: page[k] in st.rows && Selected(page[k], ids)
  {
    var selected := FilterRows(st.rows, ids);
    var page := Page(selected, limit, offset);
    forall k | 0 <= k < |page| ensures page[k] in selected {
      assert page[k] == selected[offset.GetOr(0) + k];
    }
  }

  /** Reading back selected rows of the table yields selected users. */
  lemma FindManySound(st: Store, ids: Option<seq<UserId>>, page: seq<UserRow>)
    requires forall k | 0 <= k < |page| :: page[k] in st.rows && Selected(page[k], ids)
    ensures var r := RehydrateAll(page);
            && (r.Ok? ==> forall k | 0 <= k < |r.value| ::
                  exists i | 0 <= i < |st.rows| :: Selected(st.rows[i], ids) && FromDb(st.rows[i]) == Ok(r.value[k]))
            && (r.Ok? && ids.Some? && |ids.value| > 0 ==> forall k | 0 <= k < |r.value| :: r.value[k].id in ids.value)
            && (Consistent(st) ==> r.Ok?)
  {
    var r := RehydrateAll(page);
    if r.Ok? {
      forall k | 0 <= k < |r.value|
        ensures exists i | 0 <= i < |st.rows| :: Selected(st.rows[i], ids) && FromDb(st.rows[i]) == Ok(r.value[k])
        ensures ids.Some? && |ids.value| > 0 ==> r.value[k].id in ids.value
      {
        PageUserIsSelected(st, ids, page[k], r.value[k]);
      }
    }
    if Consistent(st) {
      PageRowsRehydrate(st, page);
    }
  }

  /** One user of a page was read back from a selected row of the table. */
  lemma PageUserIsSelected(st: Store, ids: Option<seq<UserId>>, row: UserRow, u: UserEntity)
    requires row in st.rows && Selected(row, ids) && FromDb(row) == Ok(u)
    ensures exists i | 0 <= i < |st.rows| :: Selected(st.rows[i], ids) && FromDb(st.rows[i]) == Ok(u)
    ensures ids.Some? && |ids.value| > 0 ==> u.id in ids.value
  {
    ReadBackRow(row, u);
    var i :| 0 <= i < |st.rows| && st.rows[i] == row;
  }

  /** Rows taken from a consistent table all read back. */
  lemma PageRowsRehydrate(st: Store, page: seq<UserRow>)
    requires Consistent(st)
    requires forall k | 0 <= k < |page| :: page[k] in st.rows
    ensures forall k | 0 <= k < |page| :: RowRehydrates(page[k])
  {
    forall k | 0 <= k < |page| ensures RowRehydrates(page[k]) {
      var i :| 0 <= i < |st.rows| && st.rows[i] == page[k];
    }
  }

  /** The keys of a read-back user are the row's. */
  lemma ReadBackRow(row: UserRow, u: UserEntity)
    requires FromDb(row) == Ok(u)
    ensures u.id == row.id && u.WellFormed()
    ensures u.phone.GetValue() == row.phoneNumber && u.email.GetValue() == row.email
  {
  }
}
