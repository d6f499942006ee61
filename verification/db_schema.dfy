/** The `users` table (schema.ts) and the two writes the service issues
    against it, INSERT ... RETURNING and UPDATE ... WHERE id = ? RETURNING.
    The table is a sequence of rows in id order plus the next value of the
    `serial` sequence; NOT NULL columns are plain fields, nullable ones are
    `Option`s, and the CHECK and UNIQUE constraints are checked on every write.
    The phone CHECK is the pattern `^(\+7|8)\d{10}$` the authors meant; the
    one the template literal actually hands PostgreSQL is modelled separately
    below (`InsertAsWritten`). */
module DbSchema {
  import opened Wrappers
  import opened Exceptions
  import opened JsText
  import opened Roles

  /** A `Date`, as milliseconds since the epoch. */
  type Time = int

  /** One row (`User`, the select model). Only `patronymic`, `refreshToken`
      and `refreshTokenExpiredAfter` are nullable. */
  datatype UserRow = UserRow(
    id: nat,
    roleId: Role,
    surname: string,
    name: string,
    patronymic: Option<string>,
    phoneNumber: string,
    email: string,
    passwordHash: string,
    refreshToken: Option<string>,
    refreshTokenExpiredAfter: Option<Time>,
    createdAt: Time,
    updatedAt: Time)

  /** CHECK `phone_number_format`: `^(\+7|8)\d{10}$` */
  predicate PhoneNumberFormat(s: string) {
    || (|s| == 12 && s[0] == '+' && s[1] == '7' && AllDigits(s[2..]))
    || (|s| == 11 && s[0] == '8' && AllDigits(s[1..]))
  }

  predicate IsAsciiLetter(c: char) {
    'A' <= c <= 'Z' || 'a' <= c <= 'z'
  }

  /** `[A-Za-z0-9._%+-]` */
  predicate LocalChar(c: char) {
    IsAsciiLetter(c) || IsDigit(c) || c == '.' || c == '_' || c == '%' || c == '+' || c == '-'
  }

  /** `[A-Za-z0-9.-]` */
  predicate DomainChar(c: char) {
    IsAsciiLetter(c) || IsDigit(c) || c == '.' || c == '-'
  }

  /** One way `^[A-Za-z0-9._%+-]+@[A-Za-z0-9.-]+\.[A-Za-z]{2,}$` matches:
      `at` is the '@', `dot` the '.' before the top-level domain. */
  predicate EmailFormatAt(s: string, at: int, dot: int) {
    && 0 < at && at + 1 < dot && dot + 2 < |s|
    && s[at] == '@' && s[dot] == '.'
    && (forall i | 0 <= i < at :: LocalChar(s[i]))
    && (forall i | at < i < dot :: DomainChar(s[i]))
    && (forall i | dot < i < |s| :: IsAsciiLetter(s[i]))
  }

  /** CHECK `email_format` */
  predicate EmailFormat(s: string) {
    exists at, dot | 0 <= at < |s| && 0 <= dot < |s| :: EmailFormatAt(s, at, dot)
  }

  /** The CHECK constraints of one row. */
  predicate RowChecks(r: UserRow) {
    PhoneNumberFormat(r.phoneNumber) && EmailFormat(r.email)
  }

  datatype Store = Store(rows: seq<UserRow>, nextId: nat)

  /** An empty table; `serial` starts at 1. */
  const EmptyStore: Store := Store([], 1)

  /** The table's invariants: ids come from the sequence (positive, below
      its next value, increasing in insertion order), every row passes the
      CHECK constraints, and phone number and email are each unique. */
  ghost predicate Valid(st: Store) {
    && st.nextId >= 1
    && (forall i | 0 <= i < |st.rows| :: 0 < st.rows[i].id < st.nextId && RowChecks(st.rows[i]))
    && (forall i, j | 0 <= i < j < |st.rows| ::
          && st.rows[i].id < st.rows[j].id
          && st.rows[i].phoneNumber != st.rows[j].phoneNumber
          && st.rows[i].email != st.rows[j].email)
  }

  /** Some row other than the one with id `except` already holds the phone
      number or the email: the UNIQUE indexes refuse the write. */
  predicate Clashes(rows: seq<UserRow>, phone: string, email: string, except: int) {
    exists i | 0 <= i < |rows| :: rows[i].id != except && (rows[i].phoneNumber == phone || rows[i].email == email)
  }

  /** The values of an INSERT (`NewUser`); `id`, `createdAt` and
      `updatedAt` are left to their column defaults. */
  datatype NewUser = NewUser(
    name: string,
    surname: string,
    patronymic: Option<string>,
    passwordHash: string,
    email: string,
    phoneNumber: string,
    roleId: Role,
    refreshToken: Option<string>,
    refreshTokenExpiredAfter: Option<Time>)

  /** A write against the table: the table afterwards and what the
      statement returned or raised. */
  datatype Step<+T> = Step(store: Store, result: Result<T>)

  /** INSERT ... RETURNING: the row takes the next serial id and `now()` for
      both timestamps. `nextval` runs before the constraints are checked and
      is never given back, so a refused INSERT adds no row but still uses up
      its id. */
  function Insert(st: Store, v: NewUser, now: Time): (s: Step<UserRow>)
    ensures s.store.nextId == st.nextId + 1
    ensures s.result.Err? <==> !PhoneNumberFormat(v.phoneNumber) || !EmailFormat(v.email)
                               || Clashes(st.rows, v.phoneNumber, v.email, -1)
    ensures s.result.Err? ==> s.result.error == ConstraintViolation && s.store.rows == st.rows
    ensures s.result.Ok? ==> && s.store.rows == st.rows + [s.result.value]
                             && s.result.value == UserRow(st.nextId, v.roleId, v.surname, v.name, v.patronymic,
                                                          v.phoneNumber, v.email, v.passwordHash, v.refreshToken,
                                                          v.refreshTokenExpiredAfter, now, now)
    ensures Valid(st) ==> Valid(s.store)
  {
    var row := UserRow(st.nextId, v.roleId, v.surname, v.name, v.patronymic,
                       v.phoneNumber, v.email, v.passwordHash, v.refreshToken,
                       v.refreshTokenExpiredAfter, now, now);
    var drawn := Store(st.rows, st.nextId + 1);
    if !RowChecks(row) || Clashes(st.rows, row.phoneNumber, row.email, -1) then Step(drawn, Err(ConstraintViolation))
    else Step(Store(st.rows + [row], st.nextId + 1), Ok(row))
  }

  /** The `.set(...)` argument of an UPDATE. The first five columns are
      always written; for the others `None` means the key is absent from the
      patch and the column keeps its value, while `Some(None)` writes NULL.
      `updatedAt` is always set to `now()`. */
  datatype Patch = Patch(
    email: string,
    phoneNumber: string,
    name: string,
    surname: string,
    patronymic: Option<string>,
    roleId: Option<Role>,
    passwordHash: Option<string>,
    refreshToken: Option<Option<string>>,
    refreshTokenExpiredAfter: Option<Option<Time>>)

  function Apply(p: Patch, row: UserRow, now: Time): (r: UserRow)
    ensures r.id == row.id && r.createdAt == row.createdAt && r.updatedAt == now
    ensures r.email == p.email && r.phoneNumber == p.phoneNumber
    ensures r.name == p.name && r.surname == p.surname && r.patronymic == p.patronymic
    ensures r.roleId == p.roleId.GetOr(row.roleId)
    ensures r.passwordHash == p.passwordHash.GetOr(row.passwordHash)
    ensures r.refreshToken == p.refreshToken.GetOr(row.refreshToken)
    ensures r.refreshTokenExpiredAfter == p.refreshTokenExpiredAfter.GetOr(row.refreshTokenExpiredAfter)
  {
    UserRow(row.id, p.roleId.GetOr(row.roleId), p.surname, p.name, p.patronymic,
            p.phoneNumber, p.email, p.passwordHash.GetOr(row.passwordHash),
            p.refreshToken.GetOr(row.refreshToken),
            p.refreshTokenExpiredAfter.GetOr(row.refreshTokenExpiredAfter),
            row.createdAt, now)
  }

  /** Position of the first row satisfying `p`, or `|rows|` when none does:
      `findFirst` in table order. */
  function FirstIndex(rows: seq<UserRow>, p: UserRow -> bool): (i: nat)
    ensures i <= |rows|
    ensures i < |rows| ==> p(rows[i])
    ensures forall j | 0 <= j < i :: !p(rows[j])
  {
    if |rows| == 0 then 0
    else if p(rows[0]) then 0
    else 1 + FirstIndex(rows[1..], p)
  }

  /** Position of the row with id `id`, or `|rows|`. */
  function IndexOfId(rows: seq<UserRow>, id: int): (i: nat)
    ensures i <= |rows|
    ensures i < |rows| ==> rows[i].id == id
    ensures i == |rows| <==> forall j | 0 <= j < |rows| :: rows[j].id != id
  {
    FirstIndex(rows, (row: UserRow) => row.id == id)
  }

  /** UPDATE ... WHERE id = ? RETURNING: no matching row leaves an empty
      result (`updated[0]` is undefined), a row that would break a constraint
      is refused, otherwise exactly that row is replaced by the patched one. */
  function Update(st: Store, id: int, p: Patch, now: Time): (r: Result<(Store, UserRow)>)
    ensures IndexOfId(st.rows, id) == |st.rows| ==> r == Err(MissingRow)
    ensures IndexOfId(st.rows, id) < |st.rows| ==>
              var i := IndexOfId(st.rows, id);
              var row := Apply(p, st.rows[i], now);
              && (r.Err? <==> !RowChecks(row) || Clashes(st.rows, row.phoneNumber, row.email, id))
              && (r.Err? ==> r.error == ConstraintViolation)
              && (r.Ok? ==> r.value == (Store(st.rows[i := row], st.nextId), row))
    ensures Valid(st) && r.Ok? ==> Valid(r.value.0)
  {
    var i := IndexOfId(st.rows, id);
    if i == |st.rows| then Err(MissingRow)
    else
      var row := Apply(p, st.rows[i], now);
      if !RowChecks(row) || Clashes(st.rows, row.phoneNumber, row.email, id) then Err(ConstraintViolation)
      else Ok((Store(st.rows[i := row], st.nextId), row))
  }

  /* The CHECK patterns reach PostgreSQL through drizzle's `sql` tagged
     template, which passes on the cooked strings: escapes in the template
     literal are resolved before the database sees the text. */

  /** One character of a template literal as the lexer reads it: a plain
      character, or a backslash escape `\e`. */
  datatype TemplateChar = Plain(c: char) | Escape(e: char) {

    /** The cooked character. `\n`, `\t` and `\r` are control characters;
        a character with no escape meaning, the backslash included, stands
        for itself. `\b`, `\f`, `\v`, `\0`, `\x`, `\u` and line
        continuations do not occur in these patterns and are not modelled. */
    function Cook(): char {
      if Plain? then c
      else match e
        case 'n' => '\n'
        case 't' => '\t'
        case 'r' => '\r'
        case _ => e
    }
  }

  /** The cooked value of a template-literal chunk. */
  function Cooked(t: seq<TemplateChar>): (r: string)
    ensures |r| == |t|
    ensures forall i | 0 <= i < |t| && t[i].Plain? :: r[i] == t[i].c
    ensures forall i | 0 <= i < |t| && t[i] == Escape('\\') :: r[i] == '\\'
  {
    seq(|t|, i requires 0 <= i < |t| => t[i].Cook())
  }

  /** The phone CHECK pattern as typed at schema.ts:44, `^(\+7|8)\\d{10}$`. */
  const PHONE_CHECK_TYPED: seq<TemplateChar> :=
    [Plain('^'), Plain('('), Escape('+'), Plain('7'), Plain('|'), Plain('8'), Plain(')'),
     Escape('\\'), Plain('d'), Plain('{'), Plain('1'), Plain('0'), Plain('}'), Plain('$')]

  /** What the authors evidently meant to type, `^(\\+7|8)\\d{10}$`, so that
      the database receives the escaped plus. */
  const PHONE_CHECK_INTENDED: seq<TemplateChar> :=
    [Plain('^'), Plain('('), Escape('\\'), Plain('+'), Plain('7'), Plain('|'), Plain('8'), Plain(')'),
     Escape('\\'), Plain('d'), Plain('{'), Plain('1'), Plain('0'), Plain('}'), Plain('$')]

  /** An unescaped `(` directly followed by a quantifier: PostgreSQL's
      regular-expression compiler refuses such a pattern ("quantifier operand
      invalid"), since the quantifier has nothing to repeat. (Stated for
      patterns whose bracket expressions hold no `(`.) */
  predicate QuantifierOpensGroup(p: string) {
    exists i | 1 <= i < |p| ::
      && p[i - 1] == '(' && (i == 1 || p[i - 2] != '\\')
      && (p[i] == '+' || p[i] == '*' || p[i] == '?')
  }

  /** The typed phone pattern cooks to `^(+7|8)\d{10}$`, whose group opens
      with a quantifier. */
  lemma CookedPhonePattern()
    ensures Cooked(PHONE_CHECK_TYPED) == "^(+7|8)\\d{10}$"
    ensures QuantifierOpensGroup(Cooked(PHONE_CHECK_TYPED))
  {
    var c := Cooked(PHONE_CHECK_TYPED);
    var want := "^(+7|8)\\d{10}$";
    forall i | 0 <= i < |c| ensures c[i] == want[i] {
    }
    assert c[0] == '^' && c[1] == '(' && c[2] == '+';
  }

  /** The intended text cooks to `^(\+7|8)\d{10}$`, which has no such
      group. */
  lemma CookedIntendedPhonePattern()
    ensures Cooked(PHONE_CHECK_INTENDED) == "^(\\+7|8)\\d{10}$"
    ensures !QuantifierOpensGroup(Cooked(PHONE_CHECK_INTENDED))
  {
    var c := Cooked(PHONE_CHECK_INTENDED);
    var want := "^(\\+7|8)\\d{10}$";
    forall i | 0 <= i < |c| ensures c[i] == want[i] {
    }
    forall i | 1 <= i < |c| && c[i - 1] == '('
      ensures !(c[i] == '+' || c[i] == '*' || c[i] == '?')
    {
      assert i == 2;
    }
  }

  /** PostgreSQL refuses to compile the phone CHECK's pattern as typed. */
  predicate PhoneCheckRefused() {
    QuantifierOpensGroup(Cooked(PHONE_CHECK_TYPED))
  }

  /** INSERT against the table as schema.ts:42-49 declares it. PostgreSQL
      tests a table's CHECK constraints in alphabetical order of their names
      and stops at the first failure, so `email_format` comes before
      `phone_number_format`. The phone pattern is compiled only when its own
      CHECK is evaluated, after `nextval`, so an address that fails
      `email_format` is refused as a constraint violation and every other row
      meets the pattern error. */
  function InsertAsWritten(st: Store, v: NewUser, now: Time): (s: Step<UserRow>)
    ensures s.store.nextId == st.nextId + 1
    ensures !EmailFormat(v.email) ==> s.result == Err(ConstraintViolation) && s.store.rows == st.rows
    ensures !PhoneCheckRefused() ==> s == Insert(st, v, now)
  {
    var drawn := Store(st.rows, st.nextId + 1);
    if !EmailFormat(v.email) then Step(drawn, Err(ConstraintViolation))
    else if PhoneCheckRefused() then Step(drawn, Err(InvalidPattern))
    else Insert(st, v, now)
  }

  /** UPDATE against the table as declared: PostgreSQL evaluates every CHECK,
      in the same name order, on the new row version, whose email is the
      patch's. */
  function UpdateAsWritten(st: Store, id: int, p: Patch, now: Time): (r: Result<(Store, UserRow)>)
    ensures IndexOfId(st.rows, id) == |st.rows| ==> r == Err(MissingRow)
    ensures IndexOfId(st.rows, id) < |st.rows| && !EmailFormat(p.email) ==> r == Err(ConstraintViolation)
    ensures !PhoneCheckRefused() ==> r == Update(st, id, p, now)
  {
    if IndexOfId(st.rows, id) == |st.rows| then Err(MissingRow)
    else if !EmailFormat(p.email) then Err(ConstraintViolation)
    else if PhoneCheckRefused() then Err(InvalidPattern)
    else Update(st, id, p, now)
  }

  /** As written, no INSERT ever adds a row and no UPDATE of an existing row
      ever succeeds: the table cannot be written at all. The error is the
      pattern error exactly when the new row's email passes `email_format`;
      otherwise it is that CHECK's violation. */
  lemma {:induction false} AsWrittenTableRefusesWrites(st: Store, v: NewUser, id: int, p: Patch, now: Time)
    ensures InsertAsWritten(st, v, now).result.Err?
    ensures InsertAsWritten(st, v, now).store.rows == st.rows
    ensures InsertAsWritten(st, v, now).result
            == (if EmailFormat(v.email) then Err(InvalidPattern) else Err(ConstraintViolation))
    ensures IndexOfId(st.rows, id) < |st.rows| ==>
              UpdateAsWritten(st, id, p, now)
              == (if EmailFormat(p.email) then Err(InvalidPattern) else Err(ConstraintViolation))
  {
    CookedPhonePattern();
  }

  /** With the intended pattern, a well-formed Russian number and address
      are stored in an empty table. */
  lemma IntendedPhoneCheckAdmits(v: NewUser, now: Time)
    requires v.phoneNumber == "+79991234567" && v.email == "ivan@example.com"
    ensures Insert(EmptyStore, v, now).result.Ok?
    ensures Insert(EmptyStore, v, now).result.value.id == 1
  {
    assert EmailFormatAt(v.email, 4, 12);
    assert AllDigits(v.phoneNumber[2..]) by {
      forall k | 0 <= k < 10 ensures IsDigit(v.phoneNumber[2..][k]) {}
    }
  }
}
