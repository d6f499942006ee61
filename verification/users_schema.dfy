/** The users query and response schemas (users/schema.ts):
    `GetUsersByIdsQuerySchema` normalises the `ids` list on top of the
    pagination bounds, and `UserSchema` is the shape a user is returned in. */
module UsersSchema {
  import opened Wrappers
  import opened Exceptions
  import opened ZodNumber
  import opened Roles
  import opened DbSchema
  import opened Users
  import opened UsersRepository
  import Pagination
  import BrandSchema

  datatype UsersQuery = UsersQuery(ids: seq<UserId>, limit: nat, offset: nat)

  /** One id: `z.coerce.number().int().positive()`, then `UserIdSchema`. */
  function ParseId(x: JsNumber): (r: Result<UserId>)
    ensures r == BrandSchema.ParseUserId(x)
  {
    if IsInt(x) && x.v > 0.0 then BrandSchema.ParseUserId(x) else Err(ValidationFailed)
  }

  /** `ids`: absent becomes the empty list; every element must be a
      positive integer, and the list keeps its order. */
  function ParseIds(x: Option<seq<JsNumber>>): (r: Result<seq<UserId>>)
    ensures x.None? ==> r == Ok([])
    ensures x.Some? ==> (r.Ok? <==> forall i | 0 <= i < |x.value| :: IsInt(x.value[i]) && x.value[i].v > 0.0)
    ensures r.Ok? && x.Some? ==>
              |r.value| == |x.value| && forall i | 0 <= i < |x.value| :: r.value[i] as real == x.value[i].v
    ensures r.Ok? ==> forall i | 0 <= i < |r.value| :: r.value[i] > 0
    ensures r.Err? ==> r.error == ValidationFailed
  {
    match x
    case None => Ok([])
    case Some(xs) => ParseEach(xs)
  }

  function ParseEach(xs: seq<JsNumber>): (r: Result<seq<UserId>>)
    ensures r.Ok? <==> forall i | 0 <= i < |xs| :: IsInt(xs[i]) && xs[i].v > 0.0
    ensures r.Ok? ==> |r.value| == |xs| && forall i | 0 <= i < |xs| :: r.value[i] as real == xs[i].v && r.value[i] > 0
    ensures r.Err? ==> r.error == ValidationFailed
  {
    if |xs| == 0 then Ok([])
    else
      match ParseId(xs[0])
      case Err(e) => Err(e)
      case Ok(id) =>
        match ParseEach(xs[1..])
        case Err(e) => Err(e)
        case Ok(rest) => Ok([id] + rest)
  }

  /** The whole query: ids, limit and offset each parsed; any failure fails
      the parse. */
  function ParseUsersQuery(ids: Option<seq<JsNumber>>, limit: Option<JsNumber>, offset: Option<JsNumber>): (r: Result<UsersQuery>)
    ensures r.Ok? <==> ParseIds(ids).Ok? && Pagination.ParseLimit(limit).Ok? && Pagination.ParseOffset(offset).Ok?
    ensures r.Ok? ==> r.value == UsersQuery(ParseIds(ids).value, Pagination.ParseLimit(limit).value,
                                            Pagination.ParseOffset(offset).value)
    ensures r.Ok? ==> 1 <= r.value.limit <= Pagination.MAX_LIMIT
  {
    var i :- ParseIds(ids);
    var l :- Pagination.ParseLimit(limit);
    var o :- Pagination.ParseOffset(offset);
    Ok(UsersQuery(i, l, o))
  }

  /** A parsed query never returns more than 20 users, only users it asked
      for when it names any, and, without `ids`, filters nothing. */
  lemma QueryFindMany(st: Store, ids: Option<seq<JsNumber>>, limit: Option<JsNumber>, offset: Option<JsNumber>)
    requires ParseUsersQuery(ids, limit, offset).Ok?
    ensures var q := ParseUsersQuery(ids, limit, offset).value;
            var r := FindMany(st, Some(q.ids), Some(q.limit), Some(q.offset));
            && (r.Ok? ==> |r.value| <= Pagination.MAX_LIMIT)
            && (r.Ok? && |q.ids| > 0 ==> forall k | 0 <= k < |r.value| :: r.value[k].id in q.ids)
            && (ids.None? ==> forall row: UserRow :: Selected(row, Some(q.ids)))
  {
  }

  /** The object `UserSchema` parses; `createdAt`/`updatedAt` stay
      timestamps (their ISO formatting is not modelled). */
  datatype UserView = UserView(
    id: int,
    role: Role,
    name: string,
    surname: string,
    patronymic: Option<string>,
    phone: string,
    email: string,
    createdAt: Time,
    updatedAt: Option<Time>)

  /** The object `UserDto.fromEntity` hands to `UserSchema`. */
  function ViewOf(u: UserEntity): (v: UserView)
    ensures v.id == u.id && v.role == u.role
    ensures v.patronymic.Some? <==> u.patronymic.Some?
    ensures v.updatedAt == u.updatedAt
  {
    UserView(u.id, u.role, u.name.GetValue(), u.surname.GetValue(),
             PatronymicColumn(u.patronymic), u.phone.GetValue(), u.email.GetValue(),
             u.createdAt, u.updatedAt)
  }

  /** `UserSchema.parse`: the id must pass `UserIdSchema` and the email
      `z.email()`, whose pattern is the parameter `zodEmail`; patronymic and
      updatedAt may be null, and the role is an enum member by its type. */
  function ParseUserView(zodEmail: string -> bool, v: UserView): (r: Result<UserView>)
    ensures r.Ok? <==> 0 < v.id <= MAX_SAFE_INTEGER && zodEmail(v.email)
    ensures r.Ok? ==> r.value == v
    ensures r.Err? ==> r.error == ValidationFailed
  {
    if 0 < v.id <= MAX_SAFE_INTEGER && zodEmail(v.email) then Ok(v) else Err(ValidationFailed)
  }

  /** `fromEntity` of a user read from a valid table succeeds exactly when
      zod accepts the stored email: the id always passes, being a serial
      value that a JavaScript number holds exactly. */
  lemma StoredUserViewIff(zodEmail: string -> bool, st: Store, id: UserId)
    requires Valid(st) && GetById(st, id).Ok? && st.nextId <= MAX_SAFE_INTEGER
    ensures var u := GetById(st, id).value;
            ParseUserView(zodEmail, ViewOf(u)).Ok? <==> zodEmail(u.email.GetValue())
  {
    var i :| 0 <= i < |st.rows| && st.rows[i].id == id;
  }

  /** When every stored email passes `z.email()`, as addresses that came in
      through `register` do, every stored user has a view. */
  lemma StoredUserHasView(zodEmail: string -> bool, st: Store, id: UserId)
    requires Valid(st) && GetById(st, id).Ok? && st.nextId <= MAX_SAFE_INTEGER
    requires forall i | 0 <= i < |st.rows| :: zodEmail(st.rows[i].email)
    ensures ParseUserView(zodEmail, ViewOf(GetById(st, id).value)).Ok?
  {
    var i :| 0 <= i < |st.rows| && st.rows[i].id == id;
    StoredUserViewIff(zodEmail, st, id);
  }
}
