/** The user role. The enum's own file is not part of this model; the
    column comment on `role_id` names three roles with ids 1, 2 and 3, and
    the entity's default is `Role.Inspector`. */
module Roles {
  import opened Wrappers

  datatype Role = Inspector | Dispatcher | Specialist

  /** The integer stored in `role_id`. */
  function RoleId(r: Role): (id: int)
    ensures 1 <= id <= 3
  {
    match r
    case Inspector => 1
    case Dispatcher => 2
    case Specialist => 3
  }

  /** Membership in the enum (`z.enum(Role)`): the ids 1 to 3 and nothing
      else name a role. */
  function RoleFromId(id: int): (r: Option<Role>)
    ensures r.Some? <==> 1 <= id <= 3
    ensures r.Some? ==> RoleId(r.value) == id
  {
    if id == 1 then Some(Inspector)
    else if id == 2 then Some(Dispatcher)
    else if id == 3 then Some(Specialist)
    else None
  }

  lemma RoleIdRoundTrip(r: Role)
    ensures RoleFromId(RoleId(r)) == Some(r)
  {
  }
}
