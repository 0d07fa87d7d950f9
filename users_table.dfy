/**
 * The users table of the settings page (src/components/Settings/UsersTable.jsx): each user's role
 * is picked with a cascader whose value is `[role]` for an admin and `[role, role_id]` for a tutor
 * or student, and a change is kept locally and sent as `{role, role_id}`.
 */
module UsersTable {
  import opened Wrappers
  import opened Payload

  /** A user row: `role` is `null` for a user without one. */
  datatype User = User(id: int, email: string, name: string, role: Option<string>, roleId: Json)

  /** A cascader value; `None` is the `undefined` a cleared cascader may give. */
  type Value = Option<seq<Json>>

  /** The value read from the user's own row: none without a (non-empty) role. */
  function RowValue(u: User): (v: seq<Json>)
    ensures |v| == 0 <==> u.role.None? || u.role.value == ""
    ensures |v| == 1 <==> u.role == Some("admin")
    ensures |v| >= 1 ==> v[0] == JStr(u.role.value)
    ensures |v| == 2 ==> v[1] == u.roleId
  {
    if u.role.Some? && u.role.value != "" then
      (if u.role.value == "admin" then [JStr(u.role.value)] else [JStr(u.role.value), u.roleId])
    else []
  }

  /** The cascader's value: a local change to this user wins over the row. */
  function CascaderValue(updated: map<int, Value>, u: User): (v: Value)
    ensures u.id in updated ==> v == updated[u.id]
    ensures u.id !in updated ==> v == Some(RowValue(u))
  {
    if u.id in updated then updated[u.id] else Some(RowValue(u))
  }

  /**
   * The body of the user update: `role` and `role_id` are the value's first and second entries,
   * both `null` when the value is missing; an entry the value lacks is `undefined` (`None`), which
   * drops the key from the JSON sent.
   */
  datatype UserUpdate = UserUpdate(userId: int, role: Option<Json>, roleId: Option<Json>)

  function UpdateBody(userId: int, data: Value): (r: UserUpdate)
    ensures r.userId == userId
    ensures data.None? ==> r.role == Some(JNull) && r.roleId == Some(JNull)
    ensures data.Some? ==> (r.role.Some? <==> |data.value| >= 1) && (r.roleId.Some? <==> |data.value| >= 2)
    ensures data.Some? && |data.value| >= 1 ==> r.role == Some(data.value[0])
    ensures data.Some? && |data.value| >= 2 ==> r.roleId == Some(data.value[1])
  {
    match data
    case None => UserUpdate(userId, Some(JNull), Some(JNull))
    case Some(v) =>
      UserUpdate(userId, if |v| >= 1 then Some(v[0]) else None, if |v| >= 2 then Some(v[1]) else None)
  }

  /** `handleUpdateUser`: the change is recorded for that user and the update is sent. */
  function HandleUpdateUser(updated: map<int, Value>, userId: int, data: Value): (r: (map<int, Value>, UserUpdate))
    ensures r.0.Keys == updated.Keys + {userId} && r.0[userId] == data
    ensures forall id :: id in updated && id != userId ==> r.0[id] == updated[id]
    ensures r.1 == UpdateBody(userId, data)
  {
    (updated[userId := data], UpdateBody(userId, data))
  }

  /** A change shows in that user's cascader and in no other user's. */
  lemma ChangeShowsForThatUserOnly(updated: map<int, Value>, u: User, other: User, data: Value)
    requires other.id != u.id
    ensures CascaderValue(HandleUpdateUser(updated, u.id, data).0, u) == data
    ensures CascaderValue(HandleUpdateUser(updated, u.id, data).0, other) == CascaderValue(updated, other)
  {
  }

  /**
   * Choosing the value a row already shows sends that row's role back, with its `role_id` for a
   * tutor or student and without one for an admin.
   */
  lemma RowValueRoundTrip(u: User)
    requires u.role.Some? && u.role.value != ""
    ensures UpdateBody(u.id, Some(RowValue(u))).role == Some(JStr(u.role.value))
    ensures UpdateBody(u.id, Some(RowValue(u))).roleId == if u.role.value == "admin" then None else Some(u.roleId)
  {
  }
}
