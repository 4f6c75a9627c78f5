/** User administration (backend/src/users/users.service.ts), reachable only
    through the superadmin guard (backend/src/auth/superadmin.guard.ts).

    The role the guard inspects is a claim of the authenticated request; how it
    gets there is decided by the token strategy, which is not part of this
    model, so the guard takes that claim as a parameter.
 */
module Users {
  import opened Results
  import opened Tables
  import opened Store

  const SuperAdminOnly := "Akses khusus superadmin"
  const UserNotFound := "User tidak ditemukan"
  const CannotDeleteSelf := "Tidak bisa menghapus akun sendiri"
  /** The role claim the guard admits. */
  const SuperAdminClaim := "superadmin"

  /** `SuperAdminGuard.canActivate`. */
  function Guard(role: Option<string>): (r: Result<()>)
    ensures r.Ok? <==> role == Some(SuperAdminClaim)
    ensures r.Err? ==> r.error == Forbidden(SuperAdminOnly)
  {
    if role.Some? && role.value == SuperAdminClaim then Ok(()) else Err(Forbidden(SuperAdminOnly))
  }

  /** `institution: { id, name, slug }`. */
  datatype InstitutionBrief = InstitutionBrief(id: Id, name: string, slug: string)

  /** A user as the admin endpoints return it: no password. */
  datatype UserRow = UserRow(id: Id, name: string, email: string, role: Role, institution: Option<InstitutionBrief>)

  function BriefOf(s: State, ref: Option<Id>): (r: Option<InstitutionBrief>)
    ensures r.Some? <==> ref.Some? && ref.value in s.institutions
    ensures r.Some? ==>
      r.value == InstitutionBrief(ref.value, s.institutions[ref.value].name, s.institutions[ref.value].slug)
  {
    if ref.Some? && ref.value in s.institutions then
      var i := s.institutions[ref.value];
      Some(InstitutionBrief(ref.value, i.name, i.slug))
    else None
  }

  function RowOf(s: State, id: Id): UserRow
    requires id in s.users
  {
    var u := s.users[id];
    UserRow(id, u.name, u.email, u.role, BriefOf(s, u.institutionId))
  }

  // ---------------------------------------------------------------- list

  /** Users keyed by their own id, for `orderBy: { id: 'desc' }`. */
  function IdRank(users: map<Id, User>): (m: map<Id, int>)
    ensures m.Keys == users.Keys
    ensures forall id :: id in m ==> m[id] == id
  {
    map id | id in users :: id as int
  }

  /** Every row in `r` shows a user of `s` as `RowOf` shows it. */
  predicate ShowsUsers(s: State, r: seq<UserRow>) {
    forall i :: 0 <= i < |r| ==> r[i].id in s.users && r[i] == RowOf(s, r[i].id)
  }

  /** Every user of `s` has a row in `r`. */
  predicate ListsEveryUser(s: State, r: seq<UserRow>) {
    forall id :: id in s.users ==> exists i :: 0 <= i < |r| && r[i].id == id
  }

  /** Ids strictly decrease down `r`, so no user is listed twice. */
  predicate IdsDescending(r: seq<UserRow>) {
    forall i, j :: 0 <= i < j < |r| ==> r[i].id > r[j].id
  }

  /** `list`: every user exactly once, highest id first. */
  function ListUsers(s: State): (r: seq<UserRow>)
    ensures |r| == |s.users|
    ensures ShowsUsers(s, r) && ListsEveryUser(s, r) && IdsDescending(r)
  {
    ListUsersFacts(s);
    UserRows(s, UserOrder(s))
  }

  /** The user ids, highest first. */
  function UserOrder(s: State): (ids: seq<Id>)
    ensures forall i :: 0 <= i < |ids| ==> ids[i] in s.users
  {
    Order(IdRank(s.users), Descending)
  }

  /** The rows of the users `ids`, in the same order. */
  function UserRows(s: State, ids: seq<Id>): (r: seq<UserRow>)
    requires forall i :: 0 <= i < |ids| ==> ids[i] in s.users
    ensures |r| == |ids|
    ensures forall i :: 0 <= i < |ids| ==> r[i] == RowOf(s, ids[i])
  {
    if ids == [] then [] else [RowOf(s, ids[0])] + UserRows(s, ids[1..])
  }

  lemma ListUsersFacts(s: State)
    ensures var r := UserRows(s, UserOrder(s));
      |r| == |s.users| && ShowsUsers(s, r) && ListsEveryUser(s, r) && IdsDescending(r)
  {
    var rank := IdRank(s.users);
    assert |rank| == |rank.Keys| == |s.users.Keys| == |s.users|;
    UserRowsCover(s);
    UserRowsDescend(s);
  }

  lemma UserRowsCover(s: State)
    ensures ListsEveryUser(s, UserRows(s, UserOrder(s)))
  {
    var rank := IdRank(s.users);
    var ids := UserOrder(s);
    var r := UserRows(s, ids);
    forall id | id in s.users
      ensures exists i :: 0 <= i < |r| && r[i].id == id
    {
      assert id in rank && id in ids;
      var i :| 0 <= i < |ids| && ids[i] == id;
      assert r[i].id == id;
    }
  }

  lemma UserRowsDescend(s: State)
    ensures IdsDescending(UserRows(s, UserOrder(s)))
  {
    var rank := IdRank(s.users);
    var ids := UserOrder(s);
    var r := UserRows(s, ids);
    forall i, j | 0 <= i < j < |r|
      ensures r[i].id > r[j].id
    {
      assert r[i].id == ids[i] && r[j].id == ids[j];
      assert Before(rank, Descending, ids[i], ids[j]);
    }
  }

  // ---------------------------------------------------------------- update

  /** `UpdateUserDto`: each field optional; `institutionId` may be set to null. */
  datatype UserPatch = UserPatch(
    name: Option<string>,
    email: Option<string>,
    role: Option<Role>,
    institutionId: Option<Option<Id>>,
    password: Option<string>)

  /** The institution column after a patch: cleared when the patch asks for
      the superadmin role, otherwise the supplied value when there is one.
      Only the requested role is consulted, never the stored one. */
  function AssignedInstitution(current: Option<Id>, p: UserPatch): Option<Id> {
    if p.role == Some(SuperAdmin) then None
    else if p.institutionId.Some? then p.institutionId.value
    else current
  }

  /** The row a patch produces. A new password is hashed with `salt`, the
      salt `genSalt` would have drawn. */
  function PatchedUser(u: User, p: UserPatch, salt: nat): (r: User)
    ensures r.name == p.name.GetOr(u.name) && r.email == p.email.GetOr(u.email)
    ensures r.role == p.role.GetOr(u.role)
    ensures r.institutionId == AssignedInstitution(u.institutionId, p)
    ensures Filled(p.password) ==> Check(p.password.value, r.password) && r.password.salt == salt
    ensures !Filled(p.password) ==> r.password == u.password
  {
    User(p.name.GetOr(u.name), p.email.GetOr(u.email),
         if Filled(p.password) then Hash(p.password.value, salt) else u.password,
         p.role.GetOr(u.role), AssignedInstitution(u.institutionId, p))
  }

  /** `update`: NotFound for an unknown user; the database refuses an
      institution that does not exist; otherwise only that user's row changes. */
  function UpdateUser(s: State, userId: Id, p: UserPatch, salt: nat): (r: Result<Committed<UserRow>>)
    ensures userId !in s.users ==> r == Err(NotFound(UserNotFound))
    ensures userId in s.users ==>
      var inst := AssignedInstitution(s.users[userId].institutionId, p);
      (r.Ok? <==> inst.None? || inst.value in s.institutions)
    ensures userId in s.users && r.Err? ==> r == Err(StoreRejected)
    ensures r.Ok? ==>
      && userId in s.users
      && r.value.state == s.(users := s.users[userId := PatchedUser(s.users[userId], p, salt)])
      && r.value.out == RowOf(r.value.state, userId)
  {
    if userId !in s.users then Err(NotFound(UserNotFound))
    else
      var u := PatchedUser(s.users[userId], p, salt);
      if u.institutionId.Some? && u.institutionId.value !in s.institutions then Err(StoreRejected)
      else
        var st := s.(users := s.users[userId := u]);
        Ok(Committed(st, RowOf(st, userId)))
  }

  /** Requesting the superadmin role always leaves the user without an
      institution, whatever institution the same patch names. */
  lemma SuperAdminRequestClearsInstitution(s: State, userId: Id, p: UserPatch, salt: nat)
    requires userId in s.users && p.role == Some(SuperAdmin)
    ensures UpdateUser(s, userId, p, salt).Ok?
    ensures var st := UpdateUser(s, userId, p, salt).value.state;
      st.users[userId].role == SuperAdmin && st.users[userId].institutionId == None
      && UpdateUser(s, userId, p, salt).value.out.institution == None
  {
  }

  /** Only the requested role is checked: a user who already is a superadmin
      takes the institution a patch names when the patch leaves the role out. */
  lemma StoredSuperAdminCanGainInstitution(s: State, userId: Id, inst: Id, salt: nat)
    requires userId in s.users && s.users[userId].role == SuperAdmin
    requires inst in s.institutions
    ensures var r := UpdateUser(s, userId, UserPatch(None, None, None, Some(Some(inst)), None), salt);
      && r.Ok?
      && r.value.state.users[userId].role == SuperAdmin
      && r.value.state.users[userId].institutionId == Some(inst)
  {
  }

  /** Name and email change exactly when supplied, even as empty strings;
      the password changes exactly when a non-empty one is supplied, and the
      new one then checks against the stored digest. */
  lemma UpdateFieldRules(s: State, userId: Id, p: UserPatch, salt: nat)
    requires UpdateUser(s, userId, p, salt).Ok?
    ensures var prev := s.users[userId];
      var now := UpdateUser(s, userId, p, salt).value.state.users[userId];
      && (p.name.Some? ==> now.name == p.name.value) && (p.name.None? ==> now.name == prev.name)
      && (p.email.Some? ==> now.email == p.email.value) && (p.email.None? ==> now.email == prev.email)
      && (Filled(p.password) ==> Check(p.password.value, now.password))
      && (!Filled(p.password) ==> now.password == prev.password)
  {
  }

  /** Applying the same patch again, with the same salt, changes nothing more. */
  lemma UpdateUserIdempotent(s: State, userId: Id, p: UserPatch, salt: nat)
    requires UpdateUser(s, userId, p, salt).Ok?
    ensures var st := UpdateUser(s, userId, p, salt).value.state;
      UpdateUser(st, userId, p, salt).Ok? && UpdateUser(st, userId, p, salt).value.state == st
  {
    var st := UpdateUser(s, userId, p, salt).value.state;
    assert st.users[userId := PatchedUser(st.users[userId], p, salt)] == st.users;
  }

  lemma UpdateUserPreservesValid(s: State, userId: Id, p: UserPatch, salt: nat)
    requires Valid(s)
    requires UpdateUser(s, userId, p, salt).Ok?
    ensures Valid(UpdateUser(s, userId, p, salt).value.state)
  {
  }

  // ---------------------------------------------------------------- remove

  /** Some document is owned by `userId`. */
  predicate OwnsDocuments(s: State, userId: Id) {
    exists d :: d in s.documents && s.documents[d].userId == userId
  }

  /** `remove`: nobody deletes their own account. The database refuses to
      delete a missing user or one that still owns documents. */
  function RemoveUser(s: State, requestorId: Id, userId: Id): (r: Result<Committed<()>>)
    ensures requestorId == userId ==> r == Err(Forbidden(CannotDeleteSelf))
    ensures requestorId != userId ==> (r.Ok? <==> userId in s.users && !OwnsDocuments(s, userId))
    ensures requestorId != userId && r.Err? ==> r == Err(StoreRejected)
    ensures r.Ok? ==> r.value.state.users == s.users - {userId}
    ensures r.Ok? ==> r.value.state == s.(users := r.value.state.users)
  {
    if requestorId == userId then Err(Forbidden(CannotDeleteSelf))
    else if userId !in s.users || OwnsDocuments(s, userId) then Err(StoreRejected)
    else Ok(Committed(s.(users := s.users - {userId}), ()))
  }

  /** A removed user disappears from the list, which loses exactly one row. */
  lemma RemovedUserIsNotListed(s: State, requestorId: Id, userId: Id)
    requires RemoveUser(s, requestorId, userId).Ok?
    ensures var rows := ListUsers(RemoveUser(s, requestorId, userId).value.state);
      && |rows| == |s.users| - 1
      && forall i :: 0 <= i < |rows| ==> rows[i].id != userId
  {
    var st := RemoveUser(s, requestorId, userId).value.state;
    assert st.users.Keys == s.users.Keys - {userId};
  }

  lemma RemoveUserPreservesValid(s: State, requestorId: Id, userId: Id)
    requires Valid(s)
    requires RemoveUser(s, requestorId, userId).Ok?
    ensures Valid(RemoveUser(s, requestorId, userId).value.state)
  {
  }

  // ---------------------------------------------------------------- routes

  /** `GET /admin/users`. */
  function ListRoute(s: State, role: Option<string>): (r: Result<seq<UserRow>>)
    ensures r.Ok? <==> role == Some(SuperAdminClaim)
    ensures r.Ok? ==> r.value == ListUsers(s)
  {
    var _ :- Guard(role);
    Ok(ListUsers(s))
  }

  /** `PATCH /admin/users/:id`. */
  function UpdateRoute(s: State, role: Option<string>, userId: Id, p: UserPatch, salt: nat)
    : (r: Result<Committed<UserRow>>)
    ensures role != Some(SuperAdminClaim) ==> r == Err(Forbidden(SuperAdminOnly))
    ensures role == Some(SuperAdminClaim) ==> r == UpdateUser(s, userId, p, salt)
  {
    var _ :- Guard(role);
    UpdateUser(s, userId, p, salt)
  }

  /** `DELETE /admin/users/:id`. */
  function RemoveRoute(s: State, role: Option<string>, requestorId: Id, userId: Id)
    : (r: Result<Committed<()>>)
    ensures role != Some(SuperAdminClaim) ==> r == Err(Forbidden(SuperAdminOnly))
    ensures role == Some(SuperAdminClaim) ==> r == RemoveUser(s, requestorId, userId)
  {
    var _ :- Guard(role);
    RemoveUser(s, requestorId, userId)
  }

  /** Without the superadmin claim no user-admin route reads or writes. */
  lemma GuardBlocksEveryRoute(
    s: State, role: Option<string>, requestorId: Id, userId: Id, p: UserPatch, salt: nat)
    requires role != Some(SuperAdminClaim)
    ensures ListRoute(s, role) == Err(Forbidden(SuperAdminOnly))
    ensures UpdateRoute(s, role, userId, p, salt) == Err(Forbidden(SuperAdminOnly))
    ensures RemoveRoute(s, role, requestorId, userId) == Err(Forbidden(SuperAdminOnly))
  {
  }
}
