/** Credentials and the caller's own profile (backend/src/auth/auth.service.ts).

    Signing the token is left to the JWT library, which is not part of this
    model: `Login` returns the payload that would be signed.
 */
module Auth {
  import opened Results
  import opened Tables
  import opened Store
  import opened Views
  import Institutions

  const BadCredentials := "Email atau password salah"
  const ProfileUserMissing := "User tidak ditemukan"

  /** The `where: { email }` filter. The login body is not validated, so the
      email may be absent, and an absent value is no condition at all: then
      every user matches. */
  predicate HasEmail(s: State, id: Id, email: Option<string>) {
    id in s.users && (email.None? || s.users[id].email == email.value)
  }

  /** Users the filter matches, keyed by id. */
  function EmailRank(s: State, email: Option<string>): (m: map<Id, int>)
    ensures forall id :: id in m <==> HasEmail(s, id, email)
    ensures forall id :: id in m ==> m[id] == id
  {
    map id | id in s.users && (email.None? || s.users[id].email == email.value) :: id as int
  }

  /** The user `findFirst` picks for `email` with `orderBy: { id: 'desc' }`:
      the matching one with the highest id. */
  function NewestWithEmail(s: State, email: Option<string>): (r: Option<Id>)
    ensures r.Some? <==> exists id: Id :: HasEmail(s, id, email)
    ensures r.Some? ==> HasEmail(s, r.value, email)
    ensures r.Some? ==> forall id: Id :: HasEmail(s, id, email) ==> id <= r.value
  {
    var rank := EmailRank(s, email);
    if |rank| == 0 then None
    else
      OrderHeadIsFirst(rank, Descending);
      Some(Order(rank, Descending)[0])
  }

  /** `validateUser`: the newest user with that email, if the password checks
      against its digest. Both failures carry the same message. */
  function ValidateUser(s: State, email: Option<string>, password: string): (r: Result<Id>)
    ensures r.Ok? <==>
      NewestWithEmail(s, email).Some? && Check(password, s.users[NewestWithEmail(s, email).value].password)
    ensures r.Ok? ==> r.value == NewestWithEmail(s, email).value
    ensures r.Err? ==> r.error == Unauthorized(BadCredentials)
  {
    match NewestWithEmail(s, email)
    case None => Err(Unauthorized(BadCredentials))
    case Some(id) =>
      if Check(password, s.users[id].password) then Ok(id) else Err(Unauthorized(BadCredentials))
  }

  /** The claims the access token carries. */
  datatype TokenPayload = TokenPayload(sub: Id, email: string)

  /** What `login` returns, with the payload in place of the signed token. */
  datatype Session = Session(payload: TokenPayload, user: UserSummary, institution: Option<InstitutionSummary>)

  /** `login`: the validated user's id and email as token claims, their
      summary without the password, and their institution's summary or null. */
  function Login(s: State, email: Option<string>, password: string): (r: Result<Session>)
    ensures r.Ok? <==> ValidateUser(s, email, password).Ok?
    ensures r.Err? ==> r.error == Unauthorized(BadCredentials)
    ensures r.Ok? ==>
      var id := ValidateUser(s, email, password).value;
      && (email.Some? ==> s.users[id].email == email.value)
      && r.value.payload == TokenPayload(id, s.users[id].email)
      && r.value.user == UserSummary(id, s.users[id].name, s.users[id].email)
      && (r.value.institution.None? <==>
            s.users[id].institutionId.None? || s.users[id].institutionId.value !in s.institutions)
      && (r.value.institution.Some? ==>
            var iid := s.users[id].institutionId.value;
            r.value.institution.value == InstitutionSummary(iid, s.institutions[iid].name,
                                                            s.institutions[iid].slug, s.institutions[iid].trackingTitle))
  {
    var id :- ValidateUser(s, email, password);
    var u := s.users[id];
    Ok(Session(TokenPayload(id, u.email), UserSummary(id, u.name, u.email), InstitutionSummaryOf(s, u.institutionId)))
  }

  /** An unknown email and a wrong password are indistinguishable. */
  lemma FailuresAreIdentical(s: State, email: Option<string>, password: string, email': Option<string>, password': string)
    requires !exists id: Id :: HasEmail(s, id, email)
    requires NewestWithEmail(s, email').Some?
    requires !Check(password', s.users[NewestWithEmail(s, email').value].password)
    ensures Login(s, email, password) == Login(s, email', password') == Err(Unauthorized(BadCredentials))
  {
  }

  /** When an email is shared, an older account never logs in: whatever the
      password, a session is only ever opened for a newer account. */
  lemma OlderDuplicateCannotLogIn(s: State, older: Id, newer: Id, password: string)
    requires older in s.users && newer in s.users && s.users[older].email == s.users[newer].email
    requires older < newer
    ensures var r := Login(s, Some(s.users[older].email), password);
      r.Ok? ==> r.value.payload.sub != older && r.value.payload.sub >= newer
  {
    var email := s.users[older].email;
    assert HasEmail(s, newer, Some(email));
  }

  /** A login body without an email filters on nothing, so the password is
      tried against the newest account of all, whichever email it has. */
  lemma MissingEmailLogsInAsNewestUser(s: State, newest: Id, password: string)
    requires newest in s.users
    requires forall id :: id in s.users ==> id <= newest
    requires Check(password, s.users[newest].password)
    ensures Login(s, None, password).Ok?
    ensures Login(s, None, password).value.payload == TokenPayload(newest, s.users[newest].email)
  {
    assert HasEmail(s, newest, None);
  }

  /** The admin a registration creates can log in straight away, and sees
      the institution it was registered with. */
  lemma RegisteredAdminCanLogIn(s: State, reg: Institutions.Registration, salt: nat, now: Time)
    requires Valid(s)
    requires Institutions.Register(s, reg, salt, now).Ok?
    ensures var c := Institutions.Register(s, reg, salt, now).value;
      var r := Login(c.state, Some(reg.adminEmail), reg.adminPassword);
      && r.Ok?
      && r.value.payload == TokenPayload(c.out.admin.id, reg.adminEmail)
      && r.value.institution == Some(InstitutionSummary(c.out.institution.id, reg.name, reg.slug, reg.trackingTitle))
  {
    var c := Institutions.Register(s, reg, salt, now).value;
    var st := c.state;
    var uid := c.out.admin.id;
    FreshIdsAreCounters(s);
    assert uid == s.nextUserId;
    assert NewestWithEmail(st, Some(reg.adminEmail)) == Some(uid) by {
      assert HasEmail(st, uid, Some(reg.adminEmail));
      var top := NewestWithEmail(st, Some(reg.adminEmail));
      assert top.Some? && uid <= top.value;
    }
  }

  // ---------------------------------------------------------------- profile

  /** `getProfile` output. */
  datatype Profile = Profile(user: UserSummary, institution: Option<InstitutionSummary>)

  /** `getProfile`: the caller's summary and institution summary;
      Unauthorized when the user no longer exists. */
  function GetProfile(s: State, userId: Id): (r: Result<Profile>)
    ensures r.Ok? <==> userId in s.users
    ensures r.Err? ==> r.error == Unauthorized(ProfileUserMissing)
    ensures r.Ok? ==>
      && r.value.user == UserSummary(userId, s.users[userId].name, s.users[userId].email)
      && r.value.institution == InstitutionSummaryOf(s, s.users[userId].institutionId)
  {
    if userId !in s.users then Err(Unauthorized(ProfileUserMissing))
    else
      var u := s.users[userId];
      Ok(Profile(UserSummary(userId, u.name, u.email), InstitutionSummaryOf(s, u.institutionId)))
  }

  /** `UpdateProfileDto`. */
  datatype ProfilePatch = ProfilePatch(name: Option<string>, email: Option<string>)

  /** `updateProfile` output: its institution part also carries the logo. */
  datatype UpdatedProfile = UpdatedProfile(user: UserSummary, institution: Option<InstitutionView>)

  function InstitutionViewOfRef(s: State, ref: Option<Id>): (r: Option<InstitutionView>)
    ensures r.Some? <==> ref.Some? && ref.value in s.institutions
    ensures r.Some? ==> r.value == InstitutionViewOf(s, ref.value)
  {
    if ref.Some? && ref.value in s.institutions then Some(InstitutionViewOf(s, ref.value)) else None
  }

  /** `updateProfile`: name and email change only when a non-empty value is
      supplied; the database refuses to update a user that does not exist. */
  function UpdateProfile(s: State, userId: Id, p: ProfilePatch): (r: Result<Committed<UpdatedProfile>>)
    ensures r.Ok? <==> userId in s.users
    ensures r.Err? ==> r.error == StoreRejected
    ensures r.Ok? ==>
      var prev := s.users[userId];
      var st := r.value.state;
      && userId in st.users
      && st == s.(users := s.users[userId := st.users[userId]])
      && st.users[userId].name == (if Filled(p.name) then p.name.value else prev.name)
      && st.users[userId].email == (if Filled(p.email) then p.email.value else prev.email)
      && st.users[userId].password == prev.password
      && st.users[userId].role == prev.role
      && st.users[userId].institutionId == prev.institutionId
      && r.value.out.user == UserSummary(userId, st.users[userId].name, st.users[userId].email)
      && r.value.out.institution == InstitutionViewOfRef(s, prev.institutionId)
  {
    if userId !in s.users then Err(StoreRejected)
    else
      var prev := s.users[userId];
      var u := prev.(name := if Filled(p.name) then p.name.value else prev.name,
                     email := if Filled(p.email) then p.email.value else prev.email);
      var st := s.(users := s.users[userId := u]);
      Ok(Committed(st, UpdatedProfile(UserSummary(userId, u.name, u.email), InstitutionViewOfRef(st, u.institutionId))))
  }

  /** Changing only the name and reading the profile back gives the new name
      and the old email. */
  lemma ProfileRoundTrip(s: State, userId: Id, name: string)
    requires userId in s.users && name != []
    ensures var st := UpdateProfile(s, userId, ProfilePatch(Some(name), None)).value.state;
      && GetProfile(st, userId).Ok?
      && GetProfile(st, userId).value.user == UserSummary(userId, name, s.users[userId].email)
      && GetProfile(st, userId).value.institution == GetProfile(s, userId).value.institution
  {
  }

  /** A patch of empty strings changes nothing. */
  lemma BlankProfilePatchChangesNothing(s: State, userId: Id, p: ProfilePatch)
    requires userId in s.users
    requires !Filled(p.name) && !Filled(p.email)
    ensures UpdateProfile(s, userId, p).value.state == s
  {
    var st := UpdateProfile(s, userId, p).value.state;
    assert st.users[userId] == s.users[userId];
    assert st.users == s.users;
  }

  lemma UpdateProfilePreservesValid(s: State, userId: Id, p: ProfilePatch)
    requires Valid(s)
    requires UpdateProfile(s, userId, p).Ok?
    ensures Valid(UpdateProfile(s, userId, p).value.state)
  {
  }
}
