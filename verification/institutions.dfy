/** The institution directory (backend/src/institutions/institutions.service.ts)
    and the envelopes its controller builds
    (backend/src/institutions/institutions.controller.ts).
 */
module Institutions {
  import opened Results
  import opened Tables
  import opened Store
  import opened Views

  const SlugTaken := "Slug instansi sudah digunakan"
  const NoInstitutionForUser := "Instansi tidak ditemukan untuk user ini"
  const InstitutionNotFound := "Instansi tidak ditemukan"
  const PublicListLimit := 50
  /** The path segment of the caller's own institution. */
  const MeSegment := "me"

  /** An institution as the public read endpoints return it. */
  datatype InstitutionRecord = InstitutionRecord(
    id: Id, name: string, slug: string, trackingTitle: string, logoUrl: Option<string>, createdAt: Time)

  function RecordOf(s: State, id: Id): (r: InstitutionRecord)
    requires id in s.institutions
    ensures r.id == id && r.slug == s.institutions[id].slug && r.createdAt == s.institutions[id].createdAt
  {
    var i := s.institutions[id];
    InstitutionRecord(id, i.name, i.slug, i.trackingTitle, i.logoUrl, i.createdAt)
  }

  predicate SlugInUse(s: State, slug: string) {
    exists id :: id in s.institutions && s.institutions[id].slug == slug
  }

  // ---------------------------------------------------------------- register

  /** `RegisterInstitutionDto`. */
  datatype Registration = Registration(
    name: string, slug: string, trackingTitle: string, logoUrl: Option<string>,
    adminName: string, adminEmail: string, adminPassword: string)

  /** What `register` returns: the institution and its admin, without the
      password. */
  datatype Registered = Registered(institution: InstitutionView, admin: UserSummary)

  /** `register`: Conflict when the slug is taken; otherwise one transaction
      creates the institution (without the supplied logo) and its first admin,
      whose password is stored hashed with `salt`. The institution is stamped
      `now`, the database's default. */
  function Register(s: State, reg: Registration, salt: nat, now: Time): (r: Result<Committed<Registered>>)
    ensures r.Err? <==> SlugInUse(s, reg.slug)
    ensures r.Err? ==> r.error == Conflict(SlugTaken)
    ensures r.Ok? ==>
      var st := r.value.state;
      var iid := r.value.out.institution.id;
      var uid := r.value.out.admin.id;
      && iid !in s.institutions && uid !in s.users
      && st.institutions == s.institutions[iid := Institution(reg.name, reg.slug, reg.trackingTitle, None, now)]
      && st.users == s.users[uid := User(reg.adminName, reg.adminEmail, Hash(reg.adminPassword, salt), Admin, Some(iid))]
      && st.documents == s.documents && st.history == s.history
      && r.value.out.institution == InstitutionViewOf(st, iid)
      && r.value.out.admin == UserSummary(uid, reg.adminName, reg.adminEmail)
  {
    if SlugInUse(s, reg.slug) then Err(Conflict(SlugTaken))
    else
      var iid := FreshId(s.institutions, s.nextInstitutionId);
      var uid := FreshId(s.users, s.nextUserId);
      var st := s.(
        institutions := s.institutions[iid := Institution(reg.name, reg.slug, reg.trackingTitle, None, now)],
        users := s.users[uid := User(reg.adminName, reg.adminEmail, Hash(reg.adminPassword, salt), Admin, Some(iid))],
        nextInstitutionId := iid + 1,
        nextUserId := uid + 1);
      Ok(Committed(st, Registered(InstitutionViewOf(st, iid), UserSummary(uid, reg.adminName, reg.adminEmail))))
  }

  /** Registration adds exactly one institution and one user; the supplied
      logo is dropped and the admin's password checks against its digest. */
  lemma RegisterAddsOneOfEach(s: State, reg: Registration, salt: nat, now: Time)
    requires Register(s, reg, salt, now).Ok?
    ensures var c := Register(s, reg, salt, now).value;
      && |c.state.institutions| == |s.institutions| + 1
      && |c.state.users| == |s.users| + 1
      && c.out.institution.logoUrl == None
      && Check(reg.adminPassword, c.state.users[c.out.admin.id].password)
      && c.state.users[c.out.admin.id].institutionId == Some(c.out.institution.id)
  {
    var c := Register(s, reg, salt, now).value;
    var iid := c.out.institution.id;
    var uid := c.out.admin.id;
    InsertGrows(s.institutions, iid, c.state.institutions[iid]);
    InsertGrows(s.users, uid, c.state.users[uid]);
  }

  /** Once a slug is registered, registering it again fails, whatever else
      the second registration says. */
  lemma SecondRegistrationConflicts(s: State, reg: Registration, reg': Registration, salt: nat, salt': nat, now: Time, now': Time)
    requires Register(s, reg, salt, now).Ok?
    requires reg'.slug == reg.slug
    ensures Register(Register(s, reg, salt, now).value.state, reg', salt', now') == Err(Conflict(SlugTaken))
  {
    var c := Register(s, reg, salt, now).value;
    assert c.state.institutions[c.out.institution.id].slug == reg.slug;
  }

  /** Registration keeps slugs unique and every relation intact. */
  lemma RegisterPreservesValid(s: State, reg: Registration, salt: nat, now: Time)
    requires Valid(s)
    requires Register(s, reg, salt, now).Ok?
    ensures Valid(Register(s, reg, salt, now).value.state)
  {
    FreshIdsAreCounters(s);
  }

  /** On a freshly migrated database the first registration succeeds, takes
      the first id of both tables and leaves the store valid. */
  lemma FirstRegistration(reg: Registration, salt: nat, now: Time)
    ensures var r := Register(Empty(), reg, salt, now);
      && r.Ok?
      && r.value.out.institution.id == 1 && r.value.out.admin.id == 1
      && Valid(r.value.state)
  {
    RegisterPreservesValid(Empty(), reg, salt, now);
  }

  // ---------------------------------------------------------------- lookups

  /** Institutions with slug `slug`, keyed by id. */
  function SlugRank(s: State, slug: string): (m: map<Id, int>)
    ensures forall id :: id in m <==> id in s.institutions && s.institutions[id].slug == slug
    ensures forall id :: id in m ==> m[id] == id
  {
    map id | id in s.institutions && s.institutions[id].slug == slug :: id as int
  }

  /** `findBySlug`: the institution with that slug, or null. Slugs are unique
      in a valid store; beyond that the lowest id is taken. */
  function FindBySlug(s: State, slug: string): (r: Option<InstitutionRecord>)
    ensures r.Some? <==> SlugInUse(s, slug)
    ensures r.Some? ==> r.value.id in s.institutions && r.value == RecordOf(s, r.value.id) && r.value.slug == slug
    ensures r.Some? ==> forall id :: id in s.institutions && s.institutions[id].slug == slug ==> r.value.id <= id
  {
    var rank := SlugRank(s, slug);
    if |rank| == 0 then
      None
    else
      OrderHeadIsFirst(rank, Ascending);
      Some(RecordOf(s, Order(rank, Ascending)[0]))
  }

  /** A registered slug finds the institution just registered. */
  lemma RegisteredSlugIsFound(s: State, reg: Registration, salt: nat, now: Time)
    requires Register(s, reg, salt, now).Ok?
    ensures var c := Register(s, reg, salt, now).value;
      var found := FindBySlug(c.state, reg.slug);
      && found.Some?
      && found.value.id == c.out.institution.id
      && found.value.name == reg.name && found.value.trackingTitle == reg.trackingTitle
      && found.value.logoUrl == None && found.value.createdAt == now
  {
    var c := Register(s, reg, salt, now).value;
    var iid := c.out.institution.id;
    assert c.state.institutions[iid].slug == reg.slug;
    var found := FindBySlug(c.state, reg.slug);
    assert found.value.id == iid;
  }

  /** `findByUserId`: the institution the user belongs to, or null. */
  function FindByUserId(s: State, userId: Id): (r: Option<InstitutionRecord>)
    ensures r.Some? <==>
      userId in s.users && s.users[userId].institutionId.Some? && s.users[userId].institutionId.value in s.institutions
    ensures r.Some? ==> r.value.id == s.users[userId].institutionId.value && r.value == RecordOf(s, r.value.id)
  {
    if userId in s.users && s.users[userId].institutionId.Some? && s.users[userId].institutionId.value in s.institutions then
      Some(RecordOf(s, s.users[userId].institutionId.value))
    else None
  }

  // ---------------------------------------------------------------- public list

  /** All institutions, keyed for `orderBy: { created_at: 'desc' }`. */
  function CreatedRank(s: State): (m: map<Id, int>)
    ensures m.Keys == s.institutions.Keys
    ensures forall id :: id in m ==> m[id] == s.institutions[id].createdAt
  {
    map id | id in s.institutions :: s.institutions[id].createdAt
  }

  /** All institutions, newest first. */
  function NewestFirst(s: State): seq<Id> {
    Order(CreatedRank(s), Descending)
  }

  /** `listPublic`: the first 50 institutions, newest first. */
  function ListPublic(s: State): (r: seq<InstitutionRecord>)
    ensures |r| == Min(PublicListLimit, |s.institutions|) && |r| <= |NewestFirst(s)|
    ensures forall i :: 0 <= i < |r| ==> r[i].id == NewestFirst(s)[i]
    ensures forall i :: 0 <= i < |r| ==> r[i].id in s.institutions && r[i] == RecordOf(s, r[i].id)
    ensures forall i, j :: 0 <= i < j < |r| ==> r[i].createdAt >= r[j].createdAt && r[i].id != r[j].id
  {
    var all := NewestFirst(s);
    var ids := Window(all, 0, PublicListLimit);
    var r := seq(|ids|, i requires 0 <= i < |ids| => RecordOf(s, ids[i]));
    ListPublicFacts(s, all, ids, r);
    r
  }

  lemma ListPublicFacts(s: State, all: seq<Id>, ids: seq<Id>, r: seq<InstitutionRecord>)
    requires all == NewestFirst(s)
    requires ids == Window(all, 0, PublicListLimit)
    requires |r| == |ids| && forall i :: 0 <= i < |ids| ==> ids[i] in s.institutions && r[i] == RecordOf(s, ids[i])
    ensures |r| == Min(PublicListLimit, |s.institutions|) && |r| <= |all|
    ensures forall i :: 0 <= i < |r| ==> r[i].id == all[i]
    ensures forall i :: 0 <= i < |r| ==> r[i].id in s.institutions && r[i] == RecordOf(s, r[i].id)
    ensures forall i, j :: 0 <= i < j < |r| ==> r[i].createdAt >= r[j].createdAt && r[i].id != r[j].id
  {
    var rank := CreatedRank(s);
    assert |all| == |s.institutions| by {
      assert |rank| == |rank.Keys| == |s.institutions.Keys| == |s.institutions|;
    }
    OrderSorted(rank, Descending);
    forall i, j | 0 <= i < j < |r|
      ensures r[i].createdAt >= r[j].createdAt && r[i].id != r[j].id
    {
      assert r[i].id == all[i] && r[j].id == all[j];
    }
  }

  /** An institution the public list leaves out is no newer than any it shows. */
  lemma ListPublicDropsOnlyOlder(s: State, id: Id)
    requires id in s.institutions
    requires forall i :: 0 <= i < |ListPublic(s)| ==> ListPublic(s)[i].id != id
    ensures forall i :: 0 <= i < |ListPublic(s)| ==> ListPublic(s)[i].createdAt >= s.institutions[id].createdAt
  {
    var r := ListPublic(s);
    var all := NewestFirst(s);
    PrefixIsNoOlder(CreatedRank(s), all, |r|, id);
  }

  /** A row after the first `n` rows of a descending order is no newer than
      any of them. */
  lemma PrefixIsNoOlder(rank: map<Id, int>, all: seq<Id>, n: nat, id: Id)
    requires all == Order(rank, Descending) && n <= |all|
    requires id in rank && forall i :: 0 <= i < n ==> all[i] != id
    ensures forall i :: 0 <= i < n ==> rank[all[i]] >= rank[id]
  {
    OrderSorted(rank, Descending);
    assert id in all;
    var k :| 0 <= k < |all| && all[k] == id;
    assert k >= n;
  }

  // ---------------------------------------------------------------- branding

  /** `UpdateInstitutionDto`: each field optional; the logo may be set to null. */
  datatype BrandingPatch = BrandingPatch(name: Option<string>, trackingTitle: Option<string>, logoUrl: Option<Option<string>>)

  function Rebranded(i: Institution, p: BrandingPatch): (r: Institution)
    ensures r.name == p.name.GetOr(i.name) && r.trackingTitle == p.trackingTitle.GetOr(i.trackingTitle)
    ensures r.logoUrl == p.logoUrl.GetOr(i.logoUrl)
    ensures r.slug == i.slug && r.createdAt == i.createdAt
  {
    i.(name := p.name.GetOr(i.name), trackingTitle := p.trackingTitle.GetOr(i.trackingTitle),
       logoUrl := p.logoUrl.GetOr(i.logoUrl))
  }

  /** `updateForUser`: Conflict when the caller belongs to no institution;
      otherwise that institution alone takes the supplied fields. */
  function UpdateForUser(s: State, userId: Id, p: BrandingPatch): (r: Result<Committed<InstitutionView>>)
    ensures r.Ok? <==> FindByUserId(s, userId).Some?
    ensures r.Err? ==> r.error == Conflict(NoInstitutionForUser)
    ensures r.Ok? ==>
      var iid := s.users[userId].institutionId.value;
      && iid in s.institutions && r.value.out.id == iid
      && r.value.state == s.(institutions := s.institutions[iid := Rebranded(s.institutions[iid], p)])
      && r.value.out == InstitutionViewOf(r.value.state, iid)
  {
    match FindByUserId(s, userId)
    case None => Err(Conflict(NoInstitutionForUser))
    case Some(found) =>
      var iid := found.id;
      var st := s.(institutions := s.institutions[iid := Rebranded(s.institutions[iid], p)]);
      Ok(Committed(st, InstitutionViewOf(st, iid)))
  }

  /** What the caller reads back after a branding update: the supplied fields,
      the old value of every other field, and the same slug. */
  lemma BrandingRoundTrip(s: State, userId: Id, p: BrandingPatch)
    requires UpdateForUser(s, userId, p).Ok?
    ensures var prev := FindByUserId(s, userId).value;
      var now := FindByUserId(UpdateForUser(s, userId, p).value.state, userId);
      && now.Some?
      && now.value.id == prev.id && now.value.slug == prev.slug && now.value.createdAt == prev.createdAt
      && now.value.name == p.name.GetOr(prev.name)
      && now.value.trackingTitle == p.trackingTitle.GetOr(prev.trackingTitle)
      && now.value.logoUrl == p.logoUrl.GetOr(prev.logoUrl)
  {
  }

  /** Branding updates never touch a slug, so slugs stay unique. */
  lemma UpdateForUserPreservesValid(s: State, userId: Id, p: BrandingPatch)
    requires Valid(s)
    requires UpdateForUser(s, userId, p).Ok?
    ensures Valid(UpdateForUser(s, userId, p).value.state)
  {
    var st := UpdateForUser(s, userId, p).value.state;
    assert forall id :: id in st.institutions ==> st.institutions[id].slug == s.institutions[id].slug;
  }

  // ---------------------------------------------------------------- responses

  /** A nullable lookup as the controller returns it. */
  function Respond(found: Option<InstitutionRecord>): (r: Envelope<InstitutionRecord>)
    ensures r.Failure? <==> found.None?
    ensures r.Failure? ==> r.message == InstitutionNotFound
    ensures r.Success? ==> r.data == found.value
  {
    if found.Some? then Success(found.value) else Failure(InstitutionNotFound)
  }

  /** `GET /institutions/:slug`. */
  function BySlugResponse(s: State, slug: string): (r: Envelope<InstitutionRecord>)
    ensures r.Success? <==> SlugInUse(s, slug)
    ensures r.Failure? ==> r.message == InstitutionNotFound
    ensures r.Success? ==> r.data.slug == slug && r.data.id in s.institutions && r.data == RecordOf(s, r.data.id)
  {
    Respond(FindBySlug(s, slug))
  }

  /** The handler of `GET /institutions/me`. */
  function MeResponse(s: State, callerId: Id): (r: Envelope<InstitutionRecord>)
    ensures r.Success? <==> FindByUserId(s, callerId).Some?
    ensures r.Failure? ==> r.message == InstitutionNotFound
    ensures r.Success? ==>
      var iid := s.users[callerId].institutionId.value;
      iid in s.institutions && r.data == RecordOf(s, iid)
  {
    Respond(FindByUserId(s, callerId))
  }

  /** `GET /institutions/<segment>` as the controller declares its routes:
      the `:slug` route comes first and matches every segment, so it also
      answers `me`. */
  function GetBySegmentAsDeclared(s: State, segment: string, callerId: Id): (r: Envelope<InstitutionRecord>)
    ensures r.Success? <==> SlugInUse(s, segment)
    ensures r.Failure? ==> r.message == InstitutionNotFound
    ensures r.Success? ==> r.data.slug == segment && r.data.id in s.institutions && r.data == RecordOf(s, r.data.id)
  {
    BySlugResponse(s, segment)
  }

  /** A caller with an institution asking for `me` is told that no institution
      exists, unless some institution happens to have the slug "me". */
  lemma MeIsAnsweredBySlugLookup(s: State, callerId: Id)
    requires FindByUserId(s, callerId).Some?
    requires !SlugInUse(s, MeSegment)
    ensures MeResponse(s, callerId).Success?
    ensures GetBySegmentAsDeclared(s, MeSegment, callerId) == Failure(InstitutionNotFound)
  {
  }

  /** `GET /institutions/<segment>` with the static `me` route matched before
      the `:slug` route. */
  function GetBySegment(s: State, segment: string, callerId: Id): (r: Envelope<InstitutionRecord>)
    ensures segment == MeSegment ==> (r.Success? <==> FindByUserId(s, callerId).Some?)
    ensures segment != MeSegment ==> (r.Success? <==> SlugInUse(s, segment))
    ensures r.Failure? ==> r.message == InstitutionNotFound
    ensures segment == MeSegment && r.Success? ==>
      var iid := s.users[callerId].institutionId.value;
      iid in s.institutions && r.data == RecordOf(s, iid)
    ensures segment != MeSegment && r.Success? ==>
      r.data.slug == segment && r.data.id in s.institutions && r.data == RecordOf(s, r.data.id)
  {
    if segment == MeSegment then MeResponse(s, callerId) else BySlugResponse(s, segment)
  }

  /** With `me` routed first, a caller who belongs to an institution reads it
      back, and every other segment is still a slug lookup. */
  lemma MeReachesCallersInstitution(s: State, callerId: Id, segment: string)
    requires FindByUserId(s, callerId).Some?
    ensures GetBySegment(s, MeSegment, callerId) == Success(FindByUserId(s, callerId).value)
    ensures GetBySegment(s, MeSegment, callerId).data.id == s.users[callerId].institutionId.value
    ensures segment != MeSegment ==> GetBySegment(s, segment, callerId) == GetBySegmentAsDeclared(s, segment, callerId)
  {
  }
}
