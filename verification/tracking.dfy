/** The public tracking view (backend/src/tracking/tracking.service.ts and
    backend/src/tracking/tracking.controller.ts): anyone who knows a
    document's code reads its status, owner, institution and history, with no
    institution scoping at all.
 */
module Tracking {
  import opened Results
  import opened Tables
  import opened Store
  import opened Views
  import Documents

  const KodeRequired := "Parameter kode wajib diisi"
  const TrackingNotFound := "Data tidak ditemukan"

  /** The composite `findByKode` assembles. */
  datatype Tracked = Tracked(
    id: Id, kode: string, status: string, durasi: int, createdAt: Time,
    user: Option<UserSummary>, historis: seq<HistoryView>, institution: Option<InstitutionSummary>)

  predicate HasKode(s: State, id: Id, kode: string) {
    id in s.documents && s.documents[id].kode == kode
  }

  /** Documents with code `kode`, keyed by id. */
  function KodeRank(s: State, kode: string): (m: map<Id, int>)
    ensures forall id :: id in m <==> HasKode(s, id, kode)
    ensures forall id :: id in m ==> m[id] == id
  {
    map id | id in s.documents && s.documents[id].kode == kode :: id as int
  }

  /** The document `findFirst({ where: { kode } })` picks. Codes are not
      unique; the lowest id is taken. */
  function DocumentWithKode(s: State, kode: string): (r: Option<Id>)
    ensures r.Some? <==> exists id: Id :: HasKode(s, id, kode)
    ensures r.Some? ==> HasKode(s, r.value, kode)
    ensures r.Some? ==> forall id: Id :: HasKode(s, id, kode) ==> r.value <= id
  {
    var rank := KodeRank(s, kode);
    if |rank| == 0 then None
    else
      OrderHeadIsFirst(rank, Ascending);
      Some(Order(rank, Ascending)[0])
  }

  /** The composite of document `id`: its own fields, its owner, its history
      oldest first, and the institution that owns it. */
  function TrackedOf(s: State, id: Id): (r: Tracked)
    requires id in s.documents
    ensures r.id == id && r.kode == s.documents[id].kode && r.status == s.documents[id].status
    ensures r.durasi == s.documents[id].durasi && r.createdAt == s.documents[id].createdAt
    ensures r.user == UserSummaryOf(s, s.documents[id].userId)
    ensures r.historis == HistoryOf(s, id)
    ensures r.institution == InstitutionSummaryOf(s, Some(s.documents[id].institutionId))
  {
    var d := s.documents[id];
    Tracked(id, d.kode, d.status, d.durasi, d.createdAt,
            UserSummaryOf(s, d.userId), HistoryOf(s, id), InstitutionSummaryOf(s, Some(d.institutionId)))
  }

  /** `findByKode`: null when no document has the code. */
  function FindByKode(s: State, kode: string): (r: Option<Tracked>)
    ensures r.Some? <==> exists id: Id :: HasKode(s, id, kode)
    ensures r.Some? ==> HasKode(s, r.value.id, kode) && r.value == TrackedOf(s, r.value.id)
  {
    match DocumentWithKode(s, kode)
    case None => None
    case Some(id) => Some(TrackedOf(s, id))
  }

  /** `GET /tracking?kode=...`: a missing or empty code is refused before
      any lookup; an unknown code is reported as not found. */
  function TrackingResponse(s: State, kode: Option<string>): (r: Envelope<Tracked>)
    ensures !Filled(kode) ==> r == Failure(KodeRequired)
    ensures Filled(kode) ==> (r.Success? <==> exists id: Id :: HasKode(s, id, kode.value))
    ensures Filled(kode) && r.Failure? ==> r.message == TrackingNotFound
    ensures r.Success? ==> HasKode(s, r.data.id, kode.value) && r.data == TrackedOf(s, r.data.id)
  {
    if !Filled(kode) then Failure(KodeRequired)
    else
      match FindByKode(s, kode.value)
      case None => Failure(TrackingNotFound)
      case Some(t) => Success(t)
  }

  /** The refusal of an empty code does not depend on the store. */
  lemma EmptyKodeNeedsNoLookup(s: State, s': State, kode: Option<string>)
    requires !Filled(kode)
    ensures TrackingResponse(s, kode) == TrackingResponse(s', kode) == Failure(KodeRequired)
  {
  }

  /** Tracking is not scoped: a document whose code no other document shares
      is found by that code, whichever institution owns it. */
  lemma UniqueKodeIsFound(s: State, id: Id)
    requires id in s.documents
    requires forall other: Id :: HasKode(s, other, s.documents[id].kode) ==> other == id
    ensures TrackingResponse(s, Some(s.documents[id].kode)) ==
      (if s.documents[id].kode == [] then Failure(KodeRequired) else Success(TrackedOf(s, id)))
  {
    var kode := s.documents[id].kode;
    assert HasKode(s, id, kode);
    if kode != [] {
      assert FindByKode(s, kode).value.id == id;
    }
  }

  /** The public view shows the same document fields and the same history as
      the admin detail view of the document's own tenant. */
  lemma TrackingAgreesWithDetail(s: State, callerId: Id, id: Id)
    requires id in s.documents
    requires callerId in s.users && s.users[callerId].institutionId == Some(s.documents[id].institutionId)
    ensures var t := TrackedOf(s, id);
      var d := Documents.GetDetail(s, callerId, t.id);
      && d.Ok?
      && d.value.historis == t.historis
      && d.value.item == Documents.DocumentItem(t.id, t.kode, t.durasi, t.status, t.createdAt, t.user)
  {
  }

  /** After a history entry is added, the public view shows the new status
      and lists the new entry. */
  lemma TrackingShowsNewStatus(
    s: State, callerId: Id, docId: Id, input: Documents.HistoryInput, now: Time)
    requires Documents.AddHistory(s, callerId, docId, input, now).Ok?
    requires forall other: Id :: HasKode(s, other, s.documents[docId].kode) ==> other == docId
    ensures var c := Documents.AddHistory(s, callerId, docId, input, now).value;
      var t := FindByKode(c.state, s.documents[docId].kode);
      && t.Some? && t.value.id == docId && t.value.status == input.status
      && exists i :: 0 <= i < |t.value.historis| && t.value.historis[i] == c.out
  {
    var c := Documents.AddHistory(s, callerId, docId, input, now).value;
    var st := c.state;
    var kode := s.documents[docId].kode;
    assert HasKode(st, docId, kode);
    assert forall other: Id :: HasKode(st, other, kode) ==> other == docId by {
      forall other: Id | HasKode(st, other, kode)
        ensures other == docId
      {
        if other != docId {
          assert HasKode(s, other, kode);
        }
      }
    }
    var t := FindByKode(st, kode).value;
    assert t.id == docId;
    Documents.AddHistoryMirrorsStatus(s, callerId, docId, input, now);
    assert t.historis == Documents.GetDetail(st, callerId, docId).value.historis;
  }
}
