/** Read-side shapes shared by several services: the summaries the `select`
    clauses build, and the ordered history list of a document, which both the
    admin detail view and the public tracking view return.
 */
module Views {
  import opened Results
  import opened Tables
  import opened Store

  /** `user: { id, name, email }`: never carries the password. */
  datatype UserSummary = UserSummary(id: Id, name: string, email: string)

  function UserSummaryOf(s: State, id: Id): (r: Option<UserSummary>)
    ensures r.Some? <==> id in s.users
    ensures r.Some? ==> r.value.id == id && r.value.name == s.users[id].name && r.value.email == s.users[id].email
  {
    if id in s.users then Some(UserSummary(id, s.users[id].name, s.users[id].email)) else None
  }

  /** `institution: { id, name, slug, trackingTitle }`. */
  datatype InstitutionSummary = InstitutionSummary(id: Id, name: string, slug: string, trackingTitle: string)

  /** The summary of the institution a nullable reference points at; null when
      there is no reference or no such row. */
  function InstitutionSummaryOf(s: State, ref: Option<Id>): (r: Option<InstitutionSummary>)
    ensures r.Some? <==> ref.Some? && ref.value in s.institutions
    ensures r.Some? ==>
      var i := s.institutions[ref.value];
      r.value == InstitutionSummary(ref.value, i.name, i.slug, i.trackingTitle)
  {
    if ref.Some? && ref.value in s.institutions then
      var i := s.institutions[ref.value];
      Some(InstitutionSummary(ref.value, i.name, i.slug, i.trackingTitle))
    else None
  }

  /** An institution's branding as the write endpoints return it. */
  datatype InstitutionView = InstitutionView(
    id: Id, name: string, slug: string, trackingTitle: string, logoUrl: Option<string>)

  function InstitutionViewOf(s: State, id: Id): InstitutionView
    requires id in s.institutions
  {
    var i := s.institutions[id];
    InstitutionView(id, i.name, i.slug, i.trackingTitle, i.logoUrl)
  }

  /** A history row as the read endpoints return it. */
  datatype HistoryView = HistoryView(
    id: Id, waktu: Time, status: string, note: Option<string>, attachmentUrl: Option<string>)

  function HistoryViewOf(s: State, id: Id): HistoryView
    requires id in s.history
  {
    var h := s.history[id];
    HistoryView(id, h.waktu, h.status, h.note, h.attachmentUrl)
  }

  /** The ids of the history rows of document `docId`. */
  function HistoryIds(s: State, docId: Id): set<Id> {
    set h | h in s.history && s.history[h].documentId == docId
  }

  /** The history rows of `docId`, keyed for `orderBy: { waktu: 'asc' }`. */
  function HistoryRank(s: State, docId: Id): (m: map<Id, int>)
    ensures m.Keys == HistoryIds(s, docId)
    ensures forall h :: h in m ==> m[h] == s.history[h].waktu
  {
    map h | h in s.history && s.history[h].documentId == docId :: s.history[h].waktu
  }

  /** The views of the history rows `ids`, in the same order. */
  function HistoryViews(s: State, ids: seq<Id>): (r: seq<HistoryView>)
    requires forall i :: 0 <= i < |ids| ==> ids[i] in s.history
    ensures |r| == |ids|
    ensures forall i :: 0 <= i < |ids| ==> r[i] == HistoryViewOf(s, ids[i])
  {
    if ids == [] then [] else [HistoryViewOf(s, ids[0])] + HistoryViews(s, ids[1..])
  }

  /** The history rows of `docId` in ascending order of `waktu`. */
  function HistoryOrder(s: State, docId: Id): (ids: seq<Id>)
    ensures forall i :: 0 <= i < |ids| ==> ids[i] in s.history
  {
    Order(HistoryRank(s, docId), Ascending)
  }

  /** Every view in `r` shows a history row of document `docId`. */
  predicate EntriesOf(s: State, docId: Id, r: seq<HistoryView>) {
    forall i :: 0 <= i < |r| ==>
      r[i].id in s.history && s.history[r[i].id].documentId == docId && r[i] == HistoryViewOf(s, r[i].id)
  }

  /** Every history row of document `docId` is shown in `r`. */
  predicate CoversRows(s: State, docId: Id, r: seq<HistoryView>) {
    forall h :: h in HistoryIds(s, docId) ==> exists i :: 0 <= i < |r| && r[i].id == h
  }

  /** No row twice, and none shown after a later one. */
  predicate OldestFirst(r: seq<HistoryView>) {
    forall i, j :: 0 <= i < j < |r| ==> r[i].waktu <= r[j].waktu && r[i].id != r[j].id
  }

  /** Every history row of `docId`, each once, in ascending order of `waktu`. */
  function HistoryOf(s: State, docId: Id): (r: seq<HistoryView>)
    ensures |r| == |HistoryIds(s, docId)|
    ensures EntriesOf(s, docId, r) && CoversRows(s, docId, r) && OldestFirst(r)
  {
    HistoryOfFacts(s, docId);
    HistoryViews(s, HistoryOrder(s, docId))
  }

  lemma HistoryOfFacts(s: State, docId: Id)
    ensures var r := HistoryViews(s, HistoryOrder(s, docId));
      && |r| == |HistoryIds(s, docId)|
      && EntriesOf(s, docId, r) && CoversRows(s, docId, r) && OldestFirst(r)
  {
    var rank := HistoryRank(s, docId);
    assert |rank| == |rank.Keys|;
    HistoryRowsOf(s, docId);
    HistoryCovers(s, docId);
    HistorySorted(s, docId);
  }

  lemma HistoryRowsOf(s: State, docId: Id)
    ensures EntriesOf(s, docId, HistoryViews(s, HistoryOrder(s, docId)))
  {
    var ids := HistoryOrder(s, docId);
    var r := HistoryViews(s, ids);
    forall i | 0 <= i < |r|
      ensures s.history[r[i].id].documentId == docId
    {
      assert r[i].id == ids[i] && ids[i] in HistoryIds(s, docId);
    }
  }

  lemma HistoryCovers(s: State, docId: Id)
    ensures CoversRows(s, docId, HistoryViews(s, HistoryOrder(s, docId)))
  {
    var rank := HistoryRank(s, docId);
    var ids := HistoryOrder(s, docId);
    var r := HistoryViews(s, ids);
    forall h | h in HistoryIds(s, docId)
      ensures exists i :: 0 <= i < |r| && r[i].id == h
    {
      assert h in rank && h in ids;
      var i :| 0 <= i < |ids| && ids[i] == h;
      assert r[i].id == h;
    }
  }

  lemma HistorySorted(s: State, docId: Id)
    ensures OldestFirst(HistoryViews(s, HistoryOrder(s, docId)))
  {
    var rank := HistoryRank(s, docId);
    var ids := HistoryOrder(s, docId);
    var r := HistoryViews(s, ids);
    OrderSorted(rank, Ascending);
    forall i, j | 0 <= i < j < |r|
      ensures r[i].waktu <= r[j].waktu && r[i].id != r[j].id
    {
      assert r[i].id == ids[i] && r[j].id == ids[j];
      assert ids[i] in rank && ids[j] in rank;
    }
  }
}
