/** The document lifecycle service (backend/src/documents/documents.service.ts).

    Every operation first resolves the caller's institution and fails with
    Forbidden when the caller has none. Operations addressed by a document id
    then look the document up by id AND institution together, so a document of
    another tenant fails exactly like an absent one.
 */
module Documents {
  import opened Results
  import opened Tables
  import opened Store
  import opened Views

  const NoInstitution := "User tidak memiliki instansi"
  const DocumentNotFound := "Dokumen tidak ditemukan"

  predicate HasInstitution(s: State, userId: Id) {
    userId in s.users && s.users[userId].institutionId.Some?
  }

  function CallerInstitution(s: State, userId: Id): Id
    requires HasInstitution(s, userId)
  {
    s.users[userId].institutionId.value
  }

  /** `getUserInstitutionId`: the caller's institution, or Forbidden. */
  function InstitutionOf(s: State, userId: Id): (r: Result<Id>)
    ensures r.Ok? <==> HasInstitution(s, userId)
    ensures r.Ok? ==> r.value == CallerInstitution(s, userId)
    ensures r.Err? ==> r.error == Forbidden(NoInstitution)
  {
    if userId in s.users && s.users[userId].institutionId.Some? then
      Ok(s.users[userId].institutionId.value)
    else
      Err(Forbidden(NoInstitution))
  }

  /** Document `docId` exists and belongs to institution `inst`. */
  predicate InScope(s: State, docId: Id, inst: Id) {
    docId in s.documents && s.documents[docId].institutionId == inst
  }

  /** `ensureDocumentScope`: one lookup keyed by id and institution together. */
  function EnsureScope(s: State, docId: Id, inst: Id): (r: Result<Document>)
    ensures r.Ok? <==> InScope(s, docId, inst)
    ensures r.Ok? ==> r.value == s.documents[docId]
    ensures r.Err? ==> r.error == NotFound(DocumentNotFound)
  {
    if docId in s.documents && s.documents[docId].institutionId == inst then
      Ok(s.documents[docId])
    else
      Err(NotFound(DocumentNotFound))
  }

  /** The gate every id-addressed operation passes before it reads or writes. */
  function Gate(s: State, callerId: Id, docId: Id): (r: Result<Document>)
    ensures !HasInstitution(s, callerId) ==> r == Err(Forbidden(NoInstitution))
    ensures HasInstitution(s, callerId) ==> (r.Ok? <==> InScope(s, docId, CallerInstitution(s, callerId)))
    ensures HasInstitution(s, callerId) && r.Err? ==> r == Err(NotFound(DocumentNotFound))
    ensures r.Ok? ==> docId in s.documents && r.value == s.documents[docId]
  {
    var inst :- InstitutionOf(s, callerId);
    EnsureScope(s, docId, inst)
  }

  /** A listed document: `id, kode, durasi, status, created_at, user{id, name, email}`. */
  datatype DocumentItem = DocumentItem(
    id: Id, kode: string, durasi: int, status: string, createdAt: Time, user: Option<UserSummary>)

  function ItemOf(s: State, id: Id): DocumentItem
    requires id in s.documents
  {
    var d := s.documents[id];
    DocumentItem(id, d.kode, d.durasi, d.status, d.createdAt, UserSummaryOf(s, d.userId))
  }

  // ---------------------------------------------------------------- list

  datatype ListParams = ListParams(page: nat, pageSize: nat, status: Option<string>)

  datatype DocumentPage = DocumentPage(items: seq<DocumentItem>, total: nat, page: nat, pageSize: nat)

  /** The `where` of `list`: the caller's institution, and the status when one
      is given (an empty status string is falsy and filters nothing). */
  predicate Listed(d: Document, inst: Id, status: Option<string>) {
    d.institutionId == inst && (Filled(status) ==> d.status == status.value)
  }

  function ListedIds(s: State, inst: Id, status: Option<string>): set<Id> {
    set id | id in s.documents && Listed(s.documents[id], inst, status)
  }

  /** The listed documents, keyed for `orderBy: { created_at: 'desc' }`. */
  function ListRank(s: State, inst: Id, status: Option<string>): (m: map<Id, int>)
    ensures m.Keys == ListedIds(s, inst, status)
    ensures forall id :: id in m ==> m[id] == s.documents[id].createdAt
  {
    map id | id in s.documents && Listed(s.documents[id], inst, status) :: s.documents[id].createdAt
  }

  /** The whole filtered set of the caller's tenant, newest first. */
  function Listing(s: State, inst: Id, status: Option<string>): seq<Id> {
    Order(ListRank(s, inst, status), Descending)
  }

  /** `list`: page `page` (1-based) of `pageSize` documents of the caller's
      institution, newest first, with the size of the whole filtered set. The
      page and the count are read in one transaction, so they agree. */
  function List(s: State, callerId: Id, params: ListParams): (r: Result<DocumentPage>)
    requires params.page >= 1
    ensures r.Ok? <==> HasInstitution(s, callerId)
    ensures r.Err? ==> r.error == Forbidden(NoInstitution)
    ensures r.Ok? ==> IsPage(s, CallerInstitution(s, callerId), params, r.value)
  {
    var inst :- InstitutionOf(s, callerId);
    Ok(PageOf(s, inst, params))
  }

  /** `page` is page `params.page` of the documents of `inst` that pass the
      status filter, ordered newest first, and `total` counts them all. */
  predicate IsPage(s: State, inst: Id, params: ListParams, page: DocumentPage)
    requires params.page >= 1
  {
    var skip := Offset(params.page, params.pageSize);
    && page.total == |ListedIds(s, inst, params.status)|
    && page.page == params.page && page.pageSize == params.pageSize
    && |page.items| <= params.pageSize
    && |page.items| == (if skip >= page.total then 0 else Min(params.pageSize, page.total - skip))
    && ItemsListed(s, inst, params.status, page.items)
    && ItemsFollow(page.items, Listing(s, inst, params.status), skip)
    && NewestFirstItems(page.items)
  }

  /** Every item is a listed document of `inst`, shown as `ItemOf` shows it. */
  predicate ItemsListed(s: State, inst: Id, status: Option<string>, items: seq<DocumentItem>) {
    forall i :: 0 <= i < |items| ==>
      && items[i].id in s.documents
      && Listed(s.documents[items[i].id], inst, status)
      && items[i] == ItemOf(s, items[i].id)
  }

  /** The items are the ordering `all` from position `skip` on. */
  predicate ItemsFollow(items: seq<DocumentItem>, all: seq<Id>, skip: nat) {
    && (|items| == 0 || skip + |items| <= |all|)
    && forall i :: 0 <= i < |items| ==> items[i].id == all[skip + i]
  }

  /** No document twice, and none listed before a newer one. */
  predicate NewestFirstItems(items: seq<DocumentItem>) {
    forall i, j :: 0 <= i < j < |items| ==>
      items[i].createdAt >= items[j].createdAt && items[i].id != items[j].id
  }

  function PageOf(s: State, inst: Id, params: ListParams): (page: DocumentPage)
    requires params.page >= 1
    ensures IsPage(s, inst, params, page)
  {
    var all := Listing(s, inst, params.status);
    var ids := Window(all, Offset(params.page, params.pageSize), params.pageSize);
    var items := seq(|ids|, i requires 0 <= i < |ids| => ItemOf(s, ids[i]));
    var page := DocumentPage(items, |ListedIds(s, inst, params.status)|, params.page, params.pageSize);
    PageFacts(s, inst, params, all, ids, page);
    page
  }

  lemma PageFacts(s: State, inst: Id, params: ListParams, all: seq<Id>, ids: seq<Id>, page: DocumentPage)
    requires params.page >= 1
    requires all == Listing(s, inst, params.status)
    requires ids == Window(all, Offset(params.page, params.pageSize), params.pageSize)
    requires page.total == |ListedIds(s, inst, params.status)|
    requires page.page == params.page && page.pageSize == params.pageSize
    requires |page.items| == |ids|
    requires forall i :: 0 <= i < |ids| ==> ids[i] in s.documents && page.items[i] == ItemOf(s, ids[i])
    ensures IsPage(s, inst, params, page)
  {
    var rank := ListRank(s, inst, params.status);
    var skip := Offset(params.page, params.pageSize);
    assert |all| == page.total by {
      assert |rank| == |rank.Keys|;
    }
    WindowOfOrder(rank, Descending, skip, params.pageSize);
    ItemsOfWindow(s, inst, params.status, rank, all, skip, ids, page.items);
  }

  /** The items shown for a window `ids` of the listing `all`. */
  lemma ItemsOfWindow(
    s: State, inst: Id, status: Option<string>, rank: map<Id, int>,
    all: seq<Id>, skip: nat, ids: seq<Id>, items: seq<DocumentItem>)
    requires rank == ListRank(s, inst, status)
    requires |items| == |ids|
    requires |ids| == 0 || skip + |ids| <= |all|
    requires forall i :: 0 <= i < |ids| ==> ids[i] == all[skip + i]
    requires forall i :: 0 <= i < |ids| ==> ids[i] in s.documents && items[i] == ItemOf(s, ids[i])
    requires forall i :: 0 <= i < |ids| ==> ids[i] in rank
    requires forall i, j :: 0 <= i < j < |ids| ==> ids[i] != ids[j] && rank[ids[i]] >= rank[ids[j]]
    ensures ItemsListed(s, inst, status, items)
    ensures ItemsFollow(items, all, skip)
    ensures NewestFirstItems(items)
  {
    assert forall i :: 0 <= i < |ids| ==> items[i].id == ids[i];
    WindowItemsFollow(all, skip, ids, items);
    assert ItemsListed(s, inst, status, items) by {
      forall i | 0 <= i < |items|
        ensures Listed(s.documents[items[i].id], inst, status)
      {
        assert items[i].id == ids[i] && ids[i] in ListedIds(s, inst, status);
      }
    }
    assert NewestFirstItems(items) by {
      forall i, j | 0 <= i < j < |items|
        ensures items[i].createdAt >= items[j].createdAt && items[i].id != items[j].id
      {
        assert items[i].id == ids[i] && items[j].id == ids[j];
        assert items[i].createdAt == rank[ids[i]] && items[j].createdAt == rank[ids[j]];
      }
    }
  }

  lemma WindowItemsFollow(all: seq<Id>, skip: nat, ids: seq<Id>, items: seq<DocumentItem>)
    requires |items| == |ids|
    requires |ids| == 0 || skip + |ids| <= |all|
    requires forall i :: 0 <= i < |ids| ==> ids[i] == all[skip + i]
    requires forall i :: 0 <= i < |ids| ==> items[i].id == ids[i]
    ensures ItemsFollow(items, all, skip)
  {
  }

  // ---------------------------------------------------------------- detail

  datatype DocumentDetail = DocumentDetail(item: DocumentItem, historis: seq<HistoryView>)

  /** `getDetail`: one scoped lookup returning the document and its history,
      oldest entry first. */
  function GetDetail(s: State, callerId: Id, docId: Id): (r: Result<DocumentDetail>)
    ensures r.Ok? <==> Gate(s, callerId, docId).Ok?
    ensures r.Err? ==> r.error == Gate(s, callerId, docId).error
    ensures r.Ok? ==> r.value.item == ItemOf(s, docId) && r.value.historis == HistoryOf(s, docId)
  {
    var _ :- Gate(s, callerId, docId);
    Ok(DocumentDetail(ItemOf(s, docId), HistoryOf(s, docId)))
  }

  // ---------------------------------------------------------------- create

  /** `CreateDocumentDto`. It has no institution field: the institution always
      comes from the caller. */
  datatype NewDocument = NewDocument(
    kode: string, durasi: int, status: string, createdAt: Option<Time>, userId: Option<Id>)

  /** `create`: a new document stamped with the caller's institution, owned by
      `dto.userId` or else the caller, created at `dto.createdAt` or else `now`.
      The database refuses an owner that is not a user. */
  function Create(s: State, callerId: Id, dto: NewDocument, now: Time): (r: Result<Committed<DocumentItem>>)
    ensures !HasInstitution(s, callerId) ==> r == Err(Forbidden(NoInstitution))
    ensures HasInstitution(s, callerId) ==> (r.Ok? <==> dto.userId.GetOr(callerId) in s.users)
    ensures HasInstitution(s, callerId) && r.Err? ==> r == Err(StoreRejected)
    ensures r.Ok? ==>
      var st := r.value.state;
      var id := r.value.out.id;
      && id !in s.documents && id >= s.nextDocumentId
      && id in st.documents
      && st == s.(documents := s.documents[id := st.documents[id]], nextDocumentId := id + 1)
      && st.documents[id].institutionId == CallerInstitution(s, callerId)
      && st.documents[id].userId == dto.userId.GetOr(callerId)
      && st.documents[id].createdAt == dto.createdAt.GetOr(now)
      && st.documents[id].kode == dto.kode
      && st.documents[id].durasi == dto.durasi
      && st.documents[id].status == dto.status
      && r.value.out == ItemOf(st, id)
  {
    var inst :- InstitutionOf(s, callerId);
    var owner := dto.userId.GetOr(callerId);
    if owner !in s.users then Err(StoreRejected)
    else
      var id := FreshId(s.documents, s.nextDocumentId);
      var doc := Document(dto.kode, dto.durasi, dto.status, dto.createdAt.GetOr(now), owner, inst);
      var st := s.(documents := s.documents[id := doc], nextDocumentId := id + 1);
      Ok(Committed(st, ItemOf(st, id)))
  }

  // ---------------------------------------------------------------- update

  /** `UpdateDocumentDto`: every field optional. */
  datatype DocumentPatch = DocumentPatch(kode: Option<string>, durasi: Option<int>, status: Option<string>)

  /** The fields a patch supplies: `kode` and `status` when non-empty,
      `durasi` when defined. */
  function Patched(d: Document, p: DocumentPatch): (r: Document)
    ensures r.kode == (if Filled(p.kode) then p.kode.value else d.kode)
    ensures r.durasi == p.durasi.GetOr(d.durasi)
    ensures r.status == (if Filled(p.status) then p.status.value else d.status)
    ensures r.createdAt == d.createdAt && r.userId == d.userId && r.institutionId == d.institutionId
  {
    d.(kode := if Filled(p.kode) then p.kode.value else d.kode,
       durasi := p.durasi.GetOr(d.durasi),
       status := if Filled(p.status) then p.status.value else d.status)
  }

  /** `update`: the scoped document gets the supplied fields; nothing else in
      the store changes. */
  function Update(s: State, callerId: Id, docId: Id, patch: DocumentPatch): (r: Result<Committed<DocumentItem>>)
    ensures r.Ok? <==> Gate(s, callerId, docId).Ok?
    ensures r.Err? ==> r.error == Gate(s, callerId, docId).error
    ensures r.Ok? ==>
      var prev := s.documents[docId];
      var st := r.value.state;
      && docId in st.documents
      && st == s.(documents := s.documents[docId := st.documents[docId]])
      && st.documents[docId].kode == (if Filled(patch.kode) then patch.kode.value else prev.kode)
      && st.documents[docId].durasi == patch.durasi.GetOr(prev.durasi)
      && st.documents[docId].status == (if Filled(patch.status) then patch.status.value else prev.status)
      && st.documents[docId].createdAt == prev.createdAt
      && st.documents[docId].userId == prev.userId
      && st.documents[docId].institutionId == prev.institutionId
      && r.value.out == ItemOf(st, docId)
  {
    var doc :- Gate(s, callerId, docId);
    var st := s.(documents := s.documents[docId := Patched(doc, patch)]);
    Ok(Committed(st, ItemOf(st, docId)))
  }

  /** Sending the same patch twice leaves the store as sending it once. */
  lemma UpdateIdempotent(s: State, callerId: Id, docId: Id, patch: DocumentPatch)
    requires Update(s, callerId, docId, patch).Ok?
    ensures var st := Update(s, callerId, docId, patch).value.state;
      Update(st, callerId, docId, patch).Ok? && Update(st, callerId, docId, patch).value.state == st
  {
    var st := Update(s, callerId, docId, patch).value.state;
    assert st.users == s.users;
    assert Gate(st, callerId, docId).Ok?;
    assert st.documents[docId := Patched(st.documents[docId], patch)] == st.documents;
  }

  /** A patch that supplies nothing changes nothing. */
  lemma EmptyPatchChangesNothing(s: State, callerId: Id, docId: Id)
    requires Gate(s, callerId, docId).Ok?
    ensures Update(s, callerId, docId, DocumentPatch(None, None, None)) == Ok(Committed(s, ItemOf(s, docId)))
  {
    assert s.documents[docId := Patched(s.documents[docId], DocumentPatch(None, None, None))] == s.documents;
  }

  // ---------------------------------------------------------------- remove

  /** `remove`: one transaction deleting the document's history rows and then
      the document; every other row is untouched. */
  function Remove(s: State, callerId: Id, docId: Id): (r: Result<Committed<()>>)
    ensures r.Ok? <==> Gate(s, callerId, docId).Ok?
    ensures r.Err? ==> r.error == Gate(s, callerId, docId).error
    ensures r.Ok? ==>
      var st := r.value.state;
      && st.documents == s.documents - {docId}
      && (forall h :: h in st.history <==> h in s.history && s.history[h].documentId != docId)
      && (forall h :: h in st.history ==> st.history[h] == s.history[h])
      && st == s.(documents := st.documents, history := st.history)
  {
    var _ :- Gate(s, callerId, docId);
    var history := map h | h in s.history && s.history[h].documentId != docId :: s.history[h];
    Ok(Committed(s.(documents := s.documents - {docId}, history := history), ()))
  }

  /** After a removal the document is gone for its own tenant too, and no
      history row refers to it. */
  lemma RemovedDocumentIsGone(s: State, callerId: Id, docId: Id)
    requires Remove(s, callerId, docId).Ok?
    ensures var st := Remove(s, callerId, docId).value.state;
      && GetDetail(st, callerId, docId) == Err(NotFound(DocumentNotFound))
      && HistoryIds(st, docId) == {}
  {
  }

  // ---------------------------------------------------------------- history

  /** `CreateHistorisDto` after the controller added the attachment URL. */
  datatype HistoryInput = HistoryInput(
    status: string, note: Option<string>, attachmentUrl: Option<string>, waktu: Option<Time>)

  /** `addHistoris`: one transaction that inserts a history row (timestamped
      `waktu` or else `now`) and copies its status onto the document. */
  function AddHistory(s: State, callerId: Id, docId: Id, input: HistoryInput, now: Time)
    : (r: Result<Committed<HistoryView>>)
    ensures r.Ok? <==> Gate(s, callerId, docId).Ok?
    ensures r.Err? ==> r.error == Gate(s, callerId, docId).error
    ensures r.Ok? ==>
      var st := r.value.state;
      var hid := r.value.out.id;
      && hid !in s.history && hid >= s.nextHistoryId
      && st.history == s.history[hid := HistoryEntry(docId, input.waktu.GetOr(now), input.status, input.note, input.attachmentUrl)]
      && st.documents == s.documents[docId := s.documents[docId].(status := input.status)]
      && st == s.(history := st.history, documents := st.documents, nextHistoryId := hid + 1)
      && r.value.out == HistoryViewOf(st, hid)
  {
    var doc :- Gate(s, callerId, docId);
    var hid := FreshId(s.history, s.nextHistoryId);
    var entry := HistoryEntry(docId, input.waktu.GetOr(now), input.status, input.note, input.attachmentUrl);
    var st := s.(history := s.history[hid := entry],
                 documents := s.documents[docId := doc.(status := input.status)],
                 nextHistoryId := hid + 1);
    Ok(Committed(st, HistoryViewOf(st, hid)))
  }

  /** After `addHistoris` the document's status is the new row's status, the
      detail view lists that row, and the history grew by exactly one row. */
  lemma AddHistoryMirrorsStatus(s: State, callerId: Id, docId: Id, input: HistoryInput, now: Time)
    requires AddHistory(s, callerId, docId, input, now).Ok?
    ensures var c := AddHistory(s, callerId, docId, input, now).value;
      && |c.state.history| == |s.history| + 1
      && HistoryIds(c.state, docId) == HistoryIds(s, docId) + {c.out.id}
      && GetDetail(c.state, callerId, docId).Ok?
      && GetDetail(c.state, callerId, docId).value.item.status == input.status
      && exists i :: 0 <= i < |GetDetail(c.state, callerId, docId).value.historis|
           && GetDetail(c.state, callerId, docId).value.historis[i] == c.out
  {
    AddHistoryAddsOneRow(s, callerId, docId, input, now);
    AddHistoryListsEntry(s, callerId, docId, input, now);
  }

  lemma AddHistoryAddsOneRow(s: State, callerId: Id, docId: Id, input: HistoryInput, now: Time)
    requires AddHistory(s, callerId, docId, input, now).Ok?
    ensures var c := AddHistory(s, callerId, docId, input, now).value;
      && |c.state.history| == |s.history| + 1
      && HistoryIds(c.state, docId) == HistoryIds(s, docId) + {c.out.id}
  {
    var c := AddHistory(s, callerId, docId, input, now).value;
    var hid := c.out.id;
    assert hid !in s.history && c.state.history == s.history[hid := c.state.history[hid]];
    InsertGrows(s.history, hid, c.state.history[hid]);
    assert c.state.history[hid].documentId == docId;
    forall h | h in HistoryIds(c.state, docId)
      ensures h in HistoryIds(s, docId) + {hid}
    {
      if h != hid {
        assert c.state.history[h] == s.history[h];
      }
    }
  }

  lemma AddHistoryListsEntry(s: State, callerId: Id, docId: Id, input: HistoryInput, now: Time)
    requires AddHistory(s, callerId, docId, input, now).Ok?
    ensures var c := AddHistory(s, callerId, docId, input, now).value;
      && GetDetail(c.state, callerId, docId).Ok?
      && GetDetail(c.state, callerId, docId).value.item.status == input.status
      && exists i :: 0 <= i < |GetDetail(c.state, callerId, docId).value.historis|
           && GetDetail(c.state, callerId, docId).value.historis[i] == c.out
  {
    var c := AddHistory(s, callerId, docId, input, now).value;
    var st := c.state;
    var hid := c.out.id;
    assert GetDetail(st, callerId, docId).Ok? by {
      assert st.users == s.users;
      assert Gate(st, callerId, docId).Ok?;
    }
    var hs := GetDetail(st, callerId, docId).value.historis;
    assert CoversRows(st, docId, hs);
    assert hid in HistoryIds(st, docId);
    var i :| 0 <= i < |hs| && hs[i].id == hid;
    assert EntriesOf(st, docId, hs);
    assert hs[i] == c.out;
  }

  // ---------------------------------------------------------------- properties

  /** A caller without an institution can do nothing with documents. */
  lemma NoInstitutionForbidsEverything(
    s: State, callerId: Id, docId: Id, params: ListParams, dto: NewDocument,
    patch: DocumentPatch, input: HistoryInput, now: Time)
    requires params.page >= 1
    requires !HasInstitution(s, callerId)
    ensures List(s, callerId, params) == Err(Forbidden(NoInstitution))
    ensures GetDetail(s, callerId, docId) == Err(Forbidden(NoInstitution))
    ensures Create(s, callerId, dto, now) == Err(Forbidden(NoInstitution))
    ensures Update(s, callerId, docId, patch) == Err(Forbidden(NoInstitution))
    ensures Remove(s, callerId, docId) == Err(Forbidden(NoInstitution))
    ensures AddHistory(s, callerId, docId, input, now) == Err(Forbidden(NoInstitution))
  {
  }

  /** `s` with document `docId` deleted. */
  function Without(s: State, docId: Id): State {
    s.(documents := s.documents - {docId})
  }

  /** A document of another tenant behaves exactly like an absent one. */
  lemma OtherTenantLooksAbsent(
    s: State, callerId: Id, docId: Id, patch: DocumentPatch, input: HistoryInput, now: Time)
    requires HasInstitution(s, callerId)
    requires docId in s.documents && s.documents[docId].institutionId != CallerInstitution(s, callerId)
    ensures GetDetail(s, callerId, docId) == GetDetail(Without(s, docId), callerId, docId) == Err(NotFound(DocumentNotFound))
    ensures Update(s, callerId, docId, patch) == Update(Without(s, docId), callerId, docId, patch) == Err(NotFound(DocumentNotFound))
    ensures Remove(s, callerId, docId) == Remove(Without(s, docId), callerId, docId) == Err(NotFound(DocumentNotFound))
    ensures AddHistory(s, callerId, docId, input, now) == AddHistory(Without(s, docId), callerId, docId, input, now)
      == Err(NotFound(DocumentNotFound))
  {
    assert HasInstitution(Without(s, docId), callerId);
  }

  /** Nothing outside the caller's tenant can change what `list` returns. */
  lemma ListIgnoresOtherTenants(s: State, callerId: Id, params: ListParams, docId: Id, d: Document)
    requires params.page >= 1
    requires HasInstitution(s, callerId)
    requires d.institutionId != CallerInstitution(s, callerId)
    requires docId in s.documents ==> s.documents[docId].institutionId != CallerInstitution(s, callerId)
    ensures List(s.(documents := s.documents[docId := d]), callerId, params) == List(s, callerId, params)
  {
    var s' := s.(documents := s.documents[docId := d]);
    var inst := CallerInstitution(s, callerId);
    assert CallerInstitution(s', callerId) == inst;
    PageDependsOnTenantOnly(s', s, inst, params);
  }

  /** Two stores with the same users and the same rows of tenant `inst` give
      the same page. */
  lemma PageDependsOnTenantOnly(s: State, s': State, inst: Id, params: ListParams)
    requires params.page >= 1
    requires s.users == s'.users
    requires forall id :: InScope(s', id, inst) ==> InScope(s, id, inst)
    requires forall id :: InScope(s, id, inst) ==> InScope(s', id, inst) && s.documents[id] == s'.documents[id]
    ensures PageOf(s, inst, params) == PageOf(s', inst, params)
  {
    var status := params.status;
    assert ListedIds(s, inst, status) == ListedIds(s', inst, status) by {
      forall id | id in ListedIds(s', inst, status)
        ensures id in ListedIds(s, inst, status)
      {
        assert InScope(s', id, inst);
      }
    }
    assert ListRank(s, inst, status) == ListRank(s', inst, status);
    var a := PageOf(s, inst, params).items;
    var b := PageOf(s', inst, params).items;
    forall i | 0 <= i < |a|
      ensures a[i] == b[i]
    {
      assert InScope(s, a[i].id, inst);
    }
  }

  /** The total does not depend on which page is asked for. */
  lemma ListTotalIndependentOfPage(s: State, callerId: Id, p: ListParams, q: ListParams)
    requires p.page >= 1 && q.page >= 1 && p.status == q.status
    requires HasInstitution(s, callerId)
    ensures List(s, callerId, p).value.total == List(s, callerId, q).value.total
  {
  }

  // ---------------------------------------------------------------- invariants

  lemma CreatePreservesValid(s: State, callerId: Id, dto: NewDocument, now: Time)
    requires Valid(s)
    requires Create(s, callerId, dto, now).Ok?
    ensures Valid(Create(s, callerId, dto, now).value.state)
  {
  }

  /** A created document is visible to its creator's tenant, with no history. */
  lemma CreatedDocumentIsVisible(s: State, callerId: Id, dto: NewDocument, now: Time)
    requires Valid(s)
    requires Create(s, callerId, dto, now).Ok?
    ensures var c := Create(s, callerId, dto, now).value;
      GetDetail(c.state, callerId, c.out.id) == Ok(DocumentDetail(c.out, []))
  {
    var c := Create(s, callerId, dto, now).value;
    FreshIdsAreCounters(s);
    assert HistoryIds(c.state, c.out.id) == {};
  }

  lemma UpdatePreservesValid(s: State, callerId: Id, docId: Id, patch: DocumentPatch)
    requires Valid(s)
    requires Update(s, callerId, docId, patch).Ok?
    ensures Valid(Update(s, callerId, docId, patch).value.state)
  {
  }

  /** Removal leaves no orphan history row behind. */
  lemma RemovePreservesValid(s: State, callerId: Id, docId: Id)
    requires Valid(s)
    requires Remove(s, callerId, docId).Ok?
    ensures Valid(Remove(s, callerId, docId).value.state)
  {
  }

  lemma AddHistoryPreservesValid(s: State, callerId: Id, docId: Id, input: HistoryInput, now: Time)
    requires Valid(s)
    requires AddHistory(s, callerId, docId, input, now).Ok?
    ensures Valid(AddHistory(s, callerId, docId, input, now).value.state)
  {
  }
}
