/** The request boundary of the document routes
    (backend/src/documents/documents.controller.ts): turning the raw list query
    into service parameters, the upload filter and size limit, and the checks
    `addHistoris` makes before it calls the service.

    A query number arrives as a string and is read with `Number(...)`; the
    model receives the outcome of that parse: `None` for NaN (a missing or
    non-numeric value) and `Some(n)` for an integer `n`.
 */
module DocumentRequests {
  import opened Results
  import opened Tables
  import opened Text
  import opened Store
  import opened Views
  import opened Documents

  const MaxPageSize := 50
  const DefaultPageSize := 10

  const PdfMimetype := "application/pdf"
  const PdfExtension := ".pdf"
  const MaxPdfBytes := 1024 * 1024
  const UploadDirectoryUrl := "/uploads/historis/"

  const NotPdf := "File harus PDF"
  const StatusRequired := "Status wajib diisi"
  const PdfRequired := "Upload PDF wajib untuk status selesai"
  /** The status that closes a document. */
  const Finished := "selesai"

  // ---------------------------------------------------------------- list query

  /** `Math.max(1, Number(page) || 1)`: a NaN or zero page falls back to 1. */
  function RequestedPage(raw: Option<int>): (p: nat)
    ensures p >= 1
    ensures raw.Some? && raw.value >= 1 ==> p == raw.value
    ensures raw.None? || raw.value < 1 ==> p == 1
  {
    var n := if raw.Some? && raw.value != 0 then raw.value else 1;
    if n < 1 then 1 else n
  }

  /** `Math.min(50, Math.max(1, Number(pageSize) || 10))`: a NaN or zero size
      falls back to 10; any other value is clamped into [1, 50]. */
  function RequestedPageSize(raw: Option<int>): (n: nat)
    ensures 1 <= n <= MaxPageSize
    ensures raw.None? || raw.value == 0 ==> n == DefaultPageSize
    ensures raw.Some? && 1 <= raw.value <= MaxPageSize ==> n == raw.value
    ensures raw.Some? && raw.value < 0 ==> n == 1
    ensures raw.Some? && raw.value > MaxPageSize ==> n == MaxPageSize
  {
    var v := if raw.Some? && raw.value != 0 then raw.value else DefaultPageSize;
    Min(MaxPageSize, if v < 1 then 1 else v)
  }

  /** `status?.trim() || undefined`: the trimmed status, or no filter at all
      when the status is missing or blank. */
  function StatusFilter(raw: Option<string>): (r: Option<string>)
    ensures r.None? <==> raw.None? || AllSpace(raw.value)
    ensures r.Some? ==> r.value == Trim(raw.value) && r.value != []
  {
    if raw.None? then None
    else
      TrimEmptyIffBlank(raw.value);
      var t := Trim(raw.value);
      if t == [] then None else Some(t)
  }

  /** A clamped page is a fixed point of clamping: sending back the page and
      size a response echoes asks for the same page again. */
  lemma ClampingIsIdempotent(page: Option<int>, pageSize: Option<int>)
    ensures RequestedPage(Some(RequestedPage(page))) == RequestedPage(page)
    ensures RequestedPageSize(Some(RequestedPageSize(pageSize))) == RequestedPageSize(pageSize)
  {
  }

  /** The raw query of `GET /admin/documents`. */
  datatype ListQuery = ListQuery(page: Option<int>, pageSize: Option<int>, status: Option<string>)

  function ParamsOf(q: ListQuery): (p: ListParams)
    ensures p.page >= 1 && 1 <= p.pageSize <= MaxPageSize
    ensures p.page == RequestedPage(q.page) && p.pageSize == RequestedPageSize(q.pageSize)
    ensures p.status == StatusFilter(q.status)
    ensures Filled(p.status) <==> p.status.Some?
  {
    ListParams(RequestedPage(q.page), RequestedPageSize(q.pageSize), StatusFilter(q.status))
  }

  /** `GET /admin/documents`: the clamped query handed to `list`. A page never
      holds more than 50 documents, and a filtered page only documents whose
      status is the trimmed filter. */
  function ListRoute(s: State, callerId: Id, q: ListQuery): (r: Result<DocumentPage>)
    ensures r.Ok? <==> HasInstitution(s, callerId)
    ensures r.Err? ==> r.error == Forbidden(NoInstitution)
    ensures r.Ok? ==> |r.value.items| <= MaxPageSize && r.value.page >= 1
    ensures r.Ok? ==> IsPage(s, CallerInstitution(s, callerId), ParamsOf(q), r.value)
    ensures r.Ok? ==> r.value.page == RequestedPage(q.page) && r.value.pageSize == RequestedPageSize(q.pageSize)
    ensures r.Ok? && q.status.Some? && !AllSpace(q.status.value) ==>
      forall i :: 0 <= i < |r.value.items| ==>
        r.value.items[i].status == Trim(q.status.value)
  {
    List(s, callerId, ParamsOf(q))
  }

  /** White space around a status filter does not change the listing, and a
      blank filter lists the same as none. */
  lemma StatusFilterIgnoresPadding(s: State, callerId: Id, q: ListQuery, status: string)
    ensures ListRoute(s, callerId, q.(status := Some(status))) ==
            ListRoute(s, callerId, q.(status := Some(Trim(status))))
    ensures AllSpace(status) ==>
      ListRoute(s, callerId, q.(status := Some(status))) == ListRoute(s, callerId, q.(status := None))
  {
    TrimIdempotent(status);
    TrimEmptyIffBlank(status);
    TrimEmptyIffBlank(Trim(status));
  }

  // ---------------------------------------------------------------- uploads

  /** A file multer received: its client-side name, the client-declared
      mimetype, its size in bytes and the name it was stored under. */
  datatype Upload = Upload(originalName: string, mimetype: string, size: nat, storedName: string)

  /** The `fileFilter` test: a PDF mimetype, or a name whose extension is
      ".pdf" in any letter case. */
  predicate IsPdf(u: Upload) {
    u.mimetype == PdfMimetype || ToLower(Extname(u.originalName)) == PdfExtension
  }

  /** The upload interceptor: the file filter first, then the size limit.
      A request without a file passes through. */
  function AcceptUpload(file: Option<Upload>): (r: Result<Option<Upload>>)
    ensures r.Ok? <==> file.None? || (IsPdf(file.value) && file.value.size <= MaxPdfBytes)
    ensures r.Ok? ==> r.value == file
    ensures file.Some? && !IsPdf(file.value) ==> r == Err(BadRequest(NotPdf))
    ensures file.Some? && IsPdf(file.value) && file.value.size > MaxPdfBytes ==> r == Err(PayloadTooLarge)
  {
    match file
    case None => Ok(None)
    case Some(u) =>
      if !IsPdf(u) then Err(BadRequest(NotPdf))
      else if u.size > MaxPdfBytes then Err(PayloadTooLarge)
      else Ok(file)
  }

  /** The public URL of a stored attachment. */
  function AttachmentUrl(storedName: string): (url: string)
    ensures |url| == |UploadDirectoryUrl| + |storedName|
    ensures url[..|UploadDirectoryUrl|] == UploadDirectoryUrl
    ensures url[|UploadDirectoryUrl|..] == storedName
  {
    UploadDirectoryUrl + storedName
  }

  /** Distinct stored files get distinct URLs. */
  lemma AttachmentUrlInjective(a: string, b: string)
    requires AttachmentUrl(a) == AttachmentUrl(b)
    ensures a == b
  {
    assert a == AttachmentUrl(a)[|UploadDirectoryUrl|..];
  }

  /** A name ending in ".pdf", in any letter case, passes the filter
      whatever mimetype the client declared. */
  lemma PdfNamePasses(stem: string, ext: string, mimetype: string, size: nat, storedName: string)
    requires stem != [] && '/' !in stem
    requires ToLower(ext) == PdfExtension
    ensures IsPdf(Upload(stem + ext, mimetype, size, storedName))
  {
    LowerPdfExtension(stem, ext);
  }

  /** For instance "REPORT.PDF" passes as an octet stream. */
  lemma UpperCasePdfNamePasses(size: nat, storedName: string)
    ensures IsPdf(Upload("REPORT.PDF", "application/octet-stream", size, storedName))
  {
    var ext := ".PDF";
    var low := ToLower(ext);
    assert low[0] == '.' && low[1] == 'p' && low[2] == 'd' && low[3] == 'f';
    assert "REPORT.PDF" == "REPORT" + ext;
    PdfNamePasses("REPORT", ext, "application/octet-stream", size, storedName);
  }

  /** A file named just ".pdf" has no extension, so it passes only on its
      mimetype. */
  lemma BarePdfNameNeedsMimetype(mimetype: string, size: nat, storedName: string)
    ensures IsPdf(Upload(PdfExtension, mimetype, size, storedName)) <==> mimetype == PdfMimetype
  {
    DotfileHasNoExtension();
    assert ToLower([]) == [];
  }

  // ---------------------------------------------------------------- addHistoris

  /** The multipart body of `POST /admin/documents/:id/historis`. */
  datatype HistoryBody = HistoryBody(status: Option<string>, note: Option<string>, waktu: Option<Time>)

  /** The status after `body.status?.trim()`; a missing status counts as empty. */
  function TrimmedStatus(body: HistoryBody): string {
    if body.status.Some? then Trim(body.status.value) else []
  }

  /** Why the controller refuses a history request before the service sees it,
      if it does. */
  function Refusal(body: HistoryBody, file: Option<Upload>): (r: Option<Error>)
    ensures AcceptUpload(file).Err? ==> r == Some(AcceptUpload(file).error)
    ensures AcceptUpload(file).Ok? ==>
      (r.None? <==> TrimmedStatus(body) != [] && (TrimmedStatus(body) == Finished ==> file.Some?))
    ensures AcceptUpload(file).Ok? && TrimmedStatus(body) == [] ==> r == Some(BadRequest(StatusRequired))
    ensures AcceptUpload(file).Ok? && TrimmedStatus(body) == Finished && file.None? ==>
      r == Some(BadRequest(PdfRequired))
  {
    match AcceptUpload(file)
    case Err(e) => Some(e)
    case Ok(_) =>
      var status := TrimmedStatus(body);
      if status == [] then Some(BadRequest(StatusRequired))
      else if status == Finished && file.None? then Some(BadRequest(PdfRequired))
      else None
  }

  /** What the controller hands the service: the trimmed status, and the
      attachment URL exactly when a file came with the request. */
  function InputOf(body: HistoryBody, file: Option<Upload>): HistoryInput {
    HistoryInput(TrimmedStatus(body), body.note,
                 if file.Some? then Some(AttachmentUrl(file.value.storedName)) else None,
                 body.waktu)
  }

  /** `addHistoris` as routed: the upload interceptor, the two status checks,
      then the service with the trimmed status. */
  function AddHistoryRoute(s: State, callerId: Id, docId: Id, body: HistoryBody, file: Option<Upload>, now: Time)
    : (r: Result<Committed<HistoryView>>)
    ensures Refusal(body, file).Some? ==> r == Err(Refusal(body, file).value)
    ensures Refusal(body, file).None? ==> r == AddHistory(s, callerId, docId, InputOf(body, file), now)
  {
    var _ :- AcceptUpload(file);
    var status := TrimmedStatus(body);
    if status == [] then Err(BadRequest(StatusRequired))
    else if status == Finished && file.None? then Err(BadRequest(PdfRequired))
    else AddHistory(s, callerId, docId, InputOf(body, file), now)
  }

  /** A blank or missing status is refused before anything is written. */
  lemma BlankStatusRefused(s: State, callerId: Id, docId: Id, body: HistoryBody, file: Option<Upload>, now: Time)
    requires AcceptUpload(file).Ok?
    requires body.status.None? || AllSpace(body.status.value)
    ensures AddHistoryRoute(s, callerId, docId, body, file, now) == Err(BadRequest(StatusRequired))
  {
    if body.status.Some? {
      TrimEmptyIffBlank(body.status.value);
    }
  }

  /** Finishing a document without a PDF is refused before anything is
      written. */
  lemma FinishedWithoutFileRefused(s: State, callerId: Id, docId: Id, body: HistoryBody, now: Time)
    requires body.status.Some? && Trim(body.status.value) == Finished
    ensures AddHistoryRoute(s, callerId, docId, body, None, now) == Err(BadRequest(PdfRequired))
  {
  }

  /** A committed history row carries a non-blank, trimmed status, and a row
      that finishes a document always carries the URL of its PDF. */
  lemma CommittedHistoryIsWellFormed(
    s: State, callerId: Id, docId: Id, body: HistoryBody, file: Option<Upload>, now: Time)
    requires AddHistoryRoute(s, callerId, docId, body, file, now).Ok?
    ensures var c := AddHistoryRoute(s, callerId, docId, body, file, now).value;
      && body.status.Some?
      && c.out.status == Trim(body.status.value) != []
      && !AllSpace(body.status.value)
      && (c.out.attachmentUrl.Some? <==> file.Some?)
      && (file.Some? ==> c.out.attachmentUrl == Some(AttachmentUrl(file.value.storedName)) && IsPdf(file.value))
      && (c.out.status == Finished ==> file.Some?)
      && c.state.documents[docId].status == c.out.status
  {
    TrimEmptyIffBlank(body.status.value);
  }
}
