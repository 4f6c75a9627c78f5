# lpsi backend core in Dafny

lpsi is a multi-tenant document-tracking backend. Institutions register
with a unique slug and get a first admin. Admins create documents
("dokumen") with a code ("kode"), an expected duration ("durasi") and a
free-text status. A document's progress is logged as history entries
("historis"); adding an entry also copies its status onto the document. The
public can look any document up by its code. A superadmin manages user
accounts.

This project models the services of that backend as pure functions over an
immutable store and proves what they promise:

- **The store** (`Store.State`) has four tables as maps from row id to row:
  users, institutions, documents and history entries. It also holds each
  table's autoincrement counter.
- **Service methods** are functions `State × input → Result<Committed<output>>`.
  `Committed` pairs the state after the write with the value returned.
- **A failure** carries an `Error` and no state. So a failed call, or a
  `$transaction` that does not commit, leaves nothing behind, and every
  transaction is one atomic step.
- **Controller envelopes** `{ status, data | message }` are `Results.Envelope`.
- **Row orders** (`orderBy`) are `Tables.Order`: every row exactly once,
  sorted by a rank, with ties broken by id.
- **`skip`/`take`** is `Tables.Window`.

Modules follow the source tree:

| module | models |
|---|---|
| Documents | `documents.service.ts` |
| DocumentRequests | the query, upload and validation rules of `documents.controller.ts` |
| Users | `users.service.ts`, `users.controller.ts` and `superadmin.guard.ts` |
| Institutions | `institutions.service.ts` and the envelopes of `institutions.controller.ts` |
| Auth | `auth.service.ts` |
| Tracking | `tracking.service.ts` and `tracking.controller.ts` |

Shared vocabulary lives in:

- Results: Option, Error, Result and Envelope.
- Tables: ids, times, orders, windows and fresh ids.
- Text: JavaScript `trim`, ASCII lower-casing and Node's `path.extname`.
- Store: the tables and the `Valid` invariant.
- Views: the summaries the `select` clauses build, and a document's ordered history.

Behaviour of the code worth knowing:

- **`users.update`** tests only the requested role (`dto.role`), never the
  stored one. A user who already is a superadmin therefore takes the
  institution a patch names when the patch leaves the role out
  (`Users.StoredSuperAdminCanGainInstitution`).
- **`getProfile`** reports a missing user as Unauthorized.
- **`login`** validates nothing in its body. Without an email, the
  `where: { email }` filter is empty, so the password is checked against the
  newest account of all (`Auth.MissingEmailLogsInAsNewestUser`).
- **Deleting a user**: the service itself guards only against deleting
  oneself. The model further assumes restricting foreign keys, so the
  database refuses to delete a missing user or one who still owns documents
  (`Users.RemoveUser`; see the foreign-key line under "Left out").

## Model

| member | source | states |
|---|---|---|
| Tables.Order | backend/src/documents/documents.service.ts:91 | an `orderBy` lists every row of the table exactly once, each row strictly before every later one in sort order |
| Tables.OrderSorted | backend/src/documents/documents.service.ts:91 | an ordered listing is monotone in the sort key in the requested direction and lists no row twice |
| Tables.Window | backend/src/documents/documents.service.ts:92-93 | `skip`/`take` returns the rows from position `skip` on, at most `take` of them and none past the end |
| Tables.WindowOfOrder | backend/src/documents/documents.service.ts:88-110 | a window of an ordered listing holds distinct rows of the table, still in sort order |
| Tables.FreshId | backend/src/documents/documents.service.ts:164-171 | a created row gets an id not in use, at or above the table's counter, and the counter itself when that is free |
| Tables.OffsetIsProduct | backend/src/documents/documents.service.ts:92 | the number of rows before 1-based page `page` is `(page - 1) * pageSize` |
| Store.Hash | backend/src/users/users.service.ts:54-57 | a stored digest checks against the password it was made from and carries the drawn salt |
| Text.Trim | backend/src/documents/documents.controller.ts:54 | `trim` removes exactly the white space at both ends: the result is an inner slice starting and ending with non-space |
| Text.TrimEmptyIffBlank | backend/src/documents/documents.controller.ts:54 | a string trims to empty exactly when it is all white space |
| Text.TrimIdempotent | backend/src/documents/documents.controller.ts:54 | trimming a trimmed string changes nothing |
| Text.ToLower | backend/src/documents/documents.controller.ts:127 | lower-casing keeps the length and maps each character on its own |
| Text.Extname | backend/src/documents/documents.controller.ts:127 | after trailing slashes are dropped, `extname` is empty exactly when the last segment is ".." or has no '.' after its first character; otherwise it is the suffix of that segment from its last '.', holding no other '.' and no '/' |
| Text.ExtensionRecognised | backend/src/documents/documents.controller.ts:127 | a non-empty slash-free stem followed by '.' and at least one further character, none of them '.' or '/', has exactly that suffix as its extension |
| Text.PdfExtensionRecognised | backend/src/documents/documents.controller.ts:127-129 | any non-empty slash-free stem followed by ".pdf" has extension ".pdf" |
| Text.LowerPdfExtension | backend/src/documents/documents.controller.ts:127-129 | a slash-free name ending in ".pdf" in any letter case has an extension that lower-cases to ".pdf" |
| Text.DotfileHasNoExtension | backend/src/documents/documents.controller.ts:127-129 | a file named just ".pdf" has an empty extension |
| Views.UserSummaryOf | backend/src/documents/documents.service.ts:100-106 | the owner summary is null exactly when the user row is missing; it carries id, name and email and never the password |
| Views.InstitutionSummaryOf | backend/src/auth/auth.service.ts:47-54 | the institution summary is null exactly when there is no reference or no such row; otherwise it carries that row's id, name, slug and trackingTitle |
| Views.HistoryOf | backend/src/documents/documents.service.ts:138-147 | a document's history lists every row of that document and only those, each once, oldest `waktu` first |
| Documents.InstitutionOf | backend/src/documents/documents.service.ts:46-57 | the caller's institution, or Forbidden exactly when the caller is missing or has none |
| Documents.EnsureScope | backend/src/documents/documents.service.ts:59-71 | a document is found only when its id and its institution both match; otherwise NotFound |
| Documents.Gate | backend/src/documents/documents.service.ts:197-198 | id-addressed operations fail with Forbidden for a caller without an institution, else with NotFound unless the document is in the caller's tenant |
| Documents.List | backend/src/documents/documents.service.ts:73-118 | Forbidden without an institution; otherwise a page of the caller's tenant (see `Documents.PageOf`) |
| Documents.PageOf | backend/src/documents/documents.service.ts:83-117 | `total` counts every document of the tenant that passes the status filter; the items are that set newest first, from position `(page - 1) * pageSize` on, at most `pageSize` of them; each item is of the tenant and has the filtered status; page and size are echoed |
| Documents.ListTotalIndependentOfPage | backend/src/documents/documents.service.ts:109 | the total does not depend on the page asked for |
| Documents.ListIgnoresOtherTenants | backend/src/documents/documents.service.ts:83-86 | inserting or replacing a document of another tenant leaves the caller's listing unchanged |
| Documents.PageDependsOnTenantOnly | backend/src/documents/documents.service.ts:83-110 | two stores with the same users and the same rows of a tenant give that tenant the same page |
| Documents.GetDetail | backend/src/documents/documents.service.ts:120-156 | the gate's error, or the document's item with its history oldest first |
| Documents.Create | backend/src/documents/documents.service.ts:158-190 | a document under a fresh id with the caller's institution, owner `userId` or else the caller, `created_at` or else now; nothing else changes; a missing owner is refused |
| Documents.CreatedDocumentIsVisible | backend/src/documents/documents.service.ts:164-172 | the creator's tenant reads the new document back, with an empty history |
| Documents.Patched | backend/src/documents/documents.service.ts:202-206 | `kode` and `status` change only when non-empty, `durasi` only when defined; owner, institution and creation time are kept |
| Documents.Update | backend/src/documents/documents.service.ts:192-224 | the gate's error, or only the scoped document takes the supplied fields and every other row is unchanged |
| Documents.UpdateIdempotent | backend/src/documents/documents.service.ts:200-206 | sending the same patch twice leaves the store as sending it once |
| Documents.EmptyPatchChangesNothing | backend/src/documents/documents.service.ts:202-206 | a patch that supplies nothing leaves the store unchanged |
| Documents.Remove | backend/src/documents/documents.service.ts:226-234 | the gate's error, or one transaction deleting the document and exactly its history rows, every other row untouched |
| Documents.RemovedDocumentIsGone | backend/src/documents/documents.service.ts:226-234 | after removal a detail read of the id fails with NotFound and no history row refers to it |
| Documents.AddHistory | backend/src/documents/documents.service.ts:236-274 | the gate's error, or one transaction adding a history row (`waktu` or else now, with note and attachment) and setting the document's status to the row's status; nothing else changes |
| Documents.AddHistoryMirrorsStatus | backend/src/documents/documents.service.ts:250-271 | after a history entry is added, the history has exactly one more row, the detail view shows the new status and lists the new row |
| Documents.NoInstitutionForbidsEverything | backend/src/documents/documents.service.ts:52-54 | a caller without an institution gets Forbidden from every document operation |
| Documents.OtherTenantLooksAbsent | backend/src/documents/documents.service.ts:63-70 | every id-addressed operation on another tenant's document answers exactly as if the document did not exist |
| Documents.CreatePreservesValid | backend/src/documents/documents.service.ts:164-172 | creation keeps every reference and counter of the store valid |
| Documents.UpdatePreservesValid | backend/src/documents/documents.service.ts:200-206 | an update keeps the store valid |
| Documents.RemovePreservesValid | backend/src/documents/documents.service.ts:230-233 | removal leaves no orphan history row |
| Documents.AddHistoryPreservesValid | backend/src/documents/documents.service.ts:250-271 | adding history keeps the store valid |
| DocumentRequests.RequestedPage | backend/src/documents/documents.controller.ts:52 | the page is at least 1; a valid page is kept, and a missing, non-numeric, zero or negative page becomes 1 |
| DocumentRequests.RequestedPageSize | backend/src/documents/documents.controller.ts:53 | the size lies in [1, 50]; missing, non-numeric or zero gives 10; negative gives 1; above 50 gives 50; in range is kept |
| DocumentRequests.StatusFilter | backend/src/documents/documents.controller.ts:54 | no filter exactly when the status is missing or blank; otherwise the trimmed, non-empty status |
| DocumentRequests.ClampingIsIdempotent | backend/src/documents/documents.controller.ts:52-53 | clamping an already clamped page or size changes nothing |
| DocumentRequests.ParamsOf | backend/src/documents/documents.controller.ts:52-58 | the parameters handed to `list` are the requested page (at least 1), the requested page size (clamped to 1..50, default 10) and the trimmed status filter, which is present exactly when it is non-empty |
| DocumentRequests.ListRoute | backend/src/documents/documents.controller.ts:47-62 | a routed listing is the page of the caller's institution at the requested page and page size: at most 50 items, the requested page echoed, and with a non-blank filter only items whose status is the trimmed filter |
| DocumentRequests.StatusFilterIgnoresPadding | backend/src/documents/documents.controller.ts:54 | padding a status filter with white space does not change the listing, and a blank filter lists as no filter |
| DocumentRequests.AcceptUpload | backend/src/documents/documents.controller.ts:125-135 | a file passes exactly when its mimetype is "application/pdf" or its lower-cased extension is ".pdf", and it is at most 1024 * 1024 bytes; a non-PDF gets BadRequest, an oversized PDF PayloadTooLarge; no file passes |
| DocumentRequests.AttachmentUrl | backend/src/documents/documents.controller.ts:153 | the URL is "/uploads/historis/" followed by the stored name |
| DocumentRequests.AttachmentUrlInjective | backend/src/documents/documents.controller.ts:153 | distinct stored names give distinct URLs |
| DocumentRequests.PdfNamePasses | backend/src/documents/documents.controller.ts:126-129 | a name ending in ".pdf", in any letter case, passes the filter whatever mimetype is declared |
| DocumentRequests.UpperCasePdfNamePasses | backend/src/documents/documents.controller.ts:126-129 | "REPORT.PDF" declared as an octet stream passes the filter |
| DocumentRequests.BarePdfNameNeedsMimetype | backend/src/documents/documents.controller.ts:126-129 | a file named just ".pdf" passes exactly when its mimetype is the PDF one |
| DocumentRequests.Refusal | backend/src/documents/documents.controller.ts:145-151 | a request is refused with the upload check's error; otherwise with BadRequest "Status wajib diisi" exactly when the trimmed status is empty, and with BadRequest "Upload PDF wajib untuk status selesai" when it is "selesai" with no file |
| DocumentRequests.AddHistoryRoute | backend/src/documents/documents.controller.ts:138-165 | a refused request fails with its refusal and never reaches the service; otherwise the service receives the trimmed status and the attachment URL exactly when a file came |
| DocumentRequests.FinishedWithoutFileRefused | backend/src/documents/documents.controller.ts:149-151 | finishing a document without a PDF is refused with BadRequest before anything is written |
| DocumentRequests.BlankStatusRefused | backend/src/documents/documents.controller.ts:145-148 | a missing or blank status is refused with BadRequest before anything is written |
| DocumentRequests.CommittedHistoryIsWellFormed | backend/src/documents/documents.controller.ts:145-161 | a committed row has a non-blank trimmed status and an attachment exactly when a PDF file came; a "selesai" row always has one; the document takes the row's status |
| Users.Guard | backend/src/auth/superadmin.guard.ts:5-12 | a request passes exactly when its role claim is "superadmin"; otherwise Forbidden |
| Users.BriefOf | backend/src/users/users.service.ts:18-24 | the institution brief is null exactly when there is no reference or no such row; otherwise it carries that row's id, name and slug |
| Users.ListUsers | backend/src/users/users.service.ts:10-27 | every user exactly once, without password, ids strictly descending |
| Users.PatchedUser | backend/src/users/users.service.ts:39-57 | name, email and role change when supplied; the institution follows the role rule; a non-empty password is stored as a digest that checks against it |
| Users.UpdateUser | backend/src/users/users.service.ts:29-78 | NotFound for an unknown user; refused when the resulting institution does not exist; otherwise only that user's row changes |
| Users.SuperAdminRequestClearsInstitution | backend/src/users/users.service.ts:43-52 | requesting the superadmin role leaves the user without an institution, whatever institution the patch names |
| Users.StoredSuperAdminCanGainInstitution | backend/src/users/users.service.ts:50-52 | only the requested role is checked: a stored superadmin takes a named institution when the patch omits the role |
| Users.UpdateFieldRules | backend/src/users/users.service.ts:39-57 | name and email change exactly when supplied, even as empty strings; the password changes exactly when a non-empty one is supplied |
| Users.UpdateUserIdempotent | backend/src/users/users.service.ts:59-75 | applying the same patch again with the same salt changes nothing more |
| Users.UpdateUserPreservesValid | backend/src/users/users.service.ts:59-75 | a user update keeps the store valid |
| Users.RemoveUser | backend/src/users/users.service.ts:80-86 | removing oneself is Forbidden; otherwise exactly that user is deleted, or the database refuses a missing user or one who owns documents |
| Users.RemovedUserIsNotListed | backend/src/users/users.service.ts:80-86 | after a removal the user list has one row fewer and none for that user |
| Users.RemoveUserPreservesValid | backend/src/users/users.service.ts:85 | a user removal keeps the store valid |
| Users.ListRoute | backend/src/users/users.controller.ts:15-19 | the user list is returned exactly to a superadmin claim |
| Users.UpdateRoute | backend/src/users/users.controller.ts:21-29 | Forbidden without the superadmin claim, else the service's update |
| Users.RemoveRoute | backend/src/users/users.controller.ts:31-36 | Forbidden without the superadmin claim, else the service's removal for the requesting user |
| Users.GuardBlocksEveryRoute | backend/src/users/users.controller.ts:10 | without the superadmin claim, every user-admin route answers Forbidden |
| Institutions.Register | backend/src/institutions/institutions.service.ts:12-64 | Conflict exactly when the slug is in use; otherwise one transaction adds the institution (logo dropped) and its admin, linked and with a hashed password, and returns both without the password |
| Institutions.RegisterAddsOneOfEach | backend/src/institutions/institutions.service.ts:27-48 | registration adds exactly one institution and one user linked to it; the logo is null and the password checks against the stored digest |
| Institutions.SecondRegistrationConflicts | backend/src/institutions/institutions.service.ts:14-20 | registering a registered slug again fails with Conflict |
| Institutions.FirstRegistration | backend/src/institutions/institutions.service.ts:12-48 | on an empty store the first registration succeeds, both rows get id 1, and the store stays valid |
| Institutions.RegisterPreservesValid | backend/src/institutions/institutions.service.ts:14-48 | registration keeps slugs unique and the store valid |
| Institutions.FindBySlug | backend/src/institutions/institutions.service.ts:66-78 | the institution with that slug, null exactly when none has it |
| Institutions.RegisteredSlugIsFound | backend/src/institutions/institutions.service.ts:66-78 | a just-registered slug finds the new institution with its name, title, no logo and creation time |
| Institutions.FindByUserId | backend/src/institutions/institutions.service.ts:95-107 | the caller's institution, null exactly when the caller has none |
| Institutions.ListPublic | backend/src/institutions/institutions.service.ts:80-93 | the first min(50, count) institutions, newest first, none twice |
| Institutions.ListPublicDropsOnlyOlder | backend/src/institutions/institutions.service.ts:81-83 | an institution left out of the public list is no newer than any it shows |
| Institutions.Rebranded | backend/src/institutions/institutions.service.ts:119-122 | name, title and logo take the supplied values; slug and creation time are kept |
| Institutions.UpdateForUser | backend/src/institutions/institutions.service.ts:109-137 | Conflict exactly when the caller has no institution; otherwise only that institution changes |
| Institutions.BrandingRoundTrip | backend/src/institutions/institutions.service.ts:119-134 | after a branding update the caller reads back the supplied fields, the old other fields and the same slug |
| Institutions.UpdateForUserPreservesValid | backend/src/institutions/institutions.service.ts:124-134 | a branding update keeps slugs unique and the store valid |
| Institutions.Respond | backend/src/institutions/institutions.controller.ts:41-51 | null becomes the failure envelope "Instansi tidak ditemukan"; a row becomes the success envelope carrying it |
| Institutions.BySlugResponse | backend/src/institutions/institutions.controller.ts:37-52 | success exactly when some institution has the slug, carrying that institution's whole public record; otherwise "Instansi tidak ditemukan" |
| Institutions.MeResponse | backend/src/institutions/institutions.controller.ts:55-62 | success exactly when the caller belongs to an existing institution, carrying that institution's whole public record |
| Institutions.GetBySegmentAsDeclared | backend/src/institutions/institutions.controller.ts:37-62 | with the routes in declared order, every segment is a slug lookup, whoever the caller: success exactly when the slug is in use, carrying that institution's whole record |
| Institutions.MeIsAnsweredBySlugLookup | backend/src/institutions/institutions.controller.ts:37-62 | as declared, `GET /institutions/me` tells a caller with an institution that none exists, unless some slug is "me" |
| Institutions.GetBySegment | backend/src/institutions/institutions.controller.ts:37-62 | with `me` matched first, `me` succeeds exactly when the caller belongs to an existing institution and returns that institution's whole record; every other segment succeeds exactly when its slug is in use and returns that institution's whole record; failures say "Instansi tidak ditemukan" |
| Institutions.MeReachesCallersInstitution | backend/src/institutions/institutions.controller.ts:55-62 | with `me` matched first, a caller with an institution reads it back, and other segments answer as before |
| Auth.NewestWithEmail | backend/src/auth/auth.service.ts:15-23 | among users the email filter matches, the one with the largest id; none exactly when none matches; an absent email matches every user |
| Auth.ValidateUser | backend/src/auth/auth.service.ts:14-35 | succeeds exactly when the newest user with the email has a digest that checks; both failures are Unauthorized with the same message |
| Auth.Login | backend/src/auth/auth.service.ts:37-65 | the token payload is exactly the user's id and stored email, which equals the email given when one was; the user summary has no password; the institution summary is null exactly when the user has no institution |
| Auth.FailuresAreIdentical | backend/src/auth/auth.service.ts:25-32 | an unknown email and a wrong password give the identical error |
| Auth.MissingEmailLogsInAsNewestUser | backend/src/auth/auth.service.ts:14-35 | a login body without an email opens a session for the newest account of all when the password checks against it |
| Auth.OlderDuplicateCannotLogIn | backend/src/auth/auth.service.ts:20-22 | when an email is shared, no login opens a session for an older account |
| Auth.RegisteredAdminCanLogIn | backend/src/auth/auth.service.ts:37-65 | a registered admin logs in with the registered password and sees the registered institution |
| Auth.GetProfile | backend/src/auth/auth.service.ts:67-96 | Unauthorized exactly when the user is missing; otherwise the user summary and its institution summary |
| Auth.InstitutionViewOfRef | backend/src/auth/auth.service.ts:110-118 | the institution view is null exactly when there is no reference or no such row |
| Auth.UpdateProfile | backend/src/auth/auth.service.ts:98-128 | name and email change only to non-empty values; nothing else in the store changes; a missing user is refused |
| Auth.ProfileRoundTrip | backend/src/auth/auth.service.ts:99-108 | updating only the name and then reading the profile gives the new name, the old email and the same institution |
| Auth.BlankProfilePatchChangesNothing | backend/src/auth/auth.service.ts:101-104 | a patch of empty or missing values leaves the store unchanged |
| Auth.UpdateProfilePreservesValid | backend/src/auth/auth.service.ts:99-108 | a profile update keeps the store valid |
| Tracking.DocumentWithKode | backend/src/tracking/tracking.service.ts:11-21 | some document with the code, of any institution, none exactly when no document has it |
| Tracking.TrackedOf | backend/src/tracking/tracking.service.ts:61-70 | the composite has the document's own fields, its owner, its history oldest first and the institution owning it |
| Tracking.FindByKode | backend/src/tracking/tracking.service.ts:9-71 | null exactly when no document has the code, else the composite of a document with it |
| Tracking.TrackingResponse | backend/src/tracking/tracking.controller.ts:8-30 | a missing or empty code is refused; an unknown code gives "Data tidak ditemukan"; otherwise the composite |
| Tracking.EmptyKodeNeedsNoLookup | backend/src/tracking/tracking.controller.ts:10-15 | the refusal of an empty code is the same whatever the store holds |
| Tracking.UniqueKodeIsFound | backend/src/tracking/tracking.service.ts:11-25 | a document whose code no other shares is found by it, whichever institution owns it |
| Tracking.TrackingAgreesWithDetail | backend/src/tracking/tracking.service.ts:37-47 | the composite of a document shows the same fields and history as its owning tenant's detail view |
| Tracking.TrackingShowsNewStatus | backend/src/tracking/tracking.service.ts:61-70 | after a history entry is added, the public view shows the new status and the new row |

## Left out

- The database engine and its query and transaction executor. These are
  replaced by immutable maps, and each `$transaction` is one step.
- Foreign-key rules. The schema is not part of this model. Relations are
  assumed to restrict, so the database refuses with `StoreRejected`:
  - a document whose owner is missing;
  - a user whose resulting institution is missing;
  - deleting a user who is missing or who owns documents;
  - updating a missing user in `updateProfile`.
- bcrypt. It is an abstract `Hash(password, salt)` plus `Check`, with no
  cryptographic properties. `genSalt` is a `salt` parameter.
- Store.Check: compares the whole password. bcrypt reads only its first 72
  bytes, so two passwords that agree on those bytes also match; the model
  does not promise that.
- Autoincrement ids. Each table has a counter that only grows, and ids are
  never reused; the database's sequences are not modelled beyond that.
- Store.Document: `createdAt` is always a time. The `created_at` column may be null,
  and where null rows fall in the newest-first order is not modelled.
- JWT signing and verification and the JWT guard. `Login` returns the
  payload that would be signed. The caller's id is an input.
- The superadmin guard's role claim is an input. The token payload carries
  no role, so where that claim comes from is outside the model.
- Multer disk storage, directory creation, and file names built from the
  clock and random bytes. The stored file name is an opaque input.
- Files already written to disk when a later check refuses the request are
  not modelled.
- "Now", the default for `created_at` and `waktu`, is a parameter.
- `Promise.all` and interleaving between concurrent requests.
- The `/tracking/all` debug route, `main.ts`, module wiring and the frontend.
- The `{ status: true, data }` wrappers of the remaining document and
  institution routes. They pass the service result through unchanged.
- Route ids and query numbers. The model receives the outcome of
  `Number(...)`: `None` for NaN, `Some(n)` for an integer. Non-integer
  numbers and a NaN id reaching the service are not modelled.
- Orderings leave ties to the database; the model breaks them by id.
  `findFirst` without an `orderBy` (tracking by code, slug lookup) takes the
  lowest id.
- Roles are the two the code knows, admin and superadmin. A registered admin
  gets the admin role; the schema default is not part of this model.
- Text.ToLower: maps ASCII letters only, because the result is only compared
  with ".pdf".
- Text.Extname: models Node's POSIX `path.extname`, not the Windows variant.
- Request bodies carry every field their DTO declares (`Registration`,
  `NewDocument`). No validation pipe is installed, so a body missing a
  required field such as `slug`, `adminPassword`, `kode`, `durasi` or `status`
  reaches Prisma or bcrypt, which throw; those error paths are not modelled.
- Auth.Login: the password is always present. A body without one makes
  `bcrypt.compare` throw, and that error path is not modelled.
- Auth.OlderDuplicateCannotLogIn: states only that an older duplicate never
  logs in. A newer user with the same email may still fail on the password.

## Findings

| source | as written | input that shows it | evidently intended | confidence | as-written member | corrected member |
|---|---|---|---|---|---|---|
| backend/src/institutions/institutions.controller.ts:37-62 | `GET :slug` is declared before `GET me`, so the parameter route also matches the segment "me" | `GET /institutions/me` by an admin whose institution exists, with no institution slugged "me": the answer is "Instansi tidak ditemukan" | `me` answers the caller's own institution | not executed; high (the admin institution page requests `/institutions/me`) | Institutions.MeIsAnsweredBySlugLookup | Institutions.MeReachesCallersInstitution |
