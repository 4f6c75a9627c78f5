/** The persistent state of the backend: four tables (users, institutions,
    documents and history entries) as maps from row id to row, plus the
    autoincrement counter of each table. Every service operation is a pure
    function from a State; a write returns the State after its transaction
    commits, and a failed operation returns no State at all, so a failure never
    leaves part of a transaction behind.
 */
module Store {
  import opened Results
  import opened Tables

  datatype Role = Admin | SuperAdmin

  /** Abstract stand-in for a salted bcrypt digest. Nothing but `Check` looks
      inside it; a password column holds a Digest, never a plain string. */
  datatype Digest = Digest(salt: nat, secret: string)

  /** bcrypt `hash(password, salt)`. */
  function Hash(password: string, salt: nat): (d: Digest)
    ensures Check(password, d)
    ensures d.salt == salt
  {
    Digest(salt, password)
  }

  /** bcrypt `compare(password, digest)`. */
  predicate Check(password: string, d: Digest) {
    d.secret == password
  }

  datatype User = User(
    name: string,
    email: string,
    password: Digest,
    role: Role,
    institutionId: Option<Id>)

  datatype Institution = Institution(
    name: string,
    slug: string,
    trackingTitle: string,
    logoUrl: Option<string>,
    createdAt: Time)

  datatype Document = Document(
    kode: string,
    durasi: int,
    status: string,
    createdAt: Time,
    userId: Id,
    institutionId: Id)

  datatype HistoryEntry = HistoryEntry(
    documentId: Id,
    waktu: Time,
    status: string,
    note: Option<string>,
    attachmentUrl: Option<string>)

  datatype State = State(
    users: map<Id, User>,
    institutions: map<Id, Institution>,
    documents: map<Id, Document>,
    history: map<Id, HistoryEntry>,
    nextUserId: Id,
    nextInstitutionId: Id,
    nextDocumentId: Id,
    nextHistoryId: Id)

  /** The state of a freshly migrated database. */
  function Empty(): (s: State)
    ensures Valid(s)
    ensures s.users == map[] && s.institutions == map[] && s.documents == map[] && s.history == map[]
  {
    State(map[], map[], map[], map[], 1, 1, 1, 1)
  }

  /** What the database itself guarantees: every row id lies below its table's
      counter, every relation points at an existing row, and slugs are unique. */
  predicate Valid(s: State) {
    && (forall id :: id in s.users ==> id < s.nextUserId)
    && (forall id :: id in s.institutions ==> id < s.nextInstitutionId)
    && (forall id :: id in s.documents ==> id < s.nextDocumentId)
    && (forall id :: id in s.history ==> id < s.nextHistoryId)
    && (forall id :: id in s.users && s.users[id].institutionId.Some? ==>
          s.users[id].institutionId.value in s.institutions)
    && (forall id :: id in s.documents ==>
          s.documents[id].userId in s.users && s.documents[id].institutionId in s.institutions)
    && (forall id :: id in s.history ==> s.history[id].documentId in s.documents)
    && SlugsUnique(s.institutions)
  }

  predicate SlugsUnique(institutions: map<Id, Institution>) {
    forall a, b :: a in institutions && b in institutions && institutions[a].slug == institutions[b].slug ==> a == b
  }

  /** Under `Valid`, the next autoincrement id of a table is its counter. */
  lemma FreshIdsAreCounters(s: State)
    requires Valid(s)
    ensures FreshId(s.users, s.nextUserId) == s.nextUserId
    ensures FreshId(s.institutions, s.nextInstitutionId) == s.nextInstitutionId
    ensures FreshId(s.documents, s.nextDocumentId) == s.nextDocumentId
    ensures FreshId(s.history, s.nextHistoryId) == s.nextHistoryId
  {
  }

  /** The outcome of a committed write: the new state and the value returned. */
  datatype Committed<+T> = Committed(state: State, out: T)
}
