/** The recovery tables and their three writers: metadata upsert, XML storage and reconcile. */
module RecoveryLedger {
  import opened Wrappers
  import opened Text
  import opened Domain
  import opened Reconciliation

  /** Unique key of a ledger row. */
  datatype Key = Key(tenant: string, uuid: string, direction: Direction)

  /** Unique key of a document. */
  datatype DocKey = DocKey(tenant: string, uuid: string)

  /** Unique key of an XML evidence row. */
  datatype EvidenceKey = EvidenceKey(doc: DocKey, sha: string)

  datatype Entry = Entry(
    uuid: string, issuerRfc: string, issuerName: string, receiverRfc: string, receiverName: string,
    issueDate: int, total: int, status: string, effect: string, sourcePackageId: string)

  datatype Row = Row(entry: Entry, metadataSha: string, state: State)

  datatype Doc = Doc(status: string, downloadState: State, xmlSha: Option<string>)

  /** One logged transition. The table stores no direction; the model keeps it to say whose row it was. */
  datatype Event = Event(key: Key, previous: Option<State>, next: State, reason: string)

  datatype Db = Db(ledger: map<Key, Row>, docs: map<DocKey, Doc>, evidence: set<EvidenceKey>, events: seq<Event>)

  function DocOf(k: Key): DocKey {
    DocKey(k.tenant, k.uuid)
  }

  predicate HasXml(db: Db, dk: DocKey) {
    exists e :: e in db.evidence && e.doc == dk
  }

  // ----- Sessions -----

  /** A session without autoflush. Queries see `db`: the stored rows, with the changes made to them so
      far. Added rows wait outside; `clash` records that one of them repeats a unique key, which makes
      the next flush fail. */
  datatype Session = Session(
    db: Db, rows: map<Key, Row>, docs: map<DocKey, Doc>, evidence: set<EvidenceKey>, clash: bool)

  function Open(db: Db): Session {
    Session(db, map[], map[], {}, false)
  }

  function Merged(s: Session): Db {
    Db(s.db.ledger + s.rows, s.db.docs + s.docs, s.db.evidence + s.evidence, s.db.events)
  }

  function Flush(s: Session): Option<Session> {
    if s.clash then None else Some(Open(Merged(s)))
  }

  function AddRow(s: Session, k: Key, row: Row): Session {
    s.(rows := s.rows[k := row], clash := s.clash || k in s.rows || k in s.db.ledger)
  }

  function AddDoc(s: Session, dk: DocKey, doc: Doc): Session {
    s.(docs := s.docs[dk := doc], clash := s.clash || dk in s.docs || dk in s.db.docs)
  }

  function AddEvidence(s: Session, e: EvidenceKey): Session {
    s.(evidence := s.evidence + {e}, clash := s.clash || e in s.evidence || e in s.db.evidence)
  }

  function LogEvent(s: Session, e: Event): Session {
    s.(db := s.db.(events := s.db.events + [e]))
  }

  /** Changing the state of a stored row; a transition is logged unless the state stays. */
  function MoveRow(s: Session, k: Key, row: Row, reason: string): Session
    requires k in s.db.ledger
  {
    var before := s.db.ledger[k].state;
    var moved := s.(db := s.db.(ledger := s.db.ledger[k := row]));
    if before == row.state then moved else LogEvent(moved, Event(k, Some(before), row.state, reason))
  }

  // ----- Metadata upsert -----

  datatype Query = Query(tenant: string, direction: Direction, requestType: RequestType)

  function EntryState(s: Session, q: Query, e: Entry): State {
    var k := Key(q.tenant, e.uuid, q.direction);
    Decide(e.status, HasXml(s.db, DocOf(k)), k !in s.db.ledger,
           if k in s.db.ledger then Some(s.db.ledger[k].entry.status) else None).state
  }

  function UpsertLedger(s: Session, q: Query, e: Entry, sha: string): Session {
    var k := Key(q.tenant, e.uuid, q.direction);
    var row := Row(e, sha, EntryState(s, q, e));
    if k in s.db.ledger then MoveRow(s, k, row, "metadata state updated")
    else LogEvent(AddRow(s, k, row), Event(k, None, row.state, "metadata discovered"))
  }

  function UpsertDocument(s: Session, q: Query, e: Entry, state: State): Session {
    var dk := DocKey(q.tenant, e.uuid);
    if dk in s.db.docs then
      var doc := s.db.docs[dk];
      var kept := if doc.xmlSha.None? then state else doc.downloadState;
      s.(db := s.db.(docs := s.db.docs[dk := Doc(e.status, kept, doc.xmlSha)]))
    else AddDoc(s, dk, Doc(e.status, state, None))
  }

  function UpsertEntry(s: Session, q: Query, e: Entry, sha: string): Session {
    var s1 := UpsertLedger(s, q, e, sha);
    if q.requestType.Metadata? then UpsertDocument(s1, q, e, EntryState(s, q, e)) else s1
  }

  function UpsertAll(s: Session, q: Query, entries: seq<Entry>, sha: string): Session {
    if entries == [] then s
    else UpsertEntry(UpsertAll(s, q, entries[..|entries| - 1], sha), q, entries[|entries| - 1], sha)
  }

  // ----- XML storage -----

  /** One XML member of a package: its parsed UUID and the digest of its bytes. */
  datatype Member = Member(uuid: string, sha: string)

  function StoreDocument(s: Session, dk: DocKey, sha: string): Session {
    if dk in s.db.docs then
      var doc := s.db.docs[dk].(downloadState := XmlDownloaded, xmlSha := Some(sha));
      s.(db := s.db.(docs := s.db.docs[dk := doc]))
    else AddDoc(s, dk, Doc("vigente", XmlDownloaded, Some(sha)))
  }

  /** The document takes the digest, and evidence for it is added unless it is stored already. */
  function StoreEvidence(s: Session, dk: DocKey, sha: string): Session {
    var s1 := StoreDocument(s, dk, sha);
    if EvidenceKey(dk, sha) in s1.db.evidence then s1 else AddEvidence(s1, EvidenceKey(dk, sha))
  }

  function StoreXml(s: Session, q: Query, m: Member): Session {
    var uuid := Upper(m.uuid);
    var k := Key(q.tenant, uuid, q.direction);
    var s1 := StoreEvidence(s, DocKey(q.tenant, uuid), m.sha);
    if k in s1.db.ledger then MoveRow(s1, k, s1.db.ledger[k].(state := XmlDownloaded), "xml evidence stored") else s1
  }

  function StoreAll(s: Session, q: Query, members: seq<Member>): Session {
    if members == [] then s
    else StoreXml(StoreAll(s, q, members[..|members| - 1]), q, members[|members| - 1])
  }

  // ----- Reconcile -----

  function ReconciledState(db: Db, k: Key): State
    requires k in db.ledger
  {
    if DocOf(k) in db.docs && db.docs[DocOf(k)].xmlSha.Some? then XmlDownloaded
    else Decide(db.ledger[k].entry.status, false, false, None).state
  }

  function ReconcileRow(db: Db, k: Key): Db {
    if k !in db.ledger then db
    else MoveRow(Open(db), k, db.ledger[k].(state := ReconciledState(db, k)), "reconcile command").db
  }

  function ReconcileAll(db: Db, keys: seq<Key>): Db {
    if keys == [] then db
    else ReconcileRow(ReconcileAll(db, keys[..|keys| - 1]), keys[|keys| - 1])
  }

  /** `keys` lists the rows of one tenant, or all rows, in some order. */
  ghost predicate Lists(db: Db, tenant: Option<string>, keys: seq<Key>) {
    forall k :: k in keys <==> k in db.ledger && (tenant.Some? && tenant.value != "" ==> k.tenant == tenant.value)
  }

  // ----- Transactions -----

  /** `ingest_metadata_file`: one upsert, one commit. */
  function Ingest(db: Db, q: Query, entries: seq<Entry>, sha: string): Db {
    match Flush(UpsertAll(Open(db), q, entries, sha))
    case Some(s) => s.db
    case None => db
  }

  /** The tail of `_process_sat_request_job`: upsert, flush, XML storage for CFDI requests, commit. */
  function Job(db: Db, q: Query, entries: seq<Entry>, sha: string, members: seq<Member>): Db {
    match Flush(UpsertAll(Open(db), q, entries, sha))
    case None => db
    case Some(s) =>
      if q.requestType.Metadata? then s.db
      else match Flush(StoreAll(s, q, members))
        case Some(t) => t.db
        case None => db
  }

  datatype Op =
    | IngestFile(query: Query, entries: seq<Entry>, sha: string)
    | RunJob(query: Query, entries: seq<Entry>, sha: string, members: seq<Member>)
    | Reconcile(keys: seq<Key>)

  function Apply(db: Db, op: Op): Db {
    match op
    case IngestFile(q, entries, sha) => Ingest(db, q, entries, sha)
    case RunJob(q, entries, sha, members) => Job(db, q, entries, sha, members)
    case Reconcile(keys) => ReconcileAll(db, keys)
  }

  function Exec(db: Db, ops: seq<Op>): Db {
    if ops == [] then db else Apply(Exec(db, ops[..|ops| - 1]), ops[|ops| - 1])
  }

  const EMPTY := Db(map[], map[], {}, [])
}
