/** What the ledger and the documents hold after an ingest, a job or a reconcile, told from the metadata
    rows and the tables before. */
module RecoveryRows {
  import opened Wrappers
  import opened Text
  import opened Reconciliation
  import opened RecoveryLedger
  import opened RecoveryTheorems
  import opened RecoverySpelling
  import opened RecoveryClashes

  // ----- The state of a row -----

  predicate SaysCancelled(status: string) {
    var s := Lower(Strip(status));
    s == "cancelado" || s == "cancelada" || s == "cancelled" || s == "canceled"
  }

  predicate SaysInProcess(status: string) {
    var s := Lower(Strip(status));
    s == "en_proceso" || s == "en proceso" || s == "processing" || s == "pending"
  }

  /** The stored status of the row says something else, letter case and white space aside. */
  predicate HasMoved(previous: Option<string>, status: string) {
    previous.Some? && Lower(Strip(previous.value)) != "" && Lower(Strip(previous.value)) != Lower(Strip(status))
  }

  /** The state of a row whose metadata says `status`, by the stored evidence and the status that was stored
      before; `None` is a new row. */
  ghost predicate StateFits(state: State, status: string, evidence: bool, previous: Option<string>) {
    var doubtful := SaysInProcess(status) || HasMoved(previous, status);
    && (state == XmlDownloaded <==> evidence)
    && (state == CancelledMetadata <==> !evidence && SaysCancelled(status))
    && (state == StateCheckPending <==> !evidence && !SaysCancelled(status) && doubtful)
    && (state == DiscoveredInMetadata <==> !evidence && !SaysCancelled(status) && !doubtful && previous.None?)
    && (state == XmlPending <==> !evidence && !SaysCancelled(status) && !doubtful && previous.Some?)
  }

  lemma DecideFits(status: string, evidence: bool, previous: Option<string>)
    ensures StateFits(Decide(status, evidence, previous.None?, previous).state, status, evidence, previous)
  {
    hide Lower, Strip;
  }

  function StoredStatus(db: Db, k: Key): Option<string> {
    if k in db.ledger then Some(db.ledger[k].entry.status) else None
  }

  /** The row of an entry, after a batch that started on `db`. */
  ghost predicate RowFits(db: Db, q: Query, e: Entry, sha: string, row: Row) {
    && row.entry == e && row.metadataSha == sha
    && StateFits(row.state, e.status, HasXml(db, DocKey(q.tenant, e.uuid)),
                 StoredStatus(db, Key(q.tenant, e.uuid, q.direction)))
  }

  /** The document of an entry of a metadata request: a new one takes the row's state, and so does one
      without XML; one with XML keeps its own. */
  ghost predicate DocFits(db: Db, q: Query, e: Entry, state: State, doc: Doc) {
    var dk := DocKey(q.tenant, e.uuid);
    && doc.status == e.status
    && (dk !in db.docs ==> doc.xmlSha == None && doc.downloadState == state)
    && (dk in db.docs ==>
          && doc.xmlSha == db.docs[dk].xmlSha
          && doc.downloadState == if doc.xmlSha.Some? then db.docs[dk].downloadState else state)
  }

  predicate DistinctUuids(entries: seq<Entry>) {
    forall i, j :: 0 <= i < j < |entries| ==> entries[i].uuid != entries[j].uuid
  }

  /** The row under a key, stored or waiting. */
  function RowIn(s: Session, k: Key): Option<Row> {
    if k in s.rows then Some(s.rows[k]) else if k in s.db.ledger then Some(s.db.ledger[k]) else None
  }

  function DocIn(s: Session, dk: DocKey): Option<Doc> {
    if dk in s.docs then Some(s.docs[dk]) else if dk in s.db.docs then Some(s.db.docs[dk]) else None
  }

  // ----- One entry -----

  /** What an entry does to its own row and document, and to no other. */
  lemma EntryEffect(s: Session, q: Query, e: Entry, sha: string)
    requires Key(q.tenant, e.uuid, q.direction) !in s.rows && DocKey(q.tenant, e.uuid) !in s.docs
    ensures var t, k, dk := UpsertEntry(s, q, e, sha), Key(q.tenant, e.uuid, q.direction), DocKey(q.tenant, e.uuid);
            && t.db.evidence == s.db.evidence
            && RowIn(t, k).Some? && RowFits(s.db, q, e, sha, RowIn(t, k).value)
            && (forall j :: j != k ==> RowIn(t, j) == RowIn(s, j) && (j in t.rows <==> j in s.rows)
                                       && (j in t.db.ledger <==> j in s.db.ledger))
            && (q.requestType.Metadata? ==>
                  DocIn(t, dk).Some? && DocFits(s.db, q, e, RowIn(t, k).value.state, DocIn(t, dk).value))
            && (q.requestType.Cfdi? ==>
                  t.docs == s.docs && t.db.docs == s.db.docs && forall d :: DocIn(t, d) == DocIn(s, d))
            && (forall d :: d != dk ==> DocIn(t, d) == DocIn(s, d) && (d in t.docs <==> d in s.docs)
                                        && (d in t.db.docs <==> d in s.db.docs))
  {
    var k, dk := Key(q.tenant, e.uuid, q.direction), DocKey(q.tenant, e.uuid);
    DecideFits(e.status, HasXml(s.db, dk), StoredStatus(s.db, k));
    hide Decide, StateFits, HasXml;
    RowEffect(s, q, e, sha);
    var s1 := UpsertLedger(s, q, e, sha);
    DocEffect(s1, q, e, EntryState(s, q, e));
    hide UpsertLedger, UpsertDocument, EntryState;
  }

  lemma RowEffect(s: Session, q: Query, e: Entry, sha: string)
    requires Key(q.tenant, e.uuid, q.direction) !in s.rows
    ensures var t, k := UpsertLedger(s, q, e, sha), Key(q.tenant, e.uuid, q.direction);
            && t.db.evidence == s.db.evidence && t.db.docs == s.db.docs && t.docs == s.docs
            && RowIn(t, k) == Some(Row(e, sha, EntryState(s, q, e)))
            && forall j :: j != k ==> RowIn(t, j) == RowIn(s, j) && (j in t.rows <==> j in s.rows)
                                      && (j in t.db.ledger <==> j in s.db.ledger)
  {
    hide EntryState, MoveRow;
    var k := Key(q.tenant, e.uuid, q.direction);
    if k in s.db.ledger {
      var row := Row(e, sha, EntryState(s, q, e));
      MoveRowShape(s, k, row, "metadata state updated");
      MoveShape(s, k, row, "metadata state updated");
    }
  }

  lemma DocEffect(s: Session, q: Query, e: Entry, state: State)
    requires DocKey(q.tenant, e.uuid) !in s.docs
    ensures var t, dk := UpsertDocument(s, q, e, state), DocKey(q.tenant, e.uuid);
            && t.db.ledger == s.db.ledger && t.rows == s.rows && t.db.evidence == s.db.evidence
            && DocIn(t, dk).Some? && DocFits(s.db, q, e, state, DocIn(t, dk).value)
            && forall d :: d != dk ==> DocIn(t, d) == DocIn(s, d) && (d in t.docs <==> d in s.docs)
                                       && (d in t.db.docs <==> d in s.db.docs)
  {
  }

  // ----- A batch -----

  /** No entry of the batch is about this row. */
  predicate Foreign(q: Query, entries: seq<Entry>, k: Key) {
    k.tenant != q.tenant || k.direction != q.direction || !Listed(entries, k.uuid)
  }

  predicate ForeignDoc(q: Query, entries: seq<Entry>, dk: DocKey) {
    q.requestType.Cfdi? || dk.tenant != q.tenant || !Listed(entries, dk.uuid)
  }

  /** What a session holds of an entry. */
  ghost predicate Told(db: Db, q: Query, e: Entry, sha: string, s: Session) {
    var k, dk := Key(q.tenant, e.uuid, q.direction), DocKey(q.tenant, e.uuid);
    && RowIn(s, k).Some? && RowFits(db, q, e, sha, RowIn(s, k).value)
    && (q.requestType.Metadata? ==>
          DocIn(s, dk).Some? && DocFits(db, q, e, RowIn(s, k).value.state, DocIn(s, dk).value))
  }

  ghost predicate ForeignKept(db: Db, q: Query, entries: seq<Entry>, s: Session) {
    && s.db.evidence == db.evidence
    && (forall k :: Foreign(q, entries, k) ==>
          k !in s.rows && (k in s.db.ledger <==> k in db.ledger) && RowIn(s, k) == RowIn(Open(db), k))
    && (forall dk :: ForeignDoc(q, entries, dk) ==>
          dk !in s.docs && (dk in s.db.docs <==> dk in db.docs) && DocIn(s, dk) == DocIn(Open(db), dk))
  }

  ghost predicate AllTold(db: Db, q: Query, entries: seq<Entry>, sha: string, s: Session) {
    forall i :: 0 <= i < |entries| ==> Told(db, q, entries[i], sha, s)
  }

  lemma FitsStarted(db: Db, q: Query, e: Entry, sha: string, s: Session, row: Row)
    requires s.db.evidence == db.evidence && RowFits(s.db, q, e, sha, row)
    requires var k := Key(q.tenant, e.uuid, q.direction); StoredStatus(s.db, k) == StoredStatus(db, k)
    ensures RowFits(db, q, e, sha, row)
  {
    hide StateFits;
    assert HasXml(s.db, DocKey(q.tenant, e.uuid)) <==> HasXml(db, DocKey(q.tenant, e.uuid));
  }

  lemma NextForeign(q: Query, front: seq<Entry>, e: Entry)
    requires !Listed(front, e.uuid)
    ensures Foreign(q, front, Key(q.tenant, e.uuid, q.direction))
    ensures q.requestType.Metadata? ==> ForeignDoc(q, front, DocKey(q.tenant, e.uuid))
    ensures forall k :: Foreign(q, front + [e], k) ==> Foreign(q, front, k) && k != Key(q.tenant, e.uuid, q.direction)
    ensures forall dk :: ForeignDoc(q, front + [e], dk) ==>
              ForeignDoc(q, front, dk) && (q.requestType.Metadata? ==> dk != DocKey(q.tenant, e.uuid))
  {
    forall u
      ensures Listed(front + [e], u) <==> Listed(front, u) || e.uuid == u
    {
      ListedMore(front, e, u);
    }
    hide Listed;
  }

  lemma BatchTells(db: Db, q: Query, front: seq<Entry>, e: Entry, sha: string, s: Session)
    requires ForeignKept(db, q, front, s) && AllTold(db, q, front, sha, s)
    requires !Listed(front, e.uuid)
    requires q.requestType.Cfdi? ==> s.docs == map[]
    ensures var t := UpsertEntry(s, q, e, sha);
            && ForeignKept(db, q, front + [e], t) && AllTold(db, q, front + [e], sha, t)
            && (q.requestType.Cfdi? ==> t.docs == map[])
  {
    hide UpsertEntry, RowFits, DocFits, Foreign, ForeignDoc, RowIn, DocIn;
    NextForeign(q, front, e);
    var k, dk := Key(q.tenant, e.uuid, q.direction), DocKey(q.tenant, e.uuid);
    EntryEffect(s, q, e, sha);
    var t := UpsertEntry(s, q, e, sha);
    SameStored(db, s, k, dk);
    FitsStarted(db, q, e, sha, s, RowIn(t, k).value);
    if q.requestType.Metadata? {
      DocFitsStarted(db, q, e, s, RowIn(t, k).value.state, DocIn(t, dk).value);
    }
    forall i | 0 <= i < |front + [e]|
      ensures Told(db, q, (front + [e])[i], sha, t)
    {
      if i < |front| {
        assert (front + [e])[i] == front[i] && Listed(front, front[i].uuid);
        assert Told(db, q, front[i], sha, s);
      }
    }
  }

  lemma SameStored(db: Db, s: Session, k: Key, dk: DocKey)
    ensures k !in s.rows && (k in s.db.ledger <==> k in db.ledger) && RowIn(s, k) == RowIn(Open(db), k)
            ==> StoredStatus(s.db, k) == StoredStatus(db, k)
    ensures dk !in s.docs && (dk in s.db.docs <==> dk in db.docs) && DocIn(s, dk) == DocIn(Open(db), dk)
            ==> (dk in db.docs ==> s.db.docs[dk] == db.docs[dk])
  {
  }

  lemma DocFitsStarted(db: Db, q: Query, e: Entry, s: Session, state: State, doc: Doc)
    requires DocFits(s.db, q, e, state, doc)
    requires var dk := DocKey(q.tenant, e.uuid);
             (dk in s.db.docs <==> dk in db.docs) && (dk in db.docs ==> s.db.docs[dk] == db.docs[dk])
    ensures DocFits(db, q, e, state, doc)
  {
  }

  lemma NothingTold(db: Db, q: Query, sha: string)
    ensures ForeignKept(db, q, [], Open(db)) && AllTold(db, q, [], sha, Open(db))
  {
  }

  lemma {:induction false} BatchTold(db: Db, q: Query, entries: seq<Entry>, sha: string)
    requires DistinctUuids(entries)
    ensures var s := UpsertAll(Open(db), q, entries, sha);
            && ForeignKept(db, q, entries, s) && AllTold(db, q, entries, sha, s)
            && (q.requestType.Cfdi? ==> s.docs == map[])
  {
    hide ForeignKept, AllTold, UpsertEntry;
    if entries == [] {
      NothingTold(db, q, sha);
    } else {
      var n := |entries| - 1;
      BatchTold(db, q, entries[..n], sha);
      assert entries == entries[..n] + [entries[n]];
      assert !Listed(entries[..n], entries[n].uuid);
      BatchTells(db, q, entries[..n], entries[n], sha, UpsertAll(Open(db), q, entries[..n], sha));
    }
  }

  lemma DistinctIsFine(db: Db, q: Query, entries: seq<Entry>)
    requires DistinctUuids(entries)
    ensures !Repeats(db, q, entries)
  {
    hide IsNew;
  }

  // ----- After an ingest -----

  /** The row and the document that a store holds. */
  function RowAt(db: Db, k: Key): Option<Row> {
    if k in db.ledger then Some(db.ledger[k]) else None
  }

  function DocAt(db: Db, dk: DocKey): Option<Doc> {
    if dk in db.docs then Some(db.docs[dk]) else None
  }

  /** The tables after a batch of distinct UUIDs: every listed row and document is as its entry says, all
      others are untouched, and so is the evidence. */
  ghost predicate Ingested(db: Db, q: Query, entries: seq<Entry>, sha: string, after: Db) {
    && after.evidence == db.evidence
    && (forall i :: 0 <= i < |entries| ==> Kept(db, q, entries[i], sha, after))
    && (forall k :: Foreign(q, entries, k) ==> RowAt(after, k) == RowAt(db, k))
    && (forall dk :: ForeignDoc(q, entries, dk) ==> DocAt(after, dk) == DocAt(db, dk))
  }

  /** The row of an entry is as the entry says, and for metadata requests so is its document. */
  ghost predicate Kept(db: Db, q: Query, e: Entry, sha: string, after: Db) {
    var row, doc := RowAt(after, Key(q.tenant, e.uuid, q.direction)), DocAt(after, DocKey(q.tenant, e.uuid));
    && row.Some? && RowFits(db, q, e, sha, row.value)
    && (q.requestType.Metadata? ==> doc.Some? && DocFits(db, q, e, row.value.state, doc.value))
  }

  lemma MergedHolds(s: Session)
    ensures forall k :: RowAt(Merged(s), k) == RowIn(s, k)
    ensures forall dk :: DocAt(Merged(s), dk) == DocIn(s, dk)
  {
  }

  lemma OpenHolds(db: Db)
    ensures forall k :: RowIn(Open(db), k) == RowAt(db, k)
    ensures forall dk :: DocIn(Open(db), dk) == DocAt(db, dk)
  {
  }

  lemma MergedIsIngested(db: Db, q: Query, entries: seq<Entry>, sha: string, s: Session)
    requires ForeignKept(db, q, entries, s) && AllTold(db, q, entries, sha, s) && s.evidence == {}
    ensures Ingested(db, q, entries, sha, Merged(s))
  {
    MergedHolds(s);
    OpenHolds(db);
    assert Merged(s).evidence == db.evidence;
    hide Merged, RowIn, DocIn, RowAt, DocAt, RowFits, DocFits, Foreign, ForeignDoc;
    forall i | 0 <= i < |entries|
      ensures Kept(db, q, entries[i], sha, Merged(s))
    {
      assert Told(db, q, entries[i], sha, s);
    }
  }

  /** An ingest of a file whose UUIDs are distinct goes through, and leaves these tables. */
  lemma IngestTells(db: Db, q: Query, entries: seq<Entry>, sha: string)
    requires DistinctUuids(entries)
    ensures !UpsertAll(Open(db), q, entries, sha).clash
    ensures Ingested(db, q, entries, sha, Ingest(db, q, entries, sha))
  {
    BatchTold(db, q, entries, sha);
    DistinctIsFine(db, q, entries);
    BatchFailsExactly(db, q, entries, sha);
    UpsertAllEvidence(Open(db), q, entries, sha);
    hide UpsertAll, Repeats, ForeignKept, AllTold, Ingested, Merged;
    MergedIsIngested(db, q, entries, sha, UpsertAll(Open(db), q, entries, sha));
  }

  // ----- After a job -----

  /** A document after XML was stored under it: the digest of the last member of its UUID, the status it
      had, or the default one if it is new. */
  ghost predicate StoredLast(q: Query, members: seq<Member>, dk: DocKey, before: Option<Doc>, after: Doc) {
    && after.downloadState == XmlDownloaded
    && after.status == (if before.Some? then before.value.status else "vigente")
    && exists i ::
         && 0 <= i < |members| && DocFor(q, members[i]) == dk && after.xmlSha == Some(members[i].sha)
         && forall j :: i < j < |members| ==> DocFor(q, members[j]) != dk
  }

  lemma StoreXmlDoc(s: Session, q: Query, m: Member, dk: DocKey)
    ensures var t := StoreXml(s, q, m);
            DocIn(t, dk) ==
            if dk != DocFor(q, m) then DocIn(s, dk)
            else if dk in s.db.docs && dk !in s.docs then
              Some(s.db.docs[dk].(downloadState := XmlDownloaded, xmlSha := Some(m.sha)))
            else if dk in s.db.docs then DocIn(s, dk)
            else Some(Doc("vigente", XmlDownloaded, Some(m.sha)))
  {
    hide Upper, MoveRow;
    var k := RowOf(q, m);
    var s1 := StoreEvidence(s, DocFor(q, m), m.sha);
    if k in s1.db.ledger {
      MoveShape(s1, k, s1.db.ledger[k].(state := XmlDownloaded), "xml evidence stored");
    }
  }

  lemma {:induction false} StoreAllDoc(db: Db, q: Query, members: seq<Member>, dk: DocKey)
    ensures var s, before := StoreAll(Open(db), q, members), DocIn(Open(db), dk);
            && (!HasDoc(q, members, dk) ==> DocIn(s, dk) == before)
            && (HasDoc(q, members, dk) ==>
                  DocIn(s, dk).Some? && StoredLast(q, members, dk, before, DocIn(s, dk).value))
  {
    hide StoreXml, DocFor, Storing, StoredLast, DocIn;
    if members == [] {
      assert !HasDoc(q, members, dk);
    } else {
      hide HasDoc;
      var n := |members| - 1;
      var front, m := members[..n], members[n];
      StoreAllDoc(db, q, front, dk);
      StoringIs(db, q, front);
      StoreXmlDoc(StoreAll(Open(db), q, front), q, m, dk);
      assert members == front + [m];
      HasMore(q, front, m, dk, EvidenceFor(q, m));
      DocNext(db, q, front, m, dk, StoreAll(Open(db), q, front), StoreXml(StoreAll(Open(db), q, front), q, m));
    }
  }

  lemma DocNext(db: Db, q: Query, front: seq<Member>, m: Member, dk: DocKey, s: Session, t: Session)
    requires Storing(db, q, front, s)
    requires var before := DocIn(Open(db), dk);
             && (!HasDoc(q, front, dk) ==> DocIn(s, dk) == before)
             && (HasDoc(q, front, dk) ==> DocIn(s, dk).Some? && StoredLast(q, front, dk, before, DocIn(s, dk).value))
    requires DocIn(t, dk) ==
             if dk != DocFor(q, m) then DocIn(s, dk)
             else if dk in s.db.docs && dk !in s.docs then
               Some(s.db.docs[dk].(downloadState := XmlDownloaded, xmlSha := Some(m.sha)))
             else if dk in s.db.docs then DocIn(s, dk)
             else Some(Doc("vigente", XmlDownloaded, Some(m.sha)))
    ensures var all, before := front + [m], DocIn(Open(db), dk);
            && (!HasDoc(q, all, dk) ==> DocIn(t, dk) == before)
            && (HasDoc(q, all, dk) ==> DocIn(t, dk).Some? && StoredLast(q, all, dk, before, DocIn(t, dk).value))
  {
    HasMore(q, front, m, dk, EvidenceFor(q, m));
    hide DocFor, HasEvidence, MembersMeet, HasDoc;
    var all := front + [m];
    assert all[|front|] == m && forall i :: 0 <= i < |front| ==> all[i] == front[i];
    if DocFor(q, m) != dk && HasDoc(q, front, dk) {
      var i :| 0 <= i < |front| && DocFor(q, front[i]) == dk && DocIn(s, dk).value.xmlSha == Some(front[i].sha)
               && forall j :: i < j < |front| ==> DocFor(q, front[j]) != dk;
      assert DocFor(q, all[i]) == dk;
    }
  }

  /** The row of an entry after a job: as the entry says, but downloaded where its XML was stored. */
  ghost predicate KeptByJob(db: Db, q: Query, e: Entry, sha: string, members: seq<Member>, after: Db) {
    var k := Key(q.tenant, e.uuid, q.direction);
    var row := RowAt(after, k);
    && row.Some? && row.value.entry == e && row.value.metadataSha == sha
    && (Stores(q, members, k) ==> row.value.state == XmlDownloaded)
    && (!Stores(q, members, k) ==> RowFits(db, q, e, sha, row.value))
  }

  /** A row that the metadata of a job does not list: the same, but downloaded where its XML was stored. */
  function Promoted(q: Query, members: seq<Member>, k: Key, row: Option<Row>): Option<Row> {
    if row.Some? && Stores(q, members, k) then Some(row.value.(state := XmlDownloaded)) else row
  }

  /** The rows after the XML of a job was stored. */
  lemma StoredRows(db: Db, q: Query, members: seq<Member>)
    ensures var s := StoreAll(Open(db), q, members);
            forall k :: RowAt(Merged(s), k) == Promoted(q, members, k, RowAt(db, k))
  {
    var s := StoreAll(Open(db), q, members);
    StoreAllKeys(Open(db), q, members);
    forall k | k in db.ledger
      ensures s.db.ledger[k] == if Stores(q, members, k) then db.ledger[k].(state := XmlDownloaded) else db.ledger[k]
    {
      StoreAllRow(Open(db), q, members, k);
    }
    hide StoreAll, Stores;
  }

  /** The documents and the evidence. */
  lemma StoredDocs(db: Db, q: Query, members: seq<Member>)
    ensures var after := Merged(StoreAll(Open(db), q, members));
            && (forall dk :: HasDoc(q, members, dk) ==>
                  DocAt(after, dk).Some? && StoredLast(q, members, dk, DocAt(db, dk), DocAt(after, dk).value))
            && (forall dk :: !HasDoc(q, members, dk) ==> DocAt(after, dk) == DocAt(db, dk))
            && (forall e :: e in after.evidence <==> e in db.evidence || HasEvidence(q, members, e))
  {
    var s := StoreAll(Open(db), q, members);
    StoringIs(db, q, members);
    forall dk
      ensures !HasDoc(q, members, dk) ==> DocIn(s, dk) == DocIn(Open(db), dk)
      ensures HasDoc(q, members, dk) ==>
                DocIn(s, dk).Some? && StoredLast(q, members, dk, DocIn(Open(db), dk), DocIn(s, dk).value)
    {
      StoreAllDoc(db, q, members, dk);
    }
    MergedHolds(s);
    OpenHolds(db);
    MergedEvidence(s);
    hide StoreAll, HasDoc, HasEvidence, StoredLast, MembersMeet, DocIn, DocAt, RowIn, RowAt, Merged;
  }

  lemma MergedEvidence(s: Session)
    ensures Merged(s).evidence == s.db.evidence + s.evidence
  {
  }

  /** A committed CFDI job whose metadata UUIDs are distinct: each listed row is as its entry says, except
      that the rows of stored XML are downloaded; each stored XML's document has the digest of its last
      member; all other rows and documents are untouched, and the evidence grows by the members' own. */
  lemma JobTells(db: Db, q: Query, entries: seq<Entry>, sha: string, members: seq<Member>)
    requires DistinctUuids(entries) && Committed(db, q, entries, sha, members)
    ensures var after := Job(db, q, entries, sha, members);
            && (forall i :: 0 <= i < |entries| ==> KeptByJob(db, q, entries[i], sha, members, after))
            && (forall k :: Foreign(q, entries, k) ==> RowAt(after, k) == Promoted(q, members, k, RowAt(db, k)))
            && (forall dk :: HasDoc(q, members, dk) ==>
                  DocAt(after, dk).Some? && StoredLast(q, members, dk, DocAt(db, dk), DocAt(after, dk).value))
            && (forall dk :: !HasDoc(q, members, dk) ==> DocAt(after, dk) == DocAt(db, dk))
            && (forall e :: e in after.evidence <==> e in db.evidence || HasEvidence(q, members, e))
  {
    hide UpsertAll, StoreAll, Stores, StateFits, DocFits, HasDoc, HasEvidence, StoredLast, Foreign, Merged, RowAt,
         DocAt, Job, Ingest;
    IngestTells(db, q, entries, sha);
    var flushed := Merged(UpsertAll(Open(db), q, entries, sha));
    CommittedJob(db, q, entries, sha, members);
    IngestIsFlushed(db, q, entries, sha);
    StoredRows(flushed, q, members);
    StoredDocs(flushed, q, members);
    forall i | 0 <= i < |entries|
      ensures KeptByJob(db, q, entries[i], sha, members, Job(db, q, entries, sha, members))
    {
      assert Kept(db, q, entries[i], sha, flushed);
    }
    forall dk
      ensures DocAt(flushed, dk) == DocAt(db, dk)
    {
      CfdiDocsAreForeign(q, entries, dk);
    }
  }

  lemma CfdiDocsAreForeign(q: Query, entries: seq<Entry>, dk: DocKey)
    requires q.requestType.Cfdi?
    ensures ForeignDoc(q, entries, dk)
  {
  }

  /** A metadata job leaves what an ingest of its rows leaves. */
  lemma MetadataJobIsIngest(db: Db, q: Query, entries: seq<Entry>, sha: string, members: seq<Member>)
    requires q.requestType.Metadata?
    ensures Job(db, q, entries, sha, members) == Ingest(db, q, entries, sha)
  {
    hide UpsertAll, Merged;
  }

  lemma IngestIsFlushed(db: Db, q: Query, entries: seq<Entry>, sha: string)
    requires !UpsertAll(Open(db), q, entries, sha).clash
    ensures Ingest(db, q, entries, sha) == Merged(UpsertAll(Open(db), q, entries, sha))
  {
    hide UpsertAll;
  }

  // ----- After a reconcile -----

  /** A reconcile changes nothing but the states of the rows it lists; each of them gets the state of its
      evidence and status, where it can be neither new nor moved. */
  lemma ReconcileTells(db: Db, tenant: Option<string>, keys: seq<Key>, k: Key)
    requires Inv(db) && Lists(db, tenant, keys) && k in db.ledger
    ensures var after := ReconcileAll(db, keys);
            && after.docs == db.docs && after.evidence == db.evidence && k in after.ledger
            && after.ledger[k] == db.ledger[k].(state := after.ledger[k].state)
            && var covered := tenant.None? || tenant.value == "" || k.tenant == tenant.value;
            && (!covered ==> after.ledger[k] == db.ledger[k])
            && (covered ==>
                  var status := db.ledger[k].entry.status;
                  StateFits(after.ledger[k].state, status, HasXml(db, DocOf(k)), Some(status)))
  {
    ReconcileAllKept(db, keys, k);
    if k in keys {
      ReconcileAllSettles(db, keys);
      ReconciledFollowsEvidence(db, k);
      ReconciledFits(db, k);
    }
    hide ReconcileAll, ReconciledState, StateFits, Inv;
  }

  lemma ReconciledFits(db: Db, k: Key)
    requires k in db.ledger && (ReconciledState(db, k) == XmlDownloaded <==> HasXml(db, DocOf(k)))
    ensures var status := db.ledger[k].entry.status;
            StateFits(ReconciledState(db, k), status, HasXml(db, DocOf(k)), Some(status))
  {
    hide Lower, Strip, HasXml;
  }

  lemma {:induction false} ReconcileAllKept(db: Db, keys: seq<Key>, k: Key)
    requires k in db.ledger
    ensures var after := ReconcileAll(db, keys);
            && after.docs == db.docs && after.evidence == db.evidence && k in after.ledger
            && after.ledger[k] == db.ledger[k].(state := after.ledger[k].state)
            && (k !in keys ==> after.ledger[k] == db.ledger[k])
  {
    if keys != [] {
      hide ReconcileRow;
      var n := |keys| - 1;
      ReconcileAllKept(db, keys[..n], k);
      ReconcileRowKept(ReconcileAll(db, keys[..n]), keys[n], k);
    }
  }

  lemma ReconcileRowKept(db: Db, j: Key, k: Key)
    requires k in db.ledger
    ensures var after := ReconcileRow(db, j);
            && after.docs == db.docs && after.evidence == db.evidence && k in after.ledger
            && after.ledger[k] == db.ledger[k].(state := after.ledger[k].state)
            && (k != j ==> after.ledger[k] == db.ledger[k])
  {
    hide ReconciledState;
  }
}
