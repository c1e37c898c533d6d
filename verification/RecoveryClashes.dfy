/** When a batch of metadata or a job fails because it repeats a key. Sessions do not autoflush, so a row
    that was just added is not found when its UUID comes again. */
module RecoveryClashes {
  import opened Text
  import Reconciliation
  import opened RecoveryLedger
  import opened RecoverySpelling

  // ----- Metadata -----

  /** A row of this UUID, or for metadata requests a document, is not stored yet. */
  predicate IsNew(db: Db, q: Query, uuid: string) {
    Key(q.tenant, uuid, q.direction) !in db.ledger || (q.requestType.Metadata? && DocKey(q.tenant, uuid) !in db.docs)
  }

  predicate Listed(entries: seq<Entry>, uuid: string) {
    exists i :: 0 <= i < |entries| && entries[i].uuid == uuid
  }

  /** A new UUID is listed twice. */
  predicate Repeats(db: Db, q: Query, entries: seq<Entry>) {
    exists i, j :: 0 <= i < j < |entries| && entries[i].uuid == entries[j].uuid && IsNew(db, q, entries[j].uuid)
  }

  lemma RepeatsMore(db: Db, q: Query, front: seq<Entry>, e: Entry)
    ensures Repeats(db, q, front + [e]) <==> Repeats(db, q, front) || (Listed(front, e.uuid) && IsNew(db, q, e.uuid))
  {
    hide IsNew;
    var all := front + [e];
    assert forall i :: 0 <= i < |front| ==> all[i] == front[i];
    if Repeats(db, q, front) {
      var i, j :| 0 <= i < j < |front| && front[i].uuid == front[j].uuid && IsNew(db, q, front[j].uuid);
      assert all[i].uuid == all[j].uuid && IsNew(db, q, all[j].uuid);
    }
    if Listed(front, e.uuid) && IsNew(db, q, e.uuid) {
      var i :| 0 <= i < |front| && front[i].uuid == e.uuid;
      assert all[i].uuid == all[|front|].uuid && IsNew(db, q, all[|front|].uuid);
    }
  }

  lemma ListedMore(front: seq<Entry>, e: Entry, uuid: string)
    ensures Listed(front + [e], uuid) <==> Listed(front, uuid) || e.uuid == uuid
  {
    var all := front + [e];
    assert forall i :: 0 <= i < |front| ==> all[i] == front[i];
    assert all[|front|] == e;
  }

  /** What a session knows after some entries: stored keys as before, and one new row and document for each
      UUID that had none. */
  ghost predicate Batch(db: Db, q: Query, entries: seq<Entry>, s: Session) {
    && s.db.ledger.Keys == db.ledger.Keys && s.db.docs.Keys == db.docs.Keys
    && (forall u :: Key(q.tenant, u, q.direction) in s.rows <==>
          Key(q.tenant, u, q.direction) !in db.ledger && Listed(entries, u))
    && (forall u :: DocKey(q.tenant, u) in s.docs <==>
          q.requestType.Metadata? && DocKey(q.tenant, u) !in db.docs && Listed(entries, u))
    && (s.clash <==> Repeats(db, q, entries))
  }

  lemma UpsertEntryShape(s: Session, q: Query, e: Entry, sha: string)
    ensures var t, k, dk := UpsertEntry(s, q, e, sha), Key(q.tenant, e.uuid, q.direction), DocKey(q.tenant, e.uuid);
            var addsDoc := q.requestType.Metadata? && dk !in s.db.docs;
            && t.db.ledger.Keys == s.db.ledger.Keys && t.db.docs.Keys == s.db.docs.Keys
            && t.rows.Keys == s.rows.Keys + (if k in s.db.ledger then {} else {k})
            && t.docs.Keys == s.docs.Keys + (if addsDoc then {dk} else {})
            && (t.clash <==> s.clash || (k !in s.db.ledger && k in s.rows) || (addsDoc && dk in s.docs))
  {
    hide EntryState;
    LedgerShape(s, q, e, sha);
    DocumentShape(UpsertLedger(s, q, e, sha), q, e, EntryState(s, q, e));
    hide UpsertLedger, UpsertDocument;
  }

  lemma LedgerShape(s: Session, q: Query, e: Entry, sha: string)
    ensures var t, k := UpsertLedger(s, q, e, sha), Key(q.tenant, e.uuid, q.direction);
            && t.db.ledger.Keys == s.db.ledger.Keys && t.db.docs == s.db.docs && t.docs == s.docs
            && t.rows.Keys == s.rows.Keys + (if k in s.db.ledger then {} else {k})
            && (t.clash <==> s.clash || (k !in s.db.ledger && k in s.rows))
  {
    hide EntryState;
  }

  lemma DocumentShape(s: Session, q: Query, e: Entry, state: Reconciliation.State)
    ensures var t, dk := UpsertDocument(s, q, e, state), DocKey(q.tenant, e.uuid);
            && t.db.ledger == s.db.ledger && t.rows == s.rows && t.db.docs.Keys == s.db.docs.Keys
            && t.docs.Keys == s.docs.Keys + (if dk in s.db.docs then {} else {dk})
            && (t.clash <==> s.clash || (dk !in s.db.docs && dk in s.docs))
  {
  }

  lemma BatchNext(db: Db, q: Query, front: seq<Entry>, s: Session, e: Entry, sha: string)
    requires Batch(db, q, front, s)
    ensures Batch(db, q, front + [e], UpsertEntry(s, q, e, sha))
  {
    hide UpsertEntry, Listed, Repeats;
    UpsertEntryShape(s, q, e, sha);
    RepeatsMore(db, q, front, e);
    forall u
      ensures Listed(front + [e], u) <==> Listed(front, u) || e.uuid == u
    {
      ListedMore(front, e, u);
    }
  }

  lemma NothingListed(db: Db, q: Query)
    ensures Batch(db, q, [], Open(db))
  {
    hide IsNew;
  }

  lemma {:induction false} BatchIs(db: Db, q: Query, entries: seq<Entry>, sha: string)
    ensures Batch(db, q, entries, UpsertAll(Open(db), q, entries, sha))
  {
    hide Batch, UpsertEntry;
    if entries == [] {
      NothingListed(db, q);
    } else {
      var n := |entries| - 1;
      BatchIs(db, q, entries[..n], sha);
      assert entries == entries[..n] + [entries[n]];
      BatchNext(db, q, entries[..n], UpsertAll(Open(db), q, entries[..n], sha), entries[n], sha);
    }
  }

  /** A metadata batch fails exactly when it lists a UUID twice whose row, or for metadata requests whose
      document, is not stored yet. */
  lemma BatchFailsExactly(db: Db, q: Query, entries: seq<Entry>, sha: string)
    ensures UpsertAll(Open(db), q, entries, sha).clash <==> Repeats(db, q, entries)
  {
    BatchIs(db, q, entries, sha);
    hide UpsertAll, Repeats, Listed;
  }

  // ----- XML storage -----

  function DocFor(q: Query, m: Member): DocKey {
    DocKey(q.tenant, Upper(m.uuid))
  }

  function EvidenceFor(q: Query, m: Member): EvidenceKey {
    EvidenceKey(DocFor(q, m), m.sha)
  }

  /** Two members meet: both add the document of one UUID, or the same evidence. */
  predicate Meet(db: Db, q: Query, a: Member, b: Member) {
    || (DocFor(q, a) == DocFor(q, b) && DocFor(q, b) !in db.docs)
    || (EvidenceFor(q, a) == EvidenceFor(q, b) && EvidenceFor(q, b) !in db.evidence)
  }

  predicate MembersMeet(db: Db, q: Query, members: seq<Member>) {
    exists i, j :: 0 <= i < j < |members| && Meet(db, q, members[i], members[j])
  }

  predicate MeetsOne(db: Db, q: Query, members: seq<Member>, m: Member) {
    exists i :: 0 <= i < |members| && Meet(db, q, members[i], m)
  }

  lemma MeetMore(db: Db, q: Query, front: seq<Member>, m: Member)
    ensures MembersMeet(db, q, front + [m]) <==> MembersMeet(db, q, front) || MeetsOne(db, q, front, m)
  {
    hide Meet;
    var all := front + [m];
    assert forall i :: 0 <= i < |front| ==> all[i] == front[i];
    if MembersMeet(db, q, front) {
      var i, j :| 0 <= i < j < |front| && Meet(db, q, front[i], front[j]);
      assert Meet(db, q, all[i], all[j]);
    }
    if MeetsOne(db, q, front, m) {
      var i :| 0 <= i < |front| && Meet(db, q, front[i], m);
      assert Meet(db, q, all[i], all[|front|]);
    }
  }

  predicate HasDoc(q: Query, members: seq<Member>, dk: DocKey) {
    exists i :: 0 <= i < |members| && DocFor(q, members[i]) == dk
  }

  predicate HasEvidence(q: Query, members: seq<Member>, e: EvidenceKey) {
    exists i :: 0 <= i < |members| && EvidenceFor(q, members[i]) == e
  }

  lemma HasMore(q: Query, front: seq<Member>, m: Member, dk: DocKey, e: EvidenceKey)
    ensures HasDoc(q, front + [m], dk) <==> HasDoc(q, front, dk) || DocFor(q, m) == dk
    ensures HasEvidence(q, front + [m], e) <==> HasEvidence(q, front, e) || EvidenceFor(q, m) == e
  {
    hide DocFor, EvidenceFor;
    var all := front + [m];
    assert forall i :: 0 <= i < |front| ==> all[i] == front[i];
    assert all[|front|] == m;
  }

  ghost predicate Storing(db: Db, q: Query, members: seq<Member>, s: Session) {
    && s.db.docs.Keys == db.docs.Keys && s.db.evidence == db.evidence
    && (forall dk :: dk in s.docs <==> dk !in db.docs && HasDoc(q, members, dk))
    && (forall e :: e in s.evidence <==> e !in db.evidence && HasEvidence(q, members, e))
    && (s.clash <==> MembersMeet(db, q, members))
  }

  lemma StoreDocShape(s: Session, dk: DocKey, sha: string)
    ensures var t := StoreEvidence(s, dk, sha);
            && t.db.docs.Keys == s.db.docs.Keys && t.db.evidence == s.db.evidence
            && t.docs.Keys == s.docs.Keys + (if dk in s.db.docs then {} else {dk})
            && t.evidence == s.evidence + (if EvidenceKey(dk, sha) in s.db.evidence then {} else {EvidenceKey(dk, sha)})
            && (t.clash <==> s.clash || (dk !in s.db.docs && dk in s.docs)
                             || (EvidenceKey(dk, sha) !in s.db.evidence && EvidenceKey(dk, sha) in s.evidence))
  {
    AddedDocShape(s, dk, sha);
    hide StoreDocument;
  }

  lemma AddedDocShape(s: Session, dk: DocKey, sha: string)
    ensures var t := StoreDocument(s, dk, sha);
            && t.db.docs.Keys == s.db.docs.Keys && t.db.evidence == s.db.evidence && t.evidence == s.evidence
            && t.docs.Keys == s.docs.Keys + (if dk in s.db.docs then {} else {dk})
            && (t.clash <==> s.clash || (dk !in s.db.docs && dk in s.docs))
  {
  }

  lemma MoveShape(s: Session, k: Key, row: Row, reason: string)
    requires k in s.db.ledger
    ensures var t := MoveRow(s, k, row, reason);
            && t.db.docs == s.db.docs && t.db.evidence == s.db.evidence
            && t.docs == s.docs && t.evidence == s.evidence && t.clash == s.clash
  {
  }

  lemma StoreXmlKeys(s: Session, q: Query, m: Member)
    ensures var t, dk, e := StoreXml(s, q, m), DocFor(q, m), EvidenceFor(q, m);
            && t.db.docs.Keys == s.db.docs.Keys && t.db.evidence == s.db.evidence
            && t.docs.Keys == s.docs.Keys + (if dk in s.db.docs then {} else {dk})
            && t.evidence == s.evidence + (if e in s.db.evidence then {} else {e})
            && (t.clash <==> s.clash || (dk !in s.db.docs && dk in s.docs) || (e !in s.db.evidence && e in s.evidence))
  {
    hide Upper, StoreEvidence, MoveRow;
    var dk, k := DocFor(q, m), RowOf(q, m);
    StoreDocShape(s, dk, m.sha);
    var s1 := StoreEvidence(s, dk, m.sha);
    if k in s1.db.ledger {
      MoveShape(s1, k, s1.db.ledger[k].(state := Reconciliation.XmlDownloaded), "xml evidence stored");
    }
  }

  lemma MeetsOneIs(db: Db, q: Query, members: seq<Member>, m: Member)
    ensures MeetsOne(db, q, members, m) <==>
              || (DocFor(q, m) !in db.docs && HasDoc(q, members, DocFor(q, m)))
              || (EvidenceFor(q, m) !in db.evidence && HasEvidence(q, members, EvidenceFor(q, m)))
  {
    hide DocFor;
    if MeetsOne(db, q, members, m) {
      var i :| 0 <= i < |members| && Meet(db, q, members[i], m);
      assert HasDoc(q, members, DocFor(q, members[i])) && HasEvidence(q, members, EvidenceFor(q, members[i]));
    }
    if DocFor(q, m) !in db.docs && HasDoc(q, members, DocFor(q, m)) {
      var i :| 0 <= i < |members| && DocFor(q, members[i]) == DocFor(q, m);
      assert Meet(db, q, members[i], m);
    }
    if EvidenceFor(q, m) !in db.evidence && HasEvidence(q, members, EvidenceFor(q, m)) {
      var i :| 0 <= i < |members| && EvidenceFor(q, members[i]) == EvidenceFor(q, m);
      assert Meet(db, q, members[i], m);
    }
  }

  lemma StoringNext(db: Db, q: Query, front: seq<Member>, s: Session, m: Member)
    requires Storing(db, q, front, s)
    ensures Storing(db, q, front + [m], StoreXml(s, q, m))
  {
    hide StoreXml, HasDoc, HasEvidence, MembersMeet, MeetsOne, DocFor, EvidenceFor;
    StoreXmlKeys(s, q, m);
    MeetMore(db, q, front, m);
    MeetsOneIs(db, q, front, m);
    forall dk
      ensures HasDoc(q, front + [m], dk) <==> HasDoc(q, front, dk) || DocFor(q, m) == dk
    {
      HasMore(q, front, m, dk, EvidenceFor(q, m));
    }
    forall e
      ensures HasEvidence(q, front + [m], e) <==> HasEvidence(q, front, e) || EvidenceFor(q, m) == e
    {
      HasMore(q, front, m, DocFor(q, m), e);
    }
  }

  lemma NothingStored(db: Db, q: Query)
    ensures Storing(db, q, [], Open(db))
  {
    hide DocFor, EvidenceFor;
  }

  lemma {:induction false} StoringIs(db: Db, q: Query, members: seq<Member>)
    ensures Storing(db, q, members, StoreAll(Open(db), q, members))
  {
    hide Storing, StoreXml;
    if members == [] {
      NothingStored(db, q);
    } else {
      var n := |members| - 1;
      StoringIs(db, q, members[..n]);
      assert members == members[..n] + [members[n]];
      StoringNext(db, q, members[..n], StoreAll(Open(db), q, members[..n]), members[n]);
    }
  }

  /** Storing XML fails exactly when two members have one UUID, letter case aside, whose document is not
      stored yet, or one UUID and the same bytes whose evidence is not stored yet. */
  lemma StoringFailsExactly(db: Db, q: Query, members: seq<Member>)
    ensures StoreAll(Open(db), q, members).clash <==> MembersMeet(db, q, members)
  {
    StoringIs(db, q, members);
    hide StoreAll, MembersMeet, HasDoc, HasEvidence;
  }

  /** A CFDI job goes through exactly when neither its metadata nor its packages repeat what is new. */
  lemma CommittedExactly(db: Db, q: Query, entries: seq<Entry>, sha: string, members: seq<Member>)
    requires q.requestType.Cfdi?
    ensures Committed(db, q, entries, sha, members) <==>
              !Repeats(db, q, entries) && !MembersMeet(Merged(UpsertAll(Open(db), q, entries, sha)), q, members)
  {
    BatchFailsExactly(db, q, entries, sha);
    StoringFailsExactly(Merged(UpsertAll(Open(db), q, entries, sha)), q, members);
    hide UpsertAll, StoreAll, Repeats, MembersMeet, Merged;
  }

  /** A metadata file that lists one new UUID twice is lost as a whole: the tables stay empty. */
  lemma NewUuidTwice(q: Query, e: Entry, others: seq<Entry>, sha: string)
    ensures Ingest(EMPTY, q, [e, e] + others, sha) == EMPTY
  {
    var entries := [e, e] + others;
    assert entries[0].uuid == entries[1].uuid && IsNew(EMPTY, q, entries[1].uuid);
    BatchFailsExactly(EMPTY, q, entries, sha);
    hide UpsertAll, Repeats;
  }
}
