/** Agreement of the recovery tables in every reachable state. */
module RecoveryTheorems {
  import opened Wrappers
  import opened Text
  import opened Reconciliation
  import opened RecoveryLedger

  // ----- The event log -----

  /** The state the log assigns to a row: that of its last event. */
  function Current(events: seq<Event>, k: Key): Option<State> {
    if events == [] then None
    else if events[|events| - 1].key == k then Some(events[|events| - 1].next)
    else Current(events[..|events| - 1], k)
  }

  /** Each event starts where the log of its row had ended (at no state for a new row) and moves. */
  ghost predicate Linked(events: seq<Event>) {
    forall i :: 0 <= i < |events| ==>
      events[i].previous == Current(events[..i], events[i].key) && events[i].previous != Some(events[i].next)
  }

  function StateOf(db: Db, k: Key): Option<State> {
    if k in db.ledger then Some(db.ledger[k].state) else None
  }

  /** The ledger is the replay of its log. */
  ghost predicate LogOk(db: Db) {
    Linked(db.events) && forall k :: StateOf(db, k) == Current(db.events, k)
  }

  /** A document carries an XML digest exactly when evidence exists for it, the digest is one of the
      evidence, and only then is it marked as downloaded. */
  ghost predicate EvidenceOk(db: Db) {
    && (forall e :: e in db.evidence ==> e.doc in db.docs && db.docs[e.doc].xmlSha.Some?)
    && (forall dk :: dk in db.docs && db.docs[dk].xmlSha.Some? ==>
        EvidenceKey(dk, db.docs[dk].xmlSha.value) in db.evidence)
    && (forall dk :: dk in db.docs ==> (db.docs[dk].downloadState == XmlDownloaded <==> db.docs[dk].xmlSha.Some?))
  }

  /** A row is marked as downloaded only when evidence exists. */
  ghost predicate RowsOk(db: Db) {
    forall k :: k in db.ledger && db.ledger[k].state == XmlDownloaded ==> HasXml(db, DocOf(k))
  }

  ghost predicate Inv(db: Db) {
    LogOk(db) && EvidenceOk(db) && RowsOk(db)
  }

  // ----- One transition -----

  function Transition(db: Db, k: Key, row: Row, reason: string): Db {
    var before := StateOf(db, k);
    db.(ledger := db.ledger[k := row],
        events := if before == Some(row.state) then db.events else db.events + [Event(k, before, row.state, reason)])
  }

  lemma CurrentSnoc(events: seq<Event>, e: Event, k: Key)
    ensures Current(events + [e], k) == if e.key == k then Some(e.next) else Current(events, k)
  {
    assert (events + [e])[..|events|] == events;
  }

  lemma LinkedSnoc(events: seq<Event>, e: Event)
    requires Linked(events) && e.previous == Current(events, e.key) && e.previous != Some(e.next)
    ensures Linked(events + [e])
  {
    var all := events + [e];
    forall i | 0 <= i < |all|
      ensures all[i].previous == Current(all[..i], all[i].key) && all[i].previous != Some(all[i].next)
    {
      assert all[..i] == events[..i];
      assert events[..|events|] == events;
    }
  }

  lemma TransitionLog(db: Db, k: Key, row: Row, reason: string)
    requires LogOk(db)
    ensures LogOk(Transition(db, k, row, reason))
  {
    var after := Transition(db, k, row, reason);
    var e := Event(k, StateOf(db, k), row.state, reason);
    if StateOf(db, k) != Some(row.state) {
      LinkedSnoc(db.events, e);
      forall j ensures StateOf(after, j) == Current(after.events, j) {
        CurrentSnoc(db.events, e, j);
      }
    } else {
      forall j ensures StateOf(after, j) == Current(after.events, j) {
        assert StateOf(db, j) == Current(db.events, j);
      }
    }
  }

  // ----- Sessions -----

  /** Until a clash, the stored and the added rows together satisfy the invariant. */
  ghost predicate SessionOk(s: Session) {
    !s.clash ==> Inv(Merged(s)) && s.rows.Keys !! s.db.ledger.Keys && s.docs.Keys !! s.db.docs.Keys
  }

  lemma OpenOk(db: Db)
    requires Inv(db)
    ensures SessionOk(Open(db)) && Merged(Open(db)) == db
  {
    assert db.ledger + map[] == db.ledger && db.docs + map[] == db.docs && db.evidence + {} == db.evidence;
  }

  lemma MergedMoveRow(s: Session, k: Key, row: Row, reason: string)
    requires !s.clash && s.rows.Keys !! s.db.ledger.Keys && k in s.db.ledger
    ensures Merged(MoveRow(s, k, row, reason)) == Transition(Merged(s), k, row, reason)
  {
    assert s.db.ledger[k := row] + s.rows == (s.db.ledger + s.rows)[k := row];
  }

  lemma MergedNewRow(s: Session, k: Key, row: Row, reason: string)
    requires !s.clash && k !in s.db.ledger && k !in s.rows
    ensures Merged(LogEvent(AddRow(s, k, row), Event(k, None, row.state, reason)))
            == Transition(Merged(s), k, row, reason)
  {
    assert s.db.ledger + s.rows[k := row] == (s.db.ledger + s.rows)[k := row];
  }

  /** Before any clash, upserting a ledger row is one transition of the combined tables. */
  lemma MergedUpsertLedger(s: Session, q: Query, e: Entry, sha: string)
    requires s.rows.Keys !! s.db.ledger.Keys && !UpsertLedger(s, q, e, sha).clash
    ensures var k := Key(q.tenant, e.uuid, q.direction); var s' := UpsertLedger(s, q, e, sha);
            && !s.clash
            && s'.rows.Keys !! s'.db.ledger.Keys
            && Merged(s') == Transition(Merged(s), k, Row(e, sha, EntryState(s, q, e)),
                                        if k in s.db.ledger then "metadata state updated" else "metadata discovered")
  {
    hide EntryState;
    var k := Key(q.tenant, e.uuid, q.direction);
    var row := Row(e, sha, EntryState(s, q, e));
    if k in s.db.ledger {
      MergedMoveRow(s, k, row, "metadata state updated");
    } else {
      MergedNewRow(s, k, row, "metadata discovered");
    }
  }

  lemma UpsertLedgerFrame(s: Session, q: Query, e: Entry, sha: string)
    ensures var s' := UpsertLedger(s, q, e, sha);
            && (s.clash ==> s'.clash) && s'.evidence == s.evidence && s'.docs == s.docs
            && s'.db.docs == s.db.docs && s'.db.evidence == s.db.evidence
  {
    hide EntryState;
  }

  lemma EntryStateFollowsEvidence(s: Session, q: Query, e: Entry)
    ensures EntryState(s, q, e) == XmlDownloaded <==> HasXml(s.db, DocKey(q.tenant, e.uuid))
  {
    var k := Key(q.tenant, e.uuid, q.direction);
    DecideFollowsEvidence(e.status, HasXml(s.db, DocOf(k)), k !in s.db.ledger,
                          if k in s.db.ledger then Some(s.db.ledger[k].entry.status) else None);
  }

  lemma UpsertLedgerOk(s: Session, q: Query, e: Entry, sha: string)
    requires SessionOk(s) && s.evidence == {}
    ensures SessionOk(UpsertLedger(s, q, e, sha))
  {
    hide UpsertLedger, EntryState, Transition, LogOk, EvidenceOk, RowsOk;
    var s' := UpsertLedger(s, q, e, sha);
    UpsertLedgerFrame(s, q, e, sha);
    if !s'.clash {
      var k := Key(q.tenant, e.uuid, q.direction);
      var row := Row(e, sha, EntryState(s, q, e));
      var reason := if k in s.db.ledger then "metadata state updated" else "metadata discovered";
      MergedUpsertLedger(s, q, e, sha);
      EntryStateFollowsEvidence(s, q, e);
      assert Merged(s).evidence == s.db.evidence;
      TransitionLog(Merged(s), k, row, reason);
      TransitionRows(Merged(s), k, row, reason);
    }
  }

  lemma TransitionRows(db: Db, k: Key, row: Row, reason: string)
    requires EvidenceOk(db) && RowsOk(db) && (row.state == XmlDownloaded ==> HasXml(db, DocOf(k)))
    ensures EvidenceOk(Transition(db, k, row, reason)) && RowsOk(Transition(db, k, row, reason))
  {
    var after := Transition(db, k, row, reason);
    forall j | j in after.ledger && after.ledger[j].state == XmlDownloaded ensures HasXml(after, DocOf(j)) {
      assert HasXml(db, DocOf(j));
    }
  }

  lemma LogIgnoresDocs(db: Db, db': Db)
    requires LogOk(db) && db'.ledger == db.ledger && db'.events == db.events
    ensures LogOk(db')
  {
    forall k ensures StateOf(db', k) == Current(db'.events, k) {
      assert StateOf(db, k) == Current(db.events, k);
    }
  }

  lemma DocumentChangeOk(db: Db, dk: DocKey, doc: Doc)
    requires Inv(db) && doc.xmlSha == (if dk in db.docs then db.docs[dk].xmlSha else None)
    requires doc.downloadState == XmlDownloaded <==> doc.xmlSha.Some?
    ensures Inv(db.(docs := db.docs[dk := doc]))
  {
    var after := db.(docs := db.docs[dk := doc]);
    LogIgnoresDocs(db, after);
    forall k | k in after.ledger && after.ledger[k].state == XmlDownloaded ensures HasXml(after, DocOf(k)) {
      assert HasXml(db, DocOf(k));
    }
  }

  lemma MergedUpsertDocument(s: Session, q: Query, e: Entry, state: State)
    requires s.docs.Keys !! s.db.docs.Keys && !UpsertDocument(s, q, e, state).clash
    ensures var dk := DocKey(q.tenant, e.uuid); var s' := UpsertDocument(s, q, e, state); var m := Merged(s);
            && !s.clash && s'.docs.Keys !! s'.db.docs.Keys && s'.rows == s.rows && s'.db.ledger == s.db.ledger
            && (dk in m.docs <==> dk in s.db.docs)
            && Merged(s') == m.(docs := m.docs[dk :=
                                if dk in m.docs && m.docs[dk].xmlSha.Some? then m.docs[dk].(status := e.status)
                                else Doc(e.status, state, None)])
  {
    var dk := DocKey(q.tenant, e.uuid);
    var s' := UpsertDocument(s, q, e, state);
    if dk in s.db.docs {
      assert Merged(s').docs == Merged(s).docs[dk := s'.db.docs[dk]];
    } else {
      assert Merged(s').docs == Merged(s).docs[dk := Doc(e.status, state, None)];
    }
  }

  lemma UpsertDocumentOk(s: Session, q: Query, e: Entry, state: State)
    requires SessionOk(s) && s.evidence == {}
    requires state == XmlDownloaded <==> HasXml(s.db, DocKey(q.tenant, e.uuid))
    ensures SessionOk(UpsertDocument(s, q, e, state))
  {
    hide UpsertDocument, LogOk, RowsOk;
    var dk := DocKey(q.tenant, e.uuid);
    var m := Merged(s);
    UpsertDocumentFrame(s, q, e, state);
    if !UpsertDocument(s, q, e, state).clash {
      MergedUpsertDocument(s, q, e, state);
      assert m.evidence == s.db.evidence;
      var doc := if dk in m.docs && m.docs[dk].xmlSha.Some? then m.docs[dk].(status := e.status)
                 else Doc(e.status, state, None);
      DocumentChangeOk(m, dk, doc);
    }
  }

  lemma UpsertDocumentFrame(s: Session, q: Query, e: Entry, state: State)
    ensures UpsertDocument(s, q, e, state).evidence == s.evidence
    ensures UpsertDocument(s, q, e, state).db.evidence == s.db.evidence
    ensures s.clash ==> UpsertDocument(s, q, e, state).clash
  {
  }

  lemma UpsertEntryOk(s: Session, q: Query, e: Entry, sha: string)
    requires SessionOk(s) && s.evidence == {}
    ensures SessionOk(UpsertEntry(s, q, e, sha)) && UpsertEntry(s, q, e, sha).evidence == {}
  {
    hide SessionOk, UpsertLedger, UpsertDocument, EntryState;
    UpsertLedgerOk(s, q, e, sha);
    UpsertLedgerFrame(s, q, e, sha);
    EntryStateFollowsEvidence(s, q, e);
    if q.requestType.Metadata? {
      UpsertDocumentOk(UpsertLedger(s, q, e, sha), q, e, EntryState(s, q, e));
      UpsertDocumentFrame(UpsertLedger(s, q, e, sha), q, e, EntryState(s, q, e));
    }
  }

  lemma {:induction false} UpsertAllOk(s: Session, q: Query, entries: seq<Entry>, sha: string)
    requires SessionOk(s) && s.evidence == {}
    ensures SessionOk(UpsertAll(s, q, entries, sha)) && UpsertAll(s, q, entries, sha).evidence == {}
  {
    if entries != [] {
      hide SessionOk, UpsertEntry;
      UpsertAllOk(s, q, entries[..|entries| - 1], sha);
      UpsertEntryOk(UpsertAll(s, q, entries[..|entries| - 1], sha), q, entries[|entries| - 1], sha);
    }
  }

  // ----- XML storage -----

  /** Storing one member, on the tables as they will be after the flush. */
  function Stored(db: Db, dk: DocKey, doc: Doc, sha: string): Db {
    db.(docs := db.docs[dk := doc], evidence := db.evidence + {EvidenceKey(dk, sha)})
  }

  lemma StoredOk(db: Db, dk: DocKey, doc: Doc, sha: string)
    requires Inv(db) && doc.xmlSha == Some(sha) && doc.downloadState == XmlDownloaded
    ensures Inv(Stored(db, dk, doc, sha)) && HasXml(Stored(db, dk, doc, sha), dk)
  {
    var after := Stored(db, dk, doc, sha);
    LogIgnoresDocs(db, after);
    assert EvidenceKey(dk, sha) in after.evidence;
    forall k | k in after.ledger && after.ledger[k].state == XmlDownloaded ensures HasXml(after, DocOf(k)) {
      assert HasXml(db, DocOf(k));
      var e :| e in db.evidence && e.doc == DocOf(k);
      assert e in after.evidence;
    }
  }

  function StoredDoc(s: Session, dk: DocKey, sha: string): Doc {
    if dk in s.db.docs then s.db.docs[dk].(downloadState := XmlDownloaded, xmlSha := Some(sha))
    else Doc("vigente", XmlDownloaded, Some(sha))
  }

  lemma MergedStoreDocument(s: Session, dk: DocKey, sha: string)
    requires s.docs.Keys !! s.db.docs.Keys && !StoreDocument(s, dk, sha).clash
    ensures var s' := StoreDocument(s, dk, sha); var m := Merged(s);
            && !s.clash && s'.docs.Keys !! s'.db.docs.Keys && s'.rows == s.rows && s'.db.ledger == s.db.ledger
            && Merged(s') == m.(docs := m.docs[dk := StoredDoc(s, dk, sha)])
  {
    var doc := StoredDoc(s, dk, sha);
    if dk in s.db.docs {
      assert s.db.docs[dk := doc] + s.docs == (s.db.docs + s.docs)[dk := doc];
    } else {
      assert s.db.docs + s.docs[dk := doc] == (s.db.docs + s.docs)[dk := doc];
    }
  }

  lemma MergedStoreEvidence(s: Session, dk: DocKey, sha: string)
    requires s.docs.Keys !! s.db.docs.Keys && !StoreEvidence(s, dk, sha).clash
    ensures var s' := StoreEvidence(s, dk, sha);
            && !s.clash && s'.docs.Keys !! s'.db.docs.Keys && s'.rows == s.rows && s'.db.ledger == s.db.ledger
            && Merged(s') == Stored(Merged(s), dk, StoredDoc(s, dk, sha), sha)
  {
    hide StoreDocument, StoredDoc;
    MergedStoreDocument(s, dk, sha);
    var s' := StoreEvidence(s, dk, sha);
    assert Merged(s').evidence == Merged(s).evidence + {EvidenceKey(dk, sha)};
  }

  lemma MoveRowFrame(s: Session, k: Key, state: State, reason: string)
    ensures k in s.db.ledger ==>
              var s' := MoveRow(s, k, s.db.ledger[k].(state := state), reason);
              && s'.clash == s.clash && s'.rows == s.rows && s'.docs == s.docs && s'.evidence == s.evidence
              && s'.db.docs == s.db.docs && s'.db.ledger.Keys == s.db.ledger.Keys && s'.db.evidence == s.db.evidence
  {
  }

  lemma ClashStays(s: Session, dk: DocKey, sha: string)
    ensures s.clash ==> StoreEvidence(s, dk, sha).clash
  {
  }

  lemma StoreXmlOk(s: Session, q: Query, m: Member)
    requires SessionOk(s)
    ensures SessionOk(StoreXml(s, q, m))
  {
    hide StoreEvidence, MoveRow, LogOk, EvidenceOk, RowsOk, Upper, Transition, StoredDoc;
    var dk, k := DocKey(q.tenant, Upper(m.uuid)), Key(q.tenant, Upper(m.uuid), q.direction);
    var s1 := StoreEvidence(s, dk, m.sha);
    MoveRowFrame(s1, k, XmlDownloaded, "xml evidence stored");
    if !StoreXml(s, q, m).clash {
      ClashStays(s, dk, m.sha);
      MergedStoreEvidence(s, dk, m.sha);
      StoredDocShape(s, dk, m.sha);
      StoredOk(Merged(s), dk, StoredDoc(s, dk, m.sha), m.sha);
      if k in s1.db.ledger {
        var row := s1.db.ledger[k].(state := XmlDownloaded);
        MergedMoveRow(s1, k, row, "xml evidence stored");
        TransitionLog(Merged(s1), k, row, "xml evidence stored");
        TransitionRows(Merged(s1), k, row, "xml evidence stored");
      }
    }
  }

  lemma StoredDocShape(s: Session, dk: DocKey, sha: string)
    ensures StoredDoc(s, dk, sha).xmlSha == Some(sha) && StoredDoc(s, dk, sha).downloadState == XmlDownloaded
  {
  }

  lemma {:induction false} StoreAllOk(s: Session, q: Query, members: seq<Member>)
    requires SessionOk(s)
    ensures SessionOk(StoreAll(s, q, members))
  {
    if members != [] {
      hide SessionOk, StoreXml;
      StoreAllOk(s, q, members[..|members| - 1]);
      StoreXmlOk(StoreAll(s, q, members[..|members| - 1]), q, members[|members| - 1]);
    }
  }

  // ----- Reconcile -----

  lemma ReconcileRowOk(db: Db, k: Key)
    requires Inv(db)
    ensures Inv(ReconcileRow(db, k))
  {
    if k in db.ledger {
      OpenOk(db);
      var row := db.ledger[k].(state := ReconciledState(db, k));
      MergedMoveRow(Open(db), k, row, "reconcile command");
      assert ReconcileRow(db, k) == Transition(db, k, row, "reconcile command");
      ReconciledFollowsEvidence(db, k);
      hide LogOk, EvidenceOk, RowsOk;
      TransitionLog(db, k, row, "reconcile command");
      TransitionRows(db, k, row, "reconcile command");
    }
  }

  lemma ReconciledFollowsEvidence(db: Db, k: Key)
    requires EvidenceOk(db) && k in db.ledger
    ensures ReconciledState(db, k) == XmlDownloaded <==> HasXml(db, DocOf(k))
  {
    DecideFollowsEvidence(db.ledger[k].entry.status, false, false, None);
    var dk := DocOf(k);
    if dk in db.docs && db.docs[dk].xmlSha.Some? {
      assert EvidenceKey(dk, db.docs[dk].xmlSha.value) in db.evidence;
    }
  }

  lemma {:induction false} ReconcileAllOk(db: Db, keys: seq<Key>)
    requires Inv(db)
    ensures Inv(ReconcileAll(db, keys))
  {
    if keys != [] {
      hide Inv, ReconcileRow;
      ReconcileAllOk(db, keys[..|keys| - 1]);
      ReconcileRowOk(ReconcileAll(db, keys[..|keys| - 1]), keys[|keys| - 1]);
    }
  }

  // ----- Histories -----

  lemma ApplyOk(db: Db, op: Op)
    requires Inv(db)
    ensures Inv(Apply(db, op))
  {
    OpenOk(db);
    hide UpsertAll, StoreAll, ReconcileAll, LogOk, EvidenceOk, RowsOk;
    match op
    case IngestFile(q, entries, sha) => UpsertAllOk(Open(db), q, entries, sha);
    case RunJob(q, entries, sha, members) =>
      var s := UpsertAll(Open(db), q, entries, sha);
      UpsertAllOk(Open(db), q, entries, sha);
      if !s.clash {
        OpenOk(Merged(s));
        StoreAllOk(Open(Merged(s)), q, members);
      }
    case Reconcile(keys) => ReconcileAllOk(db, keys);
  }

  /** In every reachable state the ledger is the replay of its event log, documents agree with the XML
      evidence, and a row is marked as downloaded only with evidence. */
  lemma {:induction false} LedgerIsReplay(ops: seq<Op>)
    ensures Inv(Exec(EMPTY, ops))
  {
    if ops != [] {
      hide Inv, Apply;
      LedgerIsReplay(ops[..|ops| - 1]);
      ApplyOk(Exec(EMPTY, ops[..|ops| - 1]), ops[|ops| - 1]);
    }
  }

  // ----- Downloaded rows stay downloaded -----

  /** A stored row that is marked as downloaded and has stored evidence. */
  ghost predicate Downloaded(db: Db, k: Key) {
    k in db.ledger && db.ledger[k].state == XmlDownloaded && HasXml(db, DocOf(k))
  }

  lemma UpsertLedgerKeeps(s: Session, q: Query, e: Entry, sha: string, k: Key)
    requires Downloaded(s.db, k)
    ensures Downloaded(UpsertLedger(s, q, e, sha).db, k)
  {
    hide EntryState;
    EntryStateFollowsEvidence(s, q, e);
    UpsertLedgerFrame(s, q, e, sha);
    SameEvidence(s.db, UpsertLedger(s, q, e, sha).db, DocOf(k));
  }

  lemma SameEvidence(db: Db, db': Db, dk: DocKey)
    requires db.evidence <= db'.evidence && HasXml(db, dk)
    ensures HasXml(db', dk)
  {
    var ev :| ev in db.evidence && ev.doc == dk;
    assert ev in db'.evidence;
  }

  lemma UpsertEntryKeeps(s: Session, q: Query, e: Entry, sha: string, k: Key)
    requires Downloaded(s.db, k)
    ensures Downloaded(UpsertEntry(s, q, e, sha).db, k)
  {
    hide EntryState, UpsertLedger;
    UpsertLedgerKeeps(s, q, e, sha, k);
    var s1 := UpsertLedger(s, q, e, sha);
    SameEvidence(s1.db, UpsertDocument(s1, q, e, EntryState(s, q, e)).db, DocOf(k));
  }

  lemma {:induction false} UpsertAllKeeps(s: Session, q: Query, entries: seq<Entry>, sha: string, k: Key)
    requires Downloaded(s.db, k)
    ensures Downloaded(UpsertAll(s, q, entries, sha).db, k)
  {
    if entries != [] {
      hide Downloaded, UpsertEntry;
      UpsertAllKeeps(s, q, entries[..|entries| - 1], sha, k);
      UpsertEntryKeeps(UpsertAll(s, q, entries[..|entries| - 1], sha), q, entries[|entries| - 1], sha, k);
    }
  }

  lemma StoreEvidenceFrame(s: Session, dk: DocKey, sha: string)
    ensures var db' := StoreEvidence(s, dk, sha).db; db'.ledger == s.db.ledger && db'.evidence == s.db.evidence
  {
  }

  lemma StoreXmlKeeps(s: Session, q: Query, m: Member, k: Key)
    requires Downloaded(s.db, k)
    ensures Downloaded(StoreXml(s, q, m).db, k)
  {
    hide Upper, StoreEvidence;
    StoreEvidenceFrame(s, DocKey(q.tenant, Upper(m.uuid)), m.sha);
    SameEvidence(s.db, StoreXml(s, q, m).db, DocOf(k));
  }

  lemma {:induction false} StoreAllKeeps(s: Session, q: Query, members: seq<Member>, k: Key)
    requires Downloaded(s.db, k)
    ensures Downloaded(StoreAll(s, q, members).db, k)
  {
    if members != [] {
      hide Downloaded, StoreXml;
      StoreAllKeeps(s, q, members[..|members| - 1], k);
      StoreXmlKeeps(StoreAll(s, q, members[..|members| - 1]), q, members[|members| - 1], k);
    }
  }

  lemma MergedKeeps(s: Session, k: Key)
    requires Downloaded(s.db, k) && SessionOk(s) && !s.clash
    ensures Downloaded(Merged(s), k)
  {
    var ev :| ev in s.db.evidence && ev.doc == DocOf(k);
    assert ev in Merged(s).evidence;
  }

  lemma ReconcileRowKeeps(db: Db, j: Key, k: Key)
    requires Inv(db) && Downloaded(db, k)
    ensures Downloaded(ReconcileRow(db, j), k)
  {
    if j in db.ledger {
      ReconciledFollowsEvidence(db, j);
      hide ReconciledState;
      var ev :| ev in db.evidence && ev.doc == DocOf(k);
      assert ev in ReconcileRow(db, j).evidence;
    }
  }

  lemma {:induction false} ReconcileAllKeeps(db: Db, keys: seq<Key>, k: Key)
    requires Inv(db) && Downloaded(db, k)
    ensures Downloaded(ReconcileAll(db, keys), k)
  {
    if keys != [] {
      hide Inv, Downloaded, ReconcileRow;
      ReconcileAllKeeps(db, keys[..|keys| - 1], k);
      ReconcileAllOk(db, keys[..|keys| - 1]);
      ReconcileRowKeeps(ReconcileAll(db, keys[..|keys| - 1]), keys[|keys| - 1], k);
    }
  }

  lemma IngestKeeps(db: Db, q: Query, entries: seq<Entry>, sha: string, k: Key)
    requires Inv(db) && Downloaded(db, k)
    ensures Inv(Ingest(db, q, entries, sha)) && Downloaded(Ingest(db, q, entries, sha), k)
  {
    ApplyOk(db, IngestFile(q, entries, sha));
    OpenOk(db);
    hide UpsertAll, Inv, Downloaded;
    var s := UpsertAll(Open(db), q, entries, sha);
    UpsertAllOk(Open(db), q, entries, sha);
    UpsertAllKeeps(Open(db), q, entries, sha, k);
    if !s.clash {
      MergedKeeps(s, k);
    }
  }

  lemma StoreKeeps(db: Db, q: Query, members: seq<Member>, k: Key)
    requires Inv(db) && Downloaded(db, k)
    ensures StoreAll(Open(db), q, members).clash || Downloaded(Merged(StoreAll(Open(db), q, members)), k)
  {
    OpenOk(db);
    hide StoreAll, Inv, Downloaded;
    var s := StoreAll(Open(db), q, members);
    StoreAllOk(Open(db), q, members);
    StoreAllKeeps(Open(db), q, members, k);
    if !s.clash {
      MergedKeeps(s, k);
    }
  }

  /** No writer ever takes a row out of the downloaded state. */
  lemma DownloadedStays(db: Db, op: Op, k: Key)
    requires Inv(db) && k in db.ledger && db.ledger[k].state == XmlDownloaded
    ensures k in Apply(db, op).ledger && Apply(db, op).ledger[k].state == XmlDownloaded
  {
    hide UpsertAll, StoreAll, ReconcileAll, HasXml, LogOk, EvidenceOk;
    assert Downloaded(db, k);
    match op
    case IngestFile(q, entries, sha) => IngestKeeps(db, q, entries, sha, k);
    case RunJob(q, entries, sha, members) =>
      IngestKeeps(db, q, entries, sha, k);
      StoreKeeps(Ingest(db, q, entries, sha), q, members, k);
    case Reconcile(keys) => ReconcileAllKeeps(db, keys, k);
  }

  // ----- Reconcile settles -----

  lemma ReconcileRowFrame(db: Db, k: Key)
    ensures var after := ReconcileRow(db, k);
            && after.docs == db.docs && after.evidence == db.evidence && after.ledger.Keys == db.ledger.Keys
            && (forall j :: j in db.ledger ==>
                  after.ledger[j].entry == db.ledger[j].entry && ReconciledState(after, j) == ReconciledState(db, j))
            && (forall j :: j in db.ledger ==>
                  after.ledger[j].state == if j == k then ReconciledState(db, k) else db.ledger[j].state)
            && (k in db.ledger && db.ledger[k].state == ReconciledState(db, k) ==> after == db)
  {
    hide Decide;
    if k in db.ledger && db.ledger[k].state == ReconciledState(db, k) {
      assert db.ledger[k := db.ledger[k]] == db.ledger;
    }
  }

  /** Every row reconciled once stands at its reconciled state, whatever the order. */
  lemma {:induction false} ReconcileAllSettles(db: Db, keys: seq<Key>)
    ensures var after := ReconcileAll(db, keys);
            && after.docs == db.docs && after.evidence == db.evidence && after.ledger.Keys == db.ledger.Keys
            && (forall j :: j in db.ledger ==>
                  after.ledger[j].entry == db.ledger[j].entry && ReconciledState(after, j) == ReconciledState(db, j))
            && (forall j :: j in db.ledger ==>
                  after.ledger[j].state == if j in keys then ReconciledState(db, j) else db.ledger[j].state)
  {
    if keys != [] {
      hide ReconcileRow, ReconciledState;
      var front := keys[..|keys| - 1];
      ReconcileAllSettles(db, front);
      ReconcileRowFrame(ReconcileAll(db, front), keys[|keys| - 1]);
      assert keys == front + [keys[|keys| - 1]];
    }
  }

  /** A second reconcile of settled rows changes nothing and logs nothing. */
  lemma {:induction false} SettledRowsStay(db: Db, keys: seq<Key>)
    requires forall k :: k in keys && k in db.ledger ==> db.ledger[k].state == ReconciledState(db, k)
    ensures ReconcileAll(db, keys) == db
  {
    if keys != [] {
      hide ReconcileRow, ReconciledState;
      SettledRowsStay(db, keys[..|keys| - 1]);
      ReconcileRowFrame(db, keys[|keys| - 1]);
      if keys[|keys| - 1] !in db.ledger {
        ReconcileRowMissing(db, keys[|keys| - 1]);
      }
    }
  }

  lemma ReconcileRowMissing(db: Db, k: Key)
    requires k !in db.ledger
    ensures ReconcileRow(db, k) == db
  {
  }

  /** One reconcile makes "downloaded" mean "has evidence" for every row it lists. */
  lemma ReconcileSettles(db: Db, tenant: Option<string>, keys: seq<Key>)
    requires Inv(db) && Lists(db, tenant, keys)
    ensures forall k :: k in keys ==>
              && k in ReconcileAll(db, keys).ledger
              && (ReconcileAll(db, keys).ledger[k].state == XmlDownloaded <==> HasXml(db, DocOf(k)))
  {
    hide LogOk, RowsOk, HasXml, ReconciledState;
    ReconcileAllSettles(db, keys);
    forall k | k in keys
      ensures ReconciledState(db, k) == XmlDownloaded <==> HasXml(db, DocOf(k))
    {
      ReconciledFollowsEvidence(db, k);
    }
  }

  /** And a second one over the same rows, in any order, is the identity. */
  lemma ReconcileIsExactAndIdempotent(db: Db, tenant: Option<string>, keys: seq<Key>, again: seq<Key>)
    requires Inv(db) && Lists(db, tenant, keys) && Lists(ReconcileAll(db, keys), tenant, again)
    ensures forall k :: k in keys ==>
              && k in ReconcileAll(db, keys).ledger
              && (ReconcileAll(db, keys).ledger[k].state == XmlDownloaded <==> HasXml(db, DocOf(k)))
    ensures ReconcileAll(ReconcileAll(db, keys), again) == ReconcileAll(db, keys)
  {
    hide ReconcileAll, ReconciledState, HasXml, LogOk, RowsOk;
    ReconcileSettles(db, tenant, keys);
    ReconcileAllSettles(db, keys);
    SettledRowsStay(ReconcileAll(db, keys), again);
  }

  // ----- What the stored log says without directions -----

  /** The table keeps tenant and UUID of an event, not the direction of its row. */
  function CurrentOfDoc(events: seq<Event>, dk: DocKey): Option<State> {
    if events == [] then None
    else if DocOf(events[|events| - 1].key) == dk then Some(events[|events| - 1].next)
    else CurrentOfDoc(events[..|events| - 1], dk)
  }

  ghost predicate LinkedForDoc(events: seq<Event>, dk: DocKey) {
    forall i :: 0 <= i < |events| && DocOf(events[i].key) == dk ==> events[i].previous == CurrentOfDoc(events[..i], dk)
  }

  lemma {:induction false} LoggedKeysAreRows(events: seq<Event>, i: nat)
    requires i < |events|
    ensures Current(events, events[i].key).Some?
  {
    if i < |events| - 1 {
      LoggedKeysAreRows(events[..|events| - 1], i);
    }
  }

  lemma {:induction false} OnlyKeyOfDoc(events: seq<Event>, k: Key)
    requires forall i :: 0 <= i < |events| && DocOf(events[i].key) == DocOf(k) ==> events[i].key == k
    ensures CurrentOfDoc(events, DocOf(k)) == Current(events, k)
  {
    if events != [] {
      OnlyKeyOfDoc(events[..|events| - 1], k);
    }
  }

  /** The first event of a row starts from no state. */
  lemma {:induction false} FirstEvent(events: seq<Event>, k: Key) returns (i: nat)
    requires Linked(events) && Current(events, k).Some?
    ensures i < |events| && events[i].key == k && events[i].previous == None
  {
    i := |events| - 1;
    if events[i].key != k || events[i].previous.Some? {
      var front := events[..i];
      assert Linked(front) by {
        forall j | 0 <= j < |front|
          ensures front[j].previous == Current(front[..j], front[j].key) && front[j].previous != Some(front[j].next)
        {
          assert front[..j] == events[..j];
        }
      }
      i := FirstEvent(front, k);
    }
  }

  lemma {:induction false} DocHasState(events: seq<Event>, i: nat)
    requires i < |events|
    ensures CurrentOfDoc(events, DocOf(events[i].key)).Some?
  {
    if i < |events| - 1 {
      DocHasState(events[..|events| - 1], i);
    }
  }

  lemma TwoStartsBreakChain(events: seq<Event>, dk: DocKey, i: nat, j: nat)
    requires i < j < |events| && DocOf(events[i].key) == dk == DocOf(events[j].key) && events[j].previous == None
    ensures !LinkedForDoc(events, dk)
  {
    DocHasState(events[..j], i);
  }

  /** Read by tenant and UUID alone, the stored events of a document form one chain exactly when the
      document has rows in one direction only. */
  lemma DirectionlessLogIsChainExactly(db: Db, k: Key)
    requires LogOk(db) && k in db.ledger
    ensures LinkedForDoc(db.events, DocOf(k)) <==> forall j :: j in db.ledger && DocOf(j) == DocOf(k) ==> j == k
  {
    var events := db.events;
    if forall j :: j in db.ledger && DocOf(j) == DocOf(k) ==> j == k {
      forall i | 0 <= i < |events| && DocOf(events[i].key) == DocOf(k)
        ensures events[i].key == k && events[i].previous == CurrentOfDoc(events[..i], DocOf(k))
      {
        OnlyRowLogged(db, k, events[..i], i);
        LoggedKeysAreRows(events, i);
        assert StateOf(db, events[i].key) == Current(events, events[i].key);
      }
    } else {
      var j :| j in db.ledger && DocOf(j) == DocOf(k) && j != k;
      assert StateOf(db, j) == Current(events, j) && StateOf(db, k) == Current(events, k);
      var a := FirstEvent(events, k);
      var b := FirstEvent(events, j);
      if a < b {
        TwoStartsBreakChain(events, DocOf(k), a, b);
      } else {
        TwoStartsBreakChain(events, DocOf(k), b, a);
      }
    }
  }

  lemma OnlyRowLogged(db: Db, k: Key, prefix: seq<Event>, n: nat)
    requires LogOk(db) && n <= |db.events| && prefix == db.events[..n]
    requires forall j :: j in db.ledger && DocOf(j) == DocOf(k) ==> j == k
    ensures CurrentOfDoc(prefix, DocOf(k)) == Current(prefix, k)
  {
    forall i | 0 <= i < |prefix| && DocOf(prefix[i].key) == DocOf(k) ensures prefix[i].key == k {
      LoggedKeysAreRows(db.events, i);
      assert StateOf(db, db.events[i].key) == Current(db.events, db.events[i].key);
    }
    OnlyKeyOfDoc(prefix, k);
  }
}
