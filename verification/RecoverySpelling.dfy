/** Spelling of UUIDs: metadata upsert keeps it, XML storage upper-cases it. */
module RecoverySpelling {
  import opened Wrappers
  import opened Text
  import opened Reconciliation
  import opened RecoveryLedger
  import opened RecoveryTheorems

  /** XML storage upper-cases UUIDs, so evidence exists only under upper-case spellings. */
  ghost predicate UpperEvidence(evidence: set<EvidenceKey>) {
    forall e :: e in evidence ==> Upper(e.doc.uuid) == e.doc.uuid
  }

  lemma UpsertEntryEvidence(s: Session, q: Query, e: Entry, sha: string)
    ensures var s' := UpsertEntry(s, q, e, sha); s'.db.evidence == s.db.evidence && s'.evidence == s.evidence
  {
    hide UpsertLedger, UpsertDocument, EntryState;
    UpsertLedgerFrame(s, q, e, sha);
    UpsertDocumentFrame(UpsertLedger(s, q, e, sha), q, e, EntryState(s, q, e));
  }

  lemma {:induction false} UpsertAllEvidence(s: Session, q: Query, entries: seq<Entry>, sha: string)
    ensures UpsertAll(s, q, entries, sha).db.evidence == s.db.evidence
    ensures UpsertAll(s, q, entries, sha).evidence == s.evidence
  {
    if entries != [] {
      hide UpsertEntry;
      UpsertAllEvidence(s, q, entries[..|entries| - 1], sha);
      UpsertEntryEvidence(UpsertAll(s, q, entries[..|entries| - 1], sha), q, entries[|entries| - 1], sha);
    }
  }

  lemma {:induction false} StoreAllEvidence(s: Session, q: Query, members: seq<Member>)
    requires UpperEvidence(s.db.evidence + s.evidence)
    ensures var after := StoreAll(s, q, members); UpperEvidence(after.db.evidence + after.evidence)
  {
    if members != [] {
      var front := StoreAll(s, q, members[..|members| - 1]);
      StoreAllEvidence(s, q, members[..|members| - 1]);
      UpperIdempotent(members[|members| - 1].uuid);
      hide Upper, StoreAll, StoreDocument;
      StoreXmlEvidence(front, q, members[|members| - 1]);
    }
  }

  lemma StoreEvidenceAdds(s: Session, dk: DocKey, sha: string)
    ensures var after := StoreEvidence(s, dk, sha);
            after.db.evidence == s.db.evidence && after.evidence <= s.evidence + {EvidenceKey(dk, sha)}
  {
  }

  lemma StoreXmlEvidence(s: Session, q: Query, m: Member)
    ensures var after := StoreXml(s, q, m);
            after.db.evidence + after.evidence <= s.db.evidence + s.evidence
              + {EvidenceKey(DocKey(q.tenant, Upper(m.uuid)), m.sha)}
  {
    hide Upper, StoreEvidence, MoveRow;
    var dk, k := DocKey(q.tenant, Upper(m.uuid)), Key(q.tenant, Upper(m.uuid), q.direction);
    StoreEvidenceAdds(s, dk, m.sha);
    MoveRowFrame(StoreEvidence(s, dk, m.sha), k, XmlDownloaded, "xml evidence stored");
  }

  lemma {:induction false} ReconcileAllEvidence(db: Db, keys: seq<Key>)
    ensures ReconcileAll(db, keys).evidence == db.evidence
  {
    if keys != [] {
      hide ReconciledState;
      ReconcileAllEvidence(db, keys[..|keys| - 1]);
    }
  }

  lemma {:induction false} HistoryEvidence(ops: seq<Op>)
    ensures UpperEvidence(Exec(EMPTY, ops).evidence)
  {
    if ops != [] {
      HistoryEvidence(ops[..|ops| - 1]);
      var db := Exec(EMPTY, ops[..|ops| - 1]);
      hide UpsertAll, StoreAll, ReconcileAll;
      match ops[|ops| - 1]
      case IngestFile(q, entries, sha) => UpsertAllEvidence(Open(db), q, entries, sha);
      case RunJob(q, entries, sha, members) =>
        UpsertAllEvidence(Open(db), q, entries, sha);
        StoreAllEvidence(Open(Merged(UpsertAll(Open(db), q, entries, sha))), q, members);
      case Reconcile(keys) => ReconcileAllEvidence(db, keys);
    }
  }

  /** A row whose UUID is not written in upper case can never reach the downloaded state. */
  lemma OnlyUpperCaseRowsDownload(ops: seq<Op>, k: Key)
    requires k in Exec(EMPTY, ops).ledger && Exec(EMPTY, ops).ledger[k].state == XmlDownloaded
    ensures Upper(k.uuid) == k.uuid
  {
    hide Exec;
    LedgerIsReplay(ops);
    HistoryEvidence(ops);
    assert HasXml(Exec(EMPTY, ops), DocOf(k));
  }

  /** The row that storing a member moves, if it is there. */
  function RowOf(q: Query, m: Member): Key {
    Key(q.tenant, Upper(m.uuid), q.direction)
  }

  lemma MoveRowShape(s: Session, k: Key, row: Row, reason: string)
    requires k in s.db.ledger
    ensures MoveRow(s, k, row, reason).db.ledger == s.db.ledger[k := row] && MoveRow(s, k, row, reason).rows == s.rows
  {
  }

  lemma StoreEvidenceRows(s: Session, dk: DocKey, sha: string)
    ensures StoreEvidence(s, dk, sha).rows == s.rows && StoreEvidence(s, dk, sha).db.ledger == s.db.ledger
  {
  }

  /** Storing a member moves its row, if it is there, and no other. */
  lemma StoreXmlShape(s: Session, q: Query, m: Member)
    ensures var t, k := StoreXml(s, q, m), RowOf(q, m);
            && t.rows == s.rows
            && t.db.ledger == if k in s.db.ledger then s.db.ledger[k := s.db.ledger[k].(state := XmlDownloaded)]
                              else s.db.ledger
  {
    hide Upper, StoreEvidence, MoveRow;
    var k := RowOf(q, m);
    var s1 := StoreEvidence(s, DocKey(q.tenant, Upper(m.uuid)), m.sha);
    StoreEvidenceRows(s, DocKey(q.tenant, Upper(m.uuid)), m.sha);
    if k in s1.db.ledger {
      MoveRowShape(s1, k, s1.db.ledger[k].(state := XmlDownloaded), "xml evidence stored");
    }
  }

  lemma StoreXmlRow(s: Session, q: Query, m: Member, k: Key)
    requires k in s.db.ledger
    ensures var t := StoreXml(s, q, m);
            && t.rows == s.rows && k in t.db.ledger
            && t.db.ledger[k] == if RowOf(q, m) == k then s.db.ledger[k].(state := XmlDownloaded) else s.db.ledger[k]
  {
    hide RowOf, StoreXml;
    StoreXmlShape(s, q, m);
  }

  predicate Stores(q: Query, members: seq<Member>, k: Key) {
    exists i :: 0 <= i < |members| && RowOf(q, members[i]) == k
  }

  lemma StoresMore(q: Query, members: seq<Member>, k: Key)
    requires members != []
    ensures var n := |members| - 1; Stores(q, members, k) <==> Stores(q, members[..n], k) || RowOf(q, members[n]) == k
  {
    hide RowOf;
    var n := |members| - 1;
    assert forall i :: 0 <= i < n ==> members[..n][i] == members[i];
  }

  lemma {:induction false} StoreAllRow(s: Session, q: Query, members: seq<Member>, k: Key)
    requires k in s.db.ledger
    ensures var t := StoreAll(s, q, members);
            && t.rows == s.rows && k in t.db.ledger
            && t.db.ledger[k]
               == if Stores(q, members, k) then s.db.ledger[k].(state := XmlDownloaded) else s.db.ledger[k]
  {
    if members != [] {
      var n := |members| - 1;
      hide StoreXml, RowOf, Stores;
      StoreAllRow(s, q, members[..n], k);
      StoreXmlRow(StoreAll(s, q, members[..n]), q, members[n], k);
      StoresMore(q, members, k);
    }
  }

  lemma StoreXmlKeys(s: Session, q: Query, m: Member)
    ensures StoreXml(s, q, m).db.ledger.Keys == s.db.ledger.Keys && StoreXml(s, q, m).rows == s.rows
  {
    hide RowOf, StoreXml;
    StoreXmlShape(s, q, m);
  }

  lemma {:induction false} StoreAllKeys(s: Session, q: Query, members: seq<Member>)
    ensures StoreAll(s, q, members).db.ledger.Keys == s.db.ledger.Keys && StoreAll(s, q, members).rows == s.rows
  {
    if members != [] {
      hide StoreXml;
      StoreAllKeys(s, q, members[..|members| - 1]);
      StoreXmlKeys(StoreAll(s, q, members[..|members| - 1]), q, members[|members| - 1]);
    }
  }

  /** All evidence of a session, stored or waiting. */
  function AllEvidence(s: Session): set<EvidenceKey> {
    s.db.evidence + s.evidence
  }

  lemma StoreXmlAdds(s: Session, q: Query, m: Member)
    ensures var after := AllEvidence(StoreXml(s, q, m));
            AllEvidence(s) <= after && EvidenceKey(DocKey(q.tenant, Upper(m.uuid)), m.sha) in after
  {
    hide Upper;
  }

  lemma {:induction false} StoreAllAdds(s: Session, q: Query, members: seq<Member>, i: nat)
    requires i < |members|
    ensures var e := EvidenceKey(DocKey(q.tenant, Upper(members[i].uuid)), members[i].sha);
            e in AllEvidence(StoreAll(s, q, members))
  {
    hide StoreXml, Upper;
    var n := |members| - 1;
    StoreXmlAdds(StoreAll(s, q, members[..n]), q, members[n]);
    if i < n {
      StoreAllAdds(s, q, members[..n], i);
    }
  }

  /** A CFDI job that went through: no key was repeated. */
  predicate Committed(db: Db, q: Query, entries: seq<Entry>, sha: string, members: seq<Member>) {
    && q.requestType.Cfdi? && !UpsertAll(Open(db), q, entries, sha).clash
    && !StoreAll(Open(Merged(UpsertAll(Open(db), q, entries, sha))), q, members).clash
  }

  lemma CommittedJob(db: Db, q: Query, entries: seq<Entry>, sha: string, members: seq<Member>)
    requires Committed(db, q, entries, sha, members)
    ensures Job(db, q, entries, sha, members)
            == Merged(StoreAll(Open(Merged(UpsertAll(Open(db), q, entries, sha))), q, members))
  {
    hide UpsertAll, StoreAll;
  }

  /** After a job, a row whose XML the job stored has evidence exactly when it is spelled in upper case. */
  lemma StoredEvidenceExactly(
    ops: seq<Op>, q: Query, entries: seq<Entry>, sha: string, members: seq<Member>, i: nat, k: Key)
    requires Committed(Exec(EMPTY, ops), q, entries, sha, members) && i < |members|
    requires k.tenant == q.tenant && Upper(k.uuid) == Upper(members[i].uuid)
    ensures HasXml(Job(Exec(EMPTY, ops), q, entries, sha, members), DocOf(k)) <==> Upper(k.uuid) == k.uuid
  {
    var db, all := Exec(EMPTY, ops), ops + [RunJob(q, entries, sha, members)];
    assert all[..|ops|] == ops;
    HistoryEvidence(all);
    var flushed := Open(Merged(UpsertAll(Open(db), q, entries, sha)));
    CommittedJob(db, q, entries, sha, members);
    StoreAllAdds(flushed, q, members, i);
    hide Upper, UpsertAll, StoreAll;
    var e := EvidenceKey(DocKey(q.tenant, Upper(members[i].uuid)), members[i].sha);
    assert e in Job(db, q, entries, sha, members).evidence;
    if Upper(k.uuid) == k.uuid {
      assert e.doc == DocOf(k);
    }
  }

  /** After a committed CFDI job, a row of its tenant and direction whose XML it stored is downloaded
      exactly when the row's UUID is spelled in upper case. */
  lemma JobDownloadsExactly(
    ops: seq<Op>, q: Query, entries: seq<Entry>, sha: string, members: seq<Member>, i: nat, k: Key)
    requires Committed(Exec(EMPTY, ops), q, entries, sha, members) && i < |members|
    requires k in Job(Exec(EMPTY, ops), q, entries, sha, members).ledger
    requires k.tenant == q.tenant && k.direction == q.direction && Upper(k.uuid) == Upper(members[i].uuid)
    ensures Job(Exec(EMPTY, ops), q, entries, sha, members).ledger[k].state == XmlDownloaded
            <==> Upper(k.uuid) == k.uuid
  {
    hide Upper, Job, Exec, Committed;
    var db := Exec(EMPTY, ops);
    LastJob(ops, q, entries, sha, members);
    if Upper(k.uuid) == k.uuid {
      assert RowOf(q, members[i]) == k;
      JobRow(db, q, entries, sha, members, k);
    } else if Job(db, q, entries, sha, members).ledger[k].state == XmlDownloaded {
      OnlyUpperCaseRowsDownload(ops + [RunJob(q, entries, sha, members)], k);
    }
  }

  lemma LastJob(ops: seq<Op>, q: Query, entries: seq<Entry>, sha: string, members: seq<Member>)
    ensures Exec(EMPTY, ops + [RunJob(q, entries, sha, members)]) == Job(Exec(EMPTY, ops), q, entries, sha, members)
  {
    hide Job;
    assert (ops + [RunJob(q, entries, sha, members)])[..|ops|] == ops;
  }

  lemma JobRow(db: Db, q: Query, entries: seq<Entry>, sha: string, members: seq<Member>, k: Key)
    requires Committed(db, q, entries, sha, members)
    requires k in Job(db, q, entries, sha, members).ledger && Stores(q, members, k)
    ensures Job(db, q, entries, sha, members).ledger[k].state == XmlDownloaded
  {
    hide UpsertAll, StoreAll, Stores;
    var flushed := Open(Merged(UpsertAll(Open(db), q, entries, sha)));
    CommittedJob(db, q, entries, sha, members);
    StoreAllKeys(flushed, q, members);
    StoreAllRow(flushed, q, members, k);
  }

  /** After a reconcile the same holds for the rows of both directions. */
  lemma ReconcileDownloadsExactly(
    ops: seq<Op>, q: Query, entries: seq<Entry>, sha: string, members: seq<Member>, i: nat, k: Key,
    tenant: Option<string>, keys: seq<Key>)
    requires Committed(Exec(EMPTY, ops), q, entries, sha, members) && i < |members|
    requires var job := Job(Exec(EMPTY, ops), q, entries, sha, members); Lists(job, tenant, keys) && k in keys
    requires k.tenant == q.tenant && Upper(k.uuid) == Upper(members[i].uuid)
    ensures var after := ReconcileAll(Job(Exec(EMPTY, ops), q, entries, sha, members), keys);
            k in after.ledger && (after.ledger[k].state == XmlDownloaded <==> Upper(k.uuid) == k.uuid)
  {
    var db, all := Exec(EMPTY, ops), ops + [RunJob(q, entries, sha, members)];
    assert all[..|ops|] == ops;
    LedgerIsReplay(all);
    StoredEvidenceExactly(ops, q, entries, sha, members, i, k);
    hide Upper, UpsertAll, StoreAll, Inv, ReconcileAll, HasXml, Lists;
    var job := Job(db, q, entries, sha, members);
    assert Exec(EMPTY, all) == job;
    ReconcileSettles(job, tenant, keys);
  }
}
