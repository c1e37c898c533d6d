/** Two short histories of the recovery tables that show what the log and the spelling do not promise. */
module RecoveryExamples {
  import opened Text
  import opened Domain
  import opened Reconciliation
  import opened RecoveryLedger
  import opened RecoveryTheorems
  import opened RecoverySpelling

  function Sample(uuid: string): Entry {
    Entry(uuid, "", "", "", "", 0, 0, "vigente", "", "")
  }

  lemma OneEntry(s: Session, q: Query, e: Entry, sha: string)
    ensures UpsertAll(s, q, [e], sha) == UpsertEntry(s, q, e, sha)
  {
    assert [e][..0] == [];
    assert UpsertAll(s, q, [], sha) == s;
  }

  lemma OneMember(s: Session, q: Query, m: Member)
    ensures StoreAll(s, q, [m]) == StoreXml(s, q, m)
  {
    assert [m][..0] == [];
    assert StoreAll(s, q, []) == s;
  }

  /** One job whose metadata spells a UUID `ab` and whose package holds its XML: the XML is stored, and
      the row stays without it, whatever happens later. */
  lemma LowerCaseRow(direction: Direction)
    ensures var q := Query("t", direction, Cfdi); var k := Key("t", "ab", direction);
            var db := Exec(EMPTY, [RunJob(q, [Sample("ab")], "", [Member("ab", "x")])]);
            && k in db.ledger && db.ledger[k].state != XmlDownloaded
            && HasXml(db, DocKey("t", "AB")) && !HasXml(db, DocOf(k))
  {
    var q, e, m := Query("t", direction, Cfdi), Sample("ab"), Member("ab", "x");
    var k := Key("t", "ab", direction);
    LowerIsNotUpper();
    FirstUpsert(q, e);
    OneEntry(Open(EMPTY), q, e, "");
    var flushed := Open(Merged(UpsertAll(Open(EMPTY), q, [e], "")));
    OneMember(flushed, q, m);
    FirstStore(flushed, q, m);
    assert Committed(EMPTY, q, [e], "", [m]);
    assert Exec(EMPTY, []) == EMPTY;
    StoredEvidenceExactly([], q, [e], "", [m], 0, k);
    StoredEvidenceExactly([], q, [e], "", [m], 0, Key("t", "AB", direction));
    CommittedJob(EMPTY, q, [e], "", [m]);
    StoreAllKeys(flushed, q, [m]);
    hide UpsertAll, StoreAll, Upper;
    var op := RunJob(q, [e], "", [m]);
    assert [op][..0] == [] && Exec(EMPTY, [op]) == Job(EMPTY, q, [e], "", [m]);
    JobDownloadsExactly([], q, [e], "", [m], 0, k);
  }

  lemma LowerIsNotUpper()
    ensures Upper("ab") == "AB" && Upper("AB") == "AB" && "ab" != "AB"
  {
    assert "ab"[0] != "AB"[0];
  }

  lemma FirstUpsert(q: Query, e: Entry)
    requires q.requestType.Cfdi?
    ensures var s := UpsertEntry(Open(EMPTY), q, e, ""); !s.clash && Key(q.tenant, e.uuid, q.direction) in s.rows
  {
  }

  lemma FirstStore(s: Session, q: Query, m: Member)
    requires s == Open(s.db) && s.db.docs == map[] && s.db.evidence == {}
    ensures !StoreXml(s, q, m).clash
  {
    hide Upper;
  }

  lemma IngestOne(db: Db, q: Query, e: Entry)
    requires !UpsertEntry(Open(db), q, e, "").clash
    ensures Ingest(db, q, [e], "") == Merged(UpsertEntry(Open(db), q, e, ""))
  {
    hide UpsertEntry;
    OneEntry(Open(db), q, e, "");
  }

  lemma IngestFirst(q: Query, e: Entry)
    requires q.requestType.Metadata?
    ensures var db := Ingest(EMPTY, q, [e], "");
            db.ledger.Keys == {Key(q.tenant, e.uuid, q.direction)} && db.docs.Keys == {DocKey(q.tenant, e.uuid)}
  {
    hide EntryState;
    IngestOne(EMPTY, q, e);
  }

  lemma IngestSecond(db: Db, q: Query, e: Entry)
    requires q.requestType.Metadata? && DocKey(q.tenant, e.uuid) in db.docs
    requires Key(q.tenant, e.uuid, q.direction) !in db.ledger
    ensures Ingest(db, q, [e], "").ledger.Keys == db.ledger.Keys + {Key(q.tenant, e.uuid, q.direction)}
  {
    hide EntryState;
    IngestOne(db, q, e);
  }

  /** One UUID in the metadata of both directions: read without directions, its events are no chain. */
  lemma TwoDirections()
    ensures var files := [IngestFile(Query("t", Issued, Metadata), [Sample("U")], ""),
                          IngestFile(Query("t", Received, Metadata), [Sample("U")], "")];
            var db := Exec(EMPTY, files);
            && Key("t", "U", Issued) in db.ledger && Key("t", "U", Received) in db.ledger
            && !LinkedForDoc(db.events, DocKey("t", "U"))
  {
    hide Ingest, LinkedForDoc;
    var one := IngestFile(Query("t", Issued, Metadata), [Sample("U")], "");
    var two := IngestFile(Query("t", Received, Metadata), [Sample("U")], "");
    IngestFirst(one.query, Sample("U"));
    IngestSecond(Ingest(EMPTY, one.query, [Sample("U")], ""), two.query, Sample("U"));
    assert [one, two][..1] == [one] && [one][..0] == [] && Exec(EMPTY, []) == EMPTY;
    assert Exec(EMPTY, [one]) == Ingest(EMPTY, one.query, [Sample("U")], "");
    LedgerIsReplay([one, two]);
    DirectionlessLogIsChainExactly(Exec(EMPTY, [one, two]), Key("t", "U", Issued));
  }
}
