/** The recovery service as it runs: loops over entries, members and rows, inside transactions. */
module RecoveryService {
  import opened Wrappers
  import opened Text
  import opened Sorting
  import Domain
  import opened Reconciliation
  import opened RecoveryLedger

  method UpsertMetadata(session: Session, q: Query, entries: seq<Entry>, sha: string) returns (s: Session, count: nat)
    ensures s == UpsertAll(session, q, entries, sha) && count == |entries|
  {
    s, count := session, 0;
    for i := 0 to |entries|
      invariant s == UpsertAll(session, q, entries[..i], sha) && count == i
    {
      assert entries[..i + 1][..i] == entries[..i];
      var e := entries[i];
      var k, dk := Key(q.tenant, e.uuid, q.direction), DocKey(q.tenant, e.uuid);
      var existing := k in s.db.ledger;
      var newState := Decide(e.status, HasXml(s.db, dk), !existing,
                             if existing then Some(s.db.ledger[k].entry.status) else None).state;
      if existing {
        s := MoveRow(s, k, Row(e, sha, newState), "metadata state updated");
      } else {
        s := AddRow(s, k, Row(e, sha, newState));
        s := LogEvent(s, Event(k, None, newState, "metadata discovered"));
      }
      if q.requestType.Metadata? {
        if dk in s.db.docs {
          var doc := s.db.docs[dk];
          doc := doc.(status := e.status);
          if doc.xmlSha.None? {
            doc := doc.(downloadState := newState);
          }
          s := s.(db := s.db.(docs := s.db.docs[dk := doc]));
        } else {
          s := AddDoc(s, dk, Doc(e.status, newState, None));
        }
      }
      count := count + 1;
    }
    assert entries[..|entries|] == entries;
  }

  // ----- Packages -----

  /** A downloaded ZIP: its member names, and what parsing the member of a name gives. `None` is a member
      that cannot be read or parsed, which raises. */
  datatype Archive = Archive(names: seq<string>, parse: string -> Option<Member>)

  /** Folders and files of other kinds are skipped. */
  predicate IsXml(name: string) {
    && name != "" && name[|name| - 1] != '/'
    && |name| >= 4 && Lower(name)[|name| - 4..] == ".xml"
  }

  /** The XML members of some names; `None` if one of them raises. */
  function Parsed(archive: Archive, names: seq<string>): Option<seq<Member>> {
    if names == [] then Some([])
    else
      var front :- Parsed(archive, names[..|names| - 1]);
      var last := names[|names| - 1];
      if !IsXml(last) then Some(front)
      else
        var member :- archive.parse(last);
        Some(front + [member])
  }

  /** The members of an archive, in name order. */
  function MembersOf(archive: Archive): Option<seq<Member>> {
    Parsed(archive, SortBy(LexLe, archive.names))
  }

  function AllMembers(archives: seq<Archive>): Option<seq<Member>> {
    if archives == [] then Some([])
    else
      var front :- AllMembers(archives[..|archives| - 1]);
      var last :- MembersOf(archives[|archives| - 1]);
      Some(front + last)
  }

  lemma {:induction false} ParsedFails(archive: Archive, names: seq<string>, k: nat)
    requires k <= |names| && Parsed(archive, names[..k]).None?
    ensures Parsed(archive, names).None?
    decreases |names|
  {
    hide IsXml;
    if k == |names| {
      assert names[..k] == names;
    } else {
      assert names[..|names| - 1][..k] == names[..k];
      ParsedFails(archive, names[..|names| - 1], k);
    }
  }

  lemma {:induction false} AllMembersFail(archives: seq<Archive>, k: nat)
    requires k <= |archives| && AllMembers(archives[..k]).None?
    ensures AllMembers(archives).None?
    decreases |archives|
  {
    hide MembersOf;
    if k == |archives| {
      assert archives[..k] == archives;
    } else {
      assert archives[..|archives| - 1][..k] == archives[..k];
      AllMembersFail(archives[..|archives| - 1], k);
    }
  }

  lemma {:induction false} StoreAllConcat(s: Session, q: Query, a: seq<Member>, b: seq<Member>)
    ensures StoreAll(s, q, a + b) == StoreAll(StoreAll(s, q, a), q, b)
  {
    hide StoreXml;
    if b == [] {
      assert a + b == a;
    } else {
      var n := |b| - 1;
      assert (a + b)[..|a + b| - 1] == a + b[..n];
      StoreAllConcat(s, q, a, b[..n]);
    }
  }

  // ----- Which members -----

  /** The name ends in `.xml`, in any letter case. */
  ghost predicate XmlName(name: string) {
    exists front, ending: string :: name == front + ending && Lower(ending) == ".xml"
  }

  lemma XmlNameExactly(name: string)
    ensures IsXml(name) <==> XmlName(name)
  {
    if IsXml(name) {
      var k := |name| - 4;
      assert name == name[..k] + name[k..];
      assert Lower(name[k..]) == Lower(name)[k..];
    }
    if front, ending: string :| name == front + ending && Lower(ending) == ".xml" {
      var k := |front|;
      assert Lower(name)[k..] == Lower(ending);
      assert ending[3] == name[|name| - 1];
      assert Lower(ending)[3] == 'l';
    }
  }

  /** The members of a package, or the failure, from the archive alone: what parsing gives for the names that end in
      `.xml`, each as often as it is listed, in text order; and a failure exactly if one of them cannot be parsed. */
  lemma MembersTell(archive: Archive) returns (picked: seq<string>)
    ensures Sorted(LexLe, picked)
    ensures forall n :: multiset(picked)[n] == if XmlName(n) then multiset(archive.names)[n] else 0
    ensures match MembersOf(archive)
            case None => exists n :: n in picked && archive.parse(n).None?
            case Some(ms) => |ms| == |picked| && forall i :: 0 <= i < |ms| ==> archive.parse(picked[i]) == Some(ms[i])
  {
    hide XmlName, IsXml;
    var names := SortBy(LexLe, archive.names);
    Domain.LexLeIsOrder();
    SortBySorted(LexLe, archive.names);
    picked := Filter(IsXml, names);
    FilterKeepsOrder(LexLe, IsXml, names);
    forall n ensures multiset(picked)[n] == if XmlName(n) then multiset(archive.names)[n] else 0 {
      FilterMultiset(IsXml, names, n);
      XmlNameExactly(n);
    }
    ParsedTells(archive, names);
  }

  lemma {:induction false} ParsedTells(archive: Archive, names: seq<string>)
    ensures var picked := Filter(IsXml, names);
            match Parsed(archive, names)
            case None => exists n :: n in picked && archive.parse(n).None?
            case Some(ms) => |ms| == |picked| && forall i :: 0 <= i < |ms| ==> archive.parse(picked[i]) == Some(ms[i])
  {
    hide IsXml;
    if names != [] {
      ParsedTells(archive, names[..|names| - 1]);
    }
  }

  /** One XML member. */
  method StoreOne(session: Session, q: Query, m: Member) returns (s: Session)
    ensures s == StoreXml(session, q, m)
  {
    s := session;
    var uuid, sha := Upper(m.uuid), m.sha;
    var dk, k := DocKey(q.tenant, uuid), Key(q.tenant, uuid, q.direction);
    if dk in s.db.docs {
      var doc := s.db.docs[dk].(downloadState := XmlDownloaded, xmlSha := Some(sha));
      s := s.(db := s.db.(docs := s.db.docs[dk := doc]));
    } else {
      s := AddDoc(s, dk, Doc("vigente", XmlDownloaded, Some(sha)));
    }
    if EvidenceKey(dk, sha) !in s.db.evidence {
      s := AddEvidence(s, EvidenceKey(dk, sha));
    }
    if k in s.db.ledger {
      s := MoveRow(s, k, s.db.ledger[k].(state := XmlDownloaded), "xml evidence stored");
    }
  }

  /** `None` is the error of a member that cannot be parsed. */
  method StoreXmlPackage(session: Session, q: Query, archive: Archive) returns (r: Option<(Session, nat)>)
    ensures match MembersOf(archive)
            case None => r.None?
            case Some(members) => r == Some((StoreAll(session, q, members), |members|))
  {
    hide StoreXml, IsXml;
    var names := SortBy(LexLe, archive.names);
    var s, count := session, 0;
    ghost var members: seq<Member> := [];
    for i := 0 to |names|
      invariant Parsed(archive, names[..i]) == Some(members)
      invariant s == StoreAll(session, q, members) && count == |members|
    {
      assert names[..i + 1][..i] == names[..i];
      if IsXml(names[i]) {
        var member := archive.parse(names[i]);
        if member.None? {
          ParsedFails(archive, names, i + 1);
          return None;
        }
        assert (members + [member.value])[..|members|] == members;
        members := members + [member.value];
        s := StoreOne(s, q, member.value);
        count := count + 1;
      }
    }
    assert names[..|names|] == names;
    return Some((s, count));
  }

  /** All packages of a job. */
  method StorePackages(session: Session, q: Query, archives: seq<Archive>) returns (r: Option<Session>)
    ensures match AllMembers(archives)
            case None => r.None?
            case Some(members) => r == Some(StoreAll(session, q, members))
  {
    hide MembersOf, StoreXml;
    var s := session;
    ghost var members: seq<Member> := [];
    for i := 0 to |archives|
      invariant AllMembers(archives[..i]) == Some(members) && s == StoreAll(session, q, members)
    {
      assert archives[..i + 1][..i] == archives[..i];
      var stored := StoreXmlPackage(s, q, archives[i]);
      if stored.None? {
        AllMembersFail(archives, i + 1);
        return None;
      }
      ghost var more := MembersOf(archives[i]).value;
      StoreAllConcat(session, q, members, more);
      s := stored.value.0;
      members := members + more;
    }
    assert archives[..|archives|] == archives;
    return Some(s);
  }

  class RecoveryStore {
    var ledger: map<Key, Row>
    var docs: map<DocKey, Doc>
    var evidence: set<EvidenceKey>
    var events: seq<Event>

    function Tables(): Db
      reads this
    {
      Db(ledger, docs, evidence, events)
    }

    constructor ()
      ensures Tables() == EMPTY
    {
      ledger, docs, evidence, events := map[], map[], {}, [];
    }

    method Commit(db: Db)
      modifies this
      ensures Tables() == db
    {
      ledger, docs, evidence, events := db.ledger, db.docs, db.evidence, db.events;
    }

    /** The counts of accepted and rejected rows. A query with errors, or a repeated key, raises. */
    method IngestMetadataFile(q: Query, valid: bool, entries: seq<Entry>, rejected: nat, sha: string)
      returns (counts: Option<(nat, nat)>)
      modifies this
      ensures Tables() == if valid then Ingest(old(Tables()), q, entries, sha) else old(Tables())
      ensures counts == if !valid || UpsertAll(Open(old(Tables())), q, entries, sha).clash then None
                        else Some((|entries|, rejected))
    {
      if !valid {
        return None;
      }
      var s, count := UpsertMetadata(Open(Tables()), q, entries, sha);
      if s.clash {
        return None;
      }
      Commit(Merged(s));
      return Some((count, rejected));
    }

    /** A failure of any step leaves all tables as they were. */
    method ProcessSatRequestJob(q: Query, entries: seq<Entry>, sha: string, archives: seq<Archive>) returns (ok: bool)
      modifies this
      ensures !ok ==> Tables() == old(Tables())
      ensures ok <==>
                var s := UpsertAll(Open(old(Tables())), q, entries, sha);
                && !s.clash
                && (q.requestType.Cfdi? ==>
                      AllMembers(archives).Some? && !StoreAll(Open(Merged(s)), q, AllMembers(archives).value).clash)
      ensures match AllMembers(archives)
              case Some(members) => Tables() == Job(old(Tables()), q, entries, sha, members)
              case None =>
                Tables() == if q.requestType.Cfdi? then old(Tables()) else Job(old(Tables()), q, entries, sha, [])
    {
      hide UpsertAll, StoreAll, AllMembers;
      var s, _ := UpsertMetadata(Open(Tables()), q, entries, sha);
      if s.clash {
        return false;
      }
      s := Open(Merged(s));
      if q.requestType.Cfdi? {
        var t := StorePackages(s, q, archives);
        if t.None? || t.value.clash {
          return false;
        }
        Commit(Merged(t.value));
        return true;
      }
      Commit(s.db);
      return true;
    }

    method Reconcile(tenant: Option<string>) returns (count: nat)
      modifies this
      ensures exists keys :: Lists(old(Tables()), tenant, keys) && Tables() == ReconcileAll(old(Tables()), keys)
      ensures old(events) <= events && count == |events| - |old(events)|
    {
      count := 0;
      var db := Tables();
      var todo := set k | k in ledger && (tenant.Some? && tenant.value != "" ==> k.tenant == tenant.value);
      ghost var all := todo;
      ghost var done: seq<Key> := [];
      while todo != {}
        invariant todo <= all && forall k :: k in done <==> k in all - todo
        invariant db == ReconcileAll(Tables(), done)
        invariant db.ledger.Keys == ledger.Keys
        invariant events <= db.events && count == |db.events| - |events|
        decreases todo
      {
        var k :| k in todo;
        var newState := ReconciledState(db, k);
        var row := db.ledger[k];
        ghost var before := db;
        assert (done + [k])[..|done|] == done;
        if row.state != newState {
          db := db.(events := db.events + [Event(k, Some(row.state), newState, "reconcile command")],
                    ledger := db.ledger[k := row.(state := newState)]);
          count := count + 1;
        } else {
          assert db.ledger[k := row.(state := newState)] == db.ledger;
        }
        assert db == ReconcileRow(before, k);
        done := done + [k];
        todo := todo - {k};
      }
      assert Lists(old(Tables()), tenant, done);
      Commit(db);
    }
  }
}
