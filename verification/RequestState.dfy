/** The persisted list of live metadata requests: records, their document form and the file that
    holds the documents. */
module RequestState {
  import opened Wrappers
  import opened Clock
  import opened Text
  import opened Sorting

  const DEFAULT_VERIFY_INITIAL_DELAY: int := 5 * MINUTE
  const DEFAULT_VERIFY_MAX_AGE: int := 72 * HOUR

  datatype Status =
    | VerifyScheduled
    | VerifyInProgress
    | VerifyInProgressSat
    | VerifyFinished
    | VerifyNoData
    | VerifyRejected
    | VerifyExpired
    | VerifyFailedRetryable
    | VerifyFailedPermanent
    | PackageReady
    | PackageDownloadScheduled
    | PackageDownloaded
    | Unknown(text: string)
  {
    /** Waiting for a verification. The other members of the source's pending set are renamed to
        `VerifyScheduled` whenever a document is read. */
    predicate Pending() {
      VerifyScheduled? || VerifyInProgressSat? || VerifyFailedRetryable?
    }

    predicate Terminal() {
      VerifyFinished? || VerifyNoData? || VerifyRejected? || VerifyExpired? || VerifyFailedPermanent?
      || PackageReady? || PackageDownloadScheduled? || PackageDownloaded?
    }
  }

  function StatusText(s: Status): string {
    match s
    case VerifyScheduled => "VERIFY_SCHEDULED"
    case VerifyInProgress => "VERIFY_IN_PROGRESS"
    case VerifyInProgressSat => "VERIFY_IN_PROGRESS_SAT"
    case VerifyFinished => "VERIFY_FINISHED"
    case VerifyNoData => "VERIFY_NO_DATA"
    case VerifyRejected => "VERIFY_REJECTED"
    case VerifyExpired => "VERIFY_EXPIRED"
    case VerifyFailedRetryable => "VERIFY_FAILED_RETRYABLE"
    case VerifyFailedPermanent => "VERIFY_FAILED_PERMANENT"
    case PackageReady => "PACKAGE_READY"
    case PackageDownloadScheduled => "PACKAGE_DOWNLOAD_SCHEDULED"
    case PackageDownloaded => "PACKAGE_DOWNLOADED"
    case Unknown(text) => text
  }

  function KnownStatus(t: string): Option<Status> {
    if t == "VERIFY_SCHEDULED" then Some(VerifyScheduled)
    else if t == "VERIFY_IN_PROGRESS" then Some(VerifyInProgress)
    else if t == "VERIFY_IN_PROGRESS_SAT" then Some(VerifyInProgressSat)
    else if t == "VERIFY_FINISHED" then Some(VerifyFinished)
    else if t == "VERIFY_NO_DATA" then Some(VerifyNoData)
    else if t == "VERIFY_REJECTED" then Some(VerifyRejected)
    else if t == "VERIFY_EXPIRED" then Some(VerifyExpired)
    else if t == "VERIFY_FAILED_RETRYABLE" then Some(VerifyFailedRetryable)
    else if t == "VERIFY_FAILED_PERMANENT" then Some(VerifyFailedPermanent)
    else if t == "PACKAGE_READY" then Some(PackageReady)
    else if t == "PACKAGE_DOWNLOAD_SCHEDULED" then Some(PackageDownloadScheduled)
    else if t == "PACKAGE_DOWNLOADED" then Some(PackageDownloaded)
    else None
  }

  predicate LegacyPending(t: string) {
    Lower(t) == "accepted" || Lower(t) == "submitted" || t == "REQUEST_ACCEPTED"
  }

  /** Reading a status: legacy spellings and a blank status become `VerifyScheduled`. */
  function NormalizeStatus(raw: string): Status {
    var t := Strip(raw);
    if t == "" || LegacyPending(t) then VerifyScheduled
    else match KnownStatus(t)
      case Some(s) => s
      case None => Unknown(t)
  }

  /** The statuses a record can have after it has been read. */
  predicate Readable(s: Status) {
    s.Unknown? ==> s.text != "" && Stripped(s.text) && KnownStatus(s.text).None? && !LegacyPending(s.text)
  }

  lemma StatusTextIsPlain(s: Status)
    requires !s.Unknown?
    ensures Stripped(StatusText(s)) && StatusText(s) != ""
    ensures KnownStatus(StatusText(s)) == Some(s)
  {
  }

  lemma KnownIsNotUnknown(t: string)
    ensures KnownStatus(t).Some? ==> !KnownStatus(t).value.Unknown?
  {
  }

  lemma LegacyIsNotKnown(s: Status)
    requires !s.Unknown?
    ensures !LegacyPending(StatusText(s))
  {
    var t := StatusText(s);
    assert Lower(t)[0] == 'v' || Lower(t)[0] == 'p';
  }

  /** A status survives being written and read back exactly when it is one that reading produces. */
  lemma StatusRoundTrip(s: Status)
    ensures NormalizeStatus(StatusText(s)) == s <==> Readable(s)
  {
    if !s.Unknown? {
      StatusTextIsPlain(s);
      LegacyIsNotKnown(s);
    }
    hide KnownStatus, LegacyPending, Strip;
    StripFixes(StatusText(s));
    KnownIsNotUnknown(Strip(StatusText(s)));
  }

  lemma NormalizedIsReadable(raw: string)
    ensures Readable(NormalizeStatus(raw))
  {
    StripFixes(raw);
  }

  /** Which texts read as scheduled: nothing, the status itself, and the three legacy spellings. */
  lemma ReadsAsScheduled(raw: string)
    ensures NormalizeStatus(raw) == VerifyScheduled <==>
              || Strip(raw) == "" || Strip(raw) == "VERIFY_SCHEDULED" || Strip(raw) == "REQUEST_ACCEPTED"
              || Lower(Strip(raw)) == "accepted" || Lower(Strip(raw)) == "submitted"
  {
    hide Strip, Lower;
  }

  /** And every other known status is read from its own name alone, white space aside. */
  lemma ReadsAsNamed(raw: string)
    ensures var s, t := NormalizeStatus(raw), Strip(raw);
            && (s == VerifyInProgress <==> t == "VERIFY_IN_PROGRESS")
            && (s == VerifyInProgressSat <==> t == "VERIFY_IN_PROGRESS_SAT")
            && (s == VerifyFinished <==> t == "VERIFY_FINISHED") && (s == VerifyNoData <==> t == "VERIFY_NO_DATA")
            && (s == VerifyRejected <==> t == "VERIFY_REJECTED") && (s == VerifyExpired <==> t == "VERIFY_EXPIRED")
            && (s == VerifyFailedRetryable <==> t == "VERIFY_FAILED_RETRYABLE")
            && (s == VerifyFailedPermanent <==> t == "VERIFY_FAILED_PERMANENT")
            && (s == PackageReady <==> t == "PACKAGE_READY")
            && (s == PackageDownloadScheduled <==> t == "PACKAGE_DOWNLOAD_SCHEDULED")
            && (s == PackageDownloaded <==> t == "PACKAGE_DOWNLOADED")
  {
    hide NormalizeStatus, Strip;
    ReadsAsText(raw, VerifyInProgress);
    ReadsAsText(raw, VerifyInProgressSat);
    ReadsAsText(raw, VerifyFinished);
    ReadsAsText(raw, VerifyNoData);
    ReadsAsText(raw, VerifyRejected);
    ReadsAsText(raw, VerifyExpired);
    ReadsAsText(raw, VerifyFailedRetryable);
    ReadsAsText(raw, VerifyFailedPermanent);
    ReadsAsText(raw, PackageReady);
    ReadsAsText(raw, PackageDownloadScheduled);
    ReadsAsText(raw, PackageDownloaded);
  }

  lemma ReadsAsText(raw: string, s: Status)
    requires !s.Unknown? && s != VerifyScheduled
    ensures NormalizeStatus(raw) == s <==> Strip(raw) == StatusText(s)
  {
    StatusTextIsPlain(s);
    LegacyIsNotKnown(s);
    KnownIsText(Strip(raw), s);
    hide Strip, LegacyPending, KnownStatus;
  }

  lemma KnownIsText(t: string, s: Status)
    requires !s.Unknown?
    ensures KnownStatus(t) == Some(s) ==> t == StatusText(s)
  {
  }

  /** The part of a record that no scheduler step changes. */
  datatype RequestCore = RequestCore(
    requestRef: string,
    profileId: string,
    direction: string,
    kind: string,
    operation: string,
    fechaInicial: string,
    fechaFinal: string,
    criteriaHash: string,
    idSolicitud: string,
    idSolicitudRedacted: string,
    satCode: string,
    satMessage: string,
    createdAt: Instant,
    live: bool,
    sourceCommand: string,
    permitIdHash: string)

  /** One accepted request. `None` stands for the empty string in a time field. */
  datatype Record = Record(
    core: RequestCore,
    status: Status,
    attemptCount: int,
    nextCheckAt: Option<Instant>,
    lastCheckedAt: Option<Instant>,
    lastErrorKind: string,
    lastHttpStatus: Option<int>,
    satEstado: string,
    satCodigo: string,
    numeroCfdis: int,
    packageIds: seq<string>,
    packageRefs: seq<string>,
    updatedAt: Option<Instant>,
    expiresAt: Option<Instant>)

  /** One stored document; `None` stands for an absent, null or empty value. */
  datatype Document = Document(
    core: RequestCore,
    status: string,
    attemptCount: Option<int>,
    nextCheckAt: Option<Instant>,
    lastCheckedAt: Option<Instant>,
    lastErrorKind: Option<string>,
    lastHttpStatus: Option<int>,
    satEstado: Option<string>,
    satCodigo: Option<string>,
    numeroCfdis: Option<int>,
    packageIds: Option<seq<string>>,
    packageRefs: Option<seq<string>>,
    updatedAt: Option<Instant>,
    expiresAt: Option<Instant>)

  function OrElse<T>(value: Option<T>, default: T): T {
    match value
    case Some(v) => v
    case None => default
  }

  function ToDocument(r: Record): Document {
    Document(
      r.core, StatusText(r.status), Some(r.attemptCount), r.nextCheckAt, r.lastCheckedAt,
      Some(r.lastErrorKind), r.lastHttpStatus, Some(r.satEstado), Some(r.satCodigo), Some(r.numeroCfdis),
      Some(r.packageIds), Some(r.packageRefs), r.updatedAt, r.expiresAt)
  }

  function FromDocument(d: Document): Record {
    var status := NormalizeStatus(d.status);
    var created := d.core.createdAt;
    Record(
      d.core, status, OrElse(d.attemptCount, 0),
      if d.nextCheckAt.None? && status.Pending() then Some(created + DEFAULT_VERIFY_INITIAL_DELAY) else d.nextCheckAt,
      d.lastCheckedAt,
      OrElse(d.lastErrorKind, ""), d.lastHttpStatus, OrElse(d.satEstado, ""), OrElse(d.satCodigo, ""),
      OrElse(d.numeroCfdis, 0), OrElse(d.packageIds, []), OrElse(d.packageRefs, []),
      Some(OrElse(d.updatedAt, created)),
      Some(OrElse(d.expiresAt, created + DEFAULT_VERIFY_MAX_AGE)))
  }

  /** What reading puts where a document says nothing: no attempts, a first check five minutes and an expiry
      72 hours after creation, the creation for the last change, and empty texts and lists. */
  lemma ReadingDefaults(d: Document)
    ensures var r, created := FromDocument(d), d.core.createdAt;
            var waiting :=
              r.status == VerifyScheduled || r.status == VerifyInProgressSat || r.status == VerifyFailedRetryable;
            && r.core == d.core && r.lastCheckedAt == d.lastCheckedAt && r.lastHttpStatus == d.lastHttpStatus
            && (d.attemptCount.None? ==> r.attemptCount == 0)
            && (d.nextCheckAt.None? ==> r.nextCheckAt == if waiting then Some(created + 5 * MINUTE) else None)
            && (d.expiresAt.None? ==> r.expiresAt == Some(created + 72 * 60 * MINUTE))
            && (d.updatedAt.None? ==> r.updatedAt == Some(created))
            && (d.lastErrorKind.None? ==> r.lastErrorKind == "") && (d.numeroCfdis.None? ==> r.numeroCfdis == 0)
            && (d.satEstado.None? ==> r.satEstado == "") && (d.satCodigo.None? ==> r.satCodigo == "")
            && (d.packageIds.None? ==> r.packageIds == []) && (d.packageRefs.None? ==> r.packageRefs == [])
  {
    hide NormalizeStatus;
  }

  /** What reading guarantees about a record. */
  predicate Normalized(r: Record) {
    && Readable(r.status)
    && r.updatedAt.Some?
    && r.expiresAt.Some?
    && (r.status.Pending() ==> r.nextCheckAt.Some?)
  }

  /** Writing a record and reading it back returns it exactly when it is normalized. */
  lemma DocumentRoundTrip(r: Record)
    ensures FromDocument(ToDocument(r)) == r <==> Normalized(r)
  {
    StatusRoundTrip(r.status);
  }

  /** Reading normalizes, and normalizing twice changes nothing more. */
  lemma ReadingNormalizes(d: Document)
    ensures Normalized(FromDocument(d))
    ensures FromDocument(ToDocument(FromDocument(d))) == FromDocument(d)
  {
    NormalizedIsReadable(d.status);
    DocumentRoundTrip(FromDocument(d));
  }

  function Decode(docs: seq<Document>): (rs: seq<Record>)
    ensures |rs| == |docs|
  {
    seq(|docs|, i requires 0 <= i < |docs| => FromDocument(docs[i]))
  }

  function Encode(rs: seq<Record>): (docs: seq<Document>)
    ensures |docs| == |rs|
  {
    seq(|rs|, i requires 0 <= i < |rs| => ToDocument(rs[i]))
  }

  ghost predicate AllNormalized(rs: seq<Record>) {
    forall r :: r in rs ==> Normalized(r)
  }

  lemma DecodeNormalized(docs: seq<Document>)
    ensures AllNormalized(Decode(docs))
  {
    forall i | 0 <= i < |docs| ensures Normalized(Decode(docs)[i]) {
      ReadingNormalizes(docs[i]);
    }
  }

  lemma DecodeEncode(rs: seq<Record>)
    requires AllNormalized(rs)
    ensures Decode(Encode(rs)) == rs
  {
    forall i | 0 <= i < |rs| ensures Decode(Encode(rs))[i] == rs[i] {
      DocumentRoundTrip(rs[i]);
    }
  }

  /** A record as it comes back from the file. */
  function Reread(r: Record): Record {
    FromDocument(ToDocument(r))
  }

  /** File order: latest creation stamp first, compared as text. */
  predicate NewerFirst(a: Record, b: Record) {
    TextRank(a.core.createdAt) >= TextRank(b.core.createdAt)
  }

  lemma NewerFirstIsPreorder()
    ensures TotalPreorder(NewerFirst)
  {
  }

  function Others(ref: string): Record -> bool {
    (r: Record) => r.core.requestRef != ref
  }

  /** The list after one upsert: the old record of that reference goes, the new one is appended and
      the list is sorted again. */
  function Upsert(rs: seq<Record>, r: Record): (out: seq<Record>) {
    SortBy(NewerFirst, Filter(Others(r.core.requestRef), rs) + [r])
  }

  lemma UpsertMembers(rs: seq<Record>, r: Record)
    ensures forall x :: x in Upsert(rs, r) <==> x == r || (x in rs && x.core.requestRef != r.core.requestRef)
    ensures multiset(Upsert(rs, r)) == multiset(Filter(Others(r.core.requestRef), rs)) + multiset{r}
  {
    var kept := Filter(Others(r.core.requestRef), rs);
    forall x ensures x in Upsert(rs, r) <==> x == r || (x in rs && x.core.requestRef != r.core.requestRef) {
      assert x in Upsert(rs, r) <==> x in multiset(Upsert(rs, r));
      assert x in kept + [r] <==> x in multiset(kept + [r]);
    }
  }

  ghost predicate UniqueRefs(rs: seq<Record>) {
    forall i, j :: 0 <= i < j < |rs| ==> rs[i].core.requestRef != rs[j].core.requestRef
  }

  lemma SameRefSameRecord(rs: seq<Record>, x: Record, y: Record)
    requires UniqueRefs(rs) && x in rs && y in rs && x.core.requestRef == y.core.requestRef
    ensures x == y
  {
  }

  lemma {:induction false} UniqueOccursOnce(rs: seq<Record>, x: Record)
    requires UniqueRefs(rs) && x in rs
    ensures multiset(rs)[x] == 1
  {
    var front, last := rs[..|rs| - 1], rs[|rs| - 1];
    assert rs == front + [last];
    if x in front {
      UniqueOccursOnce(front, x);
    }
  }

  lemma UniquePermuted(a: seq<Record>, b: seq<Record>)
    requires UniqueRefs(a) && multiset(a) == multiset(b)
    ensures UniqueRefs(b)
  {
    forall i, j | 0 <= i < j < |b| ensures b[i].core.requestRef != b[j].core.requestRef {
      if b[i].core.requestRef == b[j].core.requestRef {
        assert b[i] in multiset(a) && b[j] in multiset(a);
        SameRefSameRecord(a, b[i], b[j]);
        TwicePlaced(b, i, j);
        UniqueOccursOnce(a, b[i]);
      }
    }
  }

  lemma {:induction false} FilterKeepsUnique(rs: seq<Record>, ref: string)
    requires UniqueRefs(rs)
    ensures UniqueRefs(Filter(Others(ref), rs))
  {
    if rs != [] {
      FilterKeepsUnique(rs[..|rs| - 1], ref);
      var front := Filter(Others(ref), rs[..|rs| - 1]);
      forall i | 0 <= i < |front| ensures front[i].core.requestRef != rs[|rs| - 1].core.requestRef {
        assert front[i] in rs[..|rs| - 1];
      }
    }
  }

  /** Upsert keeps references unique and leaves the file in descending creation order. */
  lemma UpsertKeepsInvariant(rs: seq<Record>, r: Record)
    requires UniqueRefs(rs)
    ensures UniqueRefs(Upsert(rs, r)) && Sorted(NewerFirst, Upsert(rs, r))
  {
    NewerFirstIsPreorder();
    var kept := Filter(Others(r.core.requestRef), rs);
    SortBySorted(NewerFirst, kept + [r]);
    FilterKeepsUnique(rs, r.core.requestRef);
    assert UniqueRefs(kept + [r]) by {
      forall i | 0 <= i < |kept| ensures kept[i].core.requestRef != r.core.requestRef {
        assert kept[i] in kept;
      }
    }
    UniquePermuted(kept + [r], Upsert(rs, r));
  }

  /** The list read as a finite map from reference to record. */
  ghost function AsMap(rs: seq<Record>): (m: map<string, Record>)
    requires UniqueRefs(rs)
    ensures Represents(m, rs)
  {
    if rs == [] then map[]
    else
      assert rs == rs[..|rs| - 1] + [rs[|rs| - 1]];
      AsMap(rs[..|rs| - 1])[rs[|rs| - 1].core.requestRef := rs[|rs| - 1]]
  }

  ghost predicate Represents(m: map<string, Record>, rs: seq<Record>) {
    && (forall x :: x in rs ==> x.core.requestRef in m && m[x.core.requestRef] == x)
    && (forall k :: k in m ==> m[k] in rs && m[k].core.requestRef == k)
  }

  lemma RepresentationUnique(m: map<string, Record>, n: map<string, Record>, rs: seq<Record>)
    requires Represents(m, rs) && Represents(n, rs)
    ensures m == n
  {
    forall k ensures k in m <==> k in n {
      if k in m {
        assert m[k].core.requestRef in n;
      }
      if k in n {
        assert n[k].core.requestRef in m;
      }
    }
    forall k | k in m ensures m[k] == n[k] {
      assert n[m[k].core.requestRef] == m[k];
    }
  }

  lemma ReplacementRepresents(rs: seq<Record>, m: map<string, Record>, r: Record, out: seq<Record>)
    requires Represents(m, rs)
    requires forall x :: x in out <==> x == r || (x in rs && x.core.requestRef != r.core.requestRef)
    ensures Represents(m[r.core.requestRef := r], out)
  {
  }

  lemma AsMapAt(rs: seq<Record>, r: Record)
    requires UniqueRefs(rs) && r in rs
    ensures r.core.requestRef in AsMap(rs) && AsMap(rs)[r.core.requestRef] == r
  {
  }

  /** Upsert is exactly one map update. */
  lemma UpsertRefinesMap(rs: seq<Record>, r: Record)
    requires UniqueRefs(rs)
    ensures UniqueRefs(Upsert(rs, r))
    ensures AsMap(Upsert(rs, r)) == AsMap(rs)[r.core.requestRef := r]
  {
    UpsertKeepsInvariant(rs, r);
    UpsertMembers(rs, r);
    ReplacementRepresents(rs, AsMap(rs), r, Upsert(rs, r));
    RepresentationUnique(AsMap(rs)[r.core.requestRef := r], AsMap(Upsert(rs, r)), Upsert(rs, r));
  }

  /** A second upsert of the same reference leaves no trace of the first. */
  lemma UpsertOverwrites(rs: seq<Record>, a: Record, b: Record)
    requires a.core.requestRef == b.core.requestRef
    ensures Upsert(Upsert(rs, a), b) == Upsert(rs, b)
  {
    var keep := Others(a.core.requestRef);
    var kept := Filter(keep, rs);
    assert Others(b.core.requestRef) == keep by {
      assert a.core.requestRef == b.core.requestRef;
    }
    assert (kept + [a])[..|kept|] == kept && (kept + [b])[..|kept|] == kept;
    var sorted := SortBy(NewerFirst, kept);
    assert Upsert(rs, a) == Insert(NewerFirst, sorted, a);
    FilterInsert(NewerFirst, keep, sorted, a);
    forall x | x in sorted ensures keep(x) {
      assert x in multiset(sorted);
      assert x in kept;
    }
    FilterAll(keep, sorted);
    NewerFirstIsPreorder();
    SortBySorted(NewerFirst, kept);
    SortBySortedIsIdentity(NewerFirst, sorted);
    assert (sorted + [b])[..|sorted|] == sorted;
  }

  lemma RereadAt(rs: seq<Record>)
    ensures forall i :: 0 <= i < |rs| ==> Decode(Encode(rs))[i] == Reread(rs[i])
  {
  }

  /** Sorting looks at what no reading changes. */
  lemma {:induction false} RereadInsert(rs: seq<Record>, x: Record)
    ensures Decode(Encode(Insert(NewerFirst, rs, x))) == Insert(NewerFirst, Decode(Encode(rs)), Reread(x))
  {
    hide FromDocument, ToDocument, NewerFirst;
    RereadAt(rs);
    RereadAt(Insert(NewerFirst, rs, x));
    if rs != [] {
      var n := |rs| - 1;
      RereadKeepsOrder(rs[n], x);
      RereadAt(rs[..n]);
      assert Decode(Encode(rs))[..n] == Decode(Encode(rs[..n]));
      if !NewerFirst(rs[n], x) {
        RereadInsert(rs[..n], x);
        RereadAt(Insert(NewerFirst, rs[..n], x));
        assert Decode(Encode(Insert(NewerFirst, rs, x)))
            == Decode(Encode(Insert(NewerFirst, rs[..n], x))) + [Reread(rs[n])];
      }
    }
  }

  lemma RereadKeepsOrder(a: Record, b: Record)
    ensures NewerFirst(a, b) <==> NewerFirst(Reread(a), Reread(b))
  {
  }

  lemma {:induction false} RereadSort(rs: seq<Record>)
    ensures Decode(Encode(SortBy(NewerFirst, rs))) == SortBy(NewerFirst, Decode(Encode(rs)))
  {
    hide FromDocument, ToDocument, NewerFirst;
    if rs != [] {
      var n := |rs| - 1;
      RereadSort(rs[..n]);
      RereadAt(rs);
      RereadAt(rs[..n]);
      assert Decode(Encode(rs))[..n] == Decode(Encode(rs[..n]));
      RereadInsert(SortBy(NewerFirst, rs[..n]), rs[n]);
    }
  }

  /** Writing an upserted list of read records and reading it back is upserting the record as it is read. */
  lemma RereadUpsert(rs: seq<Record>, r: Record)
    requires AllNormalized(rs)
    ensures Decode(Encode(Upsert(rs, r))) == Upsert(rs, Reread(r))
  {
    hide Reread, NewerFirst, Normalized, SortBy, Decode, Encode;
    var kept := Filter(Others(r.core.requestRef), rs);
    RereadSort(kept + [r]);
    RereadAppend(kept, r);
    RereadKeepsRef(r);
  }

  lemma RereadAppend(rs: seq<Record>, r: Record)
    requires AllNormalized(rs)
    ensures Decode(Encode(rs + [r])) == rs + [Reread(r)]
  {
    DecodeEncode(rs);
    RereadAt(rs + [r]);
    RereadAt(rs);
    hide Reread, AllNormalized, Decode, Encode;
    assert forall i :: 0 <= i < |rs| ==> Decode(Encode(rs + [r]))[i] == rs[i];
  }

  lemma RereadKeepsRef(r: Record)
    ensures Reread(r).core == r.core
  {
  }

  predicate PendingOnly(r: Record) {
    r.status.Pending()
  }

  /** `live-metadata-requests.json` below one storage root. */
  class StateFile {
    var requests: seq<Document>

    /** The records a reader sees. */
    ghost function Records(): seq<Record>
      reads this
    {
      Decode(requests)
    }

    constructor ()
      ensures Records() == []
    {
      requests := [];
    }

    method List(pendingOnly: bool := false) returns (records: seq<Record>)
      ensures records == if pendingOnly then Filter(PendingOnly, Records()) else Records()
      ensures AllNormalized(records)
    {
      records := [];
      for i := 0 to |requests|
        invariant records == Decode(requests[..i])
      {
        records := records + [FromDocument(requests[i])];
      }
      assert requests[..|requests|] == requests;
      DecodeNormalized(requests);
      if pendingOnly {
        records := Filter(PendingOnly, records);
      }
    }

    method UpsertRecord(record: Record)
      modifies this
      ensures Records() == Upsert(old(Records()), Reread(record))
      ensures Normalized(record) ==> Records() == Upsert(old(Records()), record)
    {
      DocumentRoundTrip(record);
      var records := List();
      var kept := [];
      for i := 0 to |records|
        invariant kept == Filter(Others(record.core.requestRef), records[..i])
      {
        assert records[..i + 1][..i] == records[..i];
        if records[i].core.requestRef != record.core.requestRef {
          kept := kept + [records[i]];
        }
      }
      assert records[..|records|] == records;
      var sorted := SortBy(NewerFirst, kept + [record]);
      RereadUpsert(records, record);
      requests := Encode(sorted);
    }
  }
}
