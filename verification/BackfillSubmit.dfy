/** Matching backfill windows with stored requests, and submitting the windows one at a time. */
module BackfillSubmit {
  import opened Wrappers
  import opened Clock
  import opened Text
  import opened Domain
  import opened RequestState
  import opened Backfill
  import VerifyScheduler
  import VerifyTheorems

  // ----- The plan -----

  datatype PlanArgs = PlanArgs(profileId: string, rfc: string, direction: Direction, start: int, end: int, step: Step)

  datatype WindowPlan = WindowPlan(
    index: nat, query: DownloadQuery, operation: string, criteriaHash: string,
    existingRef: string, existingStatus: Option<Status>)

  function OperationFor(direction: Direction): Option<string> {
    match direction
    case Received => Some("SolicitaDescargaRecibidos")
    case Issued => Some("SolicitaDescargaEmitidos")
    case Folio => None
  }

  function QueryFor(a: PlanArgs, period: Period): DownloadQuery {
    DownloadQuery(a.profileId, a.rfc, a.direction, Metadata, Some(period), None, [], None, None, None, None, None, None)
  }

  /** `_existing_by_criteria`: the last record of the profile under each criteria hash. */
  function Existing(records: seq<Record>, profileId: string): (m: map<string, Record>)
    ensures forall h :: h in m ==> m[h] in records
  {
    if records == [] then map[]
    else
      var last := records[|records| - 1];
      var rest := Existing(records[..|records| - 1], profileId);
      if last.core.profileId == profileId then rest[last.core.criteriaHash := last] else rest
  }

  function PlanWindow(digest: Digest, existing: map<string, Record>, a: PlanArgs, period: Period, index: nat)
    : WindowPlan
  {
    var query := QueryFor(a, period);
    var h := CriteriaHash(digest, query);
    WindowPlan(
      index, query, OrElse(OperationFor(a.direction), ""), h,
      if h in existing then existing[h].core.requestRef else "",
      if h in existing then Some(existing[h].status) else None)
  }

  function PlanWindows(digest: Digest, records: seq<Record>, a: PlanArgs): (r: seq<WindowPlan>)
    ensures |r| == |Tiles(a.start, a.end, a.step)|
  {
    var periods := Periods(a.start, a.end, a.step);
    var existing := Existing(records, a.profileId);
    seq(|periods|, i requires 0 <= i < |periods| => PlanWindow(digest, existing, a, periods[i], i + 1))
  }

  function NewCount(plan: seq<WindowPlan>): nat {
    if plan == [] then 0 else NewCount(plan[..|plan| - 1]) + if plan[|plan| - 1].existingRef == "" then 1 else 0
  }

  method ExistingByCriteria(file: StateFile, profileId: string) returns (existing: map<string, Record>)
    ensures existing == Existing(file.Records(), profileId)
  {
    var records := file.List();
    existing := map[];
    for i := 0 to |records|
      invariant existing == Existing(records[..i], profileId)
    {
      assert records[..i + 1][..i] == records[..i];
      if records[i].core.profileId == profileId {
        existing := existing[records[i].core.criteriaHash := records[i]];
      }
    }
    assert records[..|records|] == records;
  }

  /** `build_backfill_plan`. */
  method BuildBackfillPlan(file: StateFile, digest: Digest, a: PlanArgs, kind: RequestType, window: string)
    returns (r: Result<seq<WindowPlan>, PlanError>)
    requires a.start <= MAX_DAY && a.end <= MAX_DAY
    ensures r == if kind.Cfdi? then Err(MetadataOnly)
                 else if a.direction.Folio? then Err(BadDirection)
                 else if a.end < a.start then Err(EndBeforeStart)
                 else if WindowStep(window).None? then Err(BadWindow)
                 else if InCalendar(a.start, a.end, WindowStep(window).value)
                 then Ok(PlanWindows(digest, file.Records(), a.(step := WindowStep(window).value)))
                 else Err(DateOverflow)
  {
    hide WindowStep, InCalendar, Periods, PlanWindow, Existing;
    if kind.Cfdi? {
      return Err(MetadataOnly);
    }
    if OperationFor(a.direction).None? {
      return Err(BadDirection);
    }
    var existing := ExistingByCriteria(file, a.profileId);
    var periods := GeneratePeriods(a.start, a.end, window);
    if periods.Err? {
      return Err(periods.error);
    }
    var args := a.(step := WindowStep(window).value);
    ghost var plan := PlanWindows(digest, file.Records(), args);
    var windows := [];
    for i := 0 to |periods.value|
      invariant windows == plan[..i]
    {
      windows := windows + [PlanWindow(digest, existing, args, periods.value[i], i + 1)];
    }
    assert plan[..|plan|] == plan;
    return Ok(windows);
  }

  // ----- Submitting -----

  /** The texts a new record carries, as functions of their inputs. */
  datatype Texts = Texts(
    digest: Digest,
    refOf: (string, string, string) -> string,
    isoOf: Stamp -> string,
    redactId: string -> string,
    safeMessage: string -> string,
    permitHash: string)

  /** What the live request came to, if it was made. */
  datatype Reply =
    | Denied
    | NotAccepted
    | Accepted(idSolicitud: string, operation: string, satCode: string, satMessage: string, now: Instant)

  function DirectionText(d: Direction): string {
    match d
    case Issued => "issued"
    case Received => "received"
    case Folio => "folio"
  }

  /** `persist_live_metadata_request`, without its write. */
  function NewRecord(t: Texts, profileId: string, q: DownloadQuery, r: Reply): Record
    requires r.Accepted?
  {
    var id := Strip(r.idSolicitud);
    var h := CriteriaHash(t.digest, q);
    Record(
      RequestCore(
        t.refOf(profileId, h, id), profileId, DirectionText(q.direction),
        if q.requestType.Metadata? then "metadata" else "cfdi",
        r.operation,
        if q.period.Some? then t.isoOf(q.period.value.start) else "",
        if q.period.Some? then t.isoOf(q.period.value.end) else "",
        h, id, t.redactId(id), r.satCode, t.safeMessage(r.satMessage), r.now, true, "sat backfill submit",
        t.permitHash),
      VerifyScheduled, 0, Some(r.now + DEFAULT_VERIFY_INITIAL_DELAY), None, "", None, "", "", 0, [], [], Some(r.now),
      Some(r.now + DEFAULT_VERIFY_MAX_AGE))
  }

  /** A new record is stored as reading would return it, and is scheduled before its expiry. */
  lemma NewRecordIsNormalized(t: Texts, profileId: string, q: DownloadQuery, r: Reply, p: VerifyScheduler.BackoffPolicy)
    requires r.Accepted?
    ensures var x := NewRecord(t, profileId, q, r);
            Normalized(x) && VerifyTheorems.Scheduled(x, p) && x.attemptCount == 0 && x.status.Pending()
  {
  }

  /** What a new record says: it belongs to the profile and the query it was sent for, the verifier is asked
      under the id that SAT accepted, stripped, the first check is five minutes and the end 72 hours later, and
      nothing is known yet. */
  lemma NewRecordIs(t: Texts, profileId: string, q: DownloadQuery, r: Reply, c: VerifyScheduler.Context, now: Instant)
    requires r.Accepted? && q.period.Some? && !q.direction.Folio? && q.requestType.Metadata?
    ensures var x := NewRecord(t, profileId, q, r);
            && VerifyScheduler.VisitOf(c, x, now).idSolicitud == Strip(r.idSolicitud)
            && VerifyScheduler.VisitOf(c, x, now).requestRef == x.core.requestRef
            && x.core.requestRef == t.refOf(profileId, CriteriaHash(t.digest, q), Strip(r.idSolicitud))
            && x.core.profileId == profileId && x.core.criteriaHash == CriteriaHash(t.digest, q)
            && x.core.direction == (if q.direction.Issued? then "issued" else "received") && x.core.kind == "metadata"
            && x.core.fechaInicial == t.isoOf(q.period.value.start) && x.core.fechaFinal == t.isoOf(q.period.value.end)
            && x.core.operation == r.operation && x.core.satCode == r.satCode && x.core.createdAt == r.now
            && x.status == VerifyScheduled && x.attemptCount == 0 && x.packageIds == []
            && x.nextCheckAt == Some(r.now + 5 * MINUTE) && x.expiresAt == Some(r.now + 72 * 60 * MINUTE)
            && x.updatedAt == Some(r.now) && x.lastCheckedAt == None
  {
    hide CriteriaHash, Strip, VerifyScheduler.NeedsVerifier;
  }

  /** What a planned window asks for, and what it knows of the file: metadata of the one direction, for the
      profile's own tax id and the window's period, numbered from one; and the reference and status of the last
      record that the profile has stored for the same criteria. */
  lemma PlannedWindowIs(digest: Digest, records: seq<Record>, a: PlanArgs, i: nat)
    requires i < |Periods(a.start, a.end, a.step)| && !a.direction.Folio?
    ensures var w := PlanWindows(digest, records, a)[i]; var q := w.query;
            && w.index == i + 1 && w.criteriaHash == CriteriaHash(digest, q)
            && w.operation == (if a.direction.Issued? then "SolicitaDescargaEmitidos" else "SolicitaDescargaRecibidos")
            && q.tenantId == a.profileId && q.requesterRfc == a.rfc && q.direction == a.direction
            && q.requestType == Metadata && q.period == Some(Periods(a.start, a.end, a.step)[i])
            && q.issuerRfc == None && q.receiverRfcs == [] && q.uuid == None && q.documentStatus == None
            && q.documentType == None && q.complement == None && q.rfcOnBehalf == None
            && q.recoveryVariantReason == None
            && StoredAs(records, a.profileId, w)
  {
    hide Periods, CriteriaHash;
    var w := PlanWindows(digest, records, a)[i];
    ExistingIsLast(records, a.profileId, w.criteriaHash);
    SomeIsLast(records, a.profileId, w.criteriaHash);
    hide Existing, IsLast;
  }

  lemma SomeIsLast(records: seq<Record>, profileId: string, hash: string)
    ensures (exists i :: IsLast(records, profileId, hash, i)) ==>
              exists i :: 0 <= i < |records| && SameRequest(records[i], profileId, hash)
  {
  }

  /** A record of the profile under these criteria. */
  predicate SameRequest(r: Record, profileId: string, hash: string) {
    r.core.profileId == profileId && r.core.criteriaHash == hash
  }

  /** The last record of the profile under these criteria. */
  predicate IsLast(records: seq<Record>, profileId: string, hash: string, i: int) {
    && 0 <= i < |records| && SameRequest(records[i], profileId, hash)
    && forall j :: i < j < |records| ==> !SameRequest(records[j], profileId, hash)
  }

  ghost predicate StoredAs(records: seq<Record>, profileId: string, w: WindowPlan) {
    if exists i :: 0 <= i < |records| && SameRequest(records[i], profileId, w.criteriaHash) then
      exists i :: IsLast(records, profileId, w.criteriaHash, i)
                  && w.existingRef == records[i].core.requestRef && w.existingStatus == Some(records[i].status)
    else w.existingRef == "" && w.existingStatus == None
  }

  lemma {:induction false} ExistingIsLast(records: seq<Record>, profileId: string, hash: string)
    ensures var m := Existing(records, profileId);
            if hash in m then exists i :: IsLast(records, profileId, hash, i) && m[hash] == records[i]
            else forall i :: 0 <= i < |records| ==> !SameRequest(records[i], profileId, hash)
  {
    if records != [] {
      hide Existing, IsLast, SameRequest;
      var n := |records| - 1;
      ExistingIsLast(records[..n], profileId, hash);
      var m, front := Existing(records, profileId), Existing(records[..n], profileId);
      ExistingNext(records, profileId);
      SameRequestIs(records[n], profileId, hash);
      if SameRequest(records[n], profileId, hash) {
        LastIsLast(records, profileId, hash);
      } else if hash in front {
        var i :| IsLast(records[..n], profileId, hash, i) && front[hash] == records[..n][i];
        LastStays(records, profileId, hash, i);
      } else {
        assert forall i :: 0 <= i < n ==> records[..n][i] == records[i];
      }
    }
  }

  lemma ExistingNext(records: seq<Record>, profileId: string)
    requires records != []
    ensures var n := |records| - 1;
            Existing(records, profileId) ==
            if records[n].core.profileId == profileId then
              Existing(records[..n], profileId)[records[n].core.criteriaHash := records[n]]
            else Existing(records[..n], profileId)
  {
  }

  lemma SameRequestIs(r: Record, profileId: string, hash: string)
    ensures SameRequest(r, profileId, hash) <==> r.core.profileId == profileId && r.core.criteriaHash == hash
  {
  }

  lemma LastIsLast(records: seq<Record>, profileId: string, hash: string)
    requires records != [] && SameRequest(records[|records| - 1], profileId, hash)
    ensures IsLast(records, profileId, hash, |records| - 1)
  {
  }

  lemma LastStays(records: seq<Record>, profileId: string, hash: string, i: int)
    requires records != [] && !SameRequest(records[|records| - 1], profileId, hash)
    requires IsLast(records[..|records| - 1], profileId, hash, i)
    ensures IsLast(records, profileId, hash, i) && records[..|records| - 1][i] == records[i]
  {
    var front := records[..|records| - 1];
    assert forall j :: 0 <= j < |front| ==> front[j] == records[j];
  }

  function FirstNew(plan: seq<WindowPlan>): (i: nat)
    ensures i <= |plan| && (i < |plan| ==> plan[i].existingRef == "")
    ensures forall j :: 0 <= j < i ==> plan[j].existingRef != ""
  {
    if plan == [] || plan[0].existingRef == "" then 0 else 1 + FirstNew(plan[1..])
  }

  /** Whether a submit stores a request, and for which window. */
  function Submitted(t: Texts, records: seq<Record>, a: PlanArgs, r: Reply): (w: Option<WindowPlan>)
    ensures w.Some? ==> r.Accepted? && w.value.existingRef == ""
  {
    var plan := PlanWindows(t.digest, records, a);
    if FirstNew(plan) < |plan| && r.Accepted? && Strip(r.idSolicitud) != "" then Some(plan[FirstNew(plan)]) else None
  }

  /** `sat_backfill_submit`. The profile is looked up by its stored id, but the request is stored under
      the id that was typed. */
  function Submit(t: Texts, records: seq<Record>, a: PlanArgs, typedId: string, r: Reply): seq<Record> {
    match Submitted(t, records, a, r)
    case Some(w) => Upsert(records, NewRecord(t, typedId, w.query, r))
    case None => records
  }
}
