/** The one-shot verification scheduler: select due records, ask the verifier once for each, write
    every outcome back to the state file. */
module VerifyScheduler {
  import opened Wrappers
  import opened Clock
  import opened Text
  import opened Sorting
  import opened RequestState

  /** Outcome actions of the verifier contract. */
  datatype Action =
    | ActAccepted | ActInProgress | ActFinished | ActRetry | ActPermanentFailure
    | ActExpired | ActUnauthorized | ActDuplicate | ActDownloadsExhausted

  datatype SatState = StAccepted | StInProcess | StFinished | StError | StRejected | StExpired

  function StateText(s: SatState): string {
    match s
    case StAccepted => "accepted"
    case StInProcess => "in_process"
    case StFinished => "finished"
    case StError => "error"
    case StRejected => "rejected"
    case StExpired => "expired"
  }

  datatype Verification = Verification(state: SatState, satCode: string, packageIds: seq<string>, action: Action)

  /** The verifier either answers or raises. */
  datatype Answer = Answered(result: Verification) | Raised(errorKind: string, httpStatus: Option<int>)

  datatype BackoffPolicy = BackoffPolicy(
    maxAttempts: int,
    maxAge: int,
    initialDelay: int,
    secondDelay: int,
    thirdDelay: int,
    fourthDelay: int,
    laterMinDelay: int,
    laterMaxDelay: int)

  const DEFAULT_POLICY := BackoffPolicy(
    12, 72 * HOUR, 5 * MINUTE, 15 * MINUTE, 30 * MINUTE, HOUR, 2 * HOUR, 4 * HOUR)

  /** One handling of a selected record; `asked` says whether the verifier was called. */
  datatype Visit = Visit(requestRef: string, idSolicitud: string, asked: bool)

  /** Everything a run takes from outside: the policy, the two digests and the verifier, whose answer
      may depend on all that happened before. */
  datatype Context = Context(
    policy: BackoffPolicy,
    jitter: (string, int) -> nat,
    redact: string -> string,
    ask: seq<Visit> -> Answer)

  datatype World = World(records: seq<Record>, visits: seq<Visit>)

  // ----- Backoff -----

  function NextDelay(c: Context, completed: int, ref: string): int {
    var p := c.policy;
    if completed <= 0 then p.initialDelay
    else if completed == 1 then p.secondDelay
    else if completed == 2 then p.thirdDelay
    else if completed == 3 then p.fourthDelay
    else
      var span := (p.laterMaxDelay - p.laterMinDelay) / SECOND;
      var window := if span < 0 then 0 else span;
      if window == 0 then p.laterMinDelay
      else p.laterMinDelay + (c.jitter(ref, completed) % (window + 1)) * SECOND
  }

  ghost predicate PositiveDelays(p: BackoffPolicy) {
    p.initialDelay > 0 && p.secondDelay > 0 && p.thirdDelay > 0 && p.fourthDelay > 0 && p.laterMinDelay > 0
  }

  /** The jittered delay stays between its two bounds. */
  lemma LaterDelayBounds(c: Context, completed: int, ref: string)
    requires completed >= 4 && c.policy.laterMinDelay <= c.policy.laterMaxDelay
    ensures c.policy.laterMinDelay <= NextDelay(c, completed, ref) <= c.policy.laterMaxDelay
  {
    var d := c.policy.laterMaxDelay - c.policy.laterMinDelay;
    if d / SECOND > 0 {
      var k := c.jitter(ref, completed) % (d / SECOND + 1);
      assert k * SECOND <= (d / SECOND) * SECOND <= d;
    }
  }

  lemma DelayIsPositive(c: Context, completed: int, ref: string)
    requires PositiveDelays(c.policy)
    ensures NextDelay(c, completed, ref) > 0
  {
  }

  function ExpiryOf(r: Record, p: BackoffPolicy): Instant {
    match r.expiresAt
    case Some(t) => t
    case None => r.core.createdAt + p.maxAge
  }

  /** A record that was read from the file carries its own expiry, so the policy's age never counts. */
  lemma StoredExpiryIgnoresPolicy(d: Document, p: BackoffPolicy, q: BackoffPolicy)
    ensures ExpiryOf(FromDocument(d), p) == ExpiryOf(FromDocument(d), q)
    ensures d.expiresAt.None? ==> ExpiryOf(FromDocument(d), p) == d.core.createdAt + DEFAULT_VERIFY_MAX_AGE
  {
  }

  predicate Expired(r: Record, now: Instant, p: BackoffPolicy) {
    now >= ExpiryOf(r, p)
  }

  function NextCheckAt(c: Context, r: Record, now: Instant, attempts: int): Instant {
    var next := now + NextDelay(c, attempts, r.core.requestRef);
    if next > ExpiryOf(r, c.policy) then ExpiryOf(r, c.policy) else next
  }

  /** A rescheduled record is no longer due, and not past its expiry, exactly when its delay is positive. */
  lemma RescheduledIsLater(c: Context, r: Record, now: Instant, attempts: int)
    requires !Expired(r, now, c.policy)
    ensures NextCheckAt(c, r, now, attempts) <= ExpiryOf(r, c.policy)
    ensures now < NextCheckAt(c, r, now, attempts) <==> NextDelay(c, attempts, r.core.requestRef) > 0
  {
  }

  // ----- One record -----

  const NO_DATA_CODES := {"301", "302", "5003", "5004", "no_data"}

  predicate NoDataCode(code: string) {
    Lower(Strip(code)) in NO_DATA_CODES
  }

  function Redacted(redact: string -> string, ids: seq<string>): (refs: seq<string>)
    ensures |refs| == |ids|
  {
    seq(|ids|, i requires 0 <= i < |ids| => redact(ids[i]))
  }

  function CloseOut(r: Record, now: Instant, status: Status, kind: string): Record {
    r.(status := status, nextCheckAt := None, lastCheckedAt := Some(now), lastErrorKind := kind, updatedAt := Some(now))
  }

  function MarkInProgress(r: Record, now: Instant): Record {
    r.(status := VerifyInProgress, lastCheckedAt := Some(now), updatedAt := Some(now))
  }

  /** What an answer means after `attempts` attempts. */
  datatype Verdict = Verdict(status: Status, errorKind: string)

  function Classify(p: BackoffPolicy, attempts: int, v: Verification): Verdict {
    if v.action.ActFinished? then Verdict(PackageReady, "")
    else if NoDataCode(v.satCode) then Verdict(VerifyNoData, "")
    else if v.action.ActExpired? || v.state.StExpired? then Verdict(VerifyExpired, "expired_request")
    else if v.state.StRejected? then Verdict(VerifyRejected, "rejected")
    else if v.action.ActUnauthorized? then Verdict(VerifyFailedPermanent, "unauthorized")
    else if v.action.ActPermanentFailure? then Verdict(VerifyFailedPermanent, "permanent_failure")
    else if v.action.ActDownloadsExhausted? then Verdict(VerifyFailedRetryable, "")
    else if attempts >= p.maxAttempts then Verdict(VerifyFailedPermanent, "max_attempts_reached")
    else if v.action.ActAccepted? || v.action.ActInProgress? then Verdict(VerifyInProgressSat, "")
    else Verdict(VerifyFailedRetryable, "")
  }

  lemma ClassifyDecides(p: BackoffPolicy, attempts: int, v: Verification)
    ensures var s := Classify(p, attempts, v).status; (s.Pending() || s.Terminal()) && !(s.Pending() && s.Terminal())
  {
  }

  function RecordResult(c: Context, r: Record, now: Instant, v: Verification): Record {
    var attempts := r.attemptCount + 1;
    var verdict := Classify(c.policy, attempts, v);
    r.(
    status := verdict.status,
    attemptCount := attempts,
    nextCheckAt := if verdict.status.Pending() then Some(NextCheckAt(c, r, now, attempts)) else None,
    lastCheckedAt := Some(now),
    lastErrorKind := verdict.errorKind,
    lastHttpStatus := None,
    satEstado := StateText(v.state),
    satCodigo := v.satCode,
    numeroCfdis := |v.packageIds|,
    packageIds := if v.action.ActFinished? then v.packageIds else r.packageIds,
    packageRefs := if v.action.ActFinished? then Redacted(c.redact, v.packageIds) else r.packageRefs,
    updatedAt := Some(now))
  }

  function RetryOrPermanent(c: Context, r: Record, now: Instant, kind: string, http: Option<int>): Record {
    var attempts := r.attemptCount + 1;
    var last := attempts >= c.policy.maxAttempts;
    r.(
    status := if last then VerifyFailedPermanent else VerifyFailedRetryable,
    attemptCount := attempts,
    nextCheckAt := if last then None else Some(NextCheckAt(c, r, now, attempts)),
    lastCheckedAt := Some(now),
    lastErrorKind := if last && kind == "transport_timeout" then "max_attempts_reached" else kind,
    lastHttpStatus := http,
    updatedAt := Some(now))
  }

  function AfterAnswer(c: Context, r: Record, now: Instant, a: Answer): Record {
    match a
    case Answered(v) => RecordResult(c, r, now, v)
    case Raised(kind, http) => RetryOrPermanent(c, r, now, kind, http)
  }

  /** Whether handling `r` calls the verifier. */
  predicate NeedsVerifier(c: Context, r: Record, now: Instant) {
    !Expired(r, now, c.policy) && r.attemptCount < c.policy.maxAttempts
  }

  function VisitOf(c: Context, r: Record, now: Instant): Visit {
    Visit(r.core.requestRef, r.core.idSolicitud, NeedsVerifier(c, r, now))
  }

  /** The record as it stands once it has been handled. */
  function Handled(c: Context, visits: seq<Visit>, r: Record, now: Instant): Record {
    if Expired(r, now, c.policy) then CloseOut(r, now, VerifyExpired, "expired_request")
    else if r.attemptCount >= c.policy.maxAttempts then CloseOut(r, now, VerifyFailedPermanent, "max_attempts_reached")
    else AfterAnswer(c, MarkInProgress(r, now), now, c.ask(visits + [VisitOf(c, r, now)]))
  }

  lemma AfterAnswerShape(c: Context, r: Record, now: Instant, a: Answer)
    ensures var u := AfterAnswer(c, r, now, a);
            && u.core == r.core
            && u.attemptCount == r.attemptCount + 1
            && u.updatedAt == Some(now)
            && u.expiresAt == r.expiresAt
            && (u.status.Pending() || u.status.Terminal())
            && u.nextCheckAt == if u.status.Pending() then Some(NextCheckAt(c, r, now, u.attemptCount)) else None
  {
    match a
    case Answered(v) => ClassifyDecides(c.policy, r.attemptCount + 1, v);
    case Raised(kind, http) =>
  }

  /** What handling a record does to its identity, its attempt count and its schedule. */
  lemma HandledShape(c: Context, visits: seq<Visit>, r: Record, now: Instant)
    ensures var u := Handled(c, visits, r, now);
            && u.core == r.core
            && u.attemptCount == r.attemptCount + (if NeedsVerifier(c, r, now) then 1 else 0)
            && u.updatedAt == Some(now)
            && u.expiresAt == r.expiresAt
            && (u.status.Pending() || u.status.Terminal())
            && (!NeedsVerifier(c, r, now) ==> u.status.Terminal())
            && u.nextCheckAt == if u.status.Pending() then Some(NextCheckAt(c, r, now, u.attemptCount)) else None
  {
    if NeedsVerifier(c, r, now) {
      AfterAnswerShape(c, MarkInProgress(r, now), now, c.ask(visits + [VisitOf(c, r, now)]));
    }
  }

  function VerifyOne(c: Context, w: World, r: Record, now: Instant): World {
    World(Upsert(w.records, Handled(c, w.visits, r, now)), w.visits + [VisitOf(c, r, now)])
  }

  // ----- One run -----

  predicate TieBefore(a: Record, b: Record) {
    TextRank(a.core.createdAt) < TextRank(b.core.createdAt)
    || (a.core.createdAt == b.core.createdAt && LexLe(a.core.requestRef, b.core.requestRef))
  }

  /** Selection order: next check, creation and reference, each compared as text. */
  predicate DueBefore(a: Record, b: Record) {
    match (a.nextCheckAt, b.nextCheckAt)
    case (None, None) => TieBefore(a, b)
    case (None, Some(_)) => true
    case (Some(_), None) => false
    case (Some(s), Some(t)) => TextRank(s) < TextRank(t) || (s == t && TieBefore(a, b))
  }

  lemma TieBeforeIsPreorder()
    ensures TotalPreorder(TieBefore)
  {
    forall x, y ensures TieBefore(x, y) || TieBefore(y, x) {
      LexLeTotal(x.core.requestRef, y.core.requestRef);
      if TextRank(x.core.createdAt) == TextRank(y.core.createdAt) {
        TextRankInjective(x.core.createdAt, y.core.createdAt);
      }
    }
    forall x, y, z | TieBefore(x, y) && TieBefore(y, z) ensures TieBefore(x, z) {
      if x.core.createdAt == y.core.createdAt && y.core.createdAt == z.core.createdAt {
        LexLeTransitive(x.core.requestRef, y.core.requestRef, z.core.requestRef);
      }
    }
  }

  lemma DueBeforeIsPreorder()
    ensures TotalPreorder(DueBefore)
  {
    TieBeforeIsPreorder();
    forall x, y ensures DueBefore(x, y) || DueBefore(y, x) {
      if x.nextCheckAt.Some? && y.nextCheckAt.Some? && TextRank(x.nextCheckAt.value) == TextRank(y.nextCheckAt.value) {
        TextRankInjective(x.nextCheckAt.value, y.nextCheckAt.value);
      }
    }
    forall x, y, z | DueBefore(x, y) && DueBefore(y, z) ensures DueBefore(x, z) {
    }
  }

  lemma DueBeforeSeparatesRefs(a: Record, b: Record)
    requires DueBefore(a, b) && DueBefore(b, a)
    ensures a.core.requestRef == b.core.requestRef
  {
    LexLeAntisymmetric(a.core.requestRef, b.core.requestRef);
  }

  predicate Due(r: Record, now: Instant) {
    r.status.Pending() && r.nextCheckAt.Some? && r.nextCheckAt.value <= now
  }

  /** What a run looks at: one profile, and one reference if the caller names it. */
  datatype Scope = Scope(profileId: string, requestRef: Option<string>)

  predicate InScope(r: Record, scope: Scope) {
    r.core.profileId == scope.profileId
    && (scope.requestRef.Some? ==> r.core.requestRef == Strip(scope.requestRef.value))
  }

  function ScopeFilter(scope: Scope): Record -> bool {
    (r: Record) => InScope(r, scope)
  }

  function DueFilter(now: Instant): Record -> bool {
    (r: Record) => Due(r, now)
  }

  function DueIn(scope: Scope, now: Instant): Record -> bool {
    (r: Record) => InScope(r, scope) && Due(r, now)
  }

  function DueRecords(records: seq<Record>, scope: Scope, now: Instant): seq<Record> {
    SortBy(DueBefore, Filter(DueIn(scope, now), records))
  }

  /** The slice `s[:limit]`, negative limits included. */
  function Prefix<T>(s: seq<T>, limit: int): seq<T> {
    if limit >= |s| then s
    else if limit >= 0 then s[..limit]
    else if |s| + limit >= 0 then s[..|s| + limit]
    else []
  }

  function VerifyAll(c: Context, w: World, selected: seq<Record>, now: Instant): World {
    if selected == [] then w
    else VerifyOne(c, VerifyAll(c, w, selected[..|selected| - 1], now), selected[|selected| - 1], now)
  }

  function RunVerifyDue(c: Context, w: World, scope: Scope, limit: int, now: Instant): World {
    VerifyAll(c, w, Prefix(DueRecords(w.records, scope, now), limit), now)
  }

  function CountIf(p: Record -> bool, rs: seq<Record>): nat {
    if rs == [] then 0 else CountIf(p, rs[..|rs| - 1]) + if p(rs[|rs| - 1]) then 1 else 0
  }

  /** The check whose text is the smallest among the pending records' checks. */
  function NextDue(rs: seq<Record>): Option<Instant> {
    if rs == [] then None
    else
      var front, last := NextDue(rs[..|rs| - 1]), rs[|rs| - 1];
      if !last.status.Pending() || last.nextCheckAt.None? then front
      else if front.None? || TextRank(last.nextCheckAt.value) < TextRank(front.value) then last.nextCheckAt
      else front
  }

  datatype Summary = Summary(
    pending: nat, due: nat, nextDue: Option<Instant>, finished: nat, failed: nat, packageReady: nat)

  predicate IsFinished(r: Record) {
    r.status.VerifyFinished? || r.status.PackageReady?
  }

  predicate IsFailed(r: Record) {
    r.status.VerifyFailedPermanent? || r.status.VerifyRejected? || r.status.VerifyExpired?
  }

  predicate IsReady(r: Record) {
    r.status.PackageReady?
  }

  function Summarize(rs: seq<Record>, now: Instant): Summary {
    Summary(
      CountIf(PendingOnly, rs),
      CountIf(DueFilter(now), rs),
      NextDue(rs),
      CountIf(IsFinished, rs),
      CountIf(IsFailed, rs),
      CountIf(IsReady, rs))
  }

  /** `items` are the records handled, or in a dry run the records selected. */
  datatype Report = Report(
    dueCount: nat, selectedCount: nat, processedCount: nat, items: seq<Record>, summary: Summary)
}
