/** What a verifier's answer makes of a record, told from the answer itself; and over histories, that a
    record is ready only by a finished answer of its own. */
module VerifyOutcomes {
  import opened Wrappers
  import opened Clock
  import opened Text
  import opened RequestState
  import opened VerifyScheduler
  import opened VerifyWorker
  import opened VerifyTheorems
  import opened VerifyHistory

  // ----- One record -----

  /** The record's own expiry, or its creation and the policy's age. */
  function Deadline(c: Context, r: Record): Instant {
    if r.expiresAt.Some? then r.expiresAt.value else r.core.createdAt + c.policy.maxAge
  }

  /** The verifier is asked under the record's own id, and answers. */
  ghost predicate Replies(c: Context, visits: seq<Visit>, r: Record, now: Instant, a: Answer) {
    && now < Deadline(c, r) && r.attemptCount < c.policy.maxAttempts
    && c.ask(visits + [Visit(r.core.requestRef, r.core.idSolicitud, true)]) == a
  }

  /** Which status an answer gives: a finished answer before a code for no data, that before expiry, that
      before rejection, that before the two permanent failures, and the cap on attempts last, which the
      answer that downloads are exhausted escapes. */
  lemma AnswerDecidesStatus(c: Context, visits: seq<Visit>, r: Record, now: Instant, v: Verification)
    requires Replies(c, visits, r, now, Answered(v))
    ensures var s := Handled(c, visits, r, now).status;
            var code := Lower(Strip(v.satCode));
            var noData := code == "301" || code == "302" || code == "5003" || code == "5004" || code == "no_data";
            var finished := v.action == ActFinished;
            var expired := v.action == ActExpired || v.state == StExpired;
            var open := !finished && !noData && !expired && v.state != StRejected;
            var refused := v.action == ActUnauthorized || v.action == ActPermanentFailure;
            var capped := r.attemptCount + 1 >= c.policy.maxAttempts && v.action != ActDownloadsExhausted;
            && (s == PackageReady <==> finished)
            && (s == VerifyNoData <==> !finished && noData)
            && (s == VerifyExpired <==> !finished && !noData && expired)
            && (s == VerifyRejected <==> !finished && !noData && !expired && v.state == StRejected)
            && (s == VerifyFailedPermanent <==> open && (refused || capped))
            && (s == VerifyInProgressSat <==>
                  open && !capped && (v.action == ActAccepted || v.action == ActInProgress))
            && (s == VerifyFailedRetryable <==>
                  open && !capped
                  && (v.action == ActRetry || v.action == ActDuplicate || v.action == ActDownloadsExhausted))
  {
    hide Lower, Strip;
  }

  /** What else an answer leaves in the record: a finished one its package ids and their redacted forms, any
      other one the ids as they were; always the answer's own state, code and number of packages. */
  lemma AnswerIsRecorded(c: Context, visits: seq<Visit>, r: Record, now: Instant, v: Verification)
    requires Replies(c, visits, r, now, Answered(v))
    ensures var u := Handled(c, visits, r, now);
            && u.core == r.core && u.attemptCount == r.attemptCount + 1
            && (v.action == ActFinished ==>
                  && u.packageIds == v.packageIds && |u.packageRefs| == |v.packageIds|
                  && forall i :: 0 <= i < |v.packageIds| ==> u.packageRefs[i] == c.redact(v.packageIds[i]))
            && (v.action != ActFinished ==> u.packageIds == r.packageIds && u.packageRefs == r.packageRefs)
            && u.satCodigo == v.satCode && u.numeroCfdis == |v.packageIds| && u.lastHttpStatus == None
            && u.satEstado == (match v.state
                               case StAccepted => "accepted"
                               case StInProcess => "in_process"
                               case StFinished => "finished"
                               case StError => "error"
                               case StRejected => "rejected"
                               case StExpired => "expired")
            && u.lastCheckedAt == Some(now) && u.updatedAt == Some(now) && u.expiresAt == r.expiresAt
  {
    hide Classify;
  }

  /** Which kind of error an answer leaves, by the status it gives. */
  lemma AnswerLeavesKind(c: Context, visits: seq<Visit>, r: Record, now: Instant, v: Verification)
    requires Replies(c, visits, r, now, Answered(v))
    ensures var u := Handled(c, visits, r, now);
            u.lastErrorKind ==
            if u.status == VerifyExpired then "expired_request"
            else if u.status == VerifyRejected then "rejected"
            else if u.status != VerifyFailedPermanent then ""
            else if v.action == ActUnauthorized then "unauthorized"
            else if v.action == ActPermanentFailure then "permanent_failure"
            else "max_attempts_reached"
  {
    hide Lower, Strip;
  }

  /** An error of the verifier: tried again until the attempts are used up; a timeout is then reported as
      that. The record keeps all it knew from SAT. */
  lemma ErrorIsRetried(c: Context, visits: seq<Visit>, r: Record, now: Instant, kind: string, http: Option<int>)
    requires Replies(c, visits, r, now, Raised(kind, http))
    ensures var u := Handled(c, visits, r, now);
            var last := r.attemptCount + 1 >= c.policy.maxAttempts;
            && u.status == (if last then VerifyFailedPermanent else VerifyFailedRetryable)
            && u.core == r.core && u.attemptCount == r.attemptCount + 1 && u.lastHttpStatus == http
            && u.lastErrorKind == (if last && kind == "transport_timeout" then "max_attempts_reached" else kind)
            && u.packageIds == r.packageIds && u.packageRefs == r.packageRefs && u.numeroCfdis == r.numeroCfdis
            && u.satEstado == r.satEstado && u.satCodigo == r.satCodigo
            && u.lastCheckedAt == Some(now) && u.updatedAt == Some(now) && u.expiresAt == r.expiresAt
  {
  }

  /** Without a call: past its expiry a record is closed as expired, and otherwise, without attempts left, as
      failed; nothing else of it changes. */
  lemma ClosedUnasked(c: Context, visits: seq<Visit>, r: Record, now: Instant)
    requires now >= Deadline(c, r) || r.attemptCount >= c.policy.maxAttempts
    ensures var expired := now >= Deadline(c, r);
            Handled(c, visits, r, now)
            == r.(status := if expired then VerifyExpired else VerifyFailedPermanent,
                  lastErrorKind := if expired then "expired_request" else "max_attempts_reached",
                  nextCheckAt := None, lastCheckedAt := Some(now), updatedAt := Some(now))
    ensures VisitOf(c, r, now) == Visit(r.core.requestRef, r.core.idSolicitud, false)
  {
  }

  /** When a record that stays pending is due again: after the delay of its attempt, or at its deadline if
      that comes first. */
  lemma NextCheckIs(c: Context, visits: seq<Visit>, r: Record, now: Instant) returns (delay: int)
    requires Handled(c, visits, r, now).status.Pending()
    ensures var u := Handled(c, visits, r, now);
            u.attemptCount == r.attemptCount + 1 && u.nextCheckAt == Some(Min(now + delay, Deadline(c, r)))
    ensures r.attemptCount + 1 <= 0 ==> delay == c.policy.initialDelay
    ensures r.attemptCount + 1 == 1 ==> delay == c.policy.secondDelay
    ensures r.attemptCount + 1 == 2 ==> delay == c.policy.thirdDelay
    ensures r.attemptCount + 1 == 3 ==> delay == c.policy.fourthDelay
    ensures r.attemptCount + 1 >= 4 && c.policy.laterMinDelay <= c.policy.laterMaxDelay ==>
              c.policy.laterMinDelay <= delay <= c.policy.laterMaxDelay
  {
    HandledShape(c, visits, r, now);
    var attempts, ref := r.attemptCount + 1, r.core.requestRef;
    ScheduledAt(c, r, now, attempts);
    delay := NextDelay(c, attempts, ref);
    if attempts >= 4 && c.policy.laterMinDelay <= c.policy.laterMaxDelay {
      LaterDelayBounds(c, attempts, ref);
    }
    NeverBoth(c, visits, r, now);
    hide Handled, NextCheckAt;
  }

  lemma NeverBoth(c: Context, visits: seq<Visit>, r: Record, now: Instant)
    ensures Handled(c, visits, r, now).status.Pending() ==> NeedsVerifier(c, r, now)
  {
    HandledShape(c, visits, r, now);
  }

  lemma ScheduledAt(c: Context, r: Record, now: Instant, attempts: int)
    ensures NextCheckAt(c, r, now, attempts) == Min(now + NextDelay(c, attempts, r.core.requestRef), Deadline(c, r))
  {
    hide NextDelay;
  }

  /** The default policy's delays, in minutes: 5, 15, 30 and 60, then two to four hours. */
  lemma DefaultDelays()
    ensures var p := DEFAULT_POLICY;
            && p.initialDelay == 5 * MINUTE && p.secondDelay == 15 * MINUTE && p.thirdDelay == 30 * MINUTE
            && p.fourthDelay == 60 * MINUTE && p.laterMinDelay == 120 * MINUTE && p.laterMaxDelay == 240 * MINUTE
            && p.maxAttempts == 12 && p.maxAge == 72 * 60 * MINUTE && PositiveDelays(p)
  {
  }

  // ----- Histories -----

  /** A call under the record's own id, `from` or later, was answered as finished with the ids it holds. */
  ghost predicate OwnAnswer(c: Context, visits: seq<Visit>, from: nat, r: Record) {
    exists n ::
      && from <= n < |visits| && visits[n] == Visit(r.core.requestRef, r.core.idSolicitud, true)
      && c.ask(visits[..n + 1]).Answered? && c.ask(visits[..n + 1]).result.action == ActFinished
      && c.ask(visits[..n + 1]).result.packageIds == r.packageIds
  }

  ghost predicate ReadyIsAnswered(c: Context, w: World, from: nat, ref: string) {
    && WorldOk(w) && from <= |w.visits| && ref in AsMap(w.records)
    && (AsMap(w.records)[ref].status == PackageReady ==> OwnAnswer(c, w.visits, from, AsMap(w.records)[ref]))
  }

  lemma OwnAnswerStays(c: Context, visits: seq<Visit>, v: Visit, from: nat, r: Record)
    requires OwnAnswer(c, visits, from, r)
    ensures OwnAnswer(c, visits + [v], from, r)
  {
    var n :| from <= n < |visits| && visits[n] == Visit(r.core.requestRef, r.core.idSolicitud, true)
             && c.ask(visits[..n + 1]).Answered? && c.ask(visits[..n + 1]).result.action == ActFinished
             && c.ask(visits[..n + 1]).result.packageIds == r.packageIds;
    var all := visits + [v];
    assert all[..n + 1] == visits[..n + 1] && all[n] == visits[n];
  }

  /** A record that handling makes ready was just answered. */
  lemma HandledReady(c: Context, visits: seq<Visit>, r: Record, now: Instant, from: nat)
    requires Handled(c, visits, r, now).status == PackageReady && from <= |visits|
    ensures OwnAnswer(c, visits + [VisitOf(c, r, now)], from, Handled(c, visits, r, now))
  {
    hide Handled, NextDelay;
    if now >= Deadline(c, r) || r.attemptCount >= c.policy.maxAttempts {
      ClosedUnasked(c, visits, r, now);
    } else {
      VisitAsks(c, r, now);
      match c.ask(visits + [VisitOf(c, r, now)])
      case Answered(v) =>
        AnswerDecidesStatus(c, visits, r, now, v);
        AnswerIsRecorded(c, visits, r, now, v);
        LastAnswer(c, visits, v, from, Handled(c, visits, r, now));
      case Raised(kind, http) => ErrorIsRetried(c, visits, r, now, kind, http);
    }
  }

  lemma VisitAsks(c: Context, r: Record, now: Instant)
    requires now < Deadline(c, r) && r.attemptCount < c.policy.maxAttempts
    ensures VisitOf(c, r, now) == Visit(r.core.requestRef, r.core.idSolicitud, true)
  {
  }

  lemma LastAnswer(c: Context, visits: seq<Visit>, v: Verification, from: nat, u: Record)
    requires from <= |visits| && v.action == ActFinished && u.packageIds == v.packageIds
    requires c.ask(visits + [Visit(u.core.requestRef, u.core.idSolicitud, true)]) == Answered(v)
    ensures OwnAnswer(c, visits + [Visit(u.core.requestRef, u.core.idSolicitud, true)], from, u)
  {
    var all := visits + [Visit(u.core.requestRef, u.core.idSolicitud, true)];
    var n := |visits|;
    assert all[..n + 1] == all;
    assert all[n] == Visit(u.core.requestRef, u.core.idSolicitud, true) && c.ask(all[..n + 1]) == Answered(v);
  }

  lemma StepReady(c: Context, w: World, r: Record, now: Instant, from: nat, ref: string)
    requires ReadyIsAnswered(c, w, from, ref) && Normalized(r)
    ensures ReadyIsAnswered(c, VerifyOne(c, w, r, now), from, ref)
  {
    hide AsMap, Handled, OwnAnswer, Upsert, WorldOk, VerifyOne, Normalized, VisitOf, NextDelay;
    StepMap(c, w, r, now);
    StepLog(c, w, r, now);
    HandledCore(c, w.visits, r, now);
    WorldIsUnique(w);
    WorldIsUnique(VerifyOne(c, w, r, now));
    if ref == r.core.requestRef {
      if Handled(c, w.visits, r, now).status == PackageReady {
        HandledReady(c, w.visits, r, now, from);
      }
    } else if AsMap(w.records)[ref].status == PackageReady {
      OwnAnswerStays(c, w.visits, VisitOf(c, r, now), from, AsMap(w.records)[ref]);
    }
  }

  lemma StepLog(c: Context, w: World, r: Record, now: Instant)
    ensures VerifyOne(c, w, r, now).visits == w.visits + [VisitOf(c, r, now)]
  {
    hide Upsert, Handled;
  }

  lemma WorldIsUnique(w: World)
    requires WorldOk(w)
    ensures UniqueRefs(w.records)
  {
  }

  lemma {:induction false} RunReady(c: Context, w: World, selected: seq<Record>, now: Instant, from: nat, ref: string)
    requires ReadyIsAnswered(c, w, from, ref) && AllNormalized(selected)
    ensures ReadyIsAnswered(c, VerifyAll(c, w, selected, now), from, ref)
  {
    if selected != [] {
      hide ReadyIsAnswered, VerifyOne, Normalized;
      var front, last := selected[..|selected| - 1], selected[|selected| - 1];
      assert last in selected && forall r :: r in front ==> r in selected;
      RunReady(c, w, front, now, from, ref);
      StepReady(c, VerifyAll(c, w, front, now), last, now, from, ref);
    }
  }

  lemma PersistReady(c: Context, w: World, record: Record, from: nat, ref: string)
    requires ReadyIsAnswered(c, w, from, ref) && Legal(w, Persist(record))
    ensures ReadyIsAnswered(c, World(Upsert(w.records, record), w.visits), from, ref)
  {
    ApplyOk(c, w, Persist(record));
    UpsertRefinesMap(w.records, record);
    AsMapRef(w.records, ref);
    hide OwnAnswer, AsMap, Upsert;
  }

  lemma AsMapRef(rs: seq<Record>, ref: string)
    requires UniqueRefs(rs) && ref in AsMap(rs)
    ensures AsMap(rs)[ref] in rs && AsMap(rs)[ref].core.requestRef == ref
  {
  }

  lemma ApplyReady(c: Context, w: World, op: Op, from: nat, ref: string)
    requires ReadyIsAnswered(c, w, from, ref) && Legal(w, op)
    ensures ReadyIsAnswered(c, Apply(c, w, op), from, ref)
  {
    match op
    case Verify(scope, limit, now) =>
      var selected := Prefix(DueRecords(w.records, scope, now), limit);
      SelectedIndeed(w, scope, limit, now);
      SelectedNormal(w, selected, now);
      hide ReadyIsAnswered, VerifyAll, Prefix;
      RunReady(c, w, selected, now, from, ref);
    case Persist(record) => PersistReady(c, w, record, from, ref);
  }

  lemma SelectedNormal(w: World, selected: seq<Record>, now: Instant)
    requires WorldOk(w) && DueIndeed(w, selected, now)
    ensures AllNormalized(selected)
  {
    hide Normalized;
  }

  /** Over any history, a record that was not ready at its start is ready only by a finished answer to a call
      under its own id, and holds exactly that answer's package ids. */
  lemma {:induction false} ReadyOnlyByOwnAnswer(c: Context, w: World, ops: seq<Op>, ref: string)
    requires WorldOk(w) && LegalHistory(c, w, ops) && ref in AsMap(w.records)
    requires AsMap(w.records)[ref].status != PackageReady
    ensures ReadyIsAnswered(c, Exec(c, w, ops), |w.visits|, ref)
  {
    if ops != [] {
      hide ReadyIsAnswered, Apply, Legal;
      var n := |ops| - 1;
      ReadyOnlyByOwnAnswer(c, w, ops[..n], ref);
      ApplyReady(c, Exec(c, w, ops[..n]), ops[n], |w.visits|, ref);
    }
  }

  // ----- What a run handles -----

  /** The due records are those of the profile, and of the named request if one is named, that wait for a check
      whose time has come; a run handles the first ones of them, as many as a Python slice with that limit. */
  lemma RunSelects(records: seq<Record>, scope: Scope, limit: int, now: Instant)
    ensures var due := DueRecords(records, scope, now);
            var n, selected := |due|, Prefix(due, limit);
            && (forall r :: r in due <==>
                  && r in records && r.core.profileId == scope.profileId
                  && (scope.requestRef.Some? ==> r.core.requestRef == Strip(scope.requestRef.value))
                  && r.status in {VerifyScheduled, VerifyInProgressSat, VerifyFailedRetryable}
                  && r.nextCheckAt.Some? && r.nextCheckAt.value <= now)
            && selected <= due
            && (0 <= limit ==> |selected| == Min(limit, n))
            && (limit < 0 ==> |selected| == if n + limit < 0 then 0 else n + limit)
  {
    DueMembers(records, scope, now);
    hide DueRecords, Strip;
  }

  // ----- Counts -----

  /** At how many places a record has one of these statuses. */
  ghost function WithStatus(rs: seq<Record>, statuses: set<Status>): nat {
    |set i | 0 <= i < |rs| && rs[i].status in statuses|
  }

  /** And is due. */
  ghost function DueWithStatus(rs: seq<Record>, statuses: set<Status>, now: Instant): nat {
    |set i | 0 <= i < |rs| && rs[i].status in statuses && rs[i].nextCheckAt.Some? && rs[i].nextCheckAt.value <= now|
  }

  lemma {:induction false} CountIfIs(p: Record -> bool, rs: seq<Record>, places: set<int>)
    requires forall i :: i in places <==> 0 <= i < |rs| && p(rs[i])
    ensures CountIf(p, rs) == |places|
  {
    if rs == [] {
      assert forall i :: i !in places;
      assert places == {};
    } else {
      var n := |rs| - 1;
      var front := rs[..n];
      assert forall i :: 0 <= i < n ==> front[i] == rs[i];
      CountIfIs(p, front, places - {n});
    }
  }

  /** What the summary counts, place by place. */
  lemma SummaryCounts(rs: seq<Record>, now: Instant)
    ensures var s := Summarize(rs, now);
            var waiting := {VerifyScheduled, VerifyInProgressSat, VerifyFailedRetryable};
            && s.pending == WithStatus(rs, waiting) && s.due == DueWithStatus(rs, waiting, now)
            && s.finished == WithStatus(rs, {VerifyFinished, PackageReady})
            && s.failed == WithStatus(rs, {VerifyFailedPermanent, VerifyRejected, VerifyExpired})
            && s.packageReady == WithStatus(rs, {PackageReady})
  {
    var waiting := {VerifyScheduled, VerifyInProgressSat, VerifyFailedRetryable};
    CountAs(PendingOnly, rs, waiting);
    CountIfIs(DueFilter(now), rs,
              set i | 0 <= i < |rs| && rs[i].status in waiting
                      && rs[i].nextCheckAt.Some? && rs[i].nextCheckAt.value <= now);
    CountAs(IsFinished, rs, {VerifyFinished, PackageReady});
    CountAs(IsFailed, rs, {VerifyFailedPermanent, VerifyRejected, VerifyExpired});
    CountAs(IsReady, rs, {PackageReady});
    hide CountIf;
  }

  lemma CountAs(p: Record -> bool, rs: seq<Record>, statuses: set<Status>)
    requires forall r :: p(r) <==> r.status in statuses
    ensures CountIf(p, rs) == WithStatus(rs, statuses)
  {
    CountIfIs(p, rs, set i | 0 <= i < |rs| && rs[i].status in statuses);
  }
}
