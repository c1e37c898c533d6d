/** Whole histories of the request file: any sequence of returning verification runs, at any times
    and against any verifier, mixed with newly accepted requests. */
module VerifyHistory {
  import opened Clock
  import opened RequestState
  import opened VerifyScheduler
  import opened VerifyWorker
  import opened VerifyTheorems

  datatype Op =
    | Verify(scope: Scope, limit: int, now: Instant)
    | Persist(record: Record)

  function Apply(c: Context, w: World, op: Op): World {
    match op
    case Verify(scope, limit, now) => RunVerifyDue(c, w, scope, limit, now)
    case Persist(record) => World(Upsert(w.records, record), w.visits)
  }

  /** A newly accepted request has a reference of its own and is stored as reading would return it. */
  ghost predicate Legal(w: World, op: Op) {
    op.Persist? ==>
      Normalized(op.record) && forall x :: x in w.records ==> x.core.requestRef != op.record.core.requestRef
  }

  function Exec(c: Context, w: World, ops: seq<Op>): World {
    if ops == [] then w else Apply(c, Exec(c, w, ops[..|ops| - 1]), ops[|ops| - 1])
  }

  ghost predicate LegalHistory(c: Context, w: World, ops: seq<Op>) {
    ops != [] ==>
      LegalHistory(c, w, ops[..|ops| - 1]) && Legal(Exec(c, w, ops[..|ops| - 1]), ops[|ops| - 1])
  }

  function Calls(w: World, ref: string): nat {
    multiset(VerifierCalls(w.visits))[ref]
  }

  function Selections(w: World, ref: string): nat {
    multiset(Visited(w.visits))[ref]
  }

  /** How the record of one reference may move between two states of the file. */
  predicate RecordProgress(c: Context, r: Record, r': Record, calls: int, selections: int) {
    && r'.core == r.core
    && r'.attemptCount == r.attemptCount + calls
    && selections + Measure(c, r') <= Measure(c, r)
    && (r'.attemptCount <= r.attemptCount || r'.attemptCount <= c.policy.maxAttempts)
    && (!r.status.Pending() ==> r' == r)
  }

  ghost predicate Progress(c: Context, w: World, w': World, ref: string) {
    && WorldOk(w) && WorldOk(w')
    && ref in AsMap(w.records) && ref in AsMap(w'.records)
    && RecordProgress(c, AsMap(w.records)[ref], AsMap(w'.records)[ref],
                      Calls(w', ref) - Calls(w, ref), Selections(w', ref) - Selections(w, ref))
  }

  lemma ProgressTransitive(c: Context, w0: World, w1: World, w2: World, ref: string)
    requires Progress(c, w0, w1, ref) && Progress(c, w1, w2, ref)
    ensures Progress(c, w0, w2, ref)
  {
    hide WorldOk, AsMap, Calls, Selections, Measure;
  }

  lemma HandledProgress(c: Context, visits: seq<Visit>, r: Record, now: Instant)
    requires r.status.Pending()
    ensures RecordProgress(c, r, Handled(c, visits, r, now), if VisitOf(c, r, now).asked then 1 else 0, 1)
  {
    HandledShape(c, visits, r, now);
    HandlingLowersMeasure(c, visits, r, now);
  }

  lemma NoProgress(c: Context, r: Record)
    ensures RecordProgress(c, r, r, 0, 0)
  {
  }

  lemma StepVisits(c: Context, w: World, r: Record, now: Instant, ref: string)
    ensures var w' := VerifyOne(c, w, r, now);
            && Calls(w', ref) == Calls(w, ref) + (if r.core.requestRef == ref && VisitOf(c, r, now).asked then 1 else 0)
            && Selections(w', ref) == Selections(w, ref) + (if r.core.requestRef == ref then 1 else 0)
  {
    hide NeedsVerifier, Handled, Upsert;
    CallsSnoc(w.visits, VisitOf(c, r, now));
  }

  lemma StepProgress(c: Context, w: World, r: Record, now: Instant, ref: string)
    requires WorldOk(w) && r in w.records && r.status.Pending() && ref in AsMap(w.records)
    ensures Progress(c, w, VerifyOne(c, w, r, now), ref)
  {
    hide VerifyOne, Handled, VisitOf, RecordProgress, Calls, Selections, Normalized, AsMap, Represents;
    assert Normalized(r);
    StepMap(c, w, r, now);
    StepVisits(c, w, r, now, ref);
    HandledProgress(c, w.visits, r, now);
    NoProgress(c, AsMap(w.records)[ref]);
    AsMapAt(w.records, r);
  }

  lemma {:induction false} RunProgress(c: Context, w: World, selected: seq<Record>, now: Instant, ref: string)
    requires WorldOk(w) && DueIndeed(w, selected, now) && ref in AsMap(w.records)
    ensures Progress(c, w, VerifyAll(c, w, selected, now), ref)
  {
    if selected == [] {
      NoProgress(c, AsMap(w.records)[ref]);
    } else {
      hide VerifyAll, VerifyOne, HandledAll, Progress, WorldOk, DueIndeed, AsMap;
      var front, last := selected[..|selected| - 1], selected[|selected| - 1];
      assert selected == front + [last];
      LastIsDue(c, w, front, last, now);
      RunProgress(c, w, front, now, ref);
      RunUnfold(c, w, front, last, now);
      var mid := VerifyAll(c, w, front, now);
      ProgressHasRef(c, w, mid, ref);
      StepProgress(c, mid, last, now, ref);
      ProgressTransitive(c, w, mid, VerifyOne(c, mid, last, now), ref);
    }
  }

  lemma LastIsDue(c: Context, w: World, front: seq<Record>, last: Record, now: Instant)
    requires WorldOk(w) && DueIndeed(w, front + [last], now)
    ensures DueIndeed(w, front, now)
    ensures WorldOk(VerifyAll(c, w, front, now)) && last in VerifyAll(c, w, front, now).records && last.status.Pending()
  {
    hide VerifyAll, HandledAll;
    var selected := front + [last];
    assert selected[..|selected| - 1] == front && last in selected;
    PrefixUnique(selected);
    VerifyAllMembers(c, w, front, now);
  }

  lemma ProgressHasRef(c: Context, w: World, w': World, ref: string)
    requires Progress(c, w, w', ref)
    ensures UniqueRefs(w'.records) && ref in AsMap(w'.records)
  {
  }

  lemma ApplyProgress(c: Context, w: World, op: Op, ref: string)
    requires WorldOk(w) && Legal(w, op) && ref in AsMap(w.records)
    ensures Progress(c, w, Apply(c, w, op), ref)
  {
    match op
    case Verify(scope, limit, now) =>
      hide DueRecords, VerifyAll, Progress, WorldOk, DueIndeed, AsMap, Prefix;
      assert UniqueRefs(w.records);
      SelectedIndeed(w, scope, limit, now);
      RunProgress(c, w, Prefix(DueRecords(w.records, scope, now), limit), now, ref);
    case Persist(record) => PersistProgress(c, w, record, ref);
  }

  lemma PersistProgress(c: Context, w: World, record: Record, ref: string)
    requires WorldOk(w) && Legal(w, Persist(record)) && ref in AsMap(w.records)
    ensures Progress(c, w, World(Upsert(w.records, record), w.visits), ref)
  {
    hide Upsert, RecordProgress, Normalized;
    UpsertKeepsInvariant(w.records, record);
    UpsertRefinesMap(w.records, record);
    UpsertMembers(w.records, record);
    assert AsMap(w.records)[ref] in w.records;
    NoProgress(c, AsMap(w.records)[ref]);
  }

  lemma ApplyOk(c: Context, w: World, op: Op)
    requires WorldOk(w) && Legal(w, op)
    ensures WorldOk(Apply(c, w, op))
  {
    match op
    case Verify(scope, limit, now) =>
      hide DueRecords, VerifyAll, HandledAll;
      var selected := Prefix(DueRecords(w.records, scope, now), limit);
      SelectedIndeed(w, scope, limit, now);
      VerifyAllMembers(c, w, selected, now);
    case Persist(record) =>
      hide Upsert;
      UpsertKeepsInvariant(w.records, record);
      UpsertMembers(w.records, record);
  }

  /** Over any history, the verifier calls for a reference are exactly the growth of its attempt count,
      each selection uses up part of the record's measure, and a closed record never changes again. */
  lemma {:induction false} HistoryProgress(c: Context, w: World, ops: seq<Op>, ref: string)
    requires WorldOk(w) && LegalHistory(c, w, ops) && ref in AsMap(w.records)
    ensures Progress(c, w, Exec(c, w, ops), ref)
  {
    if ops != [] {
      hide Apply, Progress, Legal, AsMap;
      var mid := Exec(c, w, ops[..|ops| - 1]);
      HistoryProgress(c, w, ops[..|ops| - 1], ref);
      ProgressHasRef(c, w, mid, ref);
      ProgressOk(c, w, mid, ref);
      ApplyProgress(c, mid, ops[|ops| - 1], ref);
      ProgressTransitive(c, w, mid, Apply(c, mid, ops[|ops| - 1]), ref);
    }
  }

  lemma ProgressOk(c: Context, w: World, w': World, ref: string)
    requires Progress(c, w, w', ref)
    ensures WorldOk(w')
  {
  }

  /** A request that starts without attempts is asked about at most `maxAttempts` times and selected at
      most once more than that; if it was selected that often, it is closed. */
  lemma FreshRequestIsBounded(c: Context, w: World, ops: seq<Op>, ref: string)
    requires WorldOk(w) && LegalHistory(c, w, ops) && ref in AsMap(w.records)
    requires AsMap(w.records)[ref].attemptCount == 0 && c.policy.maxAttempts >= 0
    ensures var w' := Exec(c, w, ops);
            && Calls(w', ref) - Calls(w, ref) <= c.policy.maxAttempts
            && Selections(w', ref) - Selections(w, ref) <= c.policy.maxAttempts + 1
            && UniqueRefs(w'.records) && ref in AsMap(w'.records)
            && (Selections(w', ref) - Selections(w, ref) == c.policy.maxAttempts + 1 ==>
                !AsMap(w'.records)[ref].status.Pending())
  {
    hide Exec, AsMap, Calls, Selections, LegalHistory, AllNormalized, UniqueRefs;
    HistoryProgress(c, w, ops, ref);
  }

  ghost predicate AllScheduled(rs: seq<Record>, p: BackoffPolicy) {
    forall r :: r in rs ==> Scheduled(r, p)
  }

  lemma HandledIsScheduled(c: Context, visits: seq<Visit>, r: Record, now: Instant)
    ensures Scheduled(Handled(c, visits, r, now), c.policy)
  {
    HandledShape(c, visits, r, now);
  }

  lemma {:induction false} HandledAllScheduled(c: Context, w: World, selected: seq<Record>, now: Instant)
    ensures AllScheduled(HandledAll(c, w, selected, now), c.policy)
  {
    if selected != [] {
      HandledAllScheduled(c, w, selected[..|selected| - 1], now);
      HandledIsScheduled(c, VerifyAll(c, w, selected[..|selected| - 1], now).visits, selected[|selected| - 1], now);
      hide Handled, VerifyAll, Scheduled;
    }
  }

  lemma ApplyScheduled(c: Context, w: World, op: Op)
    requires WorldOk(w) && Legal(w, op) && AllScheduled(w.records, c.policy)
    requires op.Persist? ==> Scheduled(op.record, c.policy)
    ensures AllScheduled(Apply(c, w, op).records, c.policy)
  {
    match op
    case Verify(scope, limit, now) =>
      hide DueRecords, VerifyAll, HandledAll, Scheduled;
      var selected := Prefix(DueRecords(w.records, scope, now), limit);
      SelectedIndeed(w, scope, limit, now);
      VerifyAllMembers(c, w, selected, now);
      HandledAllScheduled(c, w, selected, now);
    case Persist(record) =>
      hide Upsert, Scheduled;
      UpsertMembers(w.records, record);
  }

  /** In every reachable file, unique references and normal form hold and no pending record is
      scheduled past its expiry; so `ExpiredIsDueAndClosed` applies to each of them. */
  lemma {:induction false} HistoryInvariant(c: Context, w: World, ops: seq<Op>)
    requires WorldOk(w) && LegalHistory(c, w, ops) && AllScheduled(w.records, c.policy)
    requires forall i :: 0 <= i < |ops| && ops[i].Persist? ==> Scheduled(ops[i].record, c.policy)
    ensures WorldOk(Exec(c, w, ops)) && AllScheduled(Exec(c, w, ops).records, c.policy)
  {
    if ops != [] {
      hide Apply, Legal, AllScheduled, WorldOk, Scheduled;
      var mid := Exec(c, w, ops[..|ops| - 1]);
      HistoryInvariant(c, w, ops[..|ops| - 1]);
      ApplyOk(c, mid, ops[|ops| - 1]);
      ApplyScheduled(c, mid, ops[|ops| - 1]);
    }
  }
}
