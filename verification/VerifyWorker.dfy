/** The scheduler as it runs: methods over the state file, proved against the functions of
    `VerifyScheduler`. */
module VerifyWorker {
  import opened Wrappers
  import opened Clock
  import opened Sorting
  import opened RequestState
  import opened VerifyScheduler

  lemma HandledIsNormalized(c: Context, visits: seq<Visit>, r: Record, now: Instant)
    requires Normalized(r)
    ensures Normalized(MarkInProgress(r, now))
    ensures Normalized(Handled(c, visits, r, now))
  {
    HandledShape(c, visits, r, now);
  }

  /** The handled records of a run, in the order in which they are handled. */
  function HandledAll(c: Context, w: World, selected: seq<Record>, now: Instant): (out: seq<Record>)
    ensures |out| == |selected|
  {
    if selected == [] then []
    else
      var front := selected[..|selected| - 1];
      HandledAll(c, w, front, now) + [Handled(c, VerifyAll(c, w, front, now).visits, selected[|selected| - 1], now)]
  }

  lemma DueMembers(records: seq<Record>, scope: Scope, now: Instant)
    ensures forall r :: r in DueRecords(records, scope, now) <==> r in records && InScope(r, scope) && Due(r, now)
  {
    var kept := Filter(DueIn(scope, now), records);
    forall r ensures r in DueRecords(records, scope, now) <==> r in kept {
      assert r in DueRecords(records, scope, now) <==> r in multiset(DueRecords(records, scope, now));
    }
  }

  lemma {:induction false} FilterTwice(scope: Scope, now: Instant, records: seq<Record>)
    ensures Filter(DueFilter(now), Filter(ScopeFilter(scope), records))
         == Filter(DueIn(scope, now), records)
  {
    if records != [] {
      var front, last := records[..|records| - 1], records[|records| - 1];
      FilterTwice(scope, now, front);
      var scoped := Filter(ScopeFilter(scope), front);
      if InScope(last, scope) {
        assert (scoped + [last])[..|scoped|] == scoped;
      }
    }
  }

  class Worker {
    const file: StateFile
    const context: Context
    var visits: seq<Visit>

    ghost function State(): World
      reads this, file
    {
      World(file.Records(), visits)
    }

    constructor (file: StateFile, context: Context)
      ensures this.file == file && this.context == context && visits == []
    {
      this.file := file;
      this.context := context;
      visits := [];
    }

    method VerifyOne(record: Record, now: Instant) returns (updated: Record)
      requires Normalized(record)
      modifies this`visits, file
      ensures State() == VerifyScheduler.VerifyOne(context, old(State()), record, now)
      ensures updated == Handled(context, old(visits), record, now)
    {
      hide Reread, Upsert, Normalized, RecordResult, RetryOrPermanent, CloseOut, Expired;
      HandledIsNormalized(context, visits, record, now);
      HandledShape(context, visits, record, now);
      if Expired(record, now, context.policy) {
        updated := CloseOut(record, now, VerifyExpired, "expired_request");
        file.UpsertRecord(updated);
        visits := visits + [Visit(record.core.requestRef, record.core.idSolicitud, false)];
        return;
      }
      if record.attemptCount >= context.policy.maxAttempts {
        updated := CloseOut(record, now, VerifyFailedPermanent, "max_attempts_reached");
        file.UpsertRecord(updated);
        visits := visits + [Visit(record.core.requestRef, record.core.idSolicitud, false)];
        return;
      }
      var inProgress := MarkInProgress(record, now);
      file.UpsertRecord(inProgress);
      visits := visits + [Visit(record.core.requestRef, record.core.idSolicitud, true)];
      var answer := context.ask(visits);
      match answer {
        case Raised(kind, http) => updated := RetryOrPermanent(context, inProgress, now, kind, http);
        case Answered(result) => updated := RecordResult(context, inProgress, now, result);
      }
      file.UpsertRecord(updated);
      UpsertOverwrites(old(file.Records()), inProgress, updated);
    }

    method VerifySelected(selected: seq<Record>, now: Instant) returns (processed: seq<Record>)
      requires AllNormalized(selected)
      modifies this`visits, file
      ensures State() == VerifyAll(context, old(State()), selected, now)
      ensures processed == HandledAll(context, old(State()), selected, now)
    {
      hide VerifyScheduler.VerifyOne, Handled;
      processed := [];
      ghost var before := State();
      for i := 0 to |selected|
        invariant State() == VerifyAll(context, before, selected[..i], now)
        invariant processed == HandledAll(context, before, selected[..i], now)
      {
        var updated := VerifyOne(selected[i], now);
        processed := processed + [updated];
        assert selected[..i + 1][..i] == selected[..i];
      }
      assert selected[..|selected|] == selected;
    }

    method RunVerifyDue(scope: Scope, limit: int, dryRun: bool, now: Instant) returns (report: Report)
      modifies this`visits, file
      ensures State() == if dryRun then old(State())
                         else VerifyScheduler.RunVerifyDue(context, old(State()), scope, limit, now)
      ensures report.dueCount == |DueRecords(old(file.Records()), scope, now)|
      ensures report.selectedCount == |Prefix(DueRecords(old(file.Records()), scope, now), limit)|
      ensures var selected := Prefix(DueRecords(old(file.Records()), scope, now), limit);
              && report.items == (if dryRun then selected else HandledAll(context, old(State()), selected, now))
              && report.processedCount == if dryRun then 0 else |selected|
      ensures report.summary == Summarize(
                Filter(ScopeFilter(if dryRun then scope else Scope(scope.profileId, None)), file.Records()), now)
    {
      var all := file.List();
      var records := Filter(ScopeFilter(scope), all);
      var due := SortBy(DueBefore, Filter(DueFilter(now), records));
      FilterTwice(scope, now, all);
      DueMembers(all, scope, now);
      var selected := Prefix(due, limit);
      if dryRun {
        return Report(|due|, |selected|, 0, selected, Summarize(records, now));
      }
      forall r | r in selected ensures Normalized(r) {
        assert r in due;
      }
      var processed := VerifySelected(selected, now);
      var refreshed := file.List();
      var profileRecords := Filter(ScopeFilter(Scope(scope.profileId, None)), refreshed);
      return Report(|due|, |selected|, |processed|, processed, Summarize(profileRecords, now));
    }
  }
}
