/** `sat backfill submit` from its plan to the stored request, through every check in between. */
module BackfillCommand {
  import opened Wrappers
  import opened Clock
  import opened Text
  import opened Domain
  import opened RequestState
  import opened Backfill
  import opened BackfillSubmit
  import opened Gates
  import VerifyScheduler
  import P = LivePermit

  /** What the command finds around it: the calendar, the time, the checkout, and whether the checks of
      profile, credentials, checkout and terminal pass. */
  datatype Surroundings = Surroundings(calendar: P.Calendar, now: Instant, repoHash: string, ready: bool)

  datatype Arguments = Arguments(plan: PlanArgs, kind: RequestType, window: string, typedId: string)

  datatype Outcome =
    | PlanFailed(error: PlanError)
    | NothingNew
    | PermitRefused(reason: P.Error)
    | GuardRefused
    | AdapterRefused(hint: Hint)
    | NotStored
    | Stored(window: WindowPlan)

  datatype Effect = Effect(outcome: Outcome, records: seq<Record>, permit: P.Permit)

  function PlanOf(t: Texts, records: seq<Record>, g: Arguments): Result<seq<WindowPlan>, PlanError> {
    if g.kind.Cfdi? then Err(MetadataOnly)
    else if g.plan.direction.Folio? then Err(BadDirection)
    else if g.plan.end < g.plan.start then Err(EndBeforeStart)
    else match WindowStep(g.window)
      case None => Err(BadWindow)
      case Some(step) =>
        if InCalendar(g.plan.start, g.plan.end, step) then Ok(PlanWindows(t.digest, records, g.plan.(step := step)))
        else Err(DateOverflow)
  }

  /** The checks in their order: the permit, which is consumed, then the command's own guard, then the
      adapter. */
  function Checked(u: Surroundings, permit: P.Permit, typedId: string, q: DownloadQuery)
    : (r: (Option<Outcome>, P.Permit))
    requires q.period.Some?
    ensures r.0.Some? ==> r.0.value.PermitRefused? || r.0.value.GuardRefused? || r.0.value.AdapterRefused?
  {
    match P.Consume(u.calendar, permit, ExpectationFor(u.calendar, P.BackfillSubmit, typedId, q), u.now, u.repoHash)
    case Err(e) => (Some(PermitRefused(e)), permit)
    case Ok(used) =>
      if !u.ready || !CliRange(q) then (Some(GuardRefused), used)
      else match AdapterHint(q, P.MAX_BACKFILL_RANGE_DAYS)
        case Some(hint) => (Some(AdapterRefused(hint)), used)
        case None => (None, used)
  }

  function Command(t: Texts, u: Surroundings, records: seq<Record>, permit: P.Permit, g: Arguments, r: Reply): Effect {
    match PlanOf(t, records, g)
    case Err(e) => Effect(PlanFailed(e), records, permit)
    case Ok(plan) =>
      var i := FirstNew(plan);
      if i == |plan| then Effect(NothingNew, records, permit)
      else
        var q := plan[i].query;
        PlannedPeriod(t, records, g, i);
        var (refusal, used) := Checked(u, permit, g.typedId, q);
        if refusal.Some? then Effect(refusal.value, records, used)
        else if !r.Accepted? || Strip(r.idSolicitud) == "" then Effect(NotStored, records, used)
        else Effect(Stored(plan[i]), Upsert(records, NewRecord(t, g.typedId, q, r)), used)
  }

  lemma PlannedPeriod(t: Texts, records: seq<Record>, g: Arguments, i: nat)
    requires PlanOf(t, records, g).Ok? && i < |PlanOf(t, records, g).value|
    ensures var step := WindowStep(g.window).value; var a := g.plan.(step := step);
            && PlanOf(t, records, g).value == PlanWindows(t.digest, records, a)
            && i < |Tiles(a.start, a.end, a.step)| && a.start <= a.end
            && PlanOf(t, records, g).value[i].query == QueryFor(a, Periods(a.start, a.end, a.step)[i])
            && PlanOf(t, records, g).value[i].query.period.Some?
  {
    hide WindowStep, InCalendar, Periods, Existing;
  }

  /** The command as it runs. */
  method SatBackfillSubmit(file: StateFile, permit: P.PermitFile, t: Texts, u: Surroundings, g: Arguments, r: Reply)
    returns (outcome: Outcome)
    requires g.plan.start <= MAX_DAY && g.plan.end <= MAX_DAY
    modifies file, permit
    ensures Effect(outcome, file.Records(), permit.permit)
            == Command(t, u, old(file.Records()), old(permit.permit), g, r)
  {
    hide WindowStep, InCalendar, PlanWindows, FirstNew, NewRecord, Upsert, CliRange, AdapterHint, P.Consume, Strip;
    var plan := BuildBackfillPlan(file, t.digest, g.plan, g.kind, g.window);
    assert plan == PlanOf(t, file.Records(), g);
    if plan.Err? {
      return PlanFailed(plan.error);
    }
    var i := FirstNew(plan.value);
    if i == |plan.value| {
      return NothingNew;
    }
    PlannedPeriod(t, file.Records(), g, i);
    var q := plan.value[i].query;
    var expectation := ExpectationFor(u.calendar, P.BackfillSubmit, g.typedId, q);
    var consumed := permit.ValidateAndConsume(u.calendar, expectation, u.now, u.repoHash);
    if consumed.Err? {
      return PermitRefused(consumed.error);
    }
    if !u.ready || !CliRange(q) {
      return GuardRefused;
    }
    var hint := AdapterHint(q, P.MAX_BACKFILL_RANGE_DAYS);
    if hint.Some? {
      return AdapterRefused(hint.value);
    }
    if !r.Accepted? || Strip(r.idSolicitud) == "" {
      return NotStored;
    }
    NewRecordIsNormalized(t, g.typedId, q, r, VerifyScheduler.DEFAULT_POLICY);
    var record := NewRecord(t, g.typedId, q, r);
    file.UpsertRecord(record);
    return Stored(plan.value[i]);
  }

  /** What the checks make of a reply. */
  function Answered(t: Texts, u: Surroundings, records: seq<Record>, permit: P.Permit, g: Arguments, r: Reply): Reply {
    var outcome := Command(t, u, records, permit, g, r).outcome;
    if outcome.NotStored? || outcome.Stored? then r else Denied
  }

  /** On the file the command is one submit of the backfill loop, whose reply the checks may deny. */
  lemma CommandIsSubmit(t: Texts, u: Surroundings, records: seq<Record>, permit: P.Permit, g: Arguments, r: Reply)
    requires PlanOf(t, records, g).Ok?
    ensures Command(t, u, records, permit, g, r).records
            == Submit(t, records, g.plan.(step := WindowStep(g.window).value), g.typedId,
                      Answered(t, u, records, permit, g, r))
  {
    hide InCalendar, PlanWindows, NewRecord, Upsert, Checked, Strip, WindowStep;
    hide PlanOf;
    var plan := PlanOf(t, records, g).value;
    if FirstNew(plan) < |plan| {
      PlannedPeriod(t, records, g, FirstNew(plan));
    }
    PlanIs(t, records, g);
  }

  lemma PlanIs(t: Texts, records: seq<Record>, g: Arguments)
    requires PlanOf(t, records, g).Ok?
    ensures PlanOf(t, records, g).value == PlanWindows(t.digest, records, g.plan.(step := WindowStep(g.window).value))
  {
    hide InCalendar, PlanWindows, WindowStep;
  }

  /** What the operator's permit must be for: the next window's dates, metadata of the planned direction. */
  predicate PermitIsFor(u: Surroundings, permit: P.Permit, g: Arguments, p: Period) {
    && permit.scope == P.BackfillSubmit && P.SafeProfile(g.typedId) == Some(permit.profileId)
    && permit.kind == "metadata" && permit.direction == (if g.plan.direction == Issued then "issued" else "received")
    && permit.dateFrom == u.calendar.iso(p.start.Day()) && permit.dateTo == u.calendar.iso(p.end.Day())
    && P.SoundDocument(u.calendar, permit)
    && !permit.consumed && u.now < permit.expiresAt && u.repoHash == permit.repoHash
  }

  /** What one command does. Without a plan or a new window nothing happens. Otherwise the permit is spent exactly
      when it is for the first new window, and then it stays spent, whatever comes behind; a request is stored
      exactly if, besides, the command's own checks pass and SAT accepts it under an id. The range checks behind
      the permit never refuse. */
  lemma CommandTells(t: Texts, u: Surroundings, records: seq<Record>, permit: P.Permit, g: Arguments, r: Reply)
    returns (i: nat)
    requires PlanOf(t, records, g).Ok?
    ensures var plan := PlanOf(t, records, g).value;
            var after := Command(t, u, records, permit, g, r);
            && i <= |plan| && (forall j :: 0 <= j < i ==> plan[j].existingRef != "")
            && (i == |plan| ==> after == Effect(NothingNew, records, permit))
            && (i < |plan| ==> plan[i].existingRef == "" && ComesTo(t, u, records, permit, g, r, plan[i], after))
  {
    hide PlanOf, PlanWindows, Periods, Tiles, QueryFor, WindowStep, ComesTo, Command, FirstNew;
    var plan := PlanOf(t, records, g).value;
    i := FirstNew(plan);
    if i < |plan| {
      PlannedPeriod(t, records, g, i);
      PlannedPasses(t, u, records, g, i);
      NextComesTo(t, u, records, permit, g, r);
    } else {
      NothingComes(t, u, records, permit, g, r);
    }
  }

  lemma NothingComes(t: Texts, u: Surroundings, records: seq<Record>, permit: P.Permit, g: Arguments, r: Reply)
    requires PlanOf(t, records, g).Ok? && FirstNew(PlanOf(t, records, g).value) == |PlanOf(t, records, g).value|
    ensures Command(t, u, records, permit, g, r) == Effect(NothingNew, records, permit)
  {
    hide PlanOf, FirstNew, Checked;
  }

  lemma NextComesTo(t: Texts, u: Surroundings, records: seq<Record>, permit: P.Permit, g: Arguments, r: Reply)
    requires PlanOf(t, records, g).Ok? && FirstNew(PlanOf(t, records, g).value) < |PlanOf(t, records, g).value|
    requires var q := PlanOf(t, records, g).value[FirstNew(PlanOf(t, records, g).value)].query;
             && q.period.Some? && q.requestType == Metadata && q.direction == g.plan.direction && q.direction != Folio
             && CliRange(q) && AdapterHint(q, P.MAX_BACKFILL_RANGE_DAYS).None?
    ensures var plan := PlanOf(t, records, g).value;
            ComesTo(t, u, records, permit, g, r, plan[FirstNew(plan)], Command(t, u, records, permit, g, r))
  {
    var plan := PlanOf(t, records, g).value;
    CheckedTells(u, permit, g, plan[FirstNew(plan)].query);
    hide PlanOf, Checked, CliRange, AdapterHint, PermitIsFor, NewRecord, Upsert, Strip, FirstNew;
  }

  lemma CheckedTells(u: Surroundings, permit: P.Permit, g: Arguments, q: DownloadQuery)
    requires q.period.Some? && q.requestType == Metadata && q.direction == g.plan.direction && q.direction != Folio
    requires CliRange(q) && AdapterHint(q, P.MAX_BACKFILL_RANGE_DAYS).None?
    ensures var (refusal, used) := Checked(u, permit, g.typedId, q);
            var spent := PermitIsFor(u, permit, g, q.period.value);
            && used == (if spent then permit.(consumed := true, consumedAt := Some(u.now)) else permit)
            && (!spent ==> refusal.Some? && refusal.value.PermitRefused?)
            && (spent ==> refusal == if u.ready then None else Some(GuardRefused))
  {
    P.ConsumeExactly(u.calendar, permit, ExpectationFor(u.calendar, P.BackfillSubmit, g.typedId, q), u.now, u.repoHash);
    ForExactly(u, permit, g, q);
    hide P.Consume, P.IsFor, P.SoundDocument, PermitIsFor, CliRange, AdapterHint, ExpectationFor;
  }

  /** The effect of a command whose first new window is `w`. */
  predicate ComesTo(
    t: Texts, u: Surroundings, records: seq<Record>, permit: P.Permit, g: Arguments, r: Reply, w: WindowPlan,
    after: Effect)
  {
    && w.query.period.Some?
    && var spent := PermitIsFor(u, permit, g, w.query.period.value);
    var accepted := r.Accepted? && Strip(r.idSolicitud) != "";
    && after.permit == (if spent then permit.(consumed := true, consumedAt := Some(u.now)) else permit)
    && (after.outcome.PermitRefused? <==> !spent)
    && (after.outcome == GuardRefused <==> spent && !u.ready)
    && (after.outcome == NotStored <==> spent && u.ready && !accepted)
    && (after.outcome == Stored(w) <==> spent && u.ready && accepted)
    && after.records == (if spent && u.ready && accepted then Upsert(records, NewRecord(t, g.typedId, w.query, r))
                         else records)
  }

  lemma ForExactly(u: Surroundings, permit: P.Permit, g: Arguments, q: DownloadQuery)
    requires q.period.Some? && q.requestType == Metadata && q.direction == g.plan.direction && q.direction != Folio
    ensures PermitIsFor(u, permit, g, q.period.value)
            <==> && P.IsFor(permit, ExpectationFor(u.calendar, P.BackfillSubmit, g.typedId, q))
                 && P.SoundDocument(u.calendar, permit)
                 && !permit.consumed && u.now < permit.expiresAt && u.repoHash == permit.repoHash
  {
    hide P.SoundDocument, P.SafeProfile;
  }

  /** A planned window passes the two range checks. */
  lemma PlannedPasses(t: Texts, u: Surroundings, records: seq<Record>, g: Arguments, i: nat)
    requires PlanOf(t, records, g).Ok? && i < |PlanOf(t, records, g).value|
    ensures var q := PlanOf(t, records, g).value[i].query;
            && q.requestType == Metadata && q.direction == g.plan.direction && q.direction != Folio
            && CliRange(q) && AdapterHint(q, P.MAX_BACKFILL_RANGE_DAYS).None?
  {
    PlannedDirection(t, records, g);
    PlannedPeriod(t, records, g, i);
    var a := g.plan.(step := WindowStep(g.window).value);
    hide PlanOf, AdapterHint, CliRange, Tiles, Periods, WindowStep;
    var w := WindowAt(a, i);
    WindowRange(a, w);
  }

  lemma PlannedDirection(t: Texts, records: seq<Record>, g: Arguments)
    requires PlanOf(t, records, g).Ok?
    ensures g.plan.direction != Folio
  {
    hide PlanWindows, InCalendar, WindowStep;
  }

  /** With a permit issued for the dates of the next new window, not yet used and not expired, no check of
      range or permit refuses: the request is made, and stored exactly when SAT accepts it under an id. */
  lemma IssuedPermitPasses(
    t: Texts, u: Surroundings, records: seq<Record>, g: Arguments, r: Reply,
    reason: string, minutes: int, id: string, created: Instant)
    requires P.ReadsBack(u.calendar) && u.ready && PlanOf(t, records, g).Ok?
    requires FirstNew(PlanOf(t, records, g).value) < |PlanOf(t, records, g).value|
    requires P.SafeProfile(g.plan.profileId).Some? && P.SafeProfile(g.typedId) == P.SafeProfile(g.plan.profileId)
    requires Strip(reason) != "" && 1 <= minutes <= P.MAX_EXPIRES_MINUTES && u.now < created + minutes * MINUTE
    ensures var plan := PlanOf(t, records, g).value;
            var w := plan[FirstNew(plan)];
            && w.query.period.Some?
            && var permit := P.Create(u.calendar, WindowRequest(u.calendar, g.plan.profileId, w.query, reason, minutes),
                                      id, created, u.repoHash);
            && permit.Ok?
            && var after := Command(t, u, records, permit.value, g, r);
            && after.outcome == (if r.Accepted? && Strip(r.idSolicitud) != "" then Stored(w) else NotStored)
            && after.permit.consumed
  {
    hide *;
    var plan := PlanOf(t, records, g).value;
    var i := FirstNew(plan);
    var a := PlannedArgs(t, records, g, i);
    WindowsPassAllGates(u.calendar, a, g.typedId, i, reason, minutes, id, created, u.now, u.repoHash);
    var q := plan[i].query;
    var request := WindowRequest(u.calendar, g.plan.profileId, q, reason, minutes);
    P.CreatedIsIssued(u.calendar, request, id, created, u.repoHash);
    var permit := P.Create(u.calendar, request, id, created, u.repoHash).value;
    var attempt := P.Attempt(ExpectationFor(u.calendar, P.BackfillSubmit, g.typedId, q), u.now, u.repoHash);
    P.FirstUse(u.calendar, permit, attempt);
    P.UsedAt(permit, Some(u.now));
    CommandPasses(t, u, records, permit, g, r);
  }

  lemma PlannedArgs(t: Texts, records: seq<Record>, g: Arguments, i: nat) returns (a: PlanArgs)
    requires PlanOf(t, records, g).Ok? && i < |PlanOf(t, records, g).value|
    ensures a.start <= a.end && 0 <= i < |Tiles(a.start, a.end, a.step)| && !a.direction.Folio?
    ensures a.profileId == g.plan.profileId
    ensures i < |Periods(a.start, a.end, a.step)|
    ensures PlanOf(t, records, g).value[i].query == QueryFor(a, Periods(a.start, a.end, a.step)[i])
    ensures PlanOf(t, records, g).value[i].query.period.Some?
  {
    PlannedPeriod(t, records, g, i);
    a := g.plan.(step := WindowStep(g.window).value);
    hide InCalendar, PlanWindows, WindowStep, Periods, Tiles;
  }

  lemma CommandPasses(t: Texts, u: Surroundings, records: seq<Record>, permit: P.Permit, g: Arguments, r: Reply)
    requires PlanOf(t, records, g).Ok? && u.ready
    requires FirstNew(PlanOf(t, records, g).value) < |PlanOf(t, records, g).value|
    requires var plan := PlanOf(t, records, g).value;
             var q := plan[FirstNew(plan)].query;
             && q.period.Some? && CliRange(q) && AdapterHint(q, P.MAX_BACKFILL_RANGE_DAYS).None?
             && var used := P.Consume(u.calendar, permit, ExpectationFor(u.calendar, P.BackfillSubmit, g.typedId, q),
                                      u.now, u.repoHash);
             used.Ok? && used.value.consumed
    ensures var plan := PlanOf(t, records, g).value;
            var after := Command(t, u, records, permit, g, r);
            && after.outcome == (if r.Accepted? && Strip(r.idSolicitud) != "" then Stored(plan[FirstNew(plan)])
                                 else NotStored)
            && after.permit.consumed
  {
    hide PlanOf, P.Consume, CliRange, AdapterHint, NewRecord, Upsert, Strip, FirstNew;
  }
}
