/** The three separately written range checks a backfill window has to pass. */
module Gates {
  import opened Wrappers
  import opened Clock
  import opened Text
  import opened Domain
  import opened Backfill
  import opened BackfillSubmit
  import P = LivePermit

  /** `(end - start).total_seconds()`, in microseconds. */
  function Elapsed(p: Period): int {
    p.end.At() - p.start.At()
  }

  /** `_is_backfill_submit_range`. */
  predicate CliRange(q: DownloadQuery) {
    q.period.Some?
    && var elapsed := Elapsed(q.period.value);
    2 * SECOND <= elapsed && q.period.value.end.Day() - q.period.value.start.Day() + 1 <= P.MAX_BACKFILL_RANGE_DAYS
  }

  datatype Hint =
    | InvalidMaxRange | UuidRequired | DateRangeRequired | StartNotBeforeEnd | MinimumTwoSeconds | RangeTooWide

  predicate IsFolio(q: DownloadQuery) {
    (q.uuid.Some? && q.uuid.value != "") || q.direction.Folio?
  }

  /** `_validate_v15_live_metadata_query`: the hint of its refusal, if it refuses. */
  function AdapterHint(q: DownloadQuery, maxRangeDays: int): Option<Hint> {
    if maxRangeDays < 1 then Some(InvalidMaxRange)
    else if IsFolio(q) then if q.uuid.None? || q.uuid.value == "" then Some(UuidRequired) else None
    else if q.period.None? then Some(DateRangeRequired)
    else
      var elapsed := Elapsed(q.period.value);
      if elapsed <= 0 then Some(StartNotBeforeEnd)
      else if elapsed < 2 * SECOND then Some(MinimumTwoSeconds)
      else if elapsed > DAY * maxRangeDays then Some(RangeTooWide)
      else None
  }

  /** `permit_expectation_from_query`, for a query with a period. */
  function ExpectationFor(c: P.Calendar, scope: P.Scope, profileId: string, q: DownloadQuery): P.Expectation
    requires q.period.Some?
  {
    P.Expectation(
      scope, profileId, if q.requestType.Metadata? then "metadata" else "cfdi", DirectionText(q.direction),
      c.iso(q.period.value.start.Day()), c.iso(q.period.value.end.Day()), None, None)
  }

  /** The permit's date check, on the dates of a query. */
  function PermitDatesError(c: P.Calendar, q: DownloadQuery): Option<P.Error>
    requires q.period.Some?
  {
    var p := q.period.value;
    P.DateRangeError(c, c.iso(p.start.Day()), c.iso(p.end.Day()), P.MAX_BACKFILL_RANGE_DAYS)
  }

  /** The adapter, at seven days, and the permit's date check together are the command line's check and two
      conditions more: the end does not read as a day before the start, and the range lasts seven days at
      most. Each of the two that fails is refused by one of them. */
  lemma AdapterAndPermitExactly(c: P.Calendar, q: DownloadQuery)
    requires P.ReadsBack(c) && q.period.Some? && !IsFolio(q)
    ensures var p := q.period.value;
            var hint, error := AdapterHint(q, P.MAX_BACKFILL_RANGE_DAYS), PermitDatesError(c, q);
            && (hint.None? && error.None? <==>
                  CliRange(q) && p.start.Day() <= p.end.Day() && Elapsed(p) <= P.MAX_BACKFILL_RANGE_DAYS * DAY)
            && (CliRange(q) && p.end.Day() < p.start.Day() ==> error == Some(P.InvalidDateRange))
            && (CliRange(q) && Elapsed(p) > P.MAX_BACKFILL_RANGE_DAYS * DAY ==> hint == Some(RangeTooWide))
  {
  }

  /** What the adapter says of a query that it refuses. */
  lemma HintTells(q: DownloadQuery, maxRangeDays: int)
    requires maxRangeDays >= 1
    ensures var hint := AdapterHint(q, maxRangeDays);
            var named := q.uuid.Some? && q.uuid.value != "";
            if named || q.direction == Folio then hint == if named then None else Some(UuidRequired)
            else if q.period.None? then hint == Some(DateRangeRequired)
            else
              var start, end := q.period.value.start.At(), q.period.value.end.At();
              && (hint == Some(StartNotBeforeEnd) <==> end <= start)
              && (hint == Some(MinimumTwoSeconds) <==> start < end < start + 2 * SECOND)
              && (hint == Some(RangeTooWide) <==> start + 2 * SECOND <= end && end - start > maxRangeDays * DAY)
              && (hint == None <==> start + 2 * SECOND <= end <= start + maxRangeDays * DAY)
  {
  }

  /** So the command line agrees with the two together on every range, except exactly where it accepts one
      whose end reads as a day before its start, or one of more than seven days. */
  lemma CliIsAdapterAndPermit(c: P.Calendar, q: DownloadQuery)
    requires P.ReadsBack(c) && q.period.Some? && !IsFolio(q)
    ensures var p := q.period.value;
            (CliRange(q) <==> AdapterHint(q, P.MAX_BACKFILL_RANGE_DAYS).None? && PermitDatesError(c, q).None?)
            <==> !(CliRange(q) && (p.end.Day() < p.start.Day() || Elapsed(p) > P.MAX_BACKFILL_RANGE_DAYS * DAY))
  {
    AdapterAndPermitExactly(c, q);
    hide CliRange, AdapterHint, PermitDatesError;
  }

  /** Neither happens to a range whose two ends have one offset. */
  lemma OneOffsetAgrees(c: P.Calendar, q: DownloadQuery)
    requires P.ReadsBack(c) && q.period.Some? && !IsFolio(q)
    requires q.period.value.start.offset == q.period.value.end.offset
    ensures CliRange(q) <==> AdapterHint(q, P.MAX_BACKFILL_RANGE_DAYS).None? && PermitDatesError(c, q).None?
  {
    CliIsAdapterAndPermit(c, q);
    hide AdapterHint, PermitDatesError;
  }

  /** A range of a minute whose end, an hour west of its start, reads as the day before: the command line and
      the adapter accept it, and it gets no permit. */
  lemma EndReadsEarlier(c: P.Calendar, q: DownloadQuery, day: int)
    requires P.ReadsBack(c) && !IsFolio(q) && 1 < day <= MAX_DAY
    requires q.period == Some(Period(Stamp(day * DAY, Some(HOUR)), Stamp(day * DAY - HOUR + MINUTE, Some(0))))
    ensures CliRange(q) && AdapterHint(q, P.MAX_BACKFILL_RANGE_DAYS).None?
    ensures PermitDatesError(c, q) == Some(P.InvalidDateRange)
  {
    assert day * DAY / DAY == day && (day * DAY - HOUR + MINUTE) / DAY == day - 1;
  }

  /** Seven calendar days that last an hour longer: the command line and the permit accept them, and the
      adapter does not. */
  lemma SevenLongDays(c: P.Calendar, q: DownloadQuery, day: int)
    requires P.ReadsBack(c) && !IsFolio(q) && 1 <= day <= MAX_DAY - 6
    requires q.period == Some(Period(Stamp(day * DAY, Some(HOUR)), Stamp((day + 6) * DAY + DAY - 1, Some(0))))
    ensures CliRange(q) && PermitDatesError(c, q).None?
    ensures AdapterHint(q, P.MAX_BACKFILL_RANGE_DAYS) == Some(RangeTooWide)
  {
    assert day * DAY / DAY == day && ((day + 6) * DAY + DAY - 1) / DAY == day + 6;
  }

  function Noon(day: int): Stamp {
    Stamp(day * DAY + DAY / 2, Some(0))
  }

  /** A range the adapter alone would let through: seven full days from one noon to another touch eight
      calendar days. */
  lemma AdapterAloneIsWeaker(q: DownloadQuery, day: int)
    requires !IsFolio(q) && q.period == Some(Period(Noon(day), Noon(day + 7)))
    ensures AdapterHint(q, P.MAX_BACKFILL_RANGE_DAYS).None? && !CliRange(q)
  {
  }

  /** The permit request an operator makes for a window. */
  function WindowRequest(c: P.Calendar, profileId: string, q: DownloadQuery, reason: string, minutes: int): P.Request
    requires q.period.Some?
  {
    var e := ExpectationFor(c, P.BackfillSubmit, profileId, q);
    P.Request(e.scope, e.profileId, e.kind, e.direction, e.dateFrom, e.dateTo, reason, minutes, P.ISSUER, None, None)
  }

  lemma DayOfWindow(w: Days)
    ensures PeriodOf(w).start.Day() == w.first && PeriodOf(w).end.Day() == w.last
  {
  }

  /** A permit for the dates of a window of at most seven days is granted, and the window's query meets it
      until it expires, under any spelling of the profile that loads it. */
  lemma WindowPermit(
    c: P.Calendar, a: PlanArgs, typedId: string, w: Days, reason: string, minutes: int, id: string, created: Instant,
    now: Instant, repo: string)
    requires P.ReadsBack(c) && w.first <= w.last < w.first + P.MAX_BACKFILL_RANGE_DAYS && !a.direction.Folio?
    requires P.SafeProfile(a.profileId).Some? && P.SafeProfile(typedId) == P.SafeProfile(a.profileId)
    requires Strip(reason) != "" && 1 <= minutes <= P.MAX_EXPIRES_MINUTES && now < created + minutes * MINUTE
    ensures var q := QueryFor(a, PeriodOf(w));
            var permit := P.Create(c, WindowRequest(c, a.profileId, q, reason, minutes), id, created, repo);
            && permit.Ok?
            && P.Meets(permit.value, P.Attempt(ExpectationFor(c, P.BackfillSubmit, typedId, q), now, repo))
  {
    hide Strip, P.SafeProfile;
    DayOfWindow(w);
  }

  lemma WindowRange(a: PlanArgs, w: Days)
    requires w.first <= w.last < w.first + P.MAX_BACKFILL_RANGE_DAYS && !a.direction.Folio?
    ensures CliRange(QueryFor(a, PeriodOf(w))) && AdapterHint(QueryFor(a, PeriodOf(w)), P.MAX_BACKFILL_RANGE_DAYS).None?
  {
    DayOfWindow(w);
  }

  /** Every window the planner can produce passes the command line and the adapter, and its own dates are
      accepted for a permit that its own query then meets until the permit expires. */
  lemma WindowsPassAllGates(
    c: P.Calendar, a: PlanArgs, typedId: string, i: int, reason: string, minutes: int, id: string, created: Instant,
    now: Instant, repo: string)
    requires P.ReadsBack(c) && a.start <= a.end && 0 <= i < |Tiles(a.start, a.end, a.step)| && !a.direction.Folio?
    requires P.SafeProfile(a.profileId).Some? && P.SafeProfile(typedId) == P.SafeProfile(a.profileId)
    requires Strip(reason) != "" && 1 <= minutes <= P.MAX_EXPIRES_MINUTES && now < created + minutes * MINUTE
    ensures var q := QueryFor(a, Periods(a.start, a.end, a.step)[i]);
            && CliRange(q) && AdapterHint(q, P.MAX_BACKFILL_RANGE_DAYS).None?
            && var permit := P.Create(c, WindowRequest(c, a.profileId, q, reason, minutes), id, created, repo);
            && permit.Ok?
            && P.Meets(permit.value, P.Attempt(ExpectationFor(c, P.BackfillSubmit, typedId, q), now, repo))
  {
    hide Strip, P.SafeProfile, P.Create, P.Meets, CliRange, AdapterHint, QueryFor, WindowRequest, ExpectationFor;
    var w := WindowAt(a, i);
    WindowRange(a, w);
    WindowPermit(c, a, typedId, w, reason, minutes, id, created, now, repo);
  }

  /** The days of a planned window, at most seven. */
  lemma WindowAt(a: PlanArgs, i: int) returns (w: Days)
    requires a.start <= a.end && 0 <= i < |Tiles(a.start, a.end, a.step)|
    ensures Periods(a.start, a.end, a.step)[i] == PeriodOf(w)
    ensures w.first <= w.last < w.first + P.MAX_BACKFILL_RANGE_DAYS
  {
    TilesPartition(a.start, a.end, a.step, a.start, i);
    TileAt(a.start, a.end, a.step);
    w := Tiles(a.start, a.end, a.step)[i];
    hide Tiles;
  }
}
