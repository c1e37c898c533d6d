/** Planning a historical backfill: tiling a date range and matching the windows with stored requests. */
module Backfill {
  import opened Wrappers
  import opened Clock
  import opened Text
  import opened Domain

  datatype PlanError = MetadataOnly | BadDirection | EndBeforeStart | BadWindow | DateOverflow

  // ----- Tiling -----

  /** One window, by its first and last day. */
  datatype Days = Days(first: int, last: int)

  function PeriodOf(w: Days): Period {
    Period(Stamp(w.first * DAY, Some(0)), Stamp(w.last * DAY + DAY - 1, Some(0)))
  }

  datatype Step = Daily | Weekly

  function Span(step: Step): int {
    if step.Daily? then 1 else 7
  }

  /** `n` steps, in days. */
  function Steps(step: Step, n: int): int {
    if step.Daily? then n else 7 * n
  }

  /** How many whole steps fit into `days`. */
  function WholeSteps(step: Step, days: int): int {
    if step.Daily? then days else days / 7
  }

  /** The windows from `current` on. */
  function Tiles(current: int, end: int, step: Step): seq<Days>
    decreases end - current
  {
    if current > end then []
    else [Days(current, Min(current + Span(step) - 1, end))] + Tiles(Min(current + Span(step) - 1, end) + 1, end, step)
  }

  /** The windows are as many as steps are needed to cover the range; the i-th starts i steps after the
      first day and spans a whole step unless the range ends before. */
  lemma {:induction false} TileAt(start: int, end: int, step: Step)
    requires start <= end
    ensures |Tiles(start, end, step)| == WholeSteps(step, end - start) + 1
    ensures forall i :: 0 <= i < |Tiles(start, end, step)| ==>
              Tiles(start, end, step)[i] == Days(start + Steps(step, i),
                                                 Min(start + Steps(step, i) + Span(step) - 1, end))
    decreases end - start
  {
    if start + Span(step) > end {
      assert Tiles(end + 1, end, step) == [];
    } else {
      TileAt(start + Span(step), end, step);
    }
  }

  /** Each day of the range lies in exactly one window, and no window reaches outside the range. */
  lemma TilesPartition(start: int, end: int, step: Step, day: int, i: int)
    requires start <= end && 0 <= i < |Tiles(start, end, step)|
    ensures var w := Tiles(start, end, step);
            && start <= w[i].first <= w[i].last <= end
            && (w[i].first <= day <= w[i].last <==> start <= day <= end && i == WholeSteps(step, day - start))
  {
    TileAt(start, end, step);
  }

  function WindowStep(window: string): Option<Step> {
    var w := Lower(Strip(window));
    if w == "daily" then Some(Daily) else if w == "weekly" then Some(Weekly) else None
  }

  /** First day of the last window. */
  function LastStart(start: int, end: int, step: Step): int {
    start + Steps(step, WholeSteps(step, end - start))
  }

  /** The range stays clear of the end of the calendar: neither the day after it nor its last window,
      taken in full, lies past the last day. */
  predicate InCalendar(start: int, end: int, step: Step) {
    end < MAX_DAY && LastStart(start, end, step) + Span(step) - 1 <= MAX_DAY
  }

  /** That is so exactly when every date the loop computes lies within the calendar: the last day of each
      window taken in full, and the day behind each window. */
  lemma InCalendarExactly(start: int, end: int, step: Step)
    requires start <= end
    ensures InCalendar(start, end, step) <==>
              forall i :: 0 <= i < |Tiles(start, end, step)| ==>
                var w := Tiles(start, end, step)[i];
                w.first + Span(step) - 1 <= MAX_DAY && w.last + 1 <= MAX_DAY
  {
    TileAt(start, end, step);
    hide Tiles;
    var n := |Tiles(start, end, step)| - 1;
    assert Tiles(start, end, step)[n].first == LastStart(start, end, step) && Tiles(start, end, step)[n].last == end;
  }

  /** No range that ends on the last day of the calendar can be planned, and the day before can. */
  lemma LastDayOverflows(start: int, step: Step)
    requires start <= MAX_DAY
    ensures !InCalendar(start, MAX_DAY, step) && InCalendar(MAX_DAY - 1, MAX_DAY - 1, Daily)
  {
  }

  lemma OneWindowFurther(current: int, end: int, step: Step)
    requires current <= end
    ensures var next := Min(current + Span(step) - 1, end) + 1;
            && Periods(current, end, step) == [PeriodOf(Days(current, next - 1))] + Periods(next, end, step)
            && current <= LastStart(current, end, step)
            && (if next <= end then LastStart(next, end, step) == LastStart(current, end, step)
                && current + Span(step) - 1 < end
                else next == end + 1 && LastStart(current, end, step) == current)
  {
  }

  /** The loop of `generate_backfill_periods`; `None` is the overflow of a date. */
  method Generate(start: int, end: int, step: Step) returns (periods: Option<seq<Period>>)
    requires start <= end <= MAX_DAY
    ensures periods == if InCalendar(start, end, step) then Some(Periods(start, end, step)) else None
  {
    hide Periods, PeriodOf, LastStart;
    var done := [];
    var current := start;
    while current <= end
      invariant start <= current <= end + 1
      invariant done + Periods(current, end, step) == Periods(start, end, step)
      invariant current <= end ==> LastStart(current, end, step) == LastStart(start, end, step)
      invariant current > end ==> InCalendar(start, end, step)
      decreases end - current
    {
      OneWindowFurther(current, end, step);
      if current + Span(step) - 1 > MAX_DAY {
        return None;
      }
      var last := Min(current + Span(step) - 1, end);
      done := done + [PeriodOf(Days(current, last))];
      if last + 1 > MAX_DAY {
        return None;
      }
      current := last + 1;
    }
    NoPeriods(current, end, step);
    assert done + [] == done;
    return Some(done);
  }

  lemma NoPeriods(current: int, end: int, step: Step)
    requires current > end
    ensures Periods(current, end, step) == []
  {
  }

  /** `generate_backfill_periods`. It yields the tiling exactly when the range is in order, the window is
      known and the range stays clear of the end of the calendar; otherwise it overflows. */
  method GeneratePeriods(start: int, end: int, window: string) returns (r: Result<seq<Period>, PlanError>)
    requires start <= MAX_DAY && end <= MAX_DAY
    ensures r == if end < start then Err(EndBeforeStart)
                 else if WindowStep(window).None? then Err(BadWindow)
                 else if InCalendar(start, end, WindowStep(window).value)
                   then Ok(Periods(start, end, WindowStep(window).value))
                 else Err(DateOverflow)
  {
    hide WindowStep, Periods, InCalendar;
    if end < start {
      return Err(EndBeforeStart);
    }
    var w := WindowStep(window);
    if w.None? {
      return Err(BadWindow);
    }
    var periods := Generate(start, end, w.value);
    return if periods.Some? then Ok(periods.value) else Err(DateOverflow);
  }

  function Periods(start: int, end: int, step: Step): (r: seq<Period>)
    ensures |r| == |Tiles(start, end, step)|
  {
    var tiles := Tiles(start, end, step);
    seq(|tiles|, i requires 0 <= i < |tiles| => PeriodOf(tiles[i]))
  }

  // ----- The windows as instants -----

  /** The windows in days follow each other without a gap. */
  lemma TilesFollow(start: int, end: int, step: Step)
    requires start <= end
    ensures var w := Tiles(start, end, step);
            && w != [] && w[0].first == start && w[|w| - 1].last == end
            && (forall i :: 0 <= i < |w| ==> w[i].first <= w[i].last)
            && (forall i :: 0 <= i < |w| - 1 ==>
                  w[i].last + 1 == w[i + 1].first && w[i].last + 1 - w[i].first == Span(step))
  {
    TileAt(start, end, step);
    hide Tiles;
    var w := Tiles(start, end, step);
    forall i | 0 <= i < |w| - 1
      ensures w[i].last + 1 == w[i + 1].first && w[i].last + 1 - w[i].first == Span(step)
    {
      assert start + Steps(step, i) + Span(step) - 1 <= end;
    }
  }

  lemma PeriodAt(start: int, end: int, step: Step, i: int)
    requires 0 <= i < |Tiles(start, end, step)|
    ensures var w, p := Tiles(start, end, step)[i], Periods(start, end, step)[i];
            Spans(p, w) && p.start.offset == Some(0) && p.end.offset == Some(0)
  {
    hide Tiles;
  }

  /** The windows follow each other without a gap, all in UTC: the first starts with its first day, each
      next one in the microsecond after the one before, the last ends in the last microsecond of the last
      day. */
  lemma WindowsAreContiguous(start: int, end: int, step: Step)
    requires start <= end
    ensures var p := Periods(start, end, step);
            && p != [] && p[0].start.At() == start * DAY && p[|p| - 1].end.At() == (end + 1) * DAY - 1
            && (forall i :: 0 <= i < |p| ==>
                  p[i].start.offset == Some(0) && p[i].end.offset == Some(0) && p[i].start.At() < p[i].end.At())
            && (forall i :: 0 <= i < |p| - 1 ==> p[i].end.At() + 1 == p[i + 1].start.At())
  {
    hide Tiles, Periods, Stamp.At, Span, Spans;
    TilesFollow(start, end, step);
    var p, w := Periods(start, end, step), Tiles(start, end, step);
    forall i | 0 <= i < |p|
      ensures p[i].start.offset == Some(0) && p[i].end.offset == Some(0) && Spans(p[i], w[i])
      ensures p[i].start.At() < p[i].end.At()
    {
      PeriodAt(start, end, step, i);
      SpansTime(p[i], w[i]);
    }
    forall i | 0 <= i < |p| - 1
      ensures p[i].end.At() + 1 == p[i + 1].start.At()
    {
      SpansMeet(p[i], w[i], p[i + 1], w[i + 1]);
    }
    SpansTime(p[0], w[0]);
    SpansTime(p[|p| - 1], w[|p| - 1]);
  }

  lemma SpansTime(p: Period, w: Days)
    requires Spans(p, w)
    ensures p.start.At() == w.first * DAY && p.end.At() == (w.last + 1) * DAY - 1
    ensures w.first <= w.last ==> p.start.At() < p.end.At()
  {
    hide Stamp.At;
  }

  lemma SpansMeet(p: Period, v: Days, q: Period, w: Days)
    requires Spans(p, v) && Spans(q, w) && v.last + 1 == w.first
    ensures p.end.At() + 1 == q.start.At()
  {
    hide Stamp.At;
  }

  predicate Spans(p: Period, w: Days) {
    p.start.At() == w.first * DAY && p.end.At() == (w.last + 1) * DAY - 1
  }

  /** Every window but the last lasts a day or seven days to the microsecond, and the last one no longer. */
  lemma WindowsLast(start: int, end: int, step: Step, i: int)
    requires start <= end && 0 <= i < |Periods(start, end, step)|
    ensures var p := Periods(start, end, step);
            var length, whole := p[i].end.At() + 1 - p[i].start.At(), if step.Daily? then DAY else 7 * DAY;
            0 < length <= whole && (i < |p| - 1 ==> length == whole)
  {
    TileAt(start, end, step);
    TilesFollow(start, end, step);
    PeriodAt(start, end, step, i);
    hide Tiles, Periods, Stamp.At;
  }

  /** The window that an instant falls into. */
  predicate Within(p: Period, t: Instant) {
    p.start.At() <= t <= p.end.At()
  }

  lemma {:induction false} Found(p: seq<Period>, t: Instant) returns (i: nat)
    requires p != [] && p[0].start.At() <= t <= p[|p| - 1].end.At()
    requires forall j :: 0 <= j < |p| - 1 ==> p[j].end.At() + 1 == p[j + 1].start.At()
    ensures i < |p| && Within(p[i], t)
  {
    var n := |p| - 1;
    if p[n].start.At() <= t {
      i := n;
    } else {
      assert n > 0 && p[n - 1].end.At() + 1 == p[n].start.At() by {
        if n > 0 {
          assert p[n - 1 + 1] == p[n];
        }
      }
      i := Found(p[..n], t);
    }
  }

  lemma {:induction false} Ascending(p: seq<Period>, i: nat, j: nat)
    requires i < j < |p|
    requires forall k :: 0 <= k < |p| - 1 ==> p[k].end.At() + 1 == p[k + 1].start.At()
    requires forall k :: 0 <= k < |p| ==> p[k].start.At() < p[k].end.At()
    ensures p[i].end.At() < p[j].start.At()
  {
    if i + 1 < j {
      Ascending(p, i, j - 1);
      assert p[j - 1].end.At() + 1 == p[j - 1 + 1].start.At();
    } else {
      assert p[i].end.At() + 1 == p[i + 1].start.At();
    }
  }

  /** Every instant of the range, from its first midnight to the last microsecond of its last day, falls into
      exactly one window, and no window holds any other instant. */
  lemma InstantsPartition(start: int, end: int, step: Step, t: Instant)
    requires start <= end
    ensures var p := Periods(start, end, step);
            && (start * DAY <= t < (end + 1) * DAY <==> exists i :: 0 <= i < |p| && Within(p[i], t))
            && forall i, j :: 0 <= i < j < |p| ==> !(Within(p[i], t) && Within(p[j], t))
  {
    WindowsAreContiguous(start, end, step);
    var p := Periods(start, end, step);
    hide Periods, Tiles, Stamp.At, Within;
    InstantsIn(p, t);
    RangeIs(start, end, t);
  }

  lemma RangeIs(start: int, end: int, t: Instant)
    ensures start * DAY <= t < (end + 1) * DAY <==> start * DAY <= t <= (end + 1) * DAY - 1
  {
  }

  /** Periods that follow each other hold each instant between their ends once, and no other. */
  lemma InstantsIn(p: seq<Period>, t: Instant)
    requires p != [] && forall i :: 0 <= i < |p| - 1 ==> p[i].end.At() + 1 == p[i + 1].start.At()
    requires forall i :: 0 <= i < |p| ==> p[i].start.At() < p[i].end.At()
    ensures p[0].start.At() <= t <= p[|p| - 1].end.At() <==> exists i :: 0 <= i < |p| && Within(p[i], t)
    ensures forall i, j :: 0 <= i < j < |p| ==> !(Within(p[i], t) && Within(p[j], t))
  {
    hide Stamp.At;
    if p[0].start.At() <= t <= p[|p| - 1].end.At() {
      var i := Found(p, t);
      assert Within(p[i], t);
    }
    forall i, j | 0 <= i < j < |p|
      ensures p[i].end.At() < p[j].start.At()
    {
      Ascending(p, i, j);
    }
    forall i | 0 <= i < |p| && Within(p[i], t)
      ensures p[0].start.At() <= t <= p[|p| - 1].end.At()
    {
      assert p[0].start.At() < p[0].end.At() && p[|p| - 1].start.At() < p[|p| - 1].end.At();
    }
  }

  /** Which words name a window: `daily` and `weekly`, letter case and white space aside. */
  lemma WindowWords(window: string)
    ensures var w := Lower(Strip(window));
            && (WindowStep(window) == Some(Daily) <==> w == "daily")
            && (WindowStep(window) == Some(Weekly) <==> w == "weekly")
            && (WindowStep(window) == None <==> w != "daily" && w != "weekly")
  {
    hide Lower, Strip;
    assert "daily"[0] != "weekly"[0];
  }
}
