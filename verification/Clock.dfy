/** UTC instants and the text form under which the state file stores them. */
module Clock {

  /** Microseconds, counted so that day 1 is the first of January of the year 1, in UTC. */
  type Instant = int

  const SECOND: int := 1_000_000
  const MINUTE: int := 60 * SECOND
  const HOUR: int := 60 * MINUTE
  const DAY: int := 24 * HOUR

  /** The last day of the year 9999. */
  const MAX_DAY: int := 3_652_059

  predicate WholeSecond(t: Instant) {
    t % SECOND == 0
  }

  /** Rank of the rendered text of `t` among rendered texts, as `Iso.RenderOrder` shows. A fraction is
      printed only when it is not zero, and `.` precedes `Z`, so a whole second comes after every fraction
      of that second. */
  function TextRank(t: Instant): int {
    if WholeSecond(t) then t + SECOND else t
  }

  lemma TextRankInjective(a: Instant, b: Instant)
    requires TextRank(a) == TextRank(b)
    ensures a == b
  {
  }

  /** The earlier instant is a whole second and the later one lies within it. */
  predicate Inverted(a: Instant, b: Instant) {
    WholeSecond(a) && a < b < a + SECOND
  }

  /** Ranks are in time order, except exactly inside one second whose start is one of the two instants. */
  lemma RankVersusTime(a: Instant, b: Instant)
    requires a < b
    ensures TextRank(a) < TextRank(b) <==> !Inverted(a, b)
    ensures TextRank(a) != TextRank(b)
  {
    if WholeSecond(a) && !WholeSecond(b) && b >= a + SECOND {
      assert b % SECOND != 0 && (a + SECOND) % SECOND == 0;
    }
  }
}
