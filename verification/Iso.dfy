/** Stamps as the state file prints them: ISO 8601 texts in UTC, and the order of these texts. */
module Iso {
  import opened Clock
  import opened Text
  import opened Decimal

  // ----- The calendar -----

  predicate IsLeap(year: int) {
    year % 4 == 0 && (year % 100 != 0 || year % 400 == 0)
  }

  function YearDays(year: int): int {
    if IsLeap(year) then 366 else 365
  }

  function MonthDays(year: int, month: int): int {
    if month == 2 then if IsLeap(year) then 29 else 28
    else if month == 4 || month == 6 || month == 9 || month == 11 then 30
    else 31
  }

  /** The year that lies `days` behind the first of January of `year`, and the days left in it. */
  function YearFrom(days: nat, year: int): (r: (int, nat))
    ensures r.0 >= year && r.1 < YearDays(r.0)
  {
    if days < YearDays(year) then (year, days) else YearFrom(days - YearDays(year), year + 1)
  }

  function MonthFrom(days: nat, year: int, month: int): (r: (int, nat))
    requires month <= 12
    ensures month <= r.0 <= 12
    decreases 12 - month
  {
    if month == 12 || days < MonthDays(year, month) then (month, days)
    else MonthFrom(days - MonthDays(year, month), year, month + 1)
  }

  datatype Date = Date(year: int, month: int, day: int)

  /** The date of a day number; day 1 is the first of January of the year 1. */
  function DateOf(day: int): Date
    requires day >= 1
  {
    var (year, left) := YearFrom(day - 1, 1);
    var (month, rest) := MonthFrom(left, year, 1);
    Date(year, month, rest + 1)
  }

  predicate DateBefore(a: Date, b: Date) {
    a.year < b.year || (a.year == b.year && (a.month < b.month || (a.month == b.month && a.day < b.day)))
  }

  lemma {:induction false} YearsKeepOrder(a: nat, b: nat, year: int)
    requires a <= b
    ensures var (y, r) := YearFrom(a, year); var (z, s) := YearFrom(b, year);
            y < z || (y == z && s - r == b - a)
  {
    if a >= YearDays(year) {
      YearsKeepOrder(a - YearDays(year), b - YearDays(year), year + 1);
    }
  }

  lemma {:induction false} MonthsKeepOrder(a: nat, b: nat, year: int, month: int)
    requires a <= b && month <= 12
    ensures var (m, r) := MonthFrom(a, year, month); var (n, s) := MonthFrom(b, year, month);
            m < n || (m == n && s - r == b - a)
    decreases 12 - month
  {
    if month < 12 && a >= MonthDays(year, month) {
      MonthsKeepOrder(a - MonthDays(year, month), b - MonthDays(year, month), year, month + 1);
    }
  }

  /** Later days have later dates. */
  lemma DatesKeepOrder(a: int, b: int)
    requires 1 <= a && 1 <= b
    ensures a < b <==> DateBefore(DateOf(a), DateOf(b))
    ensures a == b <==> DateOf(a) == DateOf(b)
  {
    if a < b {
      DateOfLater(a, b);
    } else if b < a {
      DateOfLater(b, a);
    }
  }

  lemma DateOfLater(a: int, b: int)
    requires 1 <= a < b
    ensures DateBefore(DateOf(a), DateOf(b))
  {
    YearsKeepOrder(a - 1, b - 1, 1);
    var (y, r) := YearFrom(a - 1, 1);
    var (z, s) := YearFrom(b - 1, 1);
    if y == z {
      MonthsKeepOrder(r, s, y, 1);
    }
  }

  /** Days before the first of January of a year. */
  function DaysBefore(year: int): int {
    365 * (year - 1) + (year - 1) / 4 - (year - 1) / 100 + (year - 1) / 400
  }

  lemma OneMore(y: int)
    ensures (y + 1) / 4 - y / 4 == if (y + 1) % 4 == 0 then 1 else 0
  {
  }

  lemma OneMoreCentury(y: int)
    ensures (y + 1) / 100 - y / 100 == if (y + 1) % 100 == 0 then 1 else 0
  {
  }

  lemma OneMoreCycle(y: int)
    ensures (y + 1) / 400 - y / 400 == if (y + 1) % 400 == 0 then 1 else 0
    ensures y % 400 == 0 ==> y % 100 == 0
    ensures y % 100 == 0 ==> y % 4 == 0
  {
  }

  lemma YearIsCounted(year: int)
    ensures DaysBefore(year + 1) - DaysBefore(year) == YearDays(year)
  {
    OneMore(year - 1);
    OneMoreCentury(year - 1);
    OneMoreCycle(year - 1);
    OneMoreCycle(year);
  }

  lemma {:induction false} YearIsReached(days: nat, year: int)
    ensures var (y, left) := YearFrom(days, year); DaysBefore(y) + left == DaysBefore(year) + days
  {
    if days >= YearDays(year) {
      YearIsCounted(year);
      YearIsReached(days - YearDays(year), year + 1);
    }
  }

  lemma {:induction false} MonthIsShort(days: nat, year: int, month: int)
    requires month <= 12
    requires days <= 31 * (13 - month)
    ensures MonthFrom(days, year, month).1 <= 98
    decreases 12 - month
  {
    if month < 12 && days >= MonthDays(year, month) && days - MonthDays(year, month) <= 31 * (12 - month) {
      MonthIsShort(days - MonthDays(year, month), year, month + 1);
    }
  }

  /** The day number of the last day before a month, month 13 being the January after. */
  function BeforeMonth(year: int, month: int): int {
    DaysBefore(year) + (367 * month - 362) / 12
    - (if month <= 2 then 0
       else if year % 400 == 0 || (year % 4 == 0 && year % 100 != 0) then 1
       else 2)
  }

  lemma MonthIsCounted(year: int, month: int)
    requires 1 <= month < 12
    ensures BeforeMonth(year, month + 1) - BeforeMonth(year, month) == MonthDays(year, month)
  {
    hide DaysBefore;
    MonthSteps(month);
  }

  lemma MonthSteps(month: int)
    requires 1 <= month < 12
    ensures (367 * (month + 1) - 362) / 12 - (367 * month - 362) / 12
            == if month == 2 || month == 4 || month == 6 || month == 9 || month == 11 then 30 else 31
  {
    var before := [0, 0, 31, 61, 92, 122, 153, 183, 214, 245, 275, 306, 336];
    assert forall m :: 1 <= m <= 12 ==> 12 * before[m] <= 367 * m - 362 < 12 * before[m] + 12;
    assert (367 * month - 362) / 12 == before[month] && (367 * (month + 1) - 362) / 12 == before[month + 1];
  }

  lemma {:induction false} MonthIsReached(days: nat, year: int, month: int)
    requires 1 <= month <= 12 && BeforeMonth(year, month) + days < BeforeMonth(year, 13)
    ensures var (m, left) := MonthFrom(days, year, month);
            && BeforeMonth(year, m) + left == BeforeMonth(year, month) + days
            && BeforeMonth(year, m) + left < BeforeMonth(year, m + 1)
    decreases 12 - month
  {
    hide BeforeMonth, MonthDays;
    if month < 12 {
      MonthIsCounted(year, month);
      if days >= MonthDays(year, month) {
        MonthIsReached(days - MonthDays(year, month), year, month + 1);
      }
    }
  }

  /** The calendar is the proleptic Gregorian one: a day number is the number of days before its month, by the
      closed formula, and the day of the month, which the month has. */
  lemma CalendarIsGregorian(day: int)
    requires day >= 1
    ensures var d := DateOf(day);
            && d.year >= 1 && 1 <= d.month <= 12 && d.day >= 1
            && day == BeforeMonth(d.year, d.month) + d.day && day <= BeforeMonth(d.year, d.month + 1)
  {
    YearIsReached(day - 1, 1);
    var (year, left) := YearFrom(day - 1, 1);
    YearIsCounted(year);
    MonthIsReached(left, year, 1);
  }

  // ----- Texts -----

  /** A number in a fixed number of digits. */
  function Fixed(width: nat, n: nat): (s: string)
    ensures |s| == width
  {
    if width == 0 then "" else Fixed(width - 1, n / 10) + [('0' as int + n % 10) as char]
  }

  /** Numbers of one width compare as their texts, and what follows decides between equal ones. */
  lemma {:induction false} FieldOrder(width: nat, a: nat, b: nat, r: string, s: string)
    requires a < TenTo(width) && b < TenTo(width)
    ensures LexLe(Fixed(width, a) + r, Fixed(width, b) + s) <==> a < b || (a == b && LexLe(r, s))
  {
    if width == 0 {
      assert Fixed(0, a) + r == r && Fixed(0, b) + s == s;
    } else {
      var c, d := [('0' as int + a % 10) as char], [('0' as int + b % 10) as char];
      assert Fixed(width, a) + r == Fixed(width - 1, a / 10) + (c + r);
      assert Fixed(width, b) + s == Fixed(width - 1, b / 10) + (d + s);
      FieldOrder(width - 1, a / 10, b / 10, c + r, d + s);
      FirstChar(c[0], d[0], r, s);
    }
  }

  lemma FirstChar(c: char, d: char, r: string, s: string)
    ensures LexLe([c] + r, [d] + s) <==> c < d || (c == d && LexLe(r, s))
  {
    assert ([c] + r)[1..] == r && ([d] + s)[1..] == s;
  }

  /** One field and the character behind it. */
  function Field(width: nat, n: nat, mark: char, rest: string): string {
    Fixed(width, n) + ([mark] + rest)
  }

  lemma FieldsOrder(width: nat, a: nat, b: nat, mark: char, r: string, s: string)
    requires a < TenTo(width) && b < TenTo(width)
    ensures LexLe(Field(width, a, mark, r), Field(width, b, mark, s)) <==> a < b || (a == b && LexLe(r, s))
  {
    FieldOrder(width, a, b, [mark] + r, [mark] + s);
    FirstChar(mark, mark, r, s);
  }

  /** The time of day, printed down to the second and then the fraction, if there is one. */
  function TimeText(micros: nat): string {
    Clockwise(micros / SECOND, Tail(micros % SECOND))
  }

  function DateForm(date: Date, time: string): string
    requires date.year >= 0 && date.month >= 0 && date.day >= 0
  {
    Field(4, date.year, '-', Field(2, date.month, '-', Field(2, date.day, 'T', time)))
  }

  /** The instants a `datetime` can hold. */
  predicate Representable(t: Instant) {
    DAY <= t < (MAX_DAY + 1) * DAY
  }

  /** `isoformat()` of a UTC instant, with `Z` for its offset. */
  function Render(t: Instant): string
    requires Representable(t)
  {
    DateYears(t / DAY);
    DateForm(DateOf(t / DAY), TimeText(t % DAY))
  }

  /** Years have four digits, months and days two. */
  lemma DateYears(day: int)
    requires 1 <= day <= MAX_DAY
    ensures var date := DateOf(day);
            1 <= date.year <= 9999 && 1 <= date.month <= 12 && 1 <= date.day <= 99
  {
    var (year, left) := YearFrom(day - 1, 1);
    YearIsReached(day - 1, 1);
    assert DaysBefore(1) == 0;
    MonthIsShort(left, year, 1);
    hide YearFrom, MonthFrom;
    assert DaysBefore(10000) == MAX_DAY;
    DaysGrow(10000, year);
  }

  lemma {:induction false} DaysGrow(a: int, b: int)
    ensures a <= b ==> DaysBefore(a) <= DaysBefore(b)
    decreases b - a
  {
    if a < b {
      YearIsCounted(a);
      DaysGrow(a + 1, b);
    }
  }

  // ----- The order of the texts -----

  /** What stands behind the seconds: a fraction, if it is not zero, and `Z`. */
  function Tail(fraction: nat): string {
    if fraction == 0 then "Z" else "." + (Fixed(6, fraction) + "Z")
  }

  /** Order of the tails within one second: a missing fraction comes last. */
  lemma TailOrder(a: nat, b: nat)
    requires a < SECOND && b < SECOND
    ensures LexLe(Tail(a), Tail(b)) <==> TextRank(a) <= TextRank(b)
  {
    hide Fixed, LexLe;
    FirstChar(if a == 0 then 'Z' else '.', if b == 0 then 'Z' else '.',
              if a == 0 then "" else Fixed(6, a) + "Z", if b == 0 then "" else Fixed(6, b) + "Z");
    assert ['Z'] + "" == "Z";
    TenToSixth();
    EmptyFirst();
    FieldOrder(6, a, b, "Z", "Z");
    LexLeItself("Z");
  }

  lemma EmptyFirst()
    ensures LexLe("", "")
  {
  }

  lemma LexLeItself(s: string)
    ensures LexLe(s, s)
  {
    LexLeTotal(s, s);
  }

  lemma TenToSixth()
    ensures TenTo(6) == SECOND
  {
    assert TenTo(3) == 1000;
  }

  /** A rank is made of whole units and the rank of the rest. */
  lemma RankByDay(t: Instant)
    ensures TextRank(t) == t / DAY * DAY + TextRank(t % DAY) && 0 < TextRank(t % DAY) <= DAY
  {
    var d, m := t / DAY, t % DAY;
    SecondOf(t, d * 86400 + m / SECOND, m % SECOND);
    RankBySecond(t);
    RankBySecond(m);
    LastSecond(m);
    hide TextRank;
  }

  lemma LastSecond(m: int)
    requires 0 <= m < DAY
    ensures 0 <= m / SECOND < 86400
  {
  }

  lemma SecondOf(t: Instant, q: int, r: int)
    requires t == q * SECOND + r && 0 <= r < SECOND
    ensures t / SECOND == q && t % SECOND == r
  {
  }

  lemma RankBySecond(t: Instant)
    ensures TextRank(t) == t / SECOND * SECOND + TextRank(t % SECOND) && 0 < TextRank(t % SECOND) <= SECOND
  {
  }

  lemma SecondRank(a: nat, b: nat)
    ensures TextRank(a) <= TextRank(b) <==>
              a / SECOND < b / SECOND
              || (a / SECOND == b / SECOND && TextRank(a % SECOND) <= TextRank(b % SECOND))
  {
    RankBySecond(a);
    RankBySecond(b);
    hide TextRank;
  }

  lemma DayRank(a: Instant, b: Instant)
    ensures TextRank(a) <= TextRank(b) <==>
              a / DAY < b / DAY || (a / DAY == b / DAY && TextRank(a % DAY) <= TextRank(b % DAY))
  {
    RankByDay(a);
    RankByDay(b);
    hide TextRank;
  }

  lemma SecondsOrder(x: nat, y: nat)
    ensures var late := x / 60 % 60 < y / 60 % 60 || (x / 60 % 60 == y / 60 % 60 && x % 60 < y % 60);
            x < y <==> x / 3600 < y / 3600 || (x / 3600 == y / 3600 && late)
  {
    assert x / 3600 == x / 60 / 60 && y / 3600 == y / 60 / 60;
  }

  function Clockwise(second: nat, tail: string): string {
    Field(2, second / 3600, ':', Minutes(second, tail))
  }

  function Minutes(second: nat, tail: string): string {
    Field(2, second / 60 % 60, ':', Fixed(2, second % 60) + tail)
  }

  lemma MinutesOrder(x: nat, y: nat, r: string, s: string)
    ensures LexLe(Minutes(x, r), Minutes(y, s)) <==>
              x / 60 % 60 < y / 60 % 60
              || (x / 60 % 60 == y / 60 % 60 && (x % 60 < y % 60 || (x % 60 == y % 60 && LexLe(r, s))))
  {
    hide Fixed, Field, LexLe;
    assert TenTo(2) == 100;
    FieldOrder(2, x % 60, y % 60, r, s);
    FieldsOrder(2, x / 60 % 60, y / 60 % 60, ':', Fixed(2, x % 60) + r, Fixed(2, y % 60) + s);
  }

  lemma ClockOrder(x: nat, y: nat, r: string, s: string)
    requires x < 86400 && y < 86400
    ensures LexLe(Clockwise(x, r), Clockwise(y, s)) <==> x < y || (x == y && LexLe(r, s))
  {
    hide Fixed, Field, LexLe, Minutes;
    assert TenTo(2) == 100;
    MinutesOrder(x, y, r, s);
    FieldsOrder(2, x / 3600, y / 3600, ':', Minutes(x, r), Minutes(y, s));
    SecondsOrder(x, y);
  }

  /** Times of day compare as texts in the order of their ranks. */
  lemma TimeOrder(a: nat, b: nat)
    requires a < DAY && b < DAY
    ensures LexLe(TimeText(a), TimeText(b)) <==> TextRank(a) <= TextRank(b)
  {
    hide Clockwise, Tail, LexLe, TextRank;
    TailOrder(a % SECOND, b % SECOND);
    ClockOrder(a / SECOND, b / SECOND, Tail(a % SECOND), Tail(b % SECOND));
    SecondRank(a, b);
  }

  lemma FormOrder(d: Date, e: Date, r: string, s: string)
    requires 0 <= d.year <= 9999 && 0 <= d.month <= 99 && 0 <= d.day <= 99
    requires 0 <= e.year <= 9999 && 0 <= e.month <= 99 && 0 <= e.day <= 99
    ensures LexLe(DateForm(d, r), DateForm(e, s)) <==> DateBefore(d, e) || (d == e && LexLe(r, s))
  {
    hide Fixed, Field, LexLe;
    assert TenTo(2) == 100 && TenTo(4) == 10000;
    FieldsOrder(2, d.day, e.day, 'T', r, s);
    FieldsOrder(2, d.month, e.month, '-', Field(2, d.day, 'T', r), Field(2, e.day, 'T', s));
    FieldsOrder(4, d.year, e.year, '-', Field(2, d.month, '-', Field(2, d.day, 'T', r)),
                Field(2, e.month, '-', Field(2, e.day, 'T', s)));
  }

  /** Rendered stamps compare as texts in the order of their ranks. */
  lemma RenderOrder(a: Instant, b: Instant)
    requires Representable(a) && Representable(b)
    ensures LexLe(Render(a), Render(b)) <==> TextRank(a) <= TextRank(b)
  {
    hide DateOf, TimeText, DateForm, LexLe, TextRank, DateBefore;
    DateYears(a / DAY);
    DateYears(b / DAY);
    DatesKeepOrder(a / DAY, b / DAY);
    TimeOrder(a % DAY, b % DAY);
    FormOrder(DateOf(a / DAY), DateOf(b / DAY), TimeText(a % DAY), TimeText(b % DAY));
    DayRank(a, b);
  }

  /** Different instants have different texts. */
  lemma RenderInjective(a: Instant, b: Instant)
    requires Representable(a) && Representable(b) && Render(a) == Render(b)
    ensures a == b
  {
    hide Render, LexLe, TextRank;
    RenderOrder(a, b);
    RenderOrder(b, a);
    LexLeTotal(Render(a), Render(b));
    TextRankInjective(a, b);
  }

  /** The order of the texts is the order of the times, except exactly where the earlier instant is a whole
      second and the later one lies within that second. */
  lemma TextOrderVersusTime(a: Instant, b: Instant)
    requires Representable(a) && Representable(b) && a < b
    ensures LexLe(Render(a), Render(b)) <==> !Inverted(a, b)
  {
    RenderOrder(a, b);
    RankVersusTime(a, b);
    hide Render, LexLe;
  }

  /** `2024-01-01T00:00:00` and what follows, from its six fields. */
  function Fields(year: string, month: string, day: string, hour: string, minute: string, second: string, tail: string)
    : string
  {
    year + (['-'] + (month + (['-'] + (day + (['T'] +
      (hour + ([':'] + (minute + ([':'] + (second + tail))))))))))
  }

  /** The first second of the calendar, and a microsecond later. */
  lemma FirstStamps()
    ensures Representable(DAY) && Render(DAY) == Fields("0001", "01", "01", "00", "00", "00", "Z")
    ensures Representable(DAY + 1) && Render(DAY + 1) == Fields("0001", "01", "01", "00", "00", "00", ".000001Z")
  {
    hide *;
    FirstStamp(0);
    FirstStamp(1);
    FirstTails();
  }

  /** Of these two the later one has the smaller text. */
  lemma InvertedStamps()
    ensures Representable(DAY) && Representable(DAY + 1)
    ensures Inverted(DAY, DAY + 1) && !LexLe(Render(DAY), Render(DAY + 1))
  {
    hide Render, LexLe;
    TextOrderVersusTime(DAY, DAY + 1);
  }

  lemma FirstStamp(fraction: nat)
    requires fraction < 1_000_000
    ensures Representable(DAY + fraction)
    ensures Render(DAY + fraction) == Fields("0001", "01", "01", "00", "00", "00", Tail(fraction))
  {
    var t := DAY + fraction;
    ZeroFields();
    hide Fixed, Tail, DateOf;
    assert DateOf(1) == Date(1, 1, 1) by { FirstDay(); }
    assert t / DAY == 1 && t % DAY == fraction;
    assert fraction / SECOND == 0 && fraction % SECOND == fraction;
  }

  lemma FirstDay()
    ensures DateOf(1) == Date(1, 1, 1)
  {
  }

  lemma FirstTails()
    ensures Tail(0) == "Z" && Tail(1) == ".000001Z"
  {
    ZeroFields();
    hide Fixed;
  }

  lemma FixedStep(width: nat, n: nat)
    ensures Fixed(width + 1, n) == Fixed(width, n / 10) + [('0' as int + n % 10) as char]
  {
  }

  lemma ZeroFields()
    ensures Fixed(2, 0) == "00" && Fixed(2, 1) == "01" && Fixed(4, 1) == "0001" && Fixed(6, 1) == "000001"
  {
    assert Fixed(0, 0) == "";
    hide Fixed;
    FixedStep(0, 0);
    FixedStep(1, 0);
    FixedStep(2, 0);
    FixedStep(3, 0);
    FixedStep(4, 0);
    FixedStep(1, 1);
    FixedStep(3, 1);
    FixedStep(5, 1);
  }
}
