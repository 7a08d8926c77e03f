/**
 The calendar of quota counters: which period a moment belongs to, when the period ends, and how
 long a counter key is told to live. Times are whole milliseconds since the Unix epoch, in UTC.
 */
module QuotaPeriods {
  import opened Basics

  const SECOND_MS := 1_000
  const DAY_MS := 86_400_000

  /** Seconds that a key outlives its period: the longest stream plus settlement slack. */
  const GRACE_SECONDS := 1800 + 300

  /** How long after its check a settlement may come and still be sure to find its key. */
  const SETTLE_WITHIN_MS := 2_099_000

  datatype Kind = Daily | Monthly | Total

  /** A period as it is written into a key; months are counted from January 1970. */
  datatype Period = Day(n: nat) | Month(n: nat) | Forever

  predicate Leap(year: nat) {
    year % 4 == 0 && (year % 100 != 0 || year % 400 == 0)
  }

  function DaysIn(month: nat): (days: nat)
    ensures 28 <= days <= 31
  {
    match month % 12
    case 1 => if Leap(1970 + month / 12) then 29 else 28
    case 3 => 30
    case 5 => 30
    case 8 => 30
    case 10 => 30
    case _ => 31
  }

  function MonthStart(month: nat): nat {
    if month == 0 then 0 else MonthStart(month - 1) + DaysIn(month - 1) * DAY_MS
  }

  /** The month that contains `t`, searched from `month` on. */
  function MonthFrom(t: nat, month: nat): (r: nat)
    requires MonthStart(month) <= t
    ensures MonthStart(r) <= t < MonthStart(r + 1)
    decreases t - MonthStart(month)
  {
    if t < MonthStart(month + 1) then month else MonthFrom(t, month + 1)
  }

  /** The period of kind `kind` that contains `t`. */
  function PeriodOf(kind: Kind, t: nat): Period {
    match kind
    case Daily => Day(t / DAY_MS)
    case Monthly => Month(MonthFrom(t, 0))
    case Total => Forever
  }

  /** The first moment after a period that ends. */
  function EndOf(p: Period): nat
    requires !p.Forever?
  {
    match p
    case Day(n) => DayEnd(n)
    case Month(n) => MonthEnd(n)
  }

  function DayEnd(n: nat): nat { (n + 1) * DAY_MS }

  function MonthEnd(n: nat): nat { MonthStart(n + 1) }

  /** Year and month of the year (1..12) of a month index, and back. */
  function YearMonth(month: nat): (nat, nat) { (1970 + month / 12, month % 12 + 1) }

  function MonthIndex(year: nat, month: nat): nat
    requires year >= 1970 && month >= 1
  {
    (year - 1970) * 12 + month - 1
  }

  /** The end of the month as the program finds it, turning December into next January. */
  function NextMonthStart(month: nat): nat {
    var (year, m) := YearMonth(month);
    MonthStart(MonthIndex(if m == 12 then year + 1 else year, if m == 12 then 1 else m + 1))
  }

  /** The time to live, in seconds, given to a key at `t`; zero stands for none. */
  function TtlSeconds(kind: Kind, t: nat): int {
    match kind
    case Daily =>
      var tomorrow := (t + DAY_MS) / DAY_MS * DAY_MS;
      AtLeastOne((tomorrow - t) / SECOND_MS) + GRACE_SECONDS
    case Monthly => AtLeastOne((NextMonthStart(MonthFrom(t, 0)) - t) / SECOND_MS) + GRACE_SECONDS
    case Total => 0
  }

  /** The December rule names the month after `month`, for every month. */
  lemma NextMonthIsNext(month: nat)
    ensures NextMonthStart(month) == MonthStart(month + 1)
  {
    var (year, m) := YearMonth(month);
    assert month == (year - 1970) * 12 + m - 1;
  }

  /** A year from January to January has 365 days, a leap year 366. */
  lemma YearsHaveTheirDays(year: nat)
    requires year >= 1970
    ensures var leap := year % 4 == 0 && (year % 100 != 0 || year % 400 == 0);
            MonthStart(MonthIndex(year + 1, 1)) ==
            MonthStart(MonthIndex(year, 1)) + (if leap then 366 else 365) * 86_400_000
  {
    var y := year - 1970;
    assert MonthIndex(year, 1) == 12 * y && MonthIndex(year + 1, 1) == 12 * y + 12;
    FourQuarters(y);
  }

  /** The months of every year are as long as in the Gregorian calendar. */
  lemma MonthsHaveTheirDays(year: nat, month: nat)
    requires year >= 1970 && 1 <= month <= 12
    ensures var leap := year % 4 == 0 && (year % 100 != 0 || year % 400 == 0);
            var days := if month == 2 then (if leap then 29 else 28)
                        else if month in {4, 6, 9, 11} then 30 else 31;
            MonthStart(MonthIndex(year, month) + 1) == MonthStart(MonthIndex(year, month)) + days * 86_400_000
  {
    OneMonth(year - 1970, month - 1, MonthIndex(year, month));
  }

  /** A day is the number of whole days since 1970, a month is the one that contains the moment. */
  lemma PeriodsAreCalendar(t: nat, month: nat)
    ensures PeriodOf(Daily, t) == Day(t / 86_400_000) && PeriodOf(Total, t) == Forever
    ensures PeriodOf(Monthly, t) == Month(month) <==> MonthStart(month) <= t < MonthStart(month + 1)
    ensures EndOf(Day(t / 86_400_000)) == (t / 86_400_000 + 1) * 86_400_000
    ensures EndOf(Month(month)) == MonthStart(month + 1) && MonthStart(0) == 0
  {
    var own := MonthFrom(t, 0);
    if own < month {
      MonthStartIncreases(own + 1, month);
    } else if month < own {
      MonthStartIncreases(month + 1, own);
    }
  }

  lemma FourQuarters(y: nat)
    ensures MonthStart(12 * y + 12) == MonthStart(12 * y) + (if Leap(1970 + y) then 366 else 365) * DAY_MS
  {
    ThreeMonths(y, 0, 12 * y);
    ThreeMonths(y, 3, 12 * y + 3);
    ThreeMonths(y, 6, 12 * y + 6);
    ThreeMonths(y, 9, 12 * y + 9);
  }

  function LengthOf(y: nat, m: nat): nat {
    if m == 1 then (if Leap(1970 + y) then 29 else 28)
    else if m == 3 || m == 5 || m == 8 || m == 10 then 30 else 31
  }

  lemma DaysInMonth(y: nat, m: nat)
    requires m < 12
    ensures DaysIn(12 * y + m) == LengthOf(y, m)
  {
    assert (12 * y + m) % 12 == m && (12 * y + m) / 12 == y;
  }

  lemma OneMonth(y: nat, m: nat, month: nat)
    requires m < 12 && month == 12 * y + m
    ensures MonthStart(month + 1) == MonthStart(month) + LengthOf(y, m) * DAY_MS
  {
    DaysInMonth(y, m);
  }

  lemma ThreeMonths(y: nat, m: nat, first: nat)
    requires m + 2 < 12 && first == 12 * y + m
    ensures MonthStart(first + 3) ==
            MonthStart(first) + (LengthOf(y, m) + LengthOf(y, m + 1) + LengthOf(y, m + 2)) * DAY_MS
  {
    OneMonth(y, m, first);
    OneMonth(y, m + 1, first + 1);
    OneMonth(y, m + 2, first + 2);
  }

  lemma {:induction false} MonthStartIncreases(a: nat, b: nat)
    requires a <= b
    ensures MonthStart(a) <= MonthStart(b)
    decreases b - a
  {
    if a < b {
      MonthStartIncreases(a, b - 1);
    }
  }

  lemma DaysInOrder(t: nat, u: nat)
    requires t <= u
    ensures t < DayEnd(t / DAY_MS) <= DayEnd(u / DAY_MS)
  {
    assert t / DAY_MS <= u / DAY_MS;
  }

  lemma MonthsInOrder(t: nat, u: nat)
    requires t <= u
    ensures t < MonthEnd(MonthFrom(t, 0)) <= MonthEnd(MonthFrom(u, 0))
  {
    MonthBoundsInOrder(MonthFrom(t, 0), MonthFrom(u, 0), t, u);
  }

  lemma MonthBoundsInOrder(a: nat, b: nat, t: nat, u: nat)
    requires MonthStart(a) <= t <= u < MonthEnd(b)
    ensures MonthEnd(a) <= MonthEnd(b)
  {
    if b < a {
      MonthStartIncreases(b + 1, a);
    } else {
      MonthStartIncreases(a + 1, b + 1);
    }
  }

  /** Every moment lies before the end of its period, and later moments have later ends. */
  lemma EndsInOrder(kind: Kind, t: nat, u: nat)
    requires t <= u && kind != Total
    ensures t < EndOf(PeriodOf(kind, t)) <= EndOf(PeriodOf(kind, u))
  {
    match kind
    case Daily => DaysInOrder(t, u);
    case Monthly => MonthsInOrder(t, u);
  }

  /** The time to live runs to the end of the current period, in whole seconds, plus the grace. */
  lemma TtlRunsToEnd(kind: Kind, t: nat)
    requires kind != Total
    ensures TtlSeconds(kind, t) == AtLeastOne((EndOf(PeriodOf(kind, t)) - t) / SECOND_MS) + GRACE_SECONDS
  {
    if kind == Daily {
      assert (t + DAY_MS) / DAY_MS == t / DAY_MS + 1;
    } else {
      NextMonthIsNext(MonthFrom(t, 0));
    }
  }

  /**
   A key named at `named`, given a time to live computed at `timed` and stored at `now`, outlives
   the period it was named for by more than 2099 seconds, even when the period turns over
   between the three moments.
   */
  lemma KeyOutlivesPeriod(kind: Kind, named: nat, timed: nat, now: nat)
    requires kind != Total && named <= timed <= now
    ensures now + TtlSeconds(kind, timed) * 1000 > EndOf(PeriodOf(kind, named)) + 2_099_000
  {
    EndsInOrder(kind, named, timed);
    TtlRunsToEnd(kind, timed);
    WholeSeconds(EndOf(PeriodOf(kind, timed)) - timed);
  }

  lemma WholeSeconds(left: int)
    ensures AtLeastOne(left / SECOND_MS) * SECOND_MS > left - SECOND_MS
  {
  }

  /** The margin cannot be rounded up to the full grace: whole seconds lose up to 999 ms. */
  lemma MarginIsTight(kind: Kind, t: nat)
    requires kind != Total
    requires var left := EndOf(PeriodOf(kind, t)) - t; left >= SECOND_MS && left % SECOND_MS == 999
    ensures t + TtlSeconds(kind, t) * 1000 == EndOf(PeriodOf(kind, t)) + 2_099_001
  {
    TtlRunsToEnd(kind, t);
    LostMilliseconds(EndOf(PeriodOf(kind, t)) - t);
  }

  lemma LostMilliseconds(left: int)
    requires left >= SECOND_MS && left % SECOND_MS == 999
    ensures AtLeastOne(left / SECOND_MS) * SECOND_MS == left - 999
  {
  }
}
