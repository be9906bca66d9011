/** The history page: every weekly period, newest first, with the spending dated
    inside it, what is left of its limit and whether it is running now; and, for
    one period, its spending bucketed day by day. */
module History {
  import opened Calendar
  import opened Ledger

  const MillisPerDay := 86400000

  type Millisecond = m: int | 0 <= m < MillisPerDay

  /** A moment in UTC: a date and the milliseconds elapsed since its midnight. */
  datatype Instant = Instant(date: CivilDate, millisecond: Millisecond)

  /** Milliseconds since 0001-01-01T00:00:00Z, the order `Date` objects compare in. */
  function EpochMillis(now: Instant): int {
    DayNumber(now.date) * MillisPerDay + now.millisecond
  }

  /** `new Date('YYYY-MM-DD')`: a date-only string is read as midnight UTC. */
  function Midnight(d: CivilDate): int {
    DayNumber(d) * MillisPerDay
  }

  /** `isActive` as the page computes it: the current instant against the
      midnights that open the start date and the end date. It agrees with "today
      lies in the period" on every day but the last, where it only holds at the
      stroke of midnight. */
  function IsActiveAsWritten(wp: WeeklyPeriod, now: Instant): (active: bool)
    ensures active <==>
      Covers(wp, now.date) && (DayNumber(now.date) < DayNumber(wp.endDate) || now.millisecond == 0)
  {
    Midnight(wp.startDate) <= EpochMillis(now) <= Midnight(wp.endDate)
  }

  /** At noon on the Sunday that ends a Monday-to-Sunday period the page already
      shows the period as over. */
  lemma LastDayNoonIsMissed()
    ensures var wp := WeeklyPeriod(1, Some(1), "Minggu 1", Date(2026, 10, 12), Date(2026, 10, 18), Some(200000));
      var now := Instant(Date(2026, 10, 18), 12 * 3600000);
      Covers(wp, now.date) && !IsActiveAsWritten(wp, now)
  {
  }

  /** `isActive` as intended: `start_date <= today <= end_date` on calendar days,
      which holds during the whole of every day of the period, from the first
      instant of its start date to the last instant of its end date. */
  function IsActive(wp: WeeklyPeriod, now: Instant): (active: bool)
    ensures active <==> Midnight(wp.startDate) <= EpochMillis(now) < Midnight(wp.endDate) + MillisPerDay
  {
    Covers(wp, now.date)
  }

  /** One row of the weekly history. */
  datatype PeriodSummary = PeriodSummary(period: WeeklyPeriod, spent: int, remaining: int, isActive: bool)

  /** `loadWeeklyHistory`'s row for one period: the expenses dated from its start
      to its end, whichever period they were booked against; the limit minus that
      spending (a missing limit reads as 0, so it may go negative); and whether it
      is running now, by the corrected flag `IsActive`. */
  function Summarize(wp: WeeklyPeriod, expenses: seq<Expense>, now: Instant): (s: PeriodSummary)
    ensures s.period == wp
    ensures s.remaining < 0 <==> s.spent > LimitOf(wp)
    ensures s.isActive <==> Midnight(wp.startDate) <= EpochMillis(now) < Midnight(wp.endDate) + MillisPerDay
  {
    var spent := SpentBetween(expenses, wp.startDate, wp.endDate);
    PeriodSummary(wp, spent, LimitOf(wp) - spent, IsActive(wp, now))
  }

  /** The whole history, in `start_date` order, newest first. */
  function WeeklyHistory(periods: seq<WeeklyPeriod>, expenses: seq<Expense>, now: Instant): (r: seq<PeriodSummary>)
    ensures |r| == |periods|
  {
    var ordered := NewestFirst(periods);
    assert |multiset(ordered)| == |multiset(periods)|;
    seq(|ordered|, i requires 0 <= i < |ordered| => Summarize(ordered[i], expenses, now))
  }

  function PeriodsOf(rows: seq<PeriodSummary>): seq<WeeklyPeriod> {
    seq(|rows|, i requires 0 <= i < |rows| => rows[i].period)
  }

  /** The history lists every period exactly once, newest first; each row's
      spending is the sum of the expenses dated within the period, its remaining
      is the limit minus that, negative exactly when the spending went over, and
      it is active exactly when today lies in the period (the corrected flag; the
      page's own comparison is `IsActiveAsWritten`). */
  lemma WeeklyHistoryRows(periods: seq<WeeklyPeriod>, expenses: seq<Expense>, now: Instant)
    ensures var r := WeeklyHistory(periods, expenses, now);
      && multiset(PeriodsOf(r)) == multiset(periods)
      && IsNewestFirst(PeriodsOf(r))
      && forall i :: 0 <= i < |r| ==>
           && r[i].spent == SpentBetween(expenses, r[i].period.startDate, r[i].period.endDate)
           && r[i].remaining == LimitOf(r[i].period) - r[i].spent
           && (r[i].remaining < 0 <==> r[i].spent > LimitOf(r[i].period))
           && (r[i].isActive <==> OnOrBefore(r[i].period.startDate, now.date) && OnOrBefore(now.date, r[i].period.endDate))
  {
    var r := WeeklyHistory(periods, expenses, now);
    assert PeriodsOf(r) == NewestFirst(periods);
  }

  /** One day of a period's detail view. */
  datatype DayEntry = DayEntry(date: CivilDate, expenses: seq<Expense>, total: int)

  /** The sum of the daily totals. */
  function DailySum(daily: seq<DayEntry>): int {
    if daily == [] then 0 else DailySum(daily[..|daily| - 1]) + daily[|daily| - 1].total
  }

  lemma DailySumAppend(daily: seq<DayEntry>, entry: DayEntry)
    ensures DailySum(daily + [entry]) == DailySum(daily) + entry.total
  {
    assert (daily + [entry])[..|daily|] == daily;
  }

  /** The spending from day `lo` through the day after `last` is the spending
      through `last` plus the spending on that next day `d`. */
  lemma {:induction false} SplitNextDay(xs: seq<Expense>, lo: int, last: int, d: CivilDate)
    requires lo <= last + 1 == DayNumber(d)
    ensures Total(Where(xs, DatedWithin(lo, last + 1))) ==
      Total(Where(xs, DatedWithin(lo, last))) + Total(Where(xs, DatedOn(d)))
  {
    if xs != [] {
      var x := xs[0];
      SplitNextDay(xs[1..], lo, last, d);
      DayNumberInjective(x.date, d);
      var through := DatedWithin(lo, last + 1);
      var before := DatedWithin(lo, last);
      TotalConcat(if through(x) then [x] else [], Where(xs[1..], through));
      TotalConcat(if before(x) then [x] else [], Where(xs[1..], before));
      TotalConcat(if DatedOn(d)(x) then [x] else [], Where(xs[1..], DatedOn(d)));
    }
  }

  /** `entry` is the `i`-th day from `start`, holding exactly the expenses dated
      that day and their sum. */
  ghost predicate DayEntryAt(entry: DayEntry, start: CivilDate, i: int, expenses: seq<Expense>) {
    && DayNumber(entry.date) == DayNumber(start) + i
    && entry.expenses == Where(expenses, DatedOn(entry.date))
    && entry.total == Total(entry.expenses)
  }

  ghost predicate DayByDay(daily: seq<DayEntry>, start: CivilDate, expenses: seq<Expense>) {
    forall i :: 0 <= i < |daily| ==> DayEntryAt(daily[i], start, i, expenses)
  }

  lemma DayByDayAppend(daily: seq<DayEntry>, start: CivilDate, expenses: seq<Expense>, entry: DayEntry)
    requires DayByDay(daily, start, expenses)
    requires DayEntryAt(entry, start, |daily|, expenses)
    ensures DayByDay(daily + [entry], start, expenses)
  {
    var extended := daily + [entry];
    assert forall i :: 0 <= i < |daily| ==> extended[i] == daily[i];
  }

  /** Filtering the period's expenses to one of its days keeps all of that day's
      expenses. */
  lemma DayEntryFacts(expenses: seq<Expense>, lo: int, hi: int, d: CivilDate)
    requires lo <= DayNumber(d) <= hi
    ensures Where(Where(expenses, DatedWithin(lo, hi)), DatedOn(d)) == Where(expenses, DatedOn(d))
  {
    WhereNarrower(expenses, DatedWithin(lo, hi), DatedOn(d));
  }

  /** Once the walk has passed the end date (or never started), the days it
      recorded hold the whole spending of the period. */
  lemma SpentBetweenIsDailySum(expenses: seq<Expense>, inRange: seq<Expense>, lo: int, hi: int, n: nat, last: int)
    requires inRange == Where(expenses, DatedWithin(lo, hi))
    requires n == (if lo <= hi then hi - lo + 1 else 0) && last == lo + n - 1
    ensures Total(Where(inRange, DatedWithin(lo, last))) == Total(inRange)
  {
    if lo <= hi {
      WhereNarrower(expenses, DatedWithin(lo, hi), DatedWithin(lo, hi));
    } else {
      WhereNone(inRange, DatedWithin(lo, last));
      WhereNone(expenses, DatedWithin(lo, hi));
    }
  }

  /** The number of days from `wp`'s start date through its end date (none when the
      end comes first). */
  function DayCount(wp: WeeklyPeriod): nat {
    var lo, hi := DayNumber(wp.startDate), DayNumber(wp.endDate);
    if lo <= hi then hi - lo + 1 else 0
  }

  /** The first `n` days from `start`, each with the rows of `fetched` dated that
      day and their sum. */
  function DaysFrom(start: CivilDate, n: nat, fetched: seq<Expense>): (r: seq<DayEntry>)
    ensures |r| == n
  {
    if n == 0 then []
    else
      var d := AddDays(start, n - 1);
      var dayExpenses := Where(fetched, DatedOn(d));
      DaysFrom(start, n - 1, fetched) + [DayEntry(d, dayExpenses, Total(dayExpenses))]
  }

  /** Recording day `d` after the days before it adds that day's total to the sum. */
  lemma SumStep(before: seq<DayEntry>, entry: DayEntry, daily: seq<DayEntry>, inRange: seq<Expense>,
                lo: int, prev: int, last: int, d: CivilDate)
    requires DailySum(before) == Total(Where(inRange, DatedWithin(lo, prev)))
    requires lo <= prev + 1 == DayNumber(d) && last == prev + 1
    requires entry == DayEntry(d, Where(inRange, DatedOn(d)), Total(Where(inRange, DatedOn(d))))
    requires daily == before + [entry]
    ensures DailySum(daily) == Total(Where(inRange, DatedWithin(lo, last)))
  {
    SplitNextDay(inRange, lo, prev, d);
    DailySumAppend(before, entry);
  }

  /** Recording day `d` of the period, the next one after the days before it,
      keeps every entry holding exactly the expenses of its day. */
  lemma DayStep(before: seq<DayEntry>, entry: DayEntry, daily: seq<DayEntry>, start: CivilDate,
                expenses: seq<Expense>, inRange: seq<Expense>, lo: int, hi: int, d: CivilDate)
    requires DayByDay(before, start, expenses)
    requires inRange == Where(expenses, DatedWithin(lo, hi))
    requires lo <= DayNumber(d) <= hi && DayNumber(d) == DayNumber(start) + |before|
    requires entry == DayEntry(d, Where(inRange, DatedOn(d)), Total(Where(inRange, DatedOn(d))))
    requires daily == before + [entry]
    ensures DayByDay(daily, start, expenses)
  {
    DayEntryFacts(expenses, lo, hi, d);
    DayByDayAppend(before, start, expenses, entry);
  }

  /** The first `n` days of a period each hold exactly the expenses dated that day. */
  lemma {:induction false} DaysFromByDay(expenses: seq<Expense>, inRange: seq<Expense>, lo: int, hi: int, start: CivilDate,
                                         n: nat, daily: seq<DayEntry>)
    requires inRange == Where(expenses, DatedWithin(lo, hi))
    requires lo == DayNumber(start) && (n == 0 || lo + n <= hi + 1)
    requires daily == DaysFrom(start, n, inRange)
    ensures DayByDay(daily, start, expenses)
  {
    if n != 0 {
      var k: nat := n - 1;
      var before := DaysFrom(start, k, inRange);
      DaysFromByDay(expenses, inRange, lo, hi, start, k, before);
      var d := AddDays(start, k);
      DayStep(before, daily[k], daily, start, expenses, inRange, lo, hi, d);
    }
  }

  /** The totals of the first `n` days from day `lo` add up to the spending from day
      `lo` through day `last`, the `n`-th of them. */
  lemma {:induction false} DaysFromSum(inRange: seq<Expense>, lo: int, start: CivilDate, n: nat, last: int, daily: seq<DayEntry>)
    requires lo == DayNumber(start) && last == lo + n - 1
    requires daily == DaysFrom(start, n, inRange)
    ensures DailySum(daily) == Total(Where(inRange, DatedWithin(lo, last)))
  {
    if n == 0 {
      WhereNone(inRange, DatedWithin(lo, last));
    } else {
      var k: nat := n - 1;
      var before := DaysFrom(start, k, inRange);
      DaysFromSum(inRange, lo, start, k, last - 1, before);
      var d := AddDays(start, k);
      SumStep(before, daily[k], daily, inRange, lo, last - 1, last, d);
    }
  }

  /** A walk of all the days from day `lo` through day `hi` adds up to all the
      spending between them. */
  lemma WholeWalkAddsUp(expenses: seq<Expense>, inRange: seq<Expense>, lo: int, hi: int, start: CivilDate,
                        n: nat, daily: seq<DayEntry>)
    requires inRange == Where(expenses, DatedWithin(lo, hi))
    requires lo == DayNumber(start) && n == (if lo <= hi then hi - lo + 1 else 0)
    requires daily == DaysFrom(start, n, inRange)
    ensures DayByDay(daily, start, expenses)
    ensures DailySum(daily) == Total(inRange)
  {
    DaysFromByDay(expenses, inRange, lo, hi, start, n, daily);
    var last := lo + n - 1;
    DaysFromSum(inRange, lo, start, n, last, daily);
    SpentBetweenIsDailySum(expenses, inRange, lo, hi, n, last);
  }

  /** The walk over a whole period records every day of it, each holding exactly
      the expenses dated that day and their sum, and the daily totals add up to
      the period's spending. */
  lemma DailyBreakdown(wp: WeeklyPeriod, expenses: seq<Expense>, daily: seq<DayEntry>)
    requires daily == DaysFrom(wp.startDate, DayCount(wp),
      Where(expenses, DatedWithin(DayNumber(wp.startDate), DayNumber(wp.endDate))))
    ensures DayByDay(daily, wp.startDate, expenses)
    ensures DailySum(daily) == SpentBetween(expenses, wp.startDate, wp.endDate)
  {
    var lo, hi := DayNumber(wp.startDate), DayNumber(wp.endDate);
    WholeWalkAddsUp(expenses, Where(expenses, DatedWithin(lo, hi)), lo, hi, wp.startDate, DayCount(wp), daily);
  }

  /** `showPeriodDetails`: fetch the expenses dated within the period, then walk
      from the start date to the end date one day at a time (`setDate(getDate() + 1)`),
      recording each day's fetched expenses and their sum. */
  method PeriodDetails(wp: WeeklyPeriod, expenses: seq<Expense>) returns (daily: seq<DayEntry>)
    ensures daily == DaysFrom(wp.startDate, DayCount(wp),
      Where(expenses, DatedWithin(DayNumber(wp.startDate), DayNumber(wp.endDate))))
  {
    var lo, hi := DayNumber(wp.startDate), DayNumber(wp.endDate);
    var fetched := Where(expenses, DatedWithin(lo, hi));
    daily := [];
    var d := wp.startDate;
    while DayNumber(d) <= hi
      invariant DayNumber(d) == lo + |daily| && |daily| <= DayCount(wp)
      invariant daily == DaysFrom(wp.startDate, |daily|, fetched)
      decreases hi - DayNumber(d)
    {
      DayNumberInjective(d, AddDays(wp.startDate, |daily|));
      var dayExpenses := Where(fetched, DatedOn(d));
      var total := Total(dayExpenses);
      daily := daily + [DayEntry(d, dayExpenses, total)];
      d := NextDay(d);
    }
    assert |daily| == DayCount(wp);
  }
}
