/** The proleptic Gregorian calendar, as the budgeting code reaches it through
    JavaScript `Date`: civil dates, an absolute day number that orders them, the
    day of the week as `getDay()` reports it, and the two `Date` operations that
    overflow into neighbouring months (`new Date(y, m, d)` and `setDate(n)`). */
module Calendar {

  /** A calendar date; `month` is 1..12 (JavaScript's `getMonth()` is `month - 1`). */
  datatype Date = Date(year: int, month: int, day: int)

  predicate IsLeapYear(y: int) {
    y % 4 == 0 && (y % 100 != 0 || y % 400 == 0)
  }

  function DaysInMonth(y: int, m: int): (n: int)
    requires 1 <= m <= 12
    ensures 28 <= n <= 31
  {
    if m == 2 then (if IsLeapYear(y) then 29 else 28)
    else if m == 4 || m == 6 || m == 9 || m == 11 then 30
    else 31
  }

  predicate IsValid(d: Date) {
    1 <= d.month <= 12 && 1 <= d.day <= DaysInMonth(d.year, d.month)
  }

  /** The dates that exist. */
  type CivilDate = d: Date | IsValid(d) witness Date(1970, 1, 1)

  function DaysInYear(y: int): int {
    if IsLeapYear(y) then 366 else 365
  }

  /** Days from 0001-01-01 to January 1st of year `y` (negative before year 1). */
  function DaysBeforeYear(y: int): int {
    365 * (y - 1) + (y - 1) / 4 - (y - 1) / 100 + (y - 1) / 400
  }

  /** Days from January 1st of year `y` to the first day of month `m`. */
  function DaysBeforeMonth(y: int, m: int): int
    requires 1 <= m <= 12
  {
    (if m == 1 then 0 else if m == 2 then 31 else if m == 3 then 59
     else if m == 4 then 90 else if m == 5 then 120 else if m == 6 then 151
     else if m == 7 then 181 else if m == 8 then 212 else if m == 9 then 243
     else if m == 10 then 273 else if m == 11 then 304 else 334)
    + (if m > 2 && IsLeapYear(y) then 1 else 0)
  }

  /** Days elapsed since 0001-01-01: the instant order of dates, as a database
      compares `date` columns and as `Date` objects compare at midnight. */
  function DayNumber(d: CivilDate): int {
    DaysBeforeYear(d.year) + DaysBeforeMonth(d.year, d.month) + d.day - 1
  }

  predicate OnOrBefore(a: CivilDate, b: CivilDate) {
    DayNumber(a) <= DayNumber(b)
  }

  /** `getDay()`: 0 is Sunday, 1 is Monday, ..., 6 is Saturday (0001-01-01 was a Monday). */
  function Weekday(d: CivilDate): (w: int)
    ensures 0 <= w < 7
  {
    (DayNumber(d) + 1) % 7
  }

  /** The numbering agrees with `getDay()`: 1970-01-04, the first Sunday after the
      Unix epoch, is 0 and the Monday after it is 1. */
  lemma KnownSunday()
    ensures Weekday(Date(1970, 1, 4)) == 0 && Weekday(Date(1970, 1, 5)) == 1
  {
    assert DayNumber(Date(1970, 1, 4)) == 719165;
    assert DayNumber(Date(1970, 1, 5)) == 719166;
  }

  /** Every date's weekday is the number of days since that Sunday, modulo 7. */
  lemma CountFromSunday(d: CivilDate)
    ensures Weekday(d) == (DayNumber(d) - DayNumber(Date(1970, 1, 4))) % 7
  {
    var n := DayNumber(d);
    assert DayNumber(Date(1970, 1, 4)) == 719165;
    SameResidue(n + 1, n - 719165, 102738);
  }

  /** How the floor quotients used by `DaysBeforeYear` step from `y - 1` to `y`. */
  lemma StepDiv(y: int)
    ensures y / 4 - (y - 1) / 4 == if y % 4 == 0 then 1 else 0
    ensures y / 100 - (y - 1) / 100 == if y % 100 == 0 then 1 else 0
    ensures y / 400 - (y - 1) / 400 == if y % 400 == 0 then 1 else 0
  {
  }

  /** A year is as long as the gap between its January 1st and the next one. */
  lemma {:induction false} YearLength(y: int)
    ensures DaysBeforeYear(y + 1) == DaysBeforeYear(y) + DaysInYear(y)
  {
    StepDiv(y);
  }

  lemma {:induction false} YearsAscend(y1: int, y2: int)
    requires y1 <= y2
    ensures DaysBeforeYear(y1) + 365 * (y2 - y1) <= DaysBeforeYear(y2)
    decreases y2 - y1
  {
    if y1 < y2 {
      YearsAscend(y1, y2 - 1);
      YearLength(y2 - 1);
    }
  }

  /** The day after `d`, as `d.setDate(d.getDate() + 1)` computes it. */
  function NextDay(d: CivilDate): (r: CivilDate)
    ensures DayNumber(r) == DayNumber(d) + 1
  {
    if d.day < DaysInMonth(d.year, d.month) then Date(d.year, d.month, d.day + 1)
    else if d.month < 12 then Date(d.year, d.month + 1, 1)
    else YearLength(d.year); Date(d.year + 1, 1, 1)
  }

  /** The day before `d`. */
  function PrevDay(d: CivilDate): (r: CivilDate)
    ensures DayNumber(r) == DayNumber(d) - 1
  {
    if d.day > 1 then Date(d.year, d.month, d.day - 1)
    else if d.month > 1 then Date(d.year, d.month - 1, DaysInMonth(d.year, d.month - 1))
    else YearLength(d.year - 1); Date(d.year - 1, 12, 31)
  }

  /** The date `k` days after `d` (before it when `k` is negative). */
  function AddDays(d: CivilDate, k: int): (r: CivilDate)
    ensures DayNumber(r) == DayNumber(d) + k
    decreases if k < 0 then -k else k
  {
    if k == 0 then d
    else if k > 0 then AddDays(NextDay(d), k - 1)
    else AddDays(PrevDay(d), k + 1)
  }

  /** `d.setDate(n)`: day `n` of `d`'s month, overflowing into the months around it
      when `n` is below 1 or past the month's last day. */
  function SetDate(d: CivilDate, n: int): (r: CivilDate)
    ensures DayNumber(r) == DayNumber(d) + (n - d.day)
  {
    AddDays(d, n - d.day)
  }

  /** `setDate(n)` with a day the month has stays in the month. */
  lemma {:induction false} SetDateWithinMonth(d: CivilDate, n: int)
    requires 1 <= n <= DaysInMonth(d.year, d.month)
    ensures SetDate(d, n) == Date(d.year, d.month, n)
  {
    var target: CivilDate := Date(d.year, d.month, n);
    DayNumberInjective(SetDate(d, n), target);
  }

  /** `new Date(y, m0, day)` with a zero-based month index `m0` that may lie outside
      0..11 (it carries into the year) and a day that every month has. */
  function MakeDate(y: int, m0: int, day: int): (r: CivilDate)
    requires 1 <= day <= 28
    ensures r.day == day
    ensures 12 * r.year + (r.month - 1) == 12 * y + m0
  {
    var ym := 12 * y + m0;
    Date(ym / 12, ym % 12 + 1, day)
  }

  /** Lexicographic order on (year, month, day): how ISO `YYYY-MM-DD` strings compare. */
  predicate LexOnOrBefore(a: Date, b: Date) {
    a.year < b.year || (a.year == b.year && (a.month < b.month || (a.month == b.month && a.day <= b.day)))
  }

  lemma MonthFits(y: int, m: int)
    requires 1 <= m <= 12
    ensures DaysBeforeMonth(y, m) + DaysInMonth(y, m) <= DaysInYear(y)
    ensures forall m' :: m < m' <= 12 ==> DaysBeforeMonth(y, m) + DaysInMonth(y, m) <= DaysBeforeMonth(y, m')
  {
  }

  lemma {:induction false} StrictlyEarlier(a: CivilDate, b: CivilDate)
    requires LexOnOrBefore(a, b) && a != b
    ensures DayNumber(a) < DayNumber(b)
  {
    MonthFits(a.year, a.month);
    if a.year < b.year {
      YearLength(a.year);
      YearsAscend(a.year + 1, b.year);
    }
  }

  /** Comparing day numbers is comparing the dates field by field. */
  lemma {:induction false} DayOrderIsLexicographic(a: CivilDate, b: CivilDate)
    ensures OnOrBefore(a, b) <==> LexOnOrBefore(a, b)
  {
    if a != b {
      if LexOnOrBefore(a, b) {
        StrictlyEarlier(a, b);
      } else {
        StrictlyEarlier(b, a);
      }
    }
  }

  /** Distinct dates have distinct day numbers. */
  lemma {:induction false} DayNumberInjective(a: CivilDate, b: CivilDate)
    ensures DayNumber(a) == DayNumber(b) <==> a == b
  {
    DayOrderIsLexicographic(a, b);
    DayOrderIsLexicographic(b, a);
  }

  /** Moving `k` days moves the weekday by `k` (modulo 7). */
  lemma {:induction false} WeekdayShift(d: CivilDate, k: int)
    ensures Weekday(AddDays(d, k)) == (Weekday(d) + k) % 7
  {
    var n := DayNumber(d) + 1;
    assert DayNumber(AddDays(d, k)) + 1 == n + k;
    SameResidue(n + k, n % 7 + k, n / 7);
  }

  lemma SameResidue(a: int, b: int, q: int)
    requires a == b + 7 * q
    ensures a % 7 == b % 7
  {
  }

  /** Consecutive months: the first of the later month comes `DaysInMonth` days
      after the first of the earlier one. */
  lemma {:induction false} NextMonth(a: CivilDate, b: CivilDate)
    requires 12 * b.year + b.month == 12 * a.year + a.month + 1
    ensures DayNumber(b) - b.day == DayNumber(a) - a.day + DaysInMonth(a.year, a.month)
  {
    if a.month == 12 {
      assert b.year == a.year + 1 && b.month == 1;
      YearLength(a.year);
    } else {
      assert b.year == a.year && b.month == a.month + 1;
    }
  }
}
