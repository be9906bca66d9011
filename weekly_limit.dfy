/** Setting a weekly limit (`handleSet` of the weekly-limit form): the current
    Monday-to-Sunday week is computed from today's day of the week, and a limit
    record for that week is inserted. */
module WeeklyLimits {
  import opened Calendar
  import opened Ledger

  /** Days since the last Monday for a `getDay()` value: a Sunday is the seventh
      day of its week. */
  function DaysSinceMonday(w: int): (back: int)
    requires 0 <= w < 7
    ensures 0 <= back < 7 && (w - back) % 7 == 1
  {
    if w == 0 then 6 else w - 1
  }

  /** The Monday on or before `d`. */
  function WeekStart(d: CivilDate): (r: CivilDate)
    ensures Weekday(r) == 1
    ensures OnOrBefore(r, d) && DayNumber(d) - DayNumber(r) < 7
  {
    var back := DaysSinceMonday(Weekday(d));
    WeekdayShift(d, -back);
    AddDays(d, -back)
  }

  /** The Sunday six days after the week's Monday; the week holds `d`. */
  function WeekEnd(d: CivilDate): (r: CivilDate)
    ensures Weekday(r) == 0
    ensures DayNumber(r) == DayNumber(WeekStart(d)) + 6
    ensures OnOrBefore(d, r)
  {
    var start := WeekStart(d);
    WeekdayShift(start, 6);
    AddDays(start, 6)
  }

  /** Two days less than a week apart fall on the same weekday only when they are
      the same day. */
  lemma {:induction false} SameWeekdayWithinAWeek(a: CivilDate, b: CivilDate)
    requires Weekday(a) == Weekday(b)
    requires -7 < DayNumber(a) - DayNumber(b) < 7
    ensures a == b
  {
    var k := DayNumber(a) - DayNumber(b);
    WeekdayShift(b, k);
    DayNumberInjective(AddDays(b, k), a);
    ShiftWithinAWeek(Weekday(b), k);
    DayNumberInjective(a, b);
  }

  lemma ShiftWithinAWeek(w: int, k: int)
    requires 0 <= w < 7 && -7 < k < 7 && (w + k) % 7 == w
    ensures k == 0
  {
  }

  /** The week is the only Monday-to-Sunday span holding `d`: any Monday no later
      than `d` and less than a week before it is the week's start. */
  lemma {:induction false} WeekStartIsTheMonday(d: CivilDate, m: CivilDate)
    requires Weekday(m) == 1 && OnOrBefore(m, d) && DayNumber(d) - DayNumber(m) < 7
    ensures m == WeekStart(d)
  {
    SameWeekdayWithinAWeek(m, WeekStart(d));
  }

  /** The week of `handleSet`: today's day of the month moved back by its weekday
      (a Sunday counts as the seventh day) with `setDate` gives the Monday, and
      `setDate` six days further gives the Sunday that ends the week. */
  method WeekBounds(today: CivilDate) returns (start: CivilDate, end: CivilDate)
    ensures start == WeekStart(today) && end == WeekEnd(today)
  {
    var day := Weekday(today);
    var diff := today.day - day + (if day == 0 then -6 else 1);
    start := SetDate(today, diff);
    end := SetDate(start, start.day + 6);
    DayNumberInjective(start, WeekStart(today));
    DayNumberInjective(end, WeekEnd(today));
  }

  /** `handleSet`: an empty limit field is rejected with nothing written; otherwise
      the week's bounds are found and the record is inserted. `insertSucceeds` is
      the store's answer; the form reports success either way, since it never looks
      at the insert's error. The result is whether success was reported. */
  method SetWeeklyLimit(db: Database, allowanceId: int, limit: Option<int>, today: CivilDate, insertSucceeds: bool)
    returns (reported: bool)
    requires db.Valid()
    modifies db
    ensures db.Valid()
    ensures reported <==> limit.Some?
    ensures db.allowances == old(db.allowances) && db.weeklyPeriods == old(db.weeklyPeriods)
    ensures db.expenses == old(db.expenses) && db.nextId == old(db.nextId)
    ensures db.weeklyLimits == old(db.weeklyLimits) +
      (if limit.Some? && insertSucceeds then [WeeklyLimit(allowanceId, WeekStart(today), WeekEnd(today), limit.value)] else [])
  {
    if limit.None? {
      return false;
    }
    var s, e := WeekBounds(today);
    if insertSucceeds {
      db.weeklyLimits := db.weeklyLimits + [WeeklyLimit(allowanceId, s, e, limit.value)];
    }
    return true;
  }
}
