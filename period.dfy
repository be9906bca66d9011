/** Opening the allowance period of the current date (`POST /api/create_period`):
    periods run from the 25th of one month to the 24th of the next, and a period is
    only inserted when none with the same start exists yet. */
module PeriodCreation {
  import opened Calendar
  import opened Ledger

  /** The balance a period opened by the route starts with. */
  const DefaultTotal := 1550000

  /** The 25th of the current month from the 25th on, else the 25th of the month
      before (January falls back to December of the year before). */
  function PeriodStart(today: CivilDate): (r: CivilDate)
    ensures r.day == 25
    ensures 12 * r.year + r.month == 12 * today.year + today.month - (if today.day < 25 then 1 else 0)
  {
    if today.day < 25 then MakeDate(today.year, today.month - 2, 25)
    else MakeDate(today.year, today.month - 1, 25)
  }

  /** The 24th of the month after `start`'s. */
  function PeriodEnd(start: CivilDate): (r: CivilDate)
    ensures r.day == 24
    ensures 12 * r.year + r.month == 12 * start.year + start.month + 1
  {
    MakeDate(start.year, start.month, 24)
  }

  /** The period of `today` holds `today`, lasts exactly one month (its start's
      month's length in days), and starts on the latest 25th that is not after
      `today`. */
  lemma {:induction false} PeriodBracketsToday(today: CivilDate)
    ensures var start := PeriodStart(today);
      && OnOrBefore(start, today)
      && OnOrBefore(today, PeriodEnd(start))
      && DayNumber(PeriodEnd(start)) - DayNumber(start) == DaysInMonth(start.year, start.month) - 1
    ensures forall d: CivilDate :: d.day == 25 && OnOrBefore(d, today) ==> OnOrBefore(d, PeriodStart(today))
  {
    var start := PeriodStart(today);
    var end := PeriodEnd(start);
    DayOrderIsLexicographic(start, today);
    DayOrderIsLexicographic(today, end);
    NextMonth(start, end);
    forall d: CivilDate | d.day == 25 && OnOrBefore(d, today)
      ensures OnOrBefore(d, start)
    {
      DayOrderIsLexicographic(d, today);
      DayOrderIsLexicographic(d, start);
    }
  }

  /** An allowance with this `period_start` is on record. */
  predicate HasPeriodStarting(allowances: seq<Allowance>, start: CivilDate) {
    exists i | 0 <= i < |allowances| :: allowances[i].periodStart == start
  }

  /** The route's three answers: `{ ok: true, message: 'Period exists' }`,
      `{ ok: true, data }` and `{ ok: false, error }`. */
  datatype CreateResponse = PeriodExists | Created(period: Allowance) | InsertFailed

  /** `POST`: compute the period of `today`; answer that it exists when an allowance
      already starts on that date; otherwise insert it with the default balance.
      `insertSucceeds` is the store's answer to the insert. */
  method CreatePeriod(db: Database, today: CivilDate, insertSucceeds: bool) returns (response: CreateResponse)
    requires db.Valid()
    modifies db
    ensures db.Valid()
    ensures db.weeklyPeriods == old(db.weeklyPeriods) && db.expenses == old(db.expenses)
    ensures db.weeklyLimits == old(db.weeklyLimits)
    ensures response.PeriodExists? <==> HasPeriodStarting(old(db.allowances), PeriodStart(today))
    ensures response.InsertFailed? <==> !HasPeriodStarting(old(db.allowances), PeriodStart(today)) && !insertSucceeds
    ensures !response.Created? ==> db.allowances == old(db.allowances) && db.nextId == old(db.nextId)
    ensures response.Created? ==>
      var start := PeriodStart(today);
      && response.period == Allowance(old(db.nextId), start, PeriodEnd(start), DefaultTotal, Some(DefaultTotal))
      && db.allowances == old(db.allowances) + [response.period]
      && db.nextId == old(db.nextId) + 1
      && Discrepancy(response.period, db.expenses) == 0
    // a second request for the same date answers that the period exists
    ensures !response.InsertFailed? ==> HasPeriodStarting(db.allowances, PeriodStart(today))
  {
    var year := today.year;
    var month := today.month - 1;
    var start := MakeDate(year, month, 25);
    if today.day < 25 {
      start := MakeDate(year, month - 1, 25);
    }
    var end := MakeDate(start.year, (start.month - 1) + 1, 24);
    if HasPeriodStarting(db.allowances, start) {
      return PeriodExists;
    }
    if !insertSucceeds {
      return InsertFailed;
    }
    InsertAllowance(db, start, end, DefaultTotal);
    response := Created(db.allowances[|db.allowances| - 1]);
    assert db.allowances[|db.allowances| - 1].periodStart == start;
  }
}
