/** The balance card of the dashboard: topping up the latest allowance (or opening
    one when there is none), overwriting its balance, and the spent total and
    remaining balance the dashboard shows for it. */
module Balance {
  import opened Calendar
  import opened Ledger

  /** The balance field as the handlers see it: `!newSaldo` catches the empty
      field, `isNaN(Number(newSaldo))` text that is not a number. */
  datatype TextAmount = Blank | NotANumber | Number(value: int)

  datatype BalanceOutcome = Applied | InvalidAmount | NoAllowanceToEdit

  /** The allowance a top-up opens when there is none: it starts on the 25th of the
      month of `now`, whatever day of the month `now` is. */
  lemma {:induction false} TopUpPeriodHoldsTodayFromThe25th(now: CivilDate, start: CivilDate, end: CivilDate)
    requires start == Date(now.year, now.month, 25)
    requires end.day == 24 && 12 * end.year + end.month == 12 * now.year + now.month + 1
    ensures OnOrBefore(start, now) <==> now.day >= 25
    ensures OnOrBefore(now, end)
    ensures DayNumber(end) - DayNumber(start) == DaysInMonth(now.year, now.month) - 1
  {
    DayOrderIsLexicographic(start, now);
    NextMonth(start, end);
  }

  /** The update a top-up makes on an existing allowance: both balances grow by the
      amount, so `total - remaining` still accounts for exactly the same expenses. */
  method RaiseBalance(db: Database, amount: int)
    requires db.Valid() && db.allowances != []
    modifies db
    ensures db.Valid()
    ensures db.weeklyPeriods == old(db.weeklyPeriods) && db.expenses == old(db.expenses)
    ensures db.weeklyLimits == old(db.weeklyLimits) && db.nextId == old(db.nextId)
    ensures var a := old(db.allowances)[|old(db.allowances)| - 1];
      && db.allowances == SetLatestBalances(old(db.allowances), a.totalAmount + amount, Some(OrZero(a.remainingAmount) + amount))
      && Discrepancy(db.allowances[|db.allowances| - 1], db.expenses) == Discrepancy(a, db.expenses)
  {
    var n := |db.allowances| - 1;
    var allowance := db.allowances[n];
    var remaining := Some(OrZero(allowance.remainingAmount) + amount);
    SerialIdsAfterBooking(db.allowances, db.expenses, db.nextId, allowance.totalAmount + amount, remaining, []);
    assert db.expenses + [] == db.expenses;
    db.allowances := SetLatestBalances(db.allowances, allowance.totalAmount + amount, remaining);
  }

  /** `tambahSaldo`: reject an empty or non-numeric amount; otherwise add it to the
      latest allowance's total and remaining balance, or, when there is no
      allowance, open one running from the 25th of this month to the 24th of the
      next with both balances set to the amount. A missing remaining balance
      counts as 0 in the addition (`null + n` is `n`). */
  method TopUp(db: Database, input: TextAmount, now: CivilDate) returns (outcome: BalanceOutcome)
    requires db.Valid()
    modifies db
    ensures db.Valid()
    ensures outcome == (if input.Number? then Applied else InvalidAmount)
    ensures db.weeklyPeriods == old(db.weeklyPeriods) && db.expenses == old(db.expenses)
    ensures db.weeklyLimits == old(db.weeklyLimits)
    ensures !input.Number? ==> db.allowances == old(db.allowances) && db.nextId == old(db.nextId)
    // an existing allowance: both balances grow by the amount, nothing else moves
    ensures input.Number? && old(db.allowances) != [] ==>
      && db.nextId == old(db.nextId)
      && (var a := old(db.allowances)[|old(db.allowances)| - 1];
          && db.allowances == SetLatestBalances(old(db.allowances), a.totalAmount + input.value, Some(OrZero(a.remainingAmount) + input.value))
          && Discrepancy(db.allowances[|db.allowances| - 1], db.expenses) == Discrepancy(a, old(db.expenses)))
    // no allowance yet: exactly one is created, with the next serial id
    ensures input.Number? && old(db.allowances) == [] ==>
      && db.nextId == old(db.nextId) + 1
      && |db.allowances| == 1
      && (var a := db.allowances[0];
          && a.id == old(db.nextId)
          && a.periodStart == Date(now.year, now.month, 25)
          && a.periodEnd.day == 24
          && 12 * a.periodEnd.year + a.periodEnd.month == 12 * now.year + now.month + 1
          && a.totalAmount == input.value && a.remainingAmount == Some(input.value)
          && Discrepancy(a, db.expenses) == 0)
  {
    if !input.Number? {
      return InvalidAmount;
    }
    if db.allowances != [] {
      RaiseBalance(db, input.value);
    } else {
      // new Date(y, m, 25), then a copy moved one month on and set to the 24th
      var start := MakeDate(now.year, now.month - 1, 25);
      var end := start;
      end := MakeDate(end.year, (end.month - 1) + 1, end.day);
      SetDateWithinMonth(end, 24);
      end := SetDate(end, 24);
      InsertAllowance(db, start, end, input.value);
    }
    return Applied;
  }

  /** `editSaldo`: reject an empty or non-numeric amount, and reject when there is
      no allowance; otherwise overwrite both the total and the remaining balance
      of the latest allowance with the amount. The expenses already booked stay,
      so `total - remaining` no longer accounts for them. */
  method EditBalance(db: Database, input: TextAmount) returns (outcome: BalanceOutcome)
    requires db.Valid()
    modifies db
    ensures db.Valid()
    ensures outcome == (if !input.Number? then InvalidAmount
                        else if old(db.allowances) == [] then NoAllowanceToEdit
                        else Applied)
    ensures db.weeklyPeriods == old(db.weeklyPeriods) && db.expenses == old(db.expenses)
    ensures db.weeklyLimits == old(db.weeklyLimits) && db.nextId == old(db.nextId)
    ensures outcome != Applied ==> db.allowances == old(db.allowances)
    ensures outcome == Applied ==>
      var a := old(db.allowances)[|old(db.allowances)| - 1];
      && db.allowances == SetLatestBalances(old(db.allowances), input.value, Some(input.value))
      && Discrepancy(db.allowances[|db.allowances| - 1], db.expenses) == -AllowanceSpent(db.expenses, a.id)
  {
    if !input.Number? {
      return InvalidAmount;
    }
    if db.allowances == [] {
      return NoAllowanceToEdit;
    }
    var n := |db.allowances| - 1;
    var allowance := db.allowances[n];
    SerialIdsAfterBooking(db.allowances, db.expenses, db.nextId, input.value, Some(input.value), []);
    assert db.expenses + [] == db.expenses;
    db.allowances := SetLatestBalances(db.allowances, input.value, Some(input.value));
    return Applied;
  }

  /** What the dashboard shows for the latest allowance. */
  datatype Dashboard = Dashboard(allowance: Allowance, expenses: seq<Expense>, remaining: int, totalSpent: int)

  /** `fetchData` and the summary card: the latest allowance, its expenses, their
      sum, and the remaining balance, read from `remaining_amount` when it is set
      and otherwise derived as `total_amount` minus the sum. No allowance, no
      dashboard (`.single()` fails on an empty table). */
  function FetchDashboard(allowances: seq<Allowance>, expenses: seq<Expense>): (r: Option<Dashboard>)
    ensures r.None? <==> allowances == []
    ensures r.Some? ==> r.value.allowance == allowances[|allowances| - 1]
    ensures r.Some? ==> r.value.totalSpent == Total(r.value.expenses)
  {
    match Latest(allowances)
    case None => None
    case Some(a) =>
      var mine := Where(expenses, ForAllowance(a.id));
      var spent := Total(mine);
      Some(Dashboard(a, mine, match a.remainingAmount { case Some(v) => v case None => a.totalAmount - spent }, spent))
  }

  /** The listed expenses are exactly the latest allowance's, the spent total is
      their sum, and the remaining balance is `remaining_amount` when set and
      `total_amount` minus the spent total otherwise. */
  lemma {:induction false} DashboardShowsLatestAllowance(allowances: seq<Allowance>, expenses: seq<Expense>)
    requires allowances != []
    ensures var d := FetchDashboard(allowances, expenses).value;
      var a := allowances[|allowances| - 1];
      && (forall e :: e in d.expenses <==> e in expenses && e.allowanceId == a.id)
      && d.totalSpent == AllowanceSpent(expenses, a.id)
      && d.remaining == (if a.remainingAmount.Some? then a.remainingAmount.value else a.totalAmount - d.totalSpent)
  {
    var a := allowances[|allowances| - 1];
    WhereMembers(expenses, ForAllowance(a.id));
  }

  /** While the stored balances account for every booked expense (as opening,
      top-ups and admissions keep them), the remaining balance on the dashboard is
      the total minus the spent total shown beside it, whichever way it is read. */
  lemma {:induction false} DashboardBalances(allowances: seq<Allowance>, expenses: seq<Expense>)
    requires allowances != []
    requires Discrepancy(allowances[|allowances| - 1], expenses) == 0
    ensures var d := FetchDashboard(allowances, expenses).value;
      d.remaining == d.allowance.totalAmount - d.totalSpent
  {
    DashboardShowsLatestAllowance(allowances, expenses);
  }
}
