/** Adding an expense (`handleAdd` of the add-expense form): the amount is checked,
    the active weekly period found, the weekly cap and the allowance's remaining
    balance checked, and only then is the expense stored and the remaining balance
    lowered. The two writes are one atomic step here. */
module ExpenseAdmission {
  import opened Calendar
  import opened Ledger

  /** The weekly period in force today: `.lte('start_date', today).gte('end_date',
      today).order('start_date', { ascending: false }).limit(1)`. */
  function ActiveWeeklyPeriod(ps: seq<WeeklyPeriod>, today: CivilDate): Option<WeeklyPeriod> {
    var newest := NewestFirst(Where(ps, Covering(today)));
    if newest == [] then None else Some(newest[0])
  }

  /** The active weekly period is one covering today with the latest start date
      among those covering today; there is none exactly when no period covers today. */
  lemma ActiveWeeklyPeriodIsLatestCovering(ps: seq<WeeklyPeriod>, today: CivilDate)
    ensures var r := ActiveWeeklyPeriod(ps, today);
      && (r.None? <==> forall p :: p in ps ==> !Covers(p, today))
      && (r.Some? ==> r.value in ps && Covers(r.value, today))
      && (r.Some? ==> forall p :: p in ps && Covers(p, today) ==>
            DayNumber(p.startDate) <= DayNumber(r.value.startDate))
  {
    var covering := Where(ps, Covering(today));
    WhereMembers(ps, Covering(today));
    assert forall p :: p in covering <==> p in ps && Covers(p, today);
    var newest := NewestFirst(covering);
    NewestFirstSameRows(covering);
    assert forall p :: p in ps && Covers(p, today) ==> p in newest;
    if newest != [] {
      NewestFirstHead(newest);
      assert newest[0] in covering;
    }
  }

  datatype Rejection =
    | BlankAmount
    | NonPositiveAmount
    | NoActiveWeeklyPeriod
    | WeeklyLimitExceeded(limit: int)
    | NoAllowance
    | InsufficientBalance(remaining: int)

  datatype Outcome = Added(expense: Expense) | Rejected(reason: Rejection)

  /** The decision `handleAdd` reaches, check by check in the order the code makes
      them, before anything is written. `amount` is the parsed amount field, `None`
      when it was left empty. */
  function Verdict(amount: Option<int>, description: string, today: CivilDate,
                   weeklyPeriods: seq<WeeklyPeriod>, expenses: seq<Expense>,
                   allowances: seq<Allowance>): Outcome
  {
    match amount
    case None => Rejected(BlankAmount)
    case Some(amt) =>
      if amt <= 0 then Rejected(NonPositiveAmount)
      else match ActiveWeeklyPeriod(weeklyPeriods, today)
        case None => Rejected(NoActiveWeeklyPeriod)
        case Some(wp) =>
          if LimitOf(wp) > 0 && WeeklySpent(expenses, wp.id) + amt > LimitOf(wp)
          then Rejected(WeeklyLimitExceeded(LimitOf(wp)))
          else match Latest(allowances)
            case None => Rejected(NoAllowance)
            case Some(a) =>
              if amt > OrZero(a.remainingAmount) then Rejected(InsufficientBalance(OrZero(a.remainingAmount)))
              else Added(Expense(Some(wp.id), a.id, today, description, amt))
  }

  /** An expense is admitted exactly when the amount is filled in and positive, a
      weekly period covers today, the amount fits under that period's cap (a cap of
      0 or none disables the check), an allowance exists, and the amount does not
      exceed its remaining balance (none read as 0). The admitted expense carries the
      weekly period, the allowance, today's date, the description and the amount. */
  lemma VerdictAdmitsExactly(amount: Option<int>, description: string, today: CivilDate,
                             weeklyPeriods: seq<WeeklyPeriod>, expenses: seq<Expense>,
                             allowances: seq<Allowance>)
    ensures var v := Verdict(amount, description, today, weeklyPeriods, expenses, allowances);
      var active := ActiveWeeklyPeriod(weeklyPeriods, today);
      v.Added? <==>
        && amount.Some? && amount.value > 0
        && active.Some?
        && (LimitOf(active.value) <= 0 || WeeklySpent(expenses, active.value.id) + amount.value <= LimitOf(active.value))
        && allowances != []
        && amount.value <= OrZero(allowances[|allowances| - 1].remainingAmount)
    ensures var v := Verdict(amount, description, today, weeklyPeriods, expenses, allowances);
      v.Added? ==> v.expense == Expense(Some(ActiveWeeklyPeriod(weeklyPeriods, today).value.id),
                                        allowances[|allowances| - 1].id, today, description, amount.value)
  {
  }

  /** Booking an expense that passed the weekly-cap and balance checks keeps the
      weekly period within its positive cap, leaves the allowance's remaining balance
      non-negative, and keeps `total - remaining` exactly as far from the
      allowance's recorded spending as it was. */
  lemma {:induction false} BookingKeepsInvariants(expenses: seq<Expense>, e: Expense, wp: WeeklyPeriod, a: Allowance)
    requires e.weeklyPeriodId == Some(wp.id) && e.allowanceId == a.id
    requires LimitOf(wp) > 0 ==> WeeklySpent(expenses, wp.id) + e.amount <= LimitOf(wp)
    requires e.amount <= OrZero(a.remainingAmount)
    ensures LimitOf(wp) > 0 ==> WeeklySpent(expenses + [e], wp.id) <= LimitOf(wp)
    ensures var booked := a.(remainingAmount := Some(OrZero(a.remainingAmount) - e.amount));
      && OrZero(booked.remainingAmount) >= 0
      && Discrepancy(booked, expenses + [e]) == Discrepancy(a, expenses)
  {
    FilteredTotalAppend(expenses, e, InWeeklyPeriod(wp.id));
    FilteredTotalAppend(expenses, e, ForAllowance(a.id));
  }

  /** The store after booking `e` against the latest allowance, during weekly
      period `wp`: `e` is appended, the latest allowance's remaining balance is
      lowered by its amount and its total kept, and the two invariants an admission
      keeps hold: the weekly spending stays within a positive cap, the remaining
      balance stays non-negative, and `total - remaining` stays exactly as far from
      the allowance's recorded spending as it was. */
  ghost predicate Booked(allowancesBefore: seq<Allowance>, expensesBefore: seq<Expense>,
                         allowances: seq<Allowance>, expenses: seq<Expense>, e: Expense, wp: WeeklyPeriod)
  {
    && allowancesBefore != []
    && (var a := allowancesBefore[|allowancesBefore| - 1];
        && expenses == expensesBefore + [e]
        && allowances == SetLatestBalances(allowancesBefore, a.totalAmount, Some(OrZero(a.remainingAmount) - e.amount))
        && OrZero(allowances[|allowances| - 1].remainingAmount) >= 0
        && (LimitOf(wp) > 0 ==> WeeklySpent(expenses, wp.id) <= LimitOf(wp))
        && Discrepancy(allowances[|allowances| - 1], expenses) == Discrepancy(a, expensesBefore))
  }

  /** The two writes of an admission: insert the expense and lower the latest
      allowance's `remaining_amount` by its amount. */
  method Book(db: Database, expense: Expense, ghost wp: WeeklyPeriod)
    requires db.Valid() && db.allowances != []
    requires expense.allowanceId == db.allowances[|db.allowances| - 1].id
    requires expense.weeklyPeriodId == Some(wp.id)
    requires LimitOf(wp) > 0 ==> WeeklySpent(db.expenses, wp.id) + expense.amount <= LimitOf(wp)
    requires expense.amount <= OrZero(db.allowances[|db.allowances| - 1].remainingAmount)
    modifies db
    ensures db.Valid()
    ensures Booked(old(db.allowances), old(db.expenses), db.allowances, db.expenses, expense, wp)
    ensures db.weeklyPeriods == old(db.weeklyPeriods) && db.weeklyLimits == old(db.weeklyLimits)
    ensures db.nextId == old(db.nextId)
  {
    var n := |db.allowances| - 1;
    var allowance := db.allowances[n];
    BookingKeepsInvariants(db.expenses, expense, wp, allowance);
    var remainingAmount := OrZero(allowance.remainingAmount);
    SerialIdsAfterBooking(db.allowances, db.expenses, db.nextId,
                          allowance.totalAmount, Some(remainingAmount - expense.amount), [expense]);
    db.expenses := db.expenses + [expense];
    db.allowances := SetLatestBalances(db.allowances, allowance.totalAmount, Some(remainingAmount - expense.amount));
  }

  /** `handleAdd`: decide, then, only when admitted, insert the expense and lower the
      latest allowance's `remaining_amount` by its amount. */
  method AddExpense(db: Database, amount: Option<int>, description: string, today: CivilDate)
    returns (outcome: Outcome)
    requires db.Valid()
    modifies db
    ensures db.Valid()
    ensures outcome == Verdict(amount, description, today, old(db.weeklyPeriods), old(db.expenses), old(db.allowances))
    ensures db.weeklyPeriods == old(db.weeklyPeriods) && db.weeklyLimits == old(db.weeklyLimits)
    ensures db.nextId == old(db.nextId)
    // a rejection writes nothing
    ensures outcome.Rejected? ==> db.allowances == old(db.allowances) && db.expenses == old(db.expenses)
    // an admission books exactly the admitted expense against the latest allowance
    ensures outcome.Added? ==>
      Booked(old(db.allowances), old(db.expenses), db.allowances, db.expenses, outcome.expense,
             ActiveWeeklyPeriod(old(db.weeklyPeriods), today).value)
  {
    var weeklyPeriods, expenses, allowances := db.weeklyPeriods, db.expenses, db.allowances;
    outcome := Verdict(amount, description, today, weeklyPeriods, expenses, allowances);
    if outcome.Added? {
      var wp := ActiveWeeklyPeriod(weeklyPeriods, today).value;
      Book(db, outcome.expense, wp);
    }
  }
}
