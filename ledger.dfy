/** The rows of the budgeting database (allowances, weekly periods, expenses,
    weekly limits), the filters and sums the pages compute over them, and the
    store itself as an object whose tables the operations rewrite in place.
    Amounts are whole rupiah. */
module Ledger {
  import opened Calendar

  datatype Option<+T> = None | Some(value: T)

  /** A nullable number read the way the code reads it: `Number(x || 0)`, and
      JavaScript's coercion of `null` to 0 in arithmetic. */
  function OrZero(x: Option<int>): int {
    match x
    case Some(v) => v
    case None => 0
  }

  /** An allowance period (table `allowances`); `remaining_amount` is nullable. */
  datatype Allowance = Allowance(
    id: int,
    periodStart: CivilDate,
    periodEnd: CivilDate,
    totalAmount: int,
    remainingAmount: Option<int>)

  /** A weekly period (table `weekly_periods`); `weekly_limit` is nullable. */
  datatype WeeklyPeriod = WeeklyPeriod(
    id: int,
    allowanceId: Option<int>,
    periodName: string,
    startDate: CivilDate,
    endDate: CivilDate,
    weeklyLimit: Option<int>)

  /** An expense (table `expenses`). */
  datatype Expense = Expense(
    weeklyPeriodId: Option<int>,
    allowanceId: int,
    date: CivilDate,
    description: string,
    amount: int)

  /** A weekly limit (table `weekly_limits`), written by the weekly-limit form. */
  datatype WeeklyLimit = WeeklyLimit(
    allowanceId: int,
    weekStart: CivilDate,
    weekEnd: CivilDate,
    limitAmount: int)

  /** `Number(weekly_limit || 0)`: a missing limit reads as 0. */
  function LimitOf(wp: WeeklyPeriod): int {
    OrZero(wp.weeklyLimit)
  }

  /** The rows a query's filter keeps, in store order. */
  function Where<T>(xs: seq<T>, keep: T -> bool): seq<T> {
    if xs == [] then []
    else (if keep(xs[0]) then [xs[0]] else []) + Where(xs[1..], keep)
  }

  /** A filtered list holds exactly the rows of the list that pass the filter. */
  lemma {:induction false} WhereMembers<T(!new)>(xs: seq<T>, keep: T -> bool)
    ensures forall x :: x in Where(xs, keep) <==> x in xs && keep(x)
  {
    if xs != [] {
      WhereMembers(xs[1..], keep);
      assert xs == [xs[0]] + xs[1..];
    }
  }

  lemma {:induction false} WhereConcat<T(!new)>(xs: seq<T>, ys: seq<T>, keep: T -> bool)
    ensures Where(xs + ys, keep) == Where(xs, keep) + Where(ys, keep)
  {
    if xs == [] {
      assert xs + ys == ys;
    } else {
      var head := if keep(xs[0]) then [xs[0]] else [];
      assert (xs + ys)[0] == xs[0] && (xs + ys)[1..] == xs[1..] + ys;
      WhereConcat(xs[1..], ys, keep);
      calc {
        Where(xs + ys, keep);
        head + Where(xs[1..] + ys, keep);
        head + (Where(xs[1..], keep) + Where(ys, keep));
        (head + Where(xs[1..], keep)) + Where(ys, keep);
        Where(xs, keep) + Where(ys, keep);
      }
    }
  }

  /** Filtering a filtered list by a stricter condition is filtering by that condition. */
  lemma {:induction false} WhereNarrower<T(!new)>(xs: seq<T>, wide: T -> bool, narrow: T -> bool)
    requires forall x :: narrow(x) ==> wide(x)
    ensures Where(Where(xs, wide), narrow) == Where(xs, narrow)
  {
    if xs != [] {
      WhereNarrower(xs[1..], wide, narrow);
      var head := if wide(xs[0]) then [xs[0]] else [];
      WhereConcat(head, Where(xs[1..], wide), narrow);
    }
  }

  /** A filter no row passes keeps nothing. */
  lemma {:induction false} WhereNone<T(!new)>(xs: seq<T>, keep: T -> bool)
    requires forall x :: x in xs ==> !keep(x)
    ensures Where(xs, keep) == []
  {
    if xs != [] {
      WhereNone(xs[1..], keep);
    }
  }

  /** A filter every row passes keeps the list as it is. */
  lemma {:induction false} WhereKeepsAll<T(!new)>(xs: seq<T>, keep: T -> bool)
    requires forall x :: x in xs ==> keep(x)
    ensures Where(xs, keep) == xs
  {
    if xs != [] {
      WhereKeepsAll(xs[1..], keep);
    }
  }

  /** `reduce((s, e) => s + Number(e.amount), 0)`. */
  function Total(xs: seq<Expense>): int {
    if xs == [] then 0 else xs[0].amount + Total(xs[1..])
  }

  lemma {:induction false} TotalConcat(xs: seq<Expense>, ys: seq<Expense>)
    ensures Total(xs + ys) == Total(xs) + Total(ys)
  {
    if xs == [] {
      assert xs + ys == ys;
    } else {
      assert (xs + ys)[0] == xs[0] && (xs + ys)[1..] == xs[1..] + ys;
      TotalConcat(xs[1..], ys);
    }
  }

  /** Appending one row adds its amount to every filtered total that keeps it, and
      nothing to the others. */
  lemma {:induction false} FilteredTotalAppend(xs: seq<Expense>, e: Expense, keep: Expense -> bool)
    ensures Total(Where(xs + [e], keep)) == Total(Where(xs, keep)) + (if keep(e) then e.amount else 0)
  {
    WhereConcat(xs, [e], keep);
    TotalConcat(Where(xs, keep), Where([e], keep));
    assert Where([e], keep) == (if keep(e) then [e] else []) + Where([], keep);
  }

  function InWeeklyPeriod(id: int): Expense -> bool {
    (e: Expense) => e.weeklyPeriodId == Some(id)
  }

  function ForAllowance(id: int): Expense -> bool {
    (e: Expense) => e.allowanceId == id
  }

  /** `.gte('date', lo).lte('date', hi)`, on day numbers. */
  function DatedWithin(lo: int, hi: int): Expense -> bool {
    (e: Expense) => lo <= DayNumber(e.date) <= hi
  }

  /** `e.date === dateStr`. */
  function DatedOn(d: CivilDate): Expense -> bool {
    (e: Expense) => e.date == d
  }

  /** A weekly period covers a day: `start_date <= today <= end_date`. */
  predicate Covers(wp: WeeklyPeriod, today: CivilDate) {
    OnOrBefore(wp.startDate, today) && OnOrBefore(today, wp.endDate)
  }

  function Covering(today: CivilDate): WeeklyPeriod -> bool {
    (wp: WeeklyPeriod) => Covers(wp, today)
  }

  /** Spending booked against a weekly period, `.eq('weekly_period_id', id)`. */
  function WeeklySpent(xs: seq<Expense>, id: int): int {
    Total(Where(xs, InWeeklyPeriod(id)))
  }

  /** Spending booked against an allowance, `.eq('allowance_id', id)`. */
  function AllowanceSpent(xs: seq<Expense>, id: int): int {
    Total(Where(xs, ForAllowance(id)))
  }

  /** Spending dated from `lo` to `hi`, both inclusive. */
  function SpentBetween(xs: seq<Expense>, lo: CivilDate, hi: CivilDate): int {
    Total(Where(xs, DatedWithin(DayNumber(lo), DayNumber(hi))))
  }

  /** `.order('start_date', { ascending: false })`. */
  ghost predicate IsNewestFirst(ps: seq<WeeklyPeriod>) {
    forall i, j :: 0 <= i < j < |ps| ==> DayNumber(ps[j].startDate) <= DayNumber(ps[i].startDate)
  }

  function InsertNewestFirst(p: WeeklyPeriod, ps: seq<WeeklyPeriod>): (r: seq<WeeklyPeriod>)
    requires IsNewestFirst(ps)
    ensures IsNewestFirst(r)
    ensures multiset(r) == multiset(ps) + multiset{p}
    ensures |r| == |ps| + 1 && (r[0] == p || (ps != [] && r[0] == ps[0]))
  {
    if ps == [] || DayNumber(ps[0].startDate) <= DayNumber(p.startDate) then
      PrependNewest(p, ps);
      [p] + ps
    else
      TailNewestFirst(ps);
      var rest := InsertNewestFirst(p, ps[1..]);
      InsertBehindHead(p, ps, rest);
      [ps[0]] + rest
  }

  /** A period older than the head goes behind it: the head, then the rest with the
      period inserted, is still newest first and holds the same rows plus it. */
  lemma InsertBehindHead(p: WeeklyPeriod, ps: seq<WeeklyPeriod>, rest: seq<WeeklyPeriod>)
    requires IsNewestFirst(ps) && ps != [] && DayNumber(p.startDate) < DayNumber(ps[0].startDate)
    requires IsNewestFirst(rest) && multiset(rest) == multiset(ps[1..]) + multiset{p}
    requires |rest| == |ps| && (rest[0] == p || (|ps| > 1 && rest[0] == ps[1]))
    ensures IsNewestFirst([ps[0]] + rest)
    ensures multiset([ps[0]] + rest) == multiset(ps) + multiset{p}
  {
    PrependNewest(ps[0], rest);
    assert multiset([ps[0]] + rest) == multiset{ps[0]} + multiset(rest);
    assert multiset(ps) == multiset{ps[0]} + multiset(ps[1..]) by {
      assert ps == [ps[0]] + ps[1..];
    }
  }

  lemma TailNewestFirst(ps: seq<WeeklyPeriod>)
    requires IsNewestFirst(ps) && ps != []
    ensures IsNewestFirst(ps[1..])
    ensures forall x :: x in ps[1..] ==> DayNumber(x.startDate) <= DayNumber(ps[0].startDate)
  {
  }

  lemma PrependNewest(h: WeeklyPeriod, ps: seq<WeeklyPeriod>)
    requires IsNewestFirst(ps)
    requires ps != [] ==> DayNumber(ps[0].startDate) <= DayNumber(h.startDate)
    ensures IsNewestFirst([h] + ps)
  {
  }

  /** The weekly periods newest first: ordered by start date, descending, with
      nothing added or lost. */
  function NewestFirst(ps: seq<WeeklyPeriod>): (r: seq<WeeklyPeriod>)
    ensures IsNewestFirst(r)
    ensures multiset(r) == multiset(ps)
  {
    if ps == [] then []
    else
      assert ps == [ps[0]] + ps[1..];
      InsertNewestFirst(ps[0], NewestFirst(ps[1..]))
  }

  lemma NewestFirstSameRows(ps: seq<WeeklyPeriod>)
    ensures forall p :: p in NewestFirst(ps) <==> p in ps
  {
    var r := NewestFirst(ps);
    forall p ensures p in r <==> p in ps {
      assert p in r <==> p in multiset(r);
    }
  }

  lemma NewestFirstHead(ps: seq<WeeklyPeriod>)
    requires IsNewestFirst(ps) && ps != []
    ensures forall x :: x in ps ==> DayNumber(x.startDate) <= DayNumber(ps[0].startDate)
  {
    forall x | x in ps ensures DayNumber(x.startDate) <= DayNumber(ps[0].startDate) {
      var k :| 0 <= k < |ps| && ps[k] == x;
    }
  }

  /** How far `total_amount - remaining_amount` (a missing remaining read as 0) is
      from what the allowance's expenses add up to. */
  function Discrepancy(a: Allowance, xs: seq<Expense>): int {
    a.totalAmount - OrZero(a.remainingAmount) - AllowanceSpent(xs, a.id)
  }

  /** The allowance with the latest `created_at`: rows are kept in creation order. */
  function Latest(allowances: seq<Allowance>): (r: Option<Allowance>)
    ensures r.None? <==> allowances == []
    ensures r.Some? ==> r.value in allowances
  {
    if allowances == [] then None else Some(allowances[|allowances| - 1])
  }

  /** Allowance ids are serial: ascending in creation order and below `nextId`; no
      expense refers to an allowance id that has not been handed out yet. */
  ghost predicate SerialIds(allowances: seq<Allowance>, expenses: seq<Expense>, nextId: int) {
    && (forall i, j :: 0 <= i < j < |allowances| ==> allowances[i].id < allowances[j].id)
    && (forall i :: 0 <= i < |allowances| ==> allowances[i].id < nextId)
    && (forall i :: 0 <= i < |expenses| ==> expenses[i].allowanceId < nextId)
  }

  /** While ids are serial, the latest allowance carries the highest id of all. */
  lemma LatestHasHighestId(allowances: seq<Allowance>, expenses: seq<Expense>, nextId: int)
    requires SerialIds(allowances, expenses, nextId)
    ensures Latest(allowances).Some? ==>
      forall a :: a in allowances ==> a.id <= Latest(allowances).value.id
  {
  }

  /** The allowances with the latest one's total and remaining balance rewritten:
      `.update({ ... }).eq('id', latest.id)`. */
  function SetLatestBalances(allowances: seq<Allowance>, total: int, remaining: Option<int>): seq<Allowance>
    requires allowances != []
  {
    allowances[|allowances| - 1 := allowances[|allowances| - 1].(totalAmount := total, remainingAmount := remaining)]
  }

  /** Rewriting the latest allowance's balances and booking an expense against it
      keeps the ids serial. */
  lemma SerialIdsAfterBooking(allowances: seq<Allowance>, expenses: seq<Expense>, nextId: int,
                              total: int, remaining: Option<int>, booked: seq<Expense>)
    requires SerialIds(allowances, expenses, nextId) && allowances != []
    requires forall e :: e in booked ==> e.allowanceId == allowances[|allowances| - 1].id
    ensures SerialIds(SetLatestBalances(allowances, total, remaining), expenses + booked, nextId)
  {
    var updated := SetLatestBalances(allowances, total, remaining);
    assert forall i :: 0 <= i < |updated| ==> updated[i].id == allowances[i].id;
    assert forall i :: |expenses| <= i < |expenses + booked| ==> (expenses + booked)[i] in booked;
  }

  /** Appending a new allowance with the next serial id keeps the ids serial. */
  lemma SerialIdsAfterCreation(allowances: seq<Allowance>, expenses: seq<Expense>, nextId: int, created: Allowance)
    requires SerialIds(allowances, expenses, nextId) && created.id == nextId
    ensures SerialIds(allowances + [created], expenses, nextId + 1)
    ensures AllowanceSpent(expenses, nextId) == 0
  {
    WhereNone(expenses, ForAllowance(nextId));
  }

  /** The store. Allowances are kept in creation order, so the last one is the one
      `.order('created_at', { ascending: false }).limit(1)` returns; `nextId` is the
      serial the database hands to the next allowance. */
  class Database {
    var allowances: seq<Allowance>
    var weeklyPeriods: seq<WeeklyPeriod>
    var expenses: seq<Expense>
    var weeklyLimits: seq<WeeklyLimit>
    var nextId: int

    ghost predicate Valid()
      reads this
    {
      SerialIds(allowances, expenses, nextId)
    }

    constructor ()
      ensures Valid()
      ensures allowances == [] && weeklyPeriods == [] && expenses == [] && weeklyLimits == []
    {
      allowances, weeklyPeriods, expenses, weeklyLimits := [], [], [], [];
      nextId := 1;
    }
  }

  /** Inserting an allowance row: it gets the next serial id and both balances set
      to the amount, and no expense refers to it yet. */
  method InsertAllowance(db: Database, start: CivilDate, end: CivilDate, amount: int)
    requires db.Valid()
    modifies db
    ensures db.Valid()
    ensures db.weeklyPeriods == old(db.weeklyPeriods) && db.expenses == old(db.expenses)
    ensures db.weeklyLimits == old(db.weeklyLimits) && db.nextId == old(db.nextId) + 1
    ensures db.allowances == old(db.allowances) + [Allowance(old(db.nextId), start, end, amount, Some(amount))]
    ensures Discrepancy(db.allowances[|db.allowances| - 1], db.expenses) == 0
  {
    var created := Allowance(db.nextId, start, end, amount, Some(amount));
    SerialIdsAfterCreation(db.allowances, db.expenses, db.nextId, created);
    db.allowances := db.allowances + [created];
    db.nextId := db.nextId + 1;
  }
}
