# Money manager: the budgeting rules, modelled and proved in Dafny

The money manager keeps a monthly allowance (an *allowance period* running from the
25th of one month to the 24th of the next, with a total and a remaining balance),
weekly periods with an optional spending cap, and the expenses booked against
them. Around the React screens and the Supabase calls sit a handful of
accounting and calendar rules. This project models those rules and proves what
they guarantee:

- **Adding an expense** (`components/AddExpenseForm.tsx`, `handleAdd`): the amount
  is validated, the active weekly period is found, the weekly cap and the
  allowance's remaining balance are checked, and only then is the expense stored
  and the remaining balance lowered (module `ExpenseAdmission`).
- **Balance changes** on the dashboard (`app/page.tsx`): top-up (`tambahSaldo`),
  which opens an allowance when there is none; overwrite (`editSaldo`); and the
  spent total and remaining balance the dashboard shows (`fetchData` and the
  summary card) (module `Balance`).
- **Opening the current allowance period** (`app/api/create_period/route.ts`):
  the 25th-to-24th rule and the duplicate check (module `PeriodCreation`).
- **The Monday-to-Sunday week** of the weekly-limit form
  (`components/WeeklyLimitForm.tsx`, `handleSet`) (module `WeeklyLimits`).
- **The history page** (`app/history/page.tsx`): spent, remaining and active flag
  per weekly period, newest first, and one period's spending bucketed day by day
  (module `History`).

The supporting modules are `Calendar` (proleptic Gregorian dates with an absolute
day number, `getDay()`-style weekdays, and the month and day overflow of
`new Date(y, m, d)` and `setDate(n)`) and `Ledger` (the four tables as datatypes,
the filters and sums the screens compute, and the store as the class `Database`
whose tables the operations rewrite in place).

Amounts are whole rupiah (`int`). "Today" and the current instant are parameters.
Allowances are kept in creation order, so the latest-created one is the last;
allowance ids are serial (`Database.nextId`). Each handler's run is one atomic
step on the store.

Where the description of the system and the code differ, the model follows the
code:

- When no weekly period covers today, adding an expense is **rejected** (the code
  throws at `components/AddExpenseForm.tsx:30-31`); it is not treated as a day
  without a cap.
- Top-up and balance edit accept any number, including 0 and negative amounts:
  the code only rejects an empty field and text that is not a number
  (`app/page.tsx:79-82`, `app/page.tsx:127-130`).
- A top-up that opens an allowance starts it on the 25th of the current month
  whatever the day (`app/page.tsx:99`), unlike the period route, which falls back
  to the previous month's 25th before the 25th. Before the 25th such an
  allowance does not yet hold today (`Balance.TopUpPeriodHoldsTodayFromThe25th`).
- The history page counts every expense dated within a weekly period's dates
  (`app/history/page.tsx:29-35`), whichever weekly period it was booked against,
  while the weekly cap at admission counts the expenses booked against the
  period (`components/AddExpenseForm.tsx:37-42`).

## Model

| member | source | states |
|---|---|---|
| `Calendar.Weekday` | components/WeeklyLimitForm.tsx:13 | `getDay()` is a day of the week 0..6; which day is 0 is fixed by the two lemmas below |
| `Calendar.KnownSunday` | components/WeeklyLimitForm.tsx:13 | `getDay()` is 0 on Sunday 1970-01-04 and 1 on Monday 1970-01-05 |
| `Calendar.CountFromSunday` | components/WeeklyLimitForm.tsx:13 | every date's weekday is the number of days since Sunday 1970-01-04, modulo 7, so 0 is always a Sunday |
| `Calendar.WeekdayShift` | components/WeeklyLimitForm.tsx:13-16 | moving `k` days moves the weekday by `k` modulo 7 |
| `Calendar.NextDay` | app/history/page.tsx:71 | `d.setDate(d.getDate() + 1)` is the day whose day number is one more, across month and year ends |
| `Calendar.SetDate` | components/WeeklyLimitForm.tsx:15-16 | `setDate(n)` moves `n - day` days, overflowing into neighbouring months |
| `Calendar.SetDateWithinMonth` | app/page.tsx:102 | `setDate(n)` with a day the month has stays in the month |
| `Calendar.MakeDate` | app/api/create_period/route.ts:11-16 | `new Date(y, m, d)` keeps the day and carries an out-of-range month into the year |
| `Calendar.DayOrderIsLexicographic` | components/AddExpenseForm.tsx:24-25 | comparing `YYYY-MM-DD` date columns field by field is comparing day numbers |
| `Ledger.Total` | app/history/page.tsx:35 | the `reduce` of the amounts; with `TotalConcat`, the sum over two lists joined is the sum of their sums |
| `Ledger.TotalConcat` | app/history/page.tsx:35 | the sum over two lists joined is the sum of their sums |
| `Ledger.FilteredTotalAppend` | components/AddExpenseForm.tsx:37-42 | appending one expense adds its amount to every filtered sum that keeps it and nothing to the others |
| `Ledger.WeeklySpent` | components/AddExpenseForm.tsx:37-42 | the sum of the expenses booked against the weekly period; by `FilteredTotalAppend`, booking one against the period raises it by exactly that amount, which `BookingKeepsInvariants` uses for the cap |
| `Ledger.SpentBetween` | app/history/page.tsx:29-35 | the sum of the expenses dated from the start through the end date; `SplitNextDay` splits it day by day and `DailyBreakdown` shows it equals the sum of the daily totals |
| `Ledger.Latest` | app/page.tsx:48-53 | the latest allowance exists exactly when some allowance does, and is one of them |
| `Ledger.LatestHasHighestId` | components/AddExpenseForm.tsx:52-57 | while ids are serial, the latest allowance has the highest id of all, the row `order('created_at', desc).limit(1)` returns |
| `Ledger.NewestFirst` | app/history/page.tsx:17-20 | ordering by `start_date` descending yields the same rows, newest first |
| `Ledger.InsertAllowance` | app/page.tsx:104-109 | an inserted allowance gets the next serial id, both balances equal the amount, and no expense is booked against it |
| `ExpenseAdmission.ActiveWeeklyPeriod` | components/AddExpenseForm.tsx:21-33 | the weekly period the query returns for today; what it is, the latest-starting period covering today or none, is stated by `ActiveWeeklyPeriodIsLatestCovering` |
| `ExpenseAdmission.ActiveWeeklyPeriodIsLatestCovering` | components/AddExpenseForm.tsx:21-31 | the active weekly period covers today and has the latest start among those that do; there is none exactly when no period covers today |
| `ExpenseAdmission.Verdict` | components/AddExpenseForm.tsx:12-68 | the decision `handleAdd` reaches before writing, one rejection per check in the code's order; `VerdictAdmitsExactly` states when it admits and what |
| `ExpenseAdmission.VerdictAdmitsExactly` | components/AddExpenseForm.tsx:12-68 | an expense is admitted exactly when the amount is filled in and positive, a weekly period covers today, the cap (0 or missing disables it) holds, an allowance exists and the amount fits its remaining balance (missing read as 0); the admitted row carries period, allowance, date, description and amount |
| `ExpenseAdmission.BookingKeepsInvariants` | components/AddExpenseForm.tsx:45-84 | booking a checked expense keeps the weekly spending within a positive cap, leaves a non-negative remaining balance, and keeps `total - remaining - booked spending` unchanged |
| `ExpenseAdmission.Book` | components/AddExpenseForm.tsx:71-85 | the two writes append exactly the expense and lower the latest allowance's remaining balance by its amount, nothing else changes, and the invariants above hold afterwards |
| `ExpenseAdmission.AddExpense` | components/AddExpenseForm.tsx:11-97 | the outcome is the admission decision on the old state; a rejection writes nothing; an admission appends one expense, lowers the remaining balance by the amount and leaves the total and every other row unchanged |
| `Balance.TopUpPeriodHoldsTodayFromThe25th` | app/page.tsx:97-102 | the allowance a top-up opens runs from the 25th of this month to the 24th of the next, holds today exactly from the 25th on, and lasts one month |
| `Balance.RaiseBalance` | app/page.tsx:86-93 | a top-up on an existing allowance adds the amount to total and remaining (missing remaining read as 0), so `total - remaining` still accounts for the same expenses |
| `Balance.TopUp` | app/page.tsx:78-123 | empty or non-numeric input changes nothing; otherwise the latest allowance grows by the amount, or, with none, one allowance is opened from the 25th of this month to the 24th of the next with total and remaining equal to the amount |
| `Balance.EditBalance` | app/page.tsx:126-159 | empty or non-numeric input, or no allowance, changes nothing; otherwise total and remaining of the latest allowance both become the amount, so the booked expenses no longer show in `total - remaining` |
| `Balance.FetchDashboard` | app/page.tsx:47-75 | there is a dashboard exactly when an allowance exists; it shows the latest one, and its spent total is the sum of the expenses it lists |
| `Balance.DashboardShowsLatestAllowance` | app/page.tsx:63-73 | the listed expenses are exactly the latest allowance's, the "Total Pengeluaran" figure is their sum, and the remaining balance is `remaining_amount` when set and the total minus that sum otherwise |
| `Balance.DashboardBalances` | app/page.tsx:214 | while the stored balances account for every booked expense, the displayed remaining equals the total minus the displayed spent total |
| `PeriodCreation.PeriodStart` | app/api/create_period/route.ts:7-15 | the period starts on a 25th, in today's month from the 25th on and in the month before otherwise (January falls back to December) |
| `PeriodCreation.PeriodEnd` | app/api/create_period/route.ts:16 | the period ends on the 24th of the month after its start |
| `PeriodCreation.PeriodBracketsToday` | app/api/create_period/route.ts:7-16 | start <= today <= end, the period is one month long, and its start is the latest 25th not after today |
| `PeriodCreation.CreatePeriod` | app/api/create_period/route.ts:6-39 | an existing period with the same start means nothing is inserted; otherwise one allowance is inserted with total and remaining 1,550,000, or, when the insert fails, nothing; a second request then answers that the period exists |
| `WeeklyLimits.DaysSinceMonday` | components/WeeklyLimitForm.tsx:13-14 | stepping back 6 days on a Sunday and weekday-1 days otherwise lands on a Monday |
| `WeeklyLimits.WeekStart` | components/WeeklyLimitForm.tsx:11-15 | the week starts on the Monday on or before today, less than 7 days back |
| `WeeklyLimits.WeekEnd` | components/WeeklyLimitForm.tsx:16 | the week ends on the Sunday 6 days after its Monday, on or after today |
| `WeeklyLimits.WeekStartIsTheMonday` | components/WeeklyLimitForm.tsx:11-16 | the computed Monday is the only Monday less than a week before or on today |
| `WeeklyLimits.WeekBounds` | components/WeeklyLimitForm.tsx:11-16 | the form's `setDate` arithmetic, the day of the month moved back by the weekday (Sunday counting as 7) and then six days on, gives exactly `WeekStart` and `WeekEnd` |
| `WeeklyLimits.SetWeeklyLimit` | components/WeeklyLimitForm.tsx:9-29 | an empty limit writes nothing; otherwise the week's Monday and Sunday from `WeekBounds` and exactly one record with allowance id, week bounds and the limit is inserted when the store accepts it, success being reported either way |
| `History.IsActiveAsWritten` | app/history/page.tsx:36-38 | comparing the current instant with the midnights of the start and end dates agrees with "today is in the period" except on the last day, where it only holds at midnight |
| `History.LastDayNoonIsMissed` | app/history/page.tsx:36-38 | at noon on the last day of a period the page's flag is off although today lies in the period |
| `History.IsActive` | app/history/page.tsx:36-38 | the intended flag holds from the first instant of the start date to the last instant of the end date |
| `History.Summarize` | app/history/page.tsx:28-46 | one period's row keeps the period, its remaining is negative exactly when the spending exceeds the limit, and it is active from the first instant of the start date to the last instant of the end date (the corrected flag) |
| `History.WeeklyHistory` | app/history/page.tsx:16-50 | the history has one row per weekly period |
| `History.WeeklyHistoryRows` | app/history/page.tsx:16-47 | the rows are the periods, each once, newest first; each row's spent is the sum of expenses dated within the period, its remaining is the limit (missing read as 0) minus that, negative exactly when spending went over, and it is active exactly when today lies in the period (the corrected flag `IsActive`, not the page's `IsActiveAsWritten`) |
| `History.SplitNextDay` | app/history/page.tsx:29-35 | spending through a day is spending through the day before plus the spending dated that day |
| `History.DaysFrom` | app/history/page.tsx:68-77 | the first `n` days of the period, one entry each; `DaysFromByDay` and `DaysFromSum` state their contents and totals |
| `History.DaysFromByDay` | app/history/page.tsx:67-76 | each of the first `n` days of a period holds exactly the expenses dated that day, and its total is their sum |
| `History.DaysFromSum` | app/history/page.tsx:67-76 | the totals of the first `n` days add up to the spending from the start date through the `n`-th day |
| `History.DailyBreakdown` | app/history/page.tsx:56-77 | the day-by-day view of a period has every day from start to end date, each with exactly the expenses dated that day, and its daily totals add up to the period's spent on the history row |
| `History.PeriodDetails` | app/history/page.tsx:52-81 | the loop records one entry per day from the start date through the end date, in order and none when the end comes first, each holding the fetched expenses dated that day and their sum |

## Left out

- Supabase calls, authentication and the `checkUser` redirect are not modelled:
  the store is the in-memory `Database`, and a query is a filter over its
  sequences. Store errors are left out except where the code acts on them
  differently: the period route's insert failure and the weekly-limit insert,
  whose error the form ignores, take the store's answer as a parameter.
- `ExpenseAdmission.AddExpense`: the lost update between concurrent adds and a
  failure between the expense insert and the balance update are not modelled;
  the admission is one atomic step.
- React state, modals, toasts and the percent-used bars (floating-point
  division and number formatting) are presentation only.
- `toISOString().split('T')[0]` can shift a local date by a day in time zones
  away from UTC; dates are calendar dates and instants are in UTC here.
- `Number(...)` parsing: the add-expense amount and the weekly limit are
  already-parsed integers or empty; a `NaN` amount, which passes the `amt <= 0`
  test in the code, and fractional amounts are not modelled. Top-up and edit
  distinguish empty, non-numeric and numeric text.
- When several weekly periods covering today share the latest start date, which
  one the store returns is not fixed by the code; the model picks one of them and
  proves only that it covers today and has the latest start.
- Lists ordered by date (`.order('date', ...)` in `app/page.tsx:68` and
  `app/history/page.tsx:61`) keep store order here; only sums and per-day
  membership are stated about them.
- `app/api/set_weekly_limit/route.ts`, a pass-through insert, is not part of this
  model, and neither are weekly-period creation, overlap checks and cascade
  deletion, which do not appear in the code.
- `History.WeeklyHistoryRows` and `History.Summarize`: the rows' `isActive` is the
  corrected flag `History.IsActive` of the Findings row, not the page's comparison
  at `app/history/page.tsx:36-38`, which `History.IsActiveAsWritten` models and
  which differs on the last day of a period after midnight.
- The `weekly_limits` table written by the weekly-limit form and the
  `weekly_periods` table read by the admission are kept separate, as in the code.

## Findings

| source | as written | input that shows it | evidently intended | confidence | as-written member | corrected member |
|---|---|---|---|---|---|---|
| app/history/page.tsx:36-38 | `isActive` compares the current instant with `new Date(end_date)`, which is midnight at the start of the end date, so the period reads as over for the whole of its last day after 00:00:00.000 | weekly period 2026-10-12 to 2026-10-18, current instant 2026-10-18 12:00 UTC | active while today lies between the start and end dates inclusive | not executed | `History.LastDayNoonIsMissed` | `History.IsActive` |
