/** The salary hook: selecting rows by 0-based month and year, the monthly
    salary-versus-expense summary, the twelve-entry yearly summary and the
    overall row both pages derive from it, and the two list updates after an
    insert or an update. */
module SalaryHook {
  import opened Wrappers
  import opened Seqs
  import opened Records
  import Dates

  // ---- selection by month and year

  /** The four cases of the selection: month and year, month only (any year),
      year only, or neither. `month` is 0-based, as `getMonth()` returns it;
      a date that does not parse matches only the unrestricted case. */
  predicate InMonthYear(date: string, month: Option<int>, year: Option<int>)
  {
    match (month, year)
    case (Some(m), Some(y)) => Dates.Month0(date) == Some(m) && Dates.FullYear(date) == Some(y)
    case (Some(m), None) => Dates.Month0(date) == Some(m)
    case (None, Some(y)) => Dates.FullYear(date) == Some(y)
    case (None, None) => true
  }

  /** With both a month and a year given, a date matches when it parses to
      that 0-based month of that year. */
  lemma InMonthYearBoth(date: string, month: int, year: int)
    ensures InMonthYear(date, Some(month), Some(year))
      <==> Dates.Month0(date) == Some(month) && Dates.FullYear(date) == Some(year)
  {
  }

  /** `getSalaryDetailsByMonthYear` and `getExpensesByMonthYear`, which share
      one definition over the date field `dateOf`. */
  function SelectByMonthYear<T(==)>(rows: seq<T>, dateOf: T -> string, month: Option<int>, year: Option<int>): (r: seq<T>)
    ensures IsSubsequence(r, rows)
    ensures forall i :: 0 <= i < |r| ==> InMonthYear(dateOf(r[i]), month, year)
    ensures forall i :: 0 <= i < |rows| && InMonthYear(dateOf(rows[i]), month, year) ==> rows[i] in r
  {
    Filter(rows, (x: T) => InMonthYear(dateOf(x), month, year))
  }

  /** Selecting from a non-empty list: the head is kept exactly when it
      matches, and the rest is selected from the tail. */
  lemma SelectCons<T>(rows: seq<T>, dateOf: T -> string, month: Option<int>, year: Option<int>)
    requires rows != []
    ensures SelectByMonthYear(rows, dateOf, month, year)
      == (if InMonthYear(dateOf(rows[0]), month, year) then [rows[0]] else [])
         + SelectByMonthYear(rows[1..], dateOf, month, year)
  {
  }

  /** Selecting from a list extended by one row extends the selection by
      that row exactly when it matches. */
  lemma {:induction false} SelectSnoc<T>(rows: seq<T>, x: T, dateOf: T -> string, month: Option<int>, year: Option<int>)
    ensures SelectByMonthYear(rows + [x], dateOf, month, year)
      == SelectByMonthYear(rows, dateOf, month, year) + (if InMonthYear(dateOf(x), month, year) then [x] else [])
    decreases |rows|
  {
    SelectCons(rows + [x], dateOf, month, year);
    if rows == [] {
      assert (rows + [x])[1..] == [];
    } else {
      assert (rows + [x])[0] == rows[0] && (rows + [x])[1..] == rows[1..] + [x];
      SelectSnoc(rows[1..], x, dateOf, month, year);
      SelectCons(rows, dateOf, month, year);
    }
  }

  /** The running sum over a selection grows by a row's value exactly when
      the row matches. */
  lemma SumSelectSnoc<T>(rows: seq<T>, x: T, dateOf: T -> string, f: T -> real, month: Option<int>, year: Option<int>)
    ensures Sum(SelectByMonthYear(rows + [x], dateOf, month, year), f)
      == Sum(SelectByMonthYear(rows, dateOf, month, year), f) + (if InMonthYear(dateOf(x), month, year) then f(x) else 0.0)
  {
    SelectSnoc(rows, x, dateOf, month, year);
    var tail: seq<T> := if InMonthYear(dateOf(x), month, year) then [x] else [];
    SumAppend(SelectByMonthYear(rows, dateOf, month, year), tail, f);
  }

  /** When no row matches, the selection is empty. */
  lemma SelectNone<T>(rows: seq<T>, dateOf: T -> string, month: Option<int>, year: Option<int>)
    requires forall i :: 0 <= i < |rows| ==> !InMonthYear(dateOf(rows[i]), month, year)
    ensures SelectByMonthYear(rows, dateOf, month, year) == []
  {
  }

  /** With neither month nor year every row is returned, in order. */
  lemma {:induction false} SelectUnrestricted<T>(rows: seq<T>, dateOf: T -> string)
    ensures SelectByMonthYear(rows, dateOf, None, None) == rows
    decreases |rows|
  {
    if rows != [] {
      SelectCons(rows, dateOf, None, None);
      SelectUnrestricted(rows[1..], dateOf);
    }
  }

  /** Restricting to the year first and then to a month of that year selects
      the same rows as restricting once: the salary page pre-filters by year
      before the yearly summary filters by month and year again. */
  lemma {:induction false} SelectYearThenMonth<T>(rows: seq<T>, dateOf: T -> string, month: Option<int>, year: int)
    ensures SelectByMonthYear(SelectByMonthYear(rows, dateOf, None, Some(year)), dateOf, month, Some(year))
         == SelectByMonthYear(rows, dateOf, month, Some(year))
    decreases |rows|
  {
    if rows != [] {
      var yearRows := SelectByMonthYear(rows, dateOf, None, Some(year));
      SelectCons(rows, dateOf, None, Some(year));
      SelectCons(rows, dateOf, month, Some(year));
      SelectYearThenMonth(rows[1..], dateOf, month, year);
      if InMonthYear(dateOf(rows[0]), None, Some(year)) {
        assert yearRows == [rows[0]] + SelectByMonthYear(rows[1..], dateOf, None, Some(year));
        SelectCons(yearRows, dateOf, month, Some(year));
        assert yearRows[1..] == SelectByMonthYear(rows[1..], dateOf, None, Some(year));
      }
    }
  }

  // ---- summaries

  /** `gross > 0 ? (gross - expenses) / gross * 100 : 0`. Direct saving does
      not enter. */
  function SavingPercentage(gross: real, expenses: real): (p: real)
    ensures gross <= 0.0 ==> p == 0.0
  {
    if gross > 0.0 then (gross - expenses) / gross * 100.0 else 0.0
  }

  /** With a positive gross, the percentage is the part of the gross left
      after the expenses, scaled to 100. */
  lemma SavingPercentageScales(gross: real, expenses: real)
    requires gross > 0.0
    ensures SavingPercentage(gross, expenses) * gross == (gross - expenses) * 100.0
  {
    var q := (gross - expenses) / gross;
    assert q * gross == gross - expenses;
    assert q * 100.0 * gross == q * gross * 100.0;
  }

  /** With a positive gross, spending nothing saves 100% and spending at
      most the gross saves between 0% and 100%. */
  lemma SavingPercentageRange(gross: real, expenses: real)
    requires gross > 0.0 && 0.0 <= expenses <= gross
    ensures 0.0 <= SavingPercentage(gross, expenses) <= 100.0
    ensures SavingPercentage(gross, expenses) == 100.0 <==> expenses == 0.0
  {
    var p := SavingPercentage(gross, expenses);
    assert p == (gross - expenses) / gross * 100.0;
    assert (gross - expenses) / gross <= 1.0;
  }

  /** The five figures of a summary row. */
  datatype Summary = Summary(
    grossSalary: real,
    directSaving: real,
    expenses: real,
    balanceAmount: real,
    savingPercentage: real)

  /** The figures over given salary rows and expenses: what is left of the
      gross after direct saving and expenses, and the share of the gross not
      spent. */
  function Totals(salaries: seq<SalaryDetail>, expenses: seq<Expense>): (s: Summary)
    ensures s.grossSalary == Sum(salaries, Gross)
    ensures s.directSaving == Sum(salaries, DirectSaving)
    ensures s.expenses == Sum(expenses, Amount)
    ensures s.balanceAmount + s.directSaving + s.expenses == s.grossSalary
    ensures s.savingPercentage == SavingPercentage(s.grossSalary, s.expenses)
  {
    var gross := Sum(salaries, Gross);
    var saving := Sum(salaries, DirectSaving);
    var spent := Sum(expenses, Amount);
    Summary(gross, saving, spent, gross - saving - spent, SavingPercentage(gross, spent))
  }

  /** The saving percentage does not depend on direct saving: two salary
      lists with equal gross give equal percentages against equal expenses. */
  lemma SavingIgnoresDirectSaving(a: seq<SalaryDetail>, b: seq<SalaryDetail>, expenses: seq<Expense>)
    requires Sum(a, Gross) == Sum(b, Gross)
    ensures Totals(a, expenses).savingPercentage == Totals(b, expenses).savingPercentage
  {
  }

  /** `calculateMonthlySummary`: no summary at all without salary rows,
      whatever the expenses. */
  function MonthlySummary(salaries: seq<SalaryDetail>, expenses: seq<Expense>): (r: Option<Summary>)
    ensures r.None? <==> salaries == []
    ensures r.Some? ==> r.value == Totals(salaries, expenses)
  {
    if |salaries| == 0 then None else Some(Totals(salaries, expenses))
  }

  /** One entry of the yearly summary: a 0-based month and its figures. */
  datatype MonthSummary = MonthSummary(month: int, totals: Summary)

  function MonthGross(m: MonthSummary): real { m.totals.grossSalary }
  function MonthDirectSaving(m: MonthSummary): real { m.totals.directSaving }
  function MonthExpenses(m: MonthSummary): real { m.totals.expenses }
  function MonthBalance(m: MonthSummary): real { m.totals.balanceAmount }

  /** The loop body for `month`: the rows dated in that month of `year`. */
  function MonthEntry(salaries: seq<SalaryDetail>, expenses: seq<Expense>, year: int, month: int): MonthSummary
  {
    MonthSummary(month, Totals(
      SelectByMonthYear(salaries, SalaryDate, Some(month), Some(year)),
      SelectByMonthYear(expenses, ExpenseDate, Some(month), Some(year))))
  }

  /** The loop body for every month of `year`, as one function of the month. */
  function EntryOf(salaries: seq<SalaryDetail>, expenses: seq<Expense>, year: int): int -> MonthSummary
  {
    m => MonthEntry(salaries, expenses, year, m)
  }

  /** The entries the loop pushes from `month` on, `entry` giving the entry
      of one month. */
  function MonthsFrom(entry: int -> MonthSummary, month: nat): (r: seq<MonthSummary>)
    requires month <= 12
    ensures |r| == 12 - month
    decreases 12 - month
  {
    if month == 12 then [] else [entry(month)] + MonthsFrom(entry, month + 1)
  }

  /** Entry `i` of the entries pushed from `month` on is the one for month
      `month + i`. */
  lemma {:induction false} MonthsFromAt(entry: int -> MonthSummary, month: nat, i: nat)
    requires month + i < 12
    ensures MonthsFrom(entry, month)[i] == entry(month + i)
    decreases i
  {
    if i > 0 {
      MonthsFromAt(entry, month + 1, i - 1);
    }
  }

  /** `calculateYearlySummary`: exactly twelve entries, entry `i` for month
      `i`, holding the figures of the rows dated in that month of `year`. */
  function YearlySummary(salaries: seq<SalaryDetail>, expenses: seq<Expense>, year: int): (r: seq<MonthSummary>)
    ensures |r| == 12
    ensures forall i :: 0 <= i < 12 ==> r[i].month == i
    ensures forall i :: 0 <= i < 12 ==> r[i].totals == Totals(
      SelectByMonthYear(salaries, SalaryDate, Some(i), Some(year)),
      SelectByMonthYear(expenses, ExpenseDate, Some(i), Some(year)))
  {
    var r := MonthsFrom(EntryOf(salaries, expenses, year), 0);
    forall i | 0 <= i < 12 ensures r[i] == MonthEntry(salaries, expenses, year, i) {
      MonthsFromAt(EntryOf(salaries, expenses, year), 0, i);
    }
    r
  }

  function MonthOf(m: MonthSummary): int { m.month }

  /** A month with salary: the rows both pages show. */
  predicate HasGross(m: MonthSummary)
  {
    m.totals.grossSalary > 0.0
  }

  /** `yearly.filter(m => m.grossSalary > 0)`: the months with salary, in
      month order, none left out. */
  function MonthsWithGross(yearly: seq<MonthSummary>): (r: seq<MonthSummary>)
    requires forall i :: 0 <= i < |yearly| ==> yearly[i].month == i
    ensures IsSubsequence(r, yearly)
    ensures forall i :: 0 <= i < |r| ==> HasGross(r[i]) && 0 <= r[i].month < |yearly|
    ensures forall i :: 0 <= i < |yearly| && HasGross(yearly[i]) ==> yearly[i] in r
    ensures forall i, j :: 0 <= i < j < |r| ==> r[i].month < r[j].month
  {
    var r := Filter(yearly, HasGross);
    SubsequenceIncreasing(r, yearly, MonthOf);
    forall i | 0 <= i < |r| ensures 0 <= r[i].month < |yearly| {
      var k :| 0 <= k < |yearly| && yearly[k] == r[i];
    }
    r
  }

  /** Each month kept from a yearly summary sits at its own month's index. */
  lemma {:induction false} MonthsWithGrossAt(yearly: seq<MonthSummary>)
    requires forall i :: 0 <= i < |yearly| ==> yearly[i].month == i
    ensures forall i :: 0 <= i < |MonthsWithGross(yearly)| ==>
      MonthsWithGross(yearly)[i] == yearly[MonthsWithGross(yearly)[i].month]
  {
    var r := MonthsWithGross(yearly);
    SubsequenceMembers(r, yearly);
    forall i | 0 <= i < |r| ensures r[i] == yearly[r[i].month] {
      assert r[i] in yearly;
      var k :| 0 <= k < |yearly| && yearly[k] == r[i];
    }
  }

  // ---- the twelve months partition the year

  /** The sum of `f` over the rows of months `month`..11 of `year`. */
  function MonthSums<T(==)>(rows: seq<T>, dateOf: T -> string, f: T -> real, year: int, month: nat): real
    requires month <= 12
    decreases 12 - month
  {
    if month == 12 then 0.0
    else Sum(SelectByMonthYear(rows, dateOf, Some(month), Some(year)), f) + MonthSums(rows, dateOf, f, year, month + 1)
  }

  /** What one row contributes to months `month`..11 of `year`. */
  function RowShare(date: string, v: real, year: int, month: nat): real
    requires month <= 12
    decreases 12 - month
  {
    if month == 12 then 0.0
    else (if InMonthYear(date, Some(month), Some(year)) then v else 0.0) + RowShare(date, v, year, month + 1)
  }

  /** A row dated in `year` contributes its value to exactly one month, one
      outside `year` (or undated) to none. */
  lemma {:induction false} RowShareOnce(date: string, v: real, year: int, month: nat)
    requires month <= 12
    ensures RowShare(date, v, year, month)
      == if Dates.FullYear(date) == Some(year) && month <= Dates.Month0(date).value then v else 0.0
    decreases 12 - month
  {
    if month < 12 {
      RowShareOnce(date, v, year, month + 1);
    }
  }

  lemma SumSelectCons<T>(rows: seq<T>, dateOf: T -> string, f: T -> real, month: Option<int>, year: Option<int>)
    requires rows != []
    ensures Sum(SelectByMonthYear(rows, dateOf, month, year), f)
      == (if InMonthYear(dateOf(rows[0]), month, year) then f(rows[0]) else 0.0)
         + Sum(SelectByMonthYear(rows[1..], dateOf, month, year), f)
  {
    SelectCons(rows, dateOf, month, year);
    var tail := SelectByMonthYear(rows[1..], dateOf, month, year);
    if InMonthYear(dateOf(rows[0]), month, year) {
      assert ([rows[0]] + tail)[1..] == tail;
    } else {
      assert [] + tail == tail;
    }
  }

  lemma {:induction false} MonthSumsCons<T>(rows: seq<T>, dateOf: T -> string, f: T -> real, year: int, month: nat)
    requires rows != [] && month <= 12
    ensures MonthSums(rows, dateOf, f, year, month)
      == RowShare(dateOf(rows[0]), f(rows[0]), year, month) + MonthSums(rows[1..], dateOf, f, year, month)
    decreases 12 - month
  {
    if month < 12 {
      SumSelectCons(rows, dateOf, f, Some(month), Some(year));
      MonthSumsCons(rows, dateOf, f, year, month + 1);
    }
  }

  /** Summing over the twelve months of `year` is summing over the year. */
  lemma {:induction false} MonthsPartitionYear<T>(rows: seq<T>, dateOf: T -> string, f: T -> real, year: int)
    ensures MonthSums(rows, dateOf, f, year, 0) == Sum(SelectByMonthYear(rows, dateOf, None, Some(year)), f)
    decreases |rows|
  {
    if rows == [] {
      assert MonthSums(rows, dateOf, f, year, 0) == 0.0 by {
        MonthSumsEmpty(rows, dateOf, f, year, 0);
      }
    } else {
      MonthSumsCons(rows, dateOf, f, year, 0);
      RowShareOnce(dateOf(rows[0]), f(rows[0]), year, 0);
      SumSelectCons(rows, dateOf, f, None, Some(year));
      MonthsPartitionYear(rows[1..], dateOf, f, year);
    }
  }

  lemma {:induction false} MonthSumsEmpty<T>(rows: seq<T>, dateOf: T -> string, f: T -> real, year: int, month: nat)
    requires rows == [] && month <= 12
    ensures MonthSums(rows, dateOf, f, year, month) == 0.0
    decreases 12 - month
  {
    if month < 12 {
      MonthSumsEmpty(rows, dateOf, f, year, month + 1);
    }
  }

  /** The entries from `month` on are that month's entry before the rest. */
  lemma MonthsFromCons(entry: int -> MonthSummary, month: nat, g: MonthSummary -> real)
    requires month < 12
    ensures Sum(MonthsFrom(entry, month), g) == g(entry(month)) + Sum(MonthsFrom(entry, month + 1), g)
  {
    var ms := MonthsFrom(entry, month);
    assert ms[0] == entry(month) && ms[1..] == MonthsFrom(entry, month + 1);
  }

  /** The figures of one month's entry are the sums over that month's rows. */
  lemma EntryFigures(salaries: seq<SalaryDetail>, expenses: seq<Expense>, year: int, month: int)
    ensures MonthGross(EntryOf(salaries, expenses, year)(month))
      == Sum(SelectByMonthYear(salaries, SalaryDate, Some(month), Some(year)), Gross)
    ensures MonthDirectSaving(EntryOf(salaries, expenses, year)(month))
      == Sum(SelectByMonthYear(salaries, SalaryDate, Some(month), Some(year)), DirectSaving)
    ensures MonthExpenses(EntryOf(salaries, expenses, year)(month))
      == Sum(SelectByMonthYear(expenses, ExpenseDate, Some(month), Some(year)), Amount)
  {
    var e := MonthEntry(salaries, expenses, year, month);
    assert EntryOf(salaries, expenses, year)(month) == e;
  }

  lemma {:induction false} MonthsFromGross(salaries: seq<SalaryDetail>, expenses: seq<Expense>, year: int, month: nat)
    requires month <= 12
    ensures Sum(MonthsFrom(EntryOf(salaries, expenses, year), month), MonthGross) == MonthSums(salaries, SalaryDate, Gross, year, month)
    decreases 12 - month
  {
    if month < 12 {
      MonthsFromGross(salaries, expenses, year, month + 1);
      MonthsFromCons(EntryOf(salaries, expenses, year), month, MonthGross);
      EntryFigures(salaries, expenses, year, month);
    }
  }

  lemma {:induction false} MonthsFromDirectSaving(salaries: seq<SalaryDetail>, expenses: seq<Expense>, year: int, month: nat)
    requires month <= 12
    ensures Sum(MonthsFrom(EntryOf(salaries, expenses, year), month), MonthDirectSaving) == MonthSums(salaries, SalaryDate, DirectSaving, year, month)
    decreases 12 - month
  {
    if month < 12 {
      MonthsFromDirectSaving(salaries, expenses, year, month + 1);
      MonthsFromCons(EntryOf(salaries, expenses, year), month, MonthDirectSaving);
      EntryFigures(salaries, expenses, year, month);
    }
  }

  lemma {:induction false} MonthsFromExpenses(salaries: seq<SalaryDetail>, expenses: seq<Expense>, year: int, month: nat)
    requires month <= 12
    ensures Sum(MonthsFrom(EntryOf(salaries, expenses, year), month), MonthExpenses) == MonthSums(expenses, ExpenseDate, Amount, year, month)
    decreases 12 - month
  {
    if month < 12 {
      MonthsFromExpenses(salaries, expenses, year, month + 1);
      MonthsFromCons(EntryOf(salaries, expenses, year), month, MonthExpenses);
      EntryFigures(salaries, expenses, year, month);
    }
  }

  lemma {:induction false} MonthsFromBalance(entry: int -> MonthSummary, month: nat)
    requires month <= 12
    requires forall m :: 0 <= m < 12 ==> MonthBalance(entry(m)) == MonthGross(entry(m)) - MonthDirectSaving(entry(m)) - MonthExpenses(entry(m))
    ensures Sum(MonthsFrom(entry, month), MonthBalance)
      == Sum(MonthsFrom(entry, month), MonthGross)
       - Sum(MonthsFrom(entry, month), MonthDirectSaving)
       - Sum(MonthsFrom(entry, month), MonthExpenses)
    decreases 12 - month
  {
    if month < 12 {
      MonthsFromBalance(entry, month + 1);
      MonthsFromCons(entry, month, MonthBalance);
      MonthsFromCons(entry, month, MonthGross);
      MonthsFromCons(entry, month, MonthDirectSaving);
      MonthsFromCons(entry, month, MonthExpenses);
    }
  }

  /** The yearly summary loses and invents nothing: its twelve gross,
      direct-saving and expense figures add up to the totals over every row
      dated in `year`, and its balances to gross minus saving minus expenses. */
  lemma YearlySumsAreYearTotals(salaries: seq<SalaryDetail>, expenses: seq<Expense>, year: int)
    ensures Sum(YearlySummary(salaries, expenses, year), MonthGross)
      == Sum(SelectByMonthYear(salaries, SalaryDate, None, Some(year)), Gross)
    ensures Sum(YearlySummary(salaries, expenses, year), MonthDirectSaving)
      == Sum(SelectByMonthYear(salaries, SalaryDate, None, Some(year)), DirectSaving)
    ensures Sum(YearlySummary(salaries, expenses, year), MonthExpenses)
      == Sum(SelectByMonthYear(expenses, ExpenseDate, None, Some(year)), Amount)
    ensures Sum(YearlySummary(salaries, expenses, year), MonthBalance)
      == Sum(YearlySummary(salaries, expenses, year), MonthGross)
       - Sum(YearlySummary(salaries, expenses, year), MonthDirectSaving)
       - Sum(YearlySummary(salaries, expenses, year), MonthExpenses)
  {
    var entry := EntryOf(salaries, expenses, year);
    assert YearlySummary(salaries, expenses, year) == MonthsFrom(entry, 0);
    MonthsFromGross(salaries, expenses, year, 0);
    MonthsFromDirectSaving(salaries, expenses, year, 0);
    MonthsFromExpenses(salaries, expenses, year, 0);
    forall m | 0 <= m < 12
      ensures MonthBalance(entry(m)) == MonthGross(entry(m)) - MonthDirectSaving(entry(m)) - MonthExpenses(entry(m))
    {
      assert entry(m) == MonthEntry(salaries, expenses, year, m);
    }
    MonthsFromBalance(entry, 0);
    MonthsPartitionYear(salaries, SalaryDate, Gross, year);
    MonthsPartitionYear(salaries, SalaryDate, DirectSaving, year);
    MonthsPartitionYear(expenses, ExpenseDate, Amount, year);
  }

  // ---- the overall row

  /** The overall row of a yearly summary: the four sums over its entries,
      and the saving percentage recomputed from the summed gross and
      expenses (not the sum or mean of the monthly percentages). */
  function Overall(months: seq<MonthSummary>): (r: Summary)
    ensures r.grossSalary == Sum(months, MonthGross)
    ensures r.directSaving == Sum(months, MonthDirectSaving)
    ensures r.expenses == Sum(months, MonthExpenses)
    ensures r.balanceAmount == Sum(months, MonthBalance)
    ensures r.savingPercentage == SavingPercentage(r.grossSalary, r.expenses)
  {
    var gross := Sum(months, MonthGross);
    var spent := Sum(months, MonthExpenses);
    Summary(gross, Sum(months, MonthDirectSaving), spent, Sum(months, MonthBalance), SavingPercentage(gross, spent))
  }

  /** The overall row of a year is the summary of the year taken as a whole:
      the same figures `Totals` gives for every row dated in that year. */
  lemma OverallIsYearTotals(salaries: seq<SalaryDetail>, expenses: seq<Expense>, year: int)
    ensures Overall(YearlySummary(salaries, expenses, year)) == Totals(
      SelectByMonthYear(salaries, SalaryDate, None, Some(year)),
      SelectByMonthYear(expenses, ExpenseDate, None, Some(year)))
  {
    YearlySumsAreYearTotals(salaries, expenses, year);
  }

  // ---- local list updates

  /** What a failed call returns: the message of the thrown `Error`, or the
      call's own fallback text when what was thrown is not an `Error`
      (`None`). */
  function FailureMessage(thrown: Option<string>, fallback: string): string
  {
    match thrown
    case Some(message) => message
    case None => fallback
  }

  const AddFallback := "Failed to add salary detail"
  const UpdateFallback := "Failed to update salary detail"

  /** `addSalaryDetail`, given the store's answer: a failure keeps the list
      and reports its message; a returned row goes in front; an answer
      without a row keeps the list and still reports success. */
  function AddSalaryDetail(details: seq<SalaryDetail>, answer: Result<Option<SalaryDetail>, Option<string>>)
    : (r: (seq<SalaryDetail>, Outcome<string>))
    ensures answer.Failure? ==> r == (details, Fail(FailureMessage(answer.error, AddFallback)))
    ensures answer.Success? ==> r.1 == Pass
    ensures answer == Success(None) ==> r.0 == details
    ensures answer.Success? && answer.value.Some? ==>
      |r.0| == |details| + 1 && r.0[0] == answer.value.value && r.0[1..] == details
  {
    match answer
    case Failure(thrown) => (details, Fail(FailureMessage(thrown, AddFallback)))
    case Success(None) => (details, Pass)
    case Success(Some(row)) => ([row] + details, Pass)
  }

  /** A row inserted under a fresh id is undone by deleting that id: the
      list is back to what it was. */
  lemma AddThenRemoveSalary(details: seq<SalaryDetail>, row: SalaryDetail)
    requires forall i :: 0 <= i < |details| ==> details[i].id != row.id
    ensures RemoveById(AddSalaryDetail(details, Success(Some(row))).0, SalaryId, row.id) == details
  {
    RemoveUndoesPrepend(details, SalaryId, row);
  }

  /** `updateSalaryDetail`, given the store's answer: a failure keeps the list
      and reports its message; a returned row replaces every row carrying the
      id; an answer without a row keeps the list and still reports success. */
  function UpdateSalaryDetail(details: seq<SalaryDetail>, id: int, answer: Result<Option<SalaryDetail>, Option<string>>)
    : (r: (seq<SalaryDetail>, Outcome<string>))
    ensures answer.Failure? ==> r == (details, Fail(FailureMessage(answer.error, UpdateFallback)))
    ensures answer.Success? ==> r.1 == Pass && |r.0| == |details|
    ensures answer == Success(None) ==> r.0 == details
    ensures answer.Success? && answer.value.Some? ==>
      forall i :: 0 <= i < |details| ==> r.0[i] == (if details[i].id == id then answer.value.value else details[i])
  {
    match answer
    case Failure(thrown) => (details, Fail(FailureMessage(thrown, UpdateFallback)))
    case Success(None) => (details, Pass)
    case Success(Some(row)) => (ReplaceById(details, SalaryId, id, row), Pass)
  }

  /** Applying the same accepted update twice, the store returning the row
      under its id, is the same as applying it once. */
  lemma UpdateSalaryTwice(details: seq<SalaryDetail>, id: int, row: SalaryDetail)
    requires row.id == id
    ensures UpdateSalaryDetail(UpdateSalaryDetail(details, id, Success(Some(row))).0, id, Success(Some(row)))
      == UpdateSalaryDetail(details, id, Success(Some(row)))
  {
    ReplaceIdempotent(details, SalaryId, id, row);
  }
}
