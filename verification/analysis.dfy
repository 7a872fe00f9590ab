/** The analysis page's aggregations: the overall salary row of a year and
    its monthly saving percentages, the twelve monthly expense totals, the
    per-type totals (exact type strings, largest first) and the per-year
    totals (ascending years), and the salary-year input rule. */
module AnalysisPage {
  import opened Wrappers
  import opened Seqs
  import opened Records
  import opened Grouping
  import opened SalaryHook
  import Dates
  import Numbers

  /** The chart labels of the twelve months, January first. */
  const MonthLabels: seq<string> :=
    ["Jan", "Feb", "Mar", "Apr", "May", "Jun", "Jul", "Aug", "Sep", "Oct", "Nov", "Dec"]

  // ---- salary against expenses over one year

  /** `getSalaryYearlySummary(year)`: the overall row of the yearly summary,
      computed from all salary rows and the expenses dated in `year`. The
      twelve entries always exist, so the result is never absent, and it is
      the summary of the whole year. */
  function SalaryYearlySummary(salaries: seq<SalaryDetail>, expenses: seq<Expense>, year: int): (r: Option<Summary>)
    ensures r.Some?
    ensures r.value == Totals(
      SelectByMonthYear(salaries, SalaryDate, None, Some(year)),
      SelectByMonthYear(expenses, ExpenseDate, None, Some(year)))
  {
    var yearExpenses := SelectByMonthYear(expenses, ExpenseDate, None, Some(year));
    var yearly := YearlySummary(salaries, yearExpenses, year);
    OverallIsYearTotals(salaries, yearExpenses, year);
    SelectYearThenMonth(expenses, ExpenseDate, None, year);
    if |yearly| == 0 then None else Some(Overall(yearly))
  }

  /** `getSavingPercentageByMonth(year)`: one point per month with salary,
      in month order, labelled with the month's name and valued at that
      month's saving percentage. */
  function SavingPercentageByMonth(salaries: seq<SalaryDetail>, expenses: seq<Expense>, year: int): (r: seq<ChartPoint>)
    ensures |r| <= 12
    ensures forall i :: 0 <= i < |r| ==> r[i].name in MonthLabels
    ensures forall i, j :: 0 <= i < j < |r| ==> MonthIndex(r[i].name) < MonthIndex(r[j].name)
    ensures forall i :: 0 <= i < |r| ==> MonthFigures(salaries, expenses, year, MonthIndex(r[i].name)).grossSalary > 0.0
    ensures forall i :: 0 <= i < |r| ==>
      r[i].value == MonthFigures(salaries, expenses, year, MonthIndex(r[i].name)).savingPercentage
  {
    var yearExpenses := SelectByMonthYear(expenses, ExpenseDate, None, Some(year));
    var yearly := YearlySummary(salaries, yearExpenses, year);
    var months := MonthsWithGross(yearly);
    MonthCountBound(months);
    MonthPointsOrdered(months);
    var r := MonthPoints(months);
    SavingPointValues(salaries, expenses, year, yearly, months, r);
    r
  }

  /** Each point of the saving-percentage chart carries the figures of the
      month its label names. */
  lemma SavingPointValues(salaries: seq<SalaryDetail>, expenses: seq<Expense>, year: int,
                          yearly: seq<MonthSummary>, months: seq<MonthSummary>, r: seq<ChartPoint>)
    requires yearly == YearlySummary(salaries, SelectByMonthYear(expenses, ExpenseDate, None, Some(year)), year)
    requires months == MonthsWithGross(yearly) && r == MonthPoints(months)
    ensures forall i :: 0 <= i < |r| ==> MonthFigures(salaries, expenses, year, MonthIndex(r[i].name)).grossSalary > 0.0
    ensures forall i :: 0 <= i < |r| ==>
      r[i].value == MonthFigures(salaries, expenses, year, MonthIndex(r[i].name)).savingPercentage
  {
    MonthsWithGrossAt(yearly);
    MonthPointsOrdered(months);
    forall i | 0 <= i < |r|
      ensures r[i].value == MonthFigures(salaries, expenses, year, MonthIndex(r[i].name)).savingPercentage
      ensures MonthFigures(salaries, expenses, year, MonthIndex(r[i].name)).grossSalary > 0.0
    {
      assert MonthIndex(r[i].name) == months[i].month;
      KeptMonthFigures(salaries, expenses, year, yearly, months[i]);
    }
  }

  /** The figures of the rows dated in month `m` (0-based) of `year`. */
  function MonthFigures(salaries: seq<SalaryDetail>, expenses: seq<Expense>, year: int, m: int): Summary
  {
    Totals(
      SelectByMonthYear(salaries, SalaryDate, Some(m), Some(year)),
      SelectByMonthYear(expenses, ExpenseDate, Some(m), Some(year)))
  }

  /** An entry of the yearly summary built from the year's expenses holds
      the figures of its month over all expenses. */
  lemma KeptMonthFigures(salaries: seq<SalaryDetail>, expenses: seq<Expense>, year: int,
                         yearly: seq<MonthSummary>, kept: MonthSummary)
    requires yearly == YearlySummary(salaries, SelectByMonthYear(expenses, ExpenseDate, None, Some(year)), year)
    requires 0 <= kept.month < 12 && kept == yearly[kept.month] && HasGross(kept)
    ensures kept.totals == MonthFigures(salaries, expenses, year, kept.month)
    ensures kept.totals.grossSalary > 0.0
  {
    SelectYearThenMonth(expenses, ExpenseDate, Some(kept.month), year);
  }

  /** The points of some months: each month's label and saving percentage. */
  function MonthPoints(months: seq<MonthSummary>): (r: seq<ChartPoint>)
    requires forall i :: 0 <= i < |months| ==> 0 <= months[i].month < 12
    ensures |r| == |months|
    ensures forall i :: 0 <= i < |months| ==>
      r[i].name == MonthLabels[months[i].month] && r[i].value == months[i].totals.savingPercentage
  {
    if months == [] then []
    else [ChartPoint(MonthLabels[months[0].month], months[0].totals.savingPercentage)] + MonthPoints(months[1..])
  }

  /** The position of a month label, 12 for any other text. */
  function MonthIndex(name: string): (k: nat)
    ensures k <= 12
    ensures k < 12 <==> name in MonthLabels
    ensures k < 12 ==> MonthLabels[k] == name
  {
    IndexOf(MonthLabels, name)
  }

  lemma MonthLabelsDistinct()
    ensures forall i, j :: 0 <= i < 12 && 0 <= j < 12 && MonthLabels[i] == MonthLabels[j] ==> i == j
  {
  }

  /** Each label names its own month. */
  lemma LabelIndex(m: int)
    requires 0 <= m < 12
    ensures MonthIndex(MonthLabels[m]) == m
  {
    MonthLabelsDistinct();
  }

  /** Points of months in increasing order carry labels in increasing month
      order. */
  lemma {:induction false} MonthPointsOrdered(months: seq<MonthSummary>)
    requires forall i :: 0 <= i < |months| ==> 0 <= months[i].month < 12
    requires forall i, j :: 0 <= i < j < |months| ==> months[i].month < months[j].month
    ensures forall i :: 0 <= i < |months| ==> MonthIndex(MonthPoints(months)[i].name) == months[i].month
    ensures forall i, j :: 0 <= i < j < |months| ==>
      MonthIndex(MonthPoints(months)[i].name) < MonthIndex(MonthPoints(months)[j].name)
  {
    var r := MonthPoints(months);
    forall i | 0 <= i < |months| ensures MonthIndex(r[i].name) == months[i].month {
      LabelIndex(months[i].month);
    }
  }

  /** The saving-percentage chart names a month exactly when salary was paid
      in that month of the year. */
  lemma {:induction false} SavingPointsNameSalaryMonths(salaries: seq<SalaryDetail>, expenses: seq<Expense>, year: int, m: int)
    requires 0 <= m < 12
    ensures MonthLabels[m] in Names(SavingPercentageByMonth(salaries, expenses, year))
      <==> Sum(SelectByMonthYear(salaries, SalaryDate, Some(m), Some(year)), Gross) > 0.0
  {
    var yearExpenses := SelectByMonthYear(expenses, ExpenseDate, None, Some(year));
    var yearly := YearlySummary(salaries, yearExpenses, year);
    var months := MonthsWithGross(yearly);
    assert SavingPercentageByMonth(salaries, expenses, year) == MonthPoints(months);
    SubsequenceMembers(months, yearly);
    assert HasGross(yearly[m]) <==> Sum(SelectByMonthYear(salaries, SalaryDate, Some(m), Some(year)), Gross) > 0.0;
    MonthPointNames(yearly, months, m);
  }

  /** Among the months kept from a yearly summary, a label is present
      exactly when its month is kept. */
  lemma {:induction false} MonthPointNames(yearly: seq<MonthSummary>, months: seq<MonthSummary>, m: int)
    requires |yearly| == 12 && 0 <= m < 12
    requires forall i :: 0 <= i < 12 ==> yearly[i].month == i
    requires forall i :: 0 <= i < |months| ==> HasGross(months[i]) && 0 <= months[i].month < 12
    requires forall x :: x in months ==> x in yearly
    requires forall i :: 0 <= i < 12 && HasGross(yearly[i]) ==> yearly[i] in months
    ensures MonthLabels[m] in Names(MonthPoints(months)) <==> HasGross(yearly[m])
  {
    if HasGross(yearly[m]) {
      PaidMonthNamed(yearly, months, m);
    }
    if MonthLabels[m] in Names(MonthPoints(months)) {
      NamedMonthPaid(yearly, months, m);
    }
  }

  lemma {:induction false} PaidMonthNamed(yearly: seq<MonthSummary>, months: seq<MonthSummary>, m: int)
    requires |yearly| == 12 && 0 <= m < 12
    requires forall i :: 0 <= i < 12 ==> yearly[i].month == i
    requires forall i :: 0 <= i < |months| ==> 0 <= months[i].month < 12
    requires forall i :: 0 <= i < 12 && HasGross(yearly[i]) ==> yearly[i] in months
    requires HasGross(yearly[m])
    ensures MonthLabels[m] in Names(MonthPoints(months))
  {
    var points := MonthPoints(months);
    var names := Names(points);
    assert yearly[m] in months && yearly[m].month == m;
    var k :| 0 <= k < |months| && months[k] == yearly[m];
    assert points[k].name == MonthLabels[m];
    assert names[k] == MonthLabels[m];
  }

  lemma {:induction false} NamedMonthPaid(yearly: seq<MonthSummary>, months: seq<MonthSummary>, m: int)
    requires |yearly| == 12 && 0 <= m < 12
    requires forall i :: 0 <= i < 12 ==> yearly[i].month == i
    requires forall i :: 0 <= i < |months| ==> HasGross(months[i]) && 0 <= months[i].month < 12
    requires forall x :: x in months ==> x in yearly
    requires MonthLabels[m] in Names(MonthPoints(months))
    ensures HasGross(yearly[m])
  {
    var names := Names(MonthPoints(months));
    var k :| 0 <= k < |names| && names[k] == MonthLabels[m];
    var month := months[k];
    assert MonthLabels[month.month] == MonthLabels[m];
    LabelIndex(month.month);
    LabelIndex(m);
    assert month in yearly;
    var j :| 0 <= j < 12 && yearly[j] == month;
    assert yearly[j].month == j == m;
  }

  /** Strictly increasing months below 12 are at most twelve. */
  lemma MonthCountBound(months: seq<MonthSummary>)
    requires forall i :: 0 <= i < |months| ==> 0 <= months[i].month < 12
    requires forall i, j :: 0 <= i < j < |months| ==> months[i].month < months[j].month
    ensures |months| <= 12
  {
    if |months| > 12 {
      MonthsAtLeastIndex(months, 12);
    }
  }

  lemma {:induction false} MonthsAtLeastIndex(months: seq<MonthSummary>, k: nat)
    requires k < |months|
    requires forall i :: 0 <= i < |months| ==> 0 <= months[i].month
    requires forall i, j :: 0 <= i < j < |months| ==> months[i].month < months[j].month
    ensures months[k].month >= k
    decreases k
  {
    if k > 0 {
      MonthsAtLeastIndex(months, k - 1);
    }
  }

  // ---- expenses per month of one year

  /** One step of the loop: a row of `year` adds its amount to its month's
      sum; any other row changes nothing. */
  function AddToMonth(amounts: seq<real>, e: Expense, year: int): (r: seq<real>)
    requires |amounts| == 12
    ensures |r| == 12
    ensures forall m :: 0 <= m < 12 ==>
      r[m] == amounts[m] + (if InMonthYear(e.date, Some(m), Some(year)) then e.amount else 0.0)
  {
    if Dates.FullYear(e.date) == Some(year) then
      var month := Dates.Month0(e.date).value;
      var r := amounts[month := amounts[month] + e.amount];
      forall m | 0 <= m < 12
        ensures r[m] == amounts[m] + (if InMonthYear(e.date, Some(m), Some(year)) then e.amount else 0.0)
      {
        InMonthYearBoth(e.date, m, year);
      }
      r
    else
      forall m | 0 <= m < 12 ensures !InMonthYear(e.date, Some(m), Some(year)) {
        InMonthYearBoth(e.date, m, year);
      }
      amounts
  }

  /** The loop of `getMonthlyExpensesData`: one running sum per 0-based
      month, each row of `year` added to the sum of its month. */
  method MonthlyAmounts(expenses: seq<Expense>, year: int) returns (amounts: seq<real>)
    ensures |amounts| == 12
    ensures forall m :: 0 <= m < 12 ==>
      amounts[m] == Sum(SelectByMonthYear(expenses, ExpenseDate, Some(m), Some(year)), Amount)
  {
    amounts := seq(12, _ => 0.0);
    var k := 0;
    while k < |expenses|
      invariant 0 <= k <= |expenses|
      invariant |amounts| == 12
      invariant forall m :: 0 <= m < 12 ==>
        amounts[m] == Sum(SelectByMonthYear(expenses[..k], ExpenseDate, Some(m), Some(year)), Amount)
    {
      var e := expenses[k];
      assert expenses[..k + 1] == expenses[..k] + [e];
      amounts := AddToMonth(amounts, e, year);
      forall m | 0 <= m < 12
        ensures amounts[m] == Sum(SelectByMonthYear(expenses[..k + 1], ExpenseDate, Some(m), Some(year)), Amount)
      {
        SumSelectSnoc(expenses[..k], e, ExpenseDate, Amount, Some(m), Some(year));
      }
      k := k + 1;
    }
    assert expenses[..k] == expenses;
  }

  /** `getMonthlyExpensesData(expenses, year)`: twelve points in calendar
      order; the point of month `m` (0-based) holds the sum of the expenses
      dated in month `m` of `year`, zero when there are none, and together
      they hold the year's total. */
  method MonthlyExpensesData(expenses: seq<Expense>, year: int) returns (points: seq<ChartPoint>)
    ensures |points| == 12
    ensures forall m :: 0 <= m < 12 ==> points[m].name == MonthLabels[m]
    ensures forall m :: 0 <= m < 12 ==>
      points[m].value == Sum(SelectByMonthYear(expenses, ExpenseDate, Some(m), Some(year)), Amount)
    ensures forall m :: 0 <= m < 12 && NoneIn(expenses, m, year) ==> points[m].value == 0.0
    ensures Sum(points, PointValue) == Sum(SelectByMonthYear(expenses, ExpenseDate, None, Some(year)), Amount)
  {
    var amounts := MonthlyAmounts(expenses, year);
    points := seq(12, m requires 0 <= m < 12 => ChartPoint(MonthLabels[m], amounts[m]));
    forall m | 0 <= m < 12 && NoneIn(expenses, m, year)
      ensures points[m].value == 0.0
    {
      SelectNone(expenses, ExpenseDate, Some(m), Some(year));
    }
    MonthPointsSum(points, expenses, year, 0);
    MonthsPartitionYear(expenses, ExpenseDate, Amount, year);
    assert points[0..] == points;
  }

  /** No expense is dated in month `m` of `year`. */
  predicate NoneIn(expenses: seq<Expense>, m: int, year: int)
  {
    forall i :: 0 <= i < |expenses| ==> !InMonthYear(expenses[i].date, Some(m), Some(year))
  }

  /** Twelve points holding the monthly sums add up to the sums of months
      `from`..11. */
  lemma {:induction false} MonthPointsSum(points: seq<ChartPoint>, expenses: seq<Expense>, year: int, from: nat)
    requires |points| == 12 && from <= 12
    requires forall m :: 0 <= m < 12 ==>
      points[m].value == Sum(SelectByMonthYear(expenses, ExpenseDate, Some(m), Some(year)), Amount)
    ensures Sum(points[from..], PointValue) == MonthSums(expenses, ExpenseDate, Amount, year, from)
    decreases 12 - from
  {
    if from < 12 {
      MonthPointsSum(points, expenses, year, from + 1);
      assert points[from..][1..] == points[from + 1..];
    }
  }

  // ---- expenses per type

  /** The rows the type chart counts: dated in `year` and, when a 1-based
      `month` is given, in that month. */
  predicate InTypeChart(e: Expense, year: int, month: Option<int>)
  {
    Dates.FullYear(e.date) == Some(year)
    && (month.None? || (Dates.Month0(e.date).Some? && Dates.Month0(e.date).value + 1 == month.value))
  }

  function TypeChartRows(expenses: seq<Expense>, year: int, month: Option<int>): (r: seq<Expense>)
    ensures IsSubsequence(r, expenses)
    ensures forall i :: 0 <= i < |r| ==> InTypeChart(r[i], year, month)
    ensures forall i :: 0 <= i < |expenses| && InTypeChart(expenses[i], year, month) ==> expenses[i] in r
  {
    Filter(expenses, (e: Expense) => InTypeChart(e, year, month))
  }

  /** The 0-based month the 1-based `month` stands for. */
  function ZeroBased(month: Option<int>): Option<int>
  {
    match month
    case None => None
    case Some(m) => Some(m - 1)
  }

  /** The type chart's 1-based month restriction selects the same rows as the
      salary hook's 0-based selection of the preceding month number. */
  lemma {:induction false} TypeChartRowsAreSelection(expenses: seq<Expense>, year: int, month: Option<int>)
    ensures TypeChartRows(expenses, year, month) == SelectByMonthYear(expenses, ExpenseDate, ZeroBased(month), Some(year))
    decreases |expenses|
  {
    if expenses != [] {
      SelectCons(expenses, ExpenseDate, ZeroBased(month), Some(year));
      TypeChartRowsAreSelection(expenses[1..], year, month);
      assert InTypeChart(expenses[0], year, month) <==> InMonthYear(expenses[0].date, ZeroBased(month), Some(year));
    }
  }

  function TypeName(t: string): string { t }

  /** The per-type totals of the counted rows, largest first: one entry per
      distinct `expense_type` string (no case folding), holding that type's
      sum; together they hold the counted total. */
  function TypeTotals(expenses: seq<Expense>, year: int, month: Option<int>): (r: seq<Entry<string>>)
    ensures Distinct(KeysOf(r))
    ensures forall i :: 0 <= i < |TypeChartRows(expenses, year, month)| ==>
      TypeChartRows(expenses, year, month)[i].expenseType in KeysOf(r)
    ensures forall i :: 0 <= i < |r| ==> r[i].key in Map(TypeChartRows(expenses, year, month), ExpenseTypeOf)
    ensures forall i :: 0 <= i < |r| ==>
      r[i].total == SumFor(TypeChartRows(expenses, year, month), ExpenseTypeOf, Amount, r[i].key)
    ensures forall i, j :: 0 <= i < j < |r| ==> r[i].total >= r[j].total
    ensures TotalOf(r) == Sum(TypeChartRows(expenses, year, month), Amount)
  {
    GroupSorted(TypeChartRows(expenses, year, month), ExpenseTypeOf, Amount, LargestFirst)
  }

  /** `getExpenseTypeData(expenses, year, month)`: the per-type totals as
      points labelled with the type, so that the labels are distinct and the
      values are non-increasing and add up to the counted total. */
  function ExpenseTypeData(expenses: seq<Expense>, year: int, month: Option<int>): (r: seq<ChartPoint>)
    ensures Names(r) == KeysOf(TypeTotals(expenses, year, month))
    ensures Distinct(Names(r))
    ensures forall i :: 0 <= i < |r| ==>
      r[i].value == SumFor(TypeChartRows(expenses, year, month), ExpenseTypeOf, Amount, r[i].name)
    ensures forall i, j :: 0 <= i < j < |r| ==> r[i].value >= r[j].value
    ensures Sum(r, PointValue) == Sum(TypeChartRows(expenses, year, month), Amount)
  {
    var totals := TypeTotals(expenses, year, month);
    var r := ToPoints(totals, TypeName);
    ToPointsTotal(totals, TypeName);
    assert Names(r) == KeysOf(totals);
    r
  }

  // ---- expenses per year

  /** A row whose date gives a year. */
  predicate Dated(e: Expense)
  {
    Dates.FullYear(e.date).Some?
  }

  function DatedRows(expenses: seq<Expense>): (r: seq<Expense>)
    ensures IsSubsequence(r, expenses)
    ensures forall i :: 0 <= i < |r| ==> Dated(r[i])
    ensures forall i :: 0 <= i < |expenses| && Dated(expenses[i]) ==> expenses[i] in r
  {
    Filter(expenses, Dated)
  }

  /** `getFullYear()` of a row, 0 for an undated row (which is never asked). */
  function ExpenseYear(e: Expense): int
  {
    Dates.FullYear(e.date).GetOr(0)
  }

  function YearRank(e: Entry<int>): real { e.key as real }

  /** The per-year totals in ascending year order: one entry per year some
      dated row carries, each holding that year's sum, together holding the
      sum of all dated rows. */
  function YearTotals(expenses: seq<Expense>): (r: seq<Entry<int>>)
    ensures Distinct(KeysOf(r)) && SortedBy(r, YearRank)
    ensures forall i :: 0 <= i < |expenses| && Dated(expenses[i]) ==> ExpenseYear(expenses[i]) in KeysOf(r)
    ensures forall i :: 0 <= i < |r| ==> r[i].key in Map(DatedRows(expenses), ExpenseYear)
    ensures forall i :: 0 <= i < |r| ==> r[i].total == SumFor(DatedRows(expenses), ExpenseYear, Amount, r[i].key)
    ensures TotalOf(r) == Sum(DatedRows(expenses), Amount)
  {
    var dated := DatedRows(expenses);
    var r := GroupSorted(dated, ExpenseYear, Amount, YearRank);
    DatedYearsCovered(expenses, dated, r);
    r
  }

  /** Every dated row's year is among the keys grouped from the dated rows. */
  lemma DatedYearsCovered(expenses: seq<Expense>, dated: seq<Expense>, r: seq<Entry<int>>)
    requires forall i :: 0 <= i < |expenses| && Dated(expenses[i]) ==> expenses[i] in dated
    requires forall i :: 0 <= i < |dated| ==> ExpenseYear(dated[i]) in KeysOf(r)
    ensures forall i :: 0 <= i < |expenses| && Dated(expenses[i]) ==> ExpenseYear(expenses[i]) in KeysOf(r)
  {
    forall i | 0 <= i < |expenses| && Dated(expenses[i]) ensures ExpenseYear(expenses[i]) in KeysOf(r) {
      var k :| 0 <= k < |dated| && dated[k] == expenses[i];
    }
  }

  /** `getYearlyExpensesData(expenses)`: the per-year totals as points whose
      label is the year written out, so that the label reads back as the
      year. */
  function YearlyExpensesData(expenses: seq<Expense>): (r: seq<ChartPoint>)
    ensures |r| == |YearTotals(expenses)|
    ensures forall i :: 0 <= i < |r| ==>
      Numbers.ParseInt(r[i].name) == Some(YearTotals(expenses)[i].key)
      && r[i].value == YearTotals(expenses)[i].total
    ensures Sum(r, PointValue) == Sum(DatedRows(expenses), Amount)
  {
    var totals := YearTotals(expenses);
    var r := ToPoints(totals, Numbers.IntToString);
    ToPointsTotal(totals, Numbers.IntToString);
    forall i | 0 <= i < |r| ensures Numbers.ParseInt(r[i].name) == Some(totals[i].key) {
      Numbers.IntToStringValue(totals[i].key);
    }
    r
  }

  /** When every row is dated the yearly points account for every amount. */
  lemma YearlyCoversAll(expenses: seq<Expense>)
    requires forall i :: 0 <= i < |expenses| ==> Dated(expenses[i])
    ensures Sum(YearlyExpensesData(expenses), PointValue) == Sum(expenses, Amount)
  {
    FilterAll(expenses, Dated);
  }

  // ---- the salary-year input

  /** The text in the salary-year box and the year filter applied. */
  datatype YearInput = YearInput(input: string, filter: string)

  /** A year the box accepts: four characters reading as 2016..2050. */
  predicate AcceptedYear(value: string)
  {
    |value| == 4 && Numbers.ParseInt(value).Some? && 2016 <= Numbers.ParseInt(value).value <= 2050
  }

  /** A filter the box can leave behind: none, or an accepted year. */
  predicate FilterOk(filter: string)
  {
    filter == "" || AcceptedYear(filter)
  }

  /** The salary-year box's change handler. */
  function OnSalaryYearInput(s: YearInput, value: string): (r: YearInput)
    ensures r.input == value
    ensures |value| != 4 ==> r.filter == ""
    ensures AcceptedYear(value) ==> r.filter == value
    ensures |value| == 4 && !AcceptedYear(value) ==> r.filter == s.filter
  {
    if |value| == 4 then
      match Numbers.ParseInt(value)
      case Some(year) =>
        if 2016 <= year <= 2050 then YearInput(value, value) else YearInput(value, s.filter)
      case None => YearInput(value, s.filter)
    else YearInput(value, "")
  }

  /** Whatever is typed, the filter stays empty or an accepted year. */
  lemma SalaryYearFilterStaysValid(s: YearInput, value: string)
    requires FilterOk(s.filter)
    ensures FilterOk(OnSalaryYearInput(s, value).filter)
  {
  }
}
