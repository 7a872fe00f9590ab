/** The dashboard: the records of the current month (read with
    `split('-')` and `parseInt`, 1-based month), the month's figures, the
    per-type chart that folds type case, and the bar click that lists the
    records behind a bar. The current year and month are parameters. */
module DashboardPage {
  import opened Wrappers
  import opened Seqs
  import opened Records
  import opened Grouping
  import Text
  import Dates
  import SalaryHook

  /** A record of `year` and 1-based `month` as the dashboard reads its
      date; a part that does not parse matches nothing. */
  predicate InCurrentMonth(e: Expense, year: int, month: int)
  {
    Dates.SplitYearMonth(e.date) == (Some(year), Some(month))
  }

  function MonthKeeper(year: int, month: int): Expense -> bool
  {
    (e: Expense) => InCurrentMonth(e, year, month)
  }

  /** The records of the current month, in stored order. */
  function MonthRecords(expenses: seq<Expense>, year: int, month: int): (r: seq<Expense>)
    ensures IsSubsequence(r, expenses)
    ensures forall i :: 0 <= i < |r| ==> InCurrentMonth(r[i], year, month)
    ensures forall i :: 0 <= i < |expenses| && InCurrentMonth(expenses[i], year, month) ==> expenses[i] in r
  {
    Filter(expenses, MonthKeeper(year, month))
  }

  /** For a date that parses, the dashboard's 1-based reading and the salary
      hook's 0-based `getMonth()` reading pick the same month. */
  lemma MonthConventionsAgree(e: Expense, year: int, month: int)
    requires Dates.Parse(e.date).Some?
    ensures InCurrentMonth(e, year, month) <==> SalaryHook.InMonthYear(e.date, Some(month - 1), Some(year))
  {
    Dates.SplitYearMonthOfParsed(e.date);
    SalaryHook.InMonthYearBoth(e.date, month - 1, year);
  }

  predicate IsIncome(e: Expense) { e.expenseType == "income" }
  predicate NotIncome(e: Expense) { e.expenseType != "income" }

  /** The month's figures; `expense` sums every record, income included. */
  datatype MonthData = MonthData(income: real, expense: real, total: real, balance: real, count: nat, records: seq<Expense>)

  /** `currentMonthData`: income is the month's records typed exactly
      `income`; expense counts every record of the month, income included,
      so the balance is minus what the records that are not income add up
      to. */
  function CurrentMonthData(expenses: seq<Expense>, year: int, month: int): (d: MonthData)
    ensures d.records == MonthRecords(expenses, year, month) && d.count == |d.records|
    ensures d.income == Sum(Filter(d.records, IsIncome), Amount)
    ensures d.expense == d.income + Sum(Filter(d.records, NotIncome), Amount)
    ensures d.balance == -Sum(Filter(d.records, NotIncome), Amount)
    ensures d.total == d.income + d.expense
  {
    var records := MonthRecords(expenses, year, month);
    var income := Sum(Filter(records, IsIncome), Amount);
    var expense := Sum(records, Amount);
    SumPartition(records, IsIncome, NotIncome, Amount);
    MonthData(income, expense, income + expense, income - expense, |records|, records)
  }

  // ---- the per-type chart

  /** `expense_type.toLowerCase()`: the chart's grouping key. */
  function LowerType(e: Expense): string
  {
    Text.Lower(e.expenseType)
  }

  /** The month's per-type totals, keyed by lower-cased type, largest first. */
  function TypeTotals(records: seq<Expense>): (r: seq<Entry<string>>)
    ensures Distinct(KeysOf(r))
    ensures forall i :: 0 <= i < |records| ==> LowerType(records[i]) in KeysOf(r)
    ensures forall i :: 0 <= i < |r| ==> r[i].key in Map(records, LowerType)
    ensures forall i :: 0 <= i < |r| ==> r[i].total == SumFor(records, LowerType, Amount, r[i].key)
    ensures forall i, j :: 0 <= i < j < |r| ==> r[i].total >= r[j].total
    ensures TotalOf(r) == Sum(records, Amount)
  {
    GroupSorted(records, LowerType, Amount, LargestFirst)
  }

  /** A bar's type: its label lower-cased. */
  function BarType(p: ChartPoint): string
  {
    Text.Lower(p.name)
  }

  /** `expenseTypeChartData`: one bar per type up to case, labelled with its
      first character upper-cased, largest first; lower-casing the labels
      gives back the distinct grouping keys, every record's type has its
      bar, and the bars add up to the month's `expense`. */
  function TypeChart(records: seq<Expense>): (r: seq<ChartPoint>)
    ensures Map(r, BarType) == KeysOf(TypeTotals(records))
    ensures Distinct(Map(r, BarType))
    ensures forall i :: 0 <= i < |records| ==> LowerType(records[i]) in Map(r, BarType)
    ensures forall i :: 0 <= i < |r| ==> r[i].value == SumFor(records, LowerType, Amount, BarType(r[i]))
    ensures forall i, j :: 0 <= i < j < |r| ==> r[i].value >= r[j].value
    ensures Sum(r, PointValue) == Sum(records, Amount)
  {
    var totals := TypeTotals(records);
    var r := ToPoints(totals, Text.Capitalize);
    ToPointsTotal(totals, Text.Capitalize);
    LabelsLowerToKeys(records);
    assert Map(r, BarType) == KeysOf(totals);
    r
  }

  /** Every key of the chart is lower-case already. */
  lemma LabelsLowerToKeys(records: seq<Expense>)
    ensures forall i :: 0 <= i < |TypeTotals(records)| ==>
      Text.Lower(Text.Capitalize(TypeTotals(records)[i].key)) == TypeTotals(records)[i].key
  {
    var totals := TypeTotals(records);
    forall i | 0 <= i < |totals| ensures Text.Lower(Text.Capitalize(totals[i].key)) == totals[i].key {
      LabelLowersToKey(records, totals[i].key);
    }
  }

  /** A key read from a record is already lower case, so lower-casing its
      capitalised label gives it back. */
  lemma LabelLowersToKey(records: seq<Expense>, k: string)
    requires k in Map(records, LowerType)
    ensures Text.Lower(Text.Capitalize(k)) == k
  {
    var i :| 0 <= i < |records| && Map(records, LowerType)[i] == k;
    Text.LowerCapitalize(k);
    Text.LowerIdempotent(records[i].expenseType);
  }

  // ---- clicking a bar

  /** What the transactions dialog shows. */
  datatype Dialog = Dialog(open: bool, expenseType: string, transactions: seq<Expense>)

  /** `handleBarClick(label)`: the month's records whose type matches the
      label up to case, shown under that label. */
  function BarClick(records: seq<Expense>, bar: string): (d: Dialog)
    ensures d.open && d.expenseType == bar
    ensures IsSubsequence(d.transactions, records)
    ensures forall i :: 0 <= i < |d.transactions| ==> LowerType(d.transactions[i]) == Text.Lower(bar)
    ensures forall i :: 0 <= i < |records| && LowerType(records[i]) == Text.Lower(bar) ==> records[i] in d.transactions
  {
    Dialog(true, bar, Filter(records, KeyIs(LowerType, Text.Lower(bar))))
  }

  /** Clicking a bar of the chart lists records whose amounts add up to the
      bar's value. */
  lemma BarClickMatchesBar(records: seq<Expense>, i: int)
    requires 0 <= i < |TypeChart(records)|
    ensures Sum(BarClick(records, TypeChart(records)[i].name).transactions, Amount) == TypeChart(records)[i].value
  {
    SumForIsFilteredSum(records, LowerType, Amount, BarType(TypeChart(records)[i]));
  }
}
