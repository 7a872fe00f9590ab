/** The salary page: the add form's validation and payload, the edit form's
    weaker validation, the year box that selects the year shown, the lookup
    of the salary row to edit by its date, and the yearly table (monthly rows
    with salary and the overall row), shown only while a year is selected. */
module SalaryPage {
  import opened Wrappers
  import opened Seqs
  import opened Records
  import opened Numbers
  import opened SalaryHook
  import Dates

  // ---- the add form

  /** The text of the salary form's six fields. */
  datatype SalaryForm = SalaryForm(date: string, grossSalary: string, epf: string, mf: string, vpf: string, etf: string)

  const EmptyForm := SalaryForm("", "", "", "", "", "")

  /** The messages shown under the date and gross-salary fields. */
  datatype FormErrors = FormErrors(date: Option<string>, grossSalary: Option<string>)

  const NoErrors := FormErrors(None, None)

  /** `validateForm`: the date must be filled in, and the gross salary filled
      in and not at most zero (text that does not parse is not at most zero,
      so it passes). */
  function ValidateForm(f: SalaryForm): (e: FormErrors)
    ensures e.date.Some? <==> f.date == ""
    ensures e.grossSalary.Some? <==> f.grossSalary == "" || ParseFloat(f.grossSalary).AtMost(0.0)
  {
    FormErrors(
      if f.date == "" then Some("Date is required") else None,
      if f.grossSalary == "" || ParseFloat(f.grossSalary).AtMost(0.0)
      then Some("Gross salary must be greater than 0") else None)
  }

  /** The row sent to the store; the gross salary is sent as parsed, NaN
      included. */
  datatype SalaryPayload = SalaryPayload(date: string, grossSalary: Number, epf: real, mf: real, vpf: real, etf: real)

  /** A contribution field: its parsed value, zero when it is empty or does
      not parse (`parseFloat(x) || 0`). */
  function Contribution(text: string): (v: real)
    ensures text == "" ==> v == 0.0
    ensures ParseFloat(text).NaN? ==> v == 0.0
    ensures ParseFloat(text).Finite? ==> v == ParseFloat(text).value
  {
    ParseFloat(text).OrZero()
  }

  /** A contribution typed as a plain numeral counts at its value. */
  lemma ContributionOfDigits(text: string)
    requires text != [] && AllDigits(text)
    ensures Contribution(text) == DigitsValue(text) as real
  {
    ParseFloatDigits(text);
  }

  /** The payload built from a form, both on add and on edit. */
  function Payload(f: SalaryForm): (p: SalaryPayload)
    ensures p.date == f.date && p.grossSalary == ParseFloat(f.grossSalary)
    ensures p.epf == Contribution(f.epf) && p.mf == Contribution(f.mf)
    ensures p.vpf == Contribution(f.vpf) && p.etf == Contribution(f.etf)
  {
    SalaryPayload(f.date, ParseFloat(f.grossSalary),
      Contribution(f.epf), Contribution(f.mf), Contribution(f.vpf), Contribution(f.etf))
  }

  /** Empty or unparsable contributions are sent as zero, so the direct
      saving of the stored row counts only what was typed as a number. */
  lemma EmptyContributionsAreZero(f: SalaryForm)
    requires ParseFloat(f.epf).NaN? && ParseFloat(f.mf).NaN? && ParseFloat(f.vpf).NaN? && ParseFloat(f.etf).NaN?
    ensures Payload(f).epf + Payload(f).mf + Payload(f).vpf + Payload(f).etf == 0.0
  {
  }

  /** What the add dialog holds: the form, its errors, and whether it is open. */
  datatype AddDialog = AddDialog(form: SalaryForm, errors: FormErrors, open: bool)

  /** The outcome of pressing submit: the dialog afterwards and what was
      sent to the store, if anything was sent. */
  datatype Submitted<D, P> = Submitted(dialog: D, sent: Option<P>)

  /** `handleSubmit`: an invalid form shows its errors and sends nothing; a
      valid one sends its payload, and the dialog closes and empties only when
      the store accepts it. */
  function SubmitAdd(d: AddDialog, store: Outcome<string>): (r: Submitted<AddDialog, SalaryPayload>)
    ensures r.sent.Some? <==> ValidateForm(d.form) == NoErrors
    ensures r.sent.Some? ==> r.sent.value == Payload(d.form)
    ensures r.dialog.errors == ValidateForm(d.form)
    ensures r.sent.Some? && store.Pass? ==> r.dialog == AddDialog(EmptyForm, NoErrors, false)
    ensures !(r.sent.Some? && store.Pass?) ==> r.dialog.form == d.form && r.dialog.open == d.open
  {
    var errors := ValidateForm(d.form);
    var ok := errors.date.None? && errors.grossSalary.None?;
    assert ok <==> errors == NoErrors;
    var sent := if ok then Some(Payload(d.form)) else None;
    if sent.Some? && store.Pass? then Submitted(AddDialog(EmptyForm, NoErrors, false), sent)
    else Submitted(AddDialog(d.form, errors, d.open), sent)
  }

  // ---- the edit form

  /** The edit form: the text fields and the id of the row being edited. */
  datatype EditForm = EditForm(id: int, fields: SalaryForm)

  const EmptyEditForm := EditForm(0, EmptyForm)

  /** The edit form's check: date and gross salary only need to be filled
      in. An empty message stands for no error. */
  function ValidateEdit(f: SalaryForm): (e: FormErrors)
    ensures e.date.Some? <==> f.date == ""
    ensures e.grossSalary.Some? <==> f.grossSalary == ""
  {
    FormErrors(
      if f.date == "" then Some("Date is required") else None,
      if f.grossSalary == "" then Some("Gross salary is required") else None)
  }

  /** Every form the add dialog accepts the edit dialog accepts too, but not
      conversely: the edit dialog takes a gross salary of zero. */
  lemma EditCheckIsWeaker(f: SalaryForm)
    ensures ValidateForm(f) == NoErrors ==> ValidateEdit(f) == NoErrors
    ensures ValidateEdit(SalaryForm("2024-01-31", "0", "", "", "", "")) == NoErrors
    ensures ValidateForm(SalaryForm("2024-01-31", "0", "", "", "", "")) != NoErrors
  {
    ParseFloatDigits("0");
  }

  datatype EditDialog = EditDialog(selectedDate: string, form: EditForm, errors: FormErrors, open: bool)

  /** `handleEditSubmit`: a form missing its date or gross salary shows the
      errors and sends nothing; otherwise the form's id and its payload are
      sent (`updateSalaryDetail(id, data)`), and the dialog closes and empties
      only when the store accepts it. */
  function SubmitEdit(d: EditDialog, store: Outcome<string>): (r: Submitted<EditDialog, (int, SalaryPayload)>)
    ensures r.sent.Some? <==> d.form.fields.date != "" && d.form.fields.grossSalary != ""
    ensures r.sent.Some? ==> r.sent.value == (d.form.id, Payload(d.form.fields))
    ensures r.sent.None? ==> r.dialog == d.(errors := ValidateEdit(d.form.fields))
    ensures r.sent.Some? && store.Pass? ==> r.dialog == EditDialog("", EmptyEditForm, d.errors, false)
    ensures r.sent.Some? && store.Fail? ==> r.dialog == d
  {
    if d.form.fields.date == "" || d.form.fields.grossSalary == "" then
      Submitted(d.(errors := ValidateEdit(d.form.fields)), None)
    else if store.Pass? then
      Submitted(EditDialog("", EmptyEditForm, d.errors, false), Some((d.form.id, Payload(d.form.fields))))
    else Submitted(d, Some((d.form.id, Payload(d.form.fields))))
  }

  /** `handleEditDateSelect`: the first salary row stored under exactly this
      date string fills the form (`render` writes a number as text); when
      there is none the form stays as it was. The errors are cleared either
      way. */
  function SelectEditDate(d: EditDialog, details: seq<SalaryDetail>, date: string, render: real -> string): (r: EditDialog)
    ensures r.selectedDate == date && r.errors == NoErrors && r.open == d.open
    ensures (forall i :: 0 <= i < |details| ==> details[i].date != date) ==> r.form == d.form
    ensures forall k :: 0 <= k < |details| && FirstWithDate(details, date, k) ==> r.form == RowForm(details[k], render)
  {
    var dated := (x: SalaryDetail) => x.date == date;
    var found := Find(details, dated);
    match found
    case Some(row) =>
      var j := FindIndex(details, dated);
      assert row == details[j];
      forall k | 0 <= k < |details| && FirstWithDate(details, date, k) ensures k == j {
        assert dated(details[k]) && dated(details[j]);
      }
      EditDialog(date, RowForm(row, render), NoErrors, d.open)
    case None =>
      forall k | 0 <= k < |details| ensures !FirstWithDate(details, date, k) {
        assert !dated(details[k]);
      }
      EditDialog(date, d.form, NoErrors, d.open)
  }

  /** Row `k` is the first one stored under `date`. */
  predicate FirstWithDate(details: seq<SalaryDetail>, date: string, k: nat)
    requires k < |details|
  {
    details[k].date == date && forall i :: 0 <= i < k ==> details[i].date != date
  }

  /** The edit form showing a stored row: its id, its date, and its five
      figures written as text by `render` (`toString()`). */
  function RowForm(row: SalaryDetail, render: real -> string): (f: EditForm)
    ensures f.id == row.id && f.fields.date == row.date
    ensures f.fields.grossSalary == render(row.grossSalary)
    ensures f.fields.epf == render(row.epf) && f.fields.mf == render(row.mf)
    ensures f.fields.vpf == render(row.vpf) && f.fields.etf == render(row.etf)
  {
    EditForm(row.id, SalaryForm(row.date, render(row.grossSalary), render(row.epf), render(row.mf), render(row.vpf), render(row.etf)))
  }

  /** `render` writes `x` as text that `parseFloat` reads back as `x`. */
  predicate ReadsBack(render: real -> string, x: real)
  {
    ParseFloat(render(x)) == Finite(x)
  }

  /** Submitting a stored row's form untouched sends that row back under
      its own id, with its own figures, provided the figures' text reads
      back. */
  lemma ResubmitUnchangedRow(row: SalaryDetail, render: real -> string, selectedDate: string, errors: FormErrors, open: bool)
    requires row.date != ""
    requires ReadsBack(render, row.grossSalary) && ReadsBack(render, row.epf) && ReadsBack(render, row.mf)
    requires ReadsBack(render, row.vpf) && ReadsBack(render, row.etf)
    ensures SubmitEdit(EditDialog(selectedDate, RowForm(row, render), errors, open), Pass).sent
      == Some((row.id, SalaryPayload(row.date, Finite(row.grossSalary), row.epf, row.mf, row.vpf, row.etf)))
  {
  }

  /** The edit dialog's Apply button: text not shaped `YYYY-MM-DD` only
      produces a format error; shaped text looks the row up. */
  function ApplyEditDate(d: EditDialog, details: seq<SalaryDetail>, dateInput: string, render: real -> string): (r: EditDialog)
    ensures !Dates.IsIsoShape(dateInput) ==> r == d.(errors := FormErrors(Some("Please enter date in YYYY-MM-DD format"), None))
    ensures Dates.IsIsoShape(dateInput) ==> r == SelectEditDate(d, details, dateInput, render)
  {
    if Dates.IsIsoShape(dateInput) then SelectEditDate(d, details, dateInput, render)
    else d.(errors := FormErrors(Some("Please enter date in YYYY-MM-DD format"), None))
  }

  // ---- the year box

  /** The text of the year box and the year it selects. */
  datatype YearBox = YearBox(input: string, selected: Option<int>)

  const NoYear := YearBox("", None)

  predicate InYearRange(year: int)
  {
    2016 <= year <= 2050
  }

  /** The year box's change handler: empty text clears both; text that is not
      all digits, or longer than four, is ignored; otherwise the text is
      kept, and four digits select their year when it lies in 2016..2050 and
      deselect otherwise, while one to three digits leave the selection. */
  function OnYearInput(s: YearBox, value: string): (r: YearBox)
    ensures value == "" ==> r == NoYear
    ensures value != "" && (!AllDigits(value) || |value| > 4) ==> r == s
    ensures value != "" && AllDigits(value) && |value| < 4 ==> r == YearBox(value, s.selected)
    ensures |value| == 4 && AllDigits(value) ==>
      r.input == value && (r.selected.Some? <==> InYearRange(DigitsValue(value)))
      && (r.selected.Some? ==> r.selected.value == DigitsValue(value))
  {
    if value == "" then NoYear
    else if AllDigits(value) && |value| <= 4 then
      if |value| == 4 then
        ParseIntDigits(value);
        var year := ParseInt(value).value;
        YearBox(value, if InYearRange(year) then Some(year) else None)
      else YearBox(value, s.selected)
    else s
  }

  /** `handleResetFilter` */
  function ResetYear(s: YearBox): (r: YearBox)
    ensures r.selected.None? && r.input == ""
  {
    NoYear
  }

  /** What the year box can hold: digits, at most four of them, and a
      selected year within 2016..2050. */
  predicate YearBoxOk(s: YearBox)
  {
    AllDigits(s.input) && |s.input| <= 4 && (s.selected.Some? ==> InYearRange(s.selected.value))
  }

  /** Typing keeps the year box well formed, starting from the empty box. */
  lemma YearBoxStaysOk(s: YearBox, value: string)
    requires YearBoxOk(s)
    ensures YearBoxOk(OnYearInput(s, value))
    ensures YearBoxOk(NoYear)
  {
  }

  // ---- the yearly table

  /** The summary shown: none without a selected year; with one, the yearly
      summary of the salary rows and expenses of that year. Each month then
      holds the totals of that month of the selected year. */
  function PageSummary(salaries: seq<SalaryDetail>, expenses: seq<Expense>, selected: Option<int>): (r: Option<seq<MonthSummary>>)
    ensures r.None? <==> selected.None?
    ensures r.Some? ==> |r.value| == 12 && forall m :: 0 <= m < 12 ==> r.value[m].month == m
    ensures r.Some? ==> forall m :: 0 <= m < 12 ==> r.value[m].totals == Totals(
      SelectByMonthYear(salaries, SalaryDate, Some(m), selected),
      SelectByMonthYear(expenses, ExpenseDate, Some(m), selected))
  {
    match selected
    case None => None
    case Some(year) =>
      var yearSalaries := SelectByMonthYear(salaries, SalaryDate, None, Some(year));
      var yearExpenses := SelectByMonthYear(expenses, ExpenseDate, None, Some(year));
      var yearly := YearlySummary(yearSalaries, yearExpenses, year);
      forall m | 0 <= m < 12
        ensures yearly[m].totals == Totals(
          SelectByMonthYear(salaries, SalaryDate, Some(m), selected),
          SelectByMonthYear(expenses, ExpenseDate, Some(m), selected))
      {
        SelectYearThenMonth(salaries, SalaryDate, Some(m), year);
        SelectYearThenMonth(expenses, ExpenseDate, Some(m), year);
      }
      Some(yearly)
  }

  /** The overall row: present with the table, and then the totals of the
      whole selected year, its saving percentage recomputed from the summed
      gross salary and expenses. */
  function OverallRow(salaries: seq<SalaryDetail>, expenses: seq<Expense>, selected: Option<int>): (r: Option<Summary>)
    ensures r.Some? <==> selected.Some?
    ensures r.Some? ==> r.value == Totals(
      SelectByMonthYear(salaries, SalaryDate, None, selected),
      SelectByMonthYear(expenses, ExpenseDate, None, selected))
  {
    match selected
    case None => None
    case Some(year) =>
      var yearSalaries := SelectByMonthYear(salaries, SalaryDate, None, Some(year));
      var yearExpenses := SelectByMonthYear(expenses, ExpenseDate, None, Some(year));
      OverallIsYearTotals(yearSalaries, yearExpenses, year);
      SelectYearThenMonth(salaries, SalaryDate, None, year);
      SelectYearThenMonth(expenses, ExpenseDate, None, year);
      Some(Overall(PageSummary(salaries, expenses, selected).value))
  }

  /** The monthly rows: the months of the table with salary, in month order;
      a month appears exactly when salary was paid in it. */
  function MonthRows(salaries: seq<SalaryDetail>, expenses: seq<Expense>, year: int): (r: seq<MonthSummary>)
    ensures forall i, j :: 0 <= i < j < |r| ==> r[i].month < r[j].month
    ensures forall i :: 0 <= i < |r| ==> 0 <= r[i].month < 12 && r[i].totals == Totals(
      SelectByMonthYear(salaries, SalaryDate, Some(r[i].month), Some(year)),
      SelectByMonthYear(expenses, ExpenseDate, Some(r[i].month), Some(year)))
    ensures forall i :: 0 <= i < |r| ==> r[i].totals.grossSalary > 0.0
    ensures forall m :: 0 <= m < 12 && PaidIn(salaries, m, year) ==> PageSummary(salaries, expenses, Some(year)).value[m] in r
  {
    var yearly := PageSummary(salaries, expenses, Some(year)).value;
    var r := MonthsWithGross(yearly);
    MonthsWithGrossAt(yearly);
    forall i | 0 <= i < |r|
      ensures r[i].totals == Totals(
        SelectByMonthYear(salaries, SalaryDate, Some(r[i].month), Some(year)),
        SelectByMonthYear(expenses, ExpenseDate, Some(r[i].month), Some(year)))
    {
      assert r[i] == yearly[r[i].month];
    }
    forall m | 0 <= m < 12 && PaidIn(salaries, m, year) ensures yearly[m] in r {
      assert HasGross(yearly[m]);
    }
    r
  }

  /** Salary was paid in month `m` (0-based) of `year`. */
  predicate PaidIn(salaries: seq<SalaryDetail>, m: int, year: int)
  {
    Sum(SelectByMonthYear(salaries, SalaryDate, Some(m), Some(year)), Gross) > 0.0
  }
}
