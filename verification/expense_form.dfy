/** The expense form: the category list it offers, its validation, how it
    decides that a category is new and which type the expense gets, and the
    submit sequence (a new category is written to the master table before the
    expense itself). The master table's loading flag and rows, the manual
    type and the answers of the two remote calls are parameters. */
module ExpenseForm {
  import opened Wrappers
  import opened Seqs
  import opened Records
  import opened Numbers
  import Text
  import MasterStore

  /** `Array.from(new Set([...categories, ...CATEGORIES]))`: the given
      categories then the defaults, each name once at its first place. */
  function AllCategories(categories: seq<string>): (r: seq<string>)
    ensures Distinct(r)
    ensures forall x :: x in r <==> x in categories || x in MasterStore.DefaultCategories
  {
    var s := categories + MasterStore.DefaultCategories;
    var r := Dedup(s);
    assert forall x :: x in s <==> x in categories || x in MasterStore.DefaultCategories;
    r
  }

  /** The given categories come before every default that is not one of
      them. */
  lemma GivenCategoriesFirst(categories: seq<string>, i: int, j: int)
    requires 0 <= i < |AllCategories(categories)| && 0 <= j < |AllCategories(categories)|
    requires AllCategories(categories)[i] in categories && AllCategories(categories)[j] !in categories
    ensures i < j
  {
    var s := categories + MasterStore.DefaultCategories;
    var r := AllCategories(categories);
    DedupOrder(s);
    assert s[..|categories|] == categories;
    IndexOfInPrefix(s, |categories|, r[i]);
    assert IndexOf(s, r[i]) < |categories|;
    assert forall k :: 0 <= k < |categories| ==> s[k] != r[j] by {
      forall k | 0 <= k < |categories| ensures s[k] != r[j] {
        assert s[k] == categories[k];
      }
    }
    assert r[j] in s;
    assert IndexOf(s, r[j]) >= |categories|;
  }

  /** The text of the form's fields. */
  datatype FormData = FormData(description: string, amount: string, category: string, date: string)

  /** The messages the form shows, one slot per field plus one for the
      submission. */
  datatype Errors = Errors(description: Option<string>, amount: Option<string>, date: Option<string>, submit: Option<string>)

  const NoErrors := Errors(None, None, None, None)

  /** `validate`: the description must not be blank, the amount filled in
      and not at most zero, and the date filled in. Amount text that does
      not parse is not at most zero, so it passes. */
  function Validate(f: FormData): (e: Errors)
    ensures e.description.Some? <==> Text.IsBlank(f.description)
    ensures e.amount.Some? <==> f.amount == "" || ParseFloat(f.amount).AtMost(0.0)
    ensures e.date.Some? <==> f.date == ""
    ensures e.submit.None?
  {
    Text.TrimEmptyIffBlank(f.description);
    Errors(
      if Text.Trim(f.description) == "" then Some("Description is required") else None,
      if f.amount == "" || ParseFloat(f.amount).AtMost(0.0) then Some("Amount must be greater than 0") else None,
      if f.date == "" then Some("Date is required") else None,
      None)
  }

  /** `isNewCategory`: never while the master table loads; afterwards, the
      category is not in the table ignoring case. */
  predicate IsNewCategory(loading: bool, master: seq<MasterEntry>, category: string)
  {
    !loading && !MasterStore.IsCategoryInMaster(master, category)
  }

  /** `a || b` on strings: `b` when `a` is empty. */
  function OrElse(a: string, b: string): string
  {
    if a != "" then a else b
  }

  /** `currentExpenseType`: `expense` while the master table loads;
      afterwards the manual type if one was typed, else the master table's
      type for the category, else the empty string. */
  function CurrentExpenseType(loading: bool, master: seq<MasterEntry>, manual: Option<string>, category: string): (t: string)
    ensures loading ==> t == "expense"
    ensures !loading && manual.Some? && manual.value != "" ==> t == manual.value
    ensures !loading && (manual.None? || manual.value == "") ==>
      t == MasterStore.ExpenseTypeByCategory(master, category).GetOr("")
  {
    if loading then "expense"
    else OrElse(manual.GetOr(""), MasterStore.ExpenseTypeByCategory(master, category).GetOr(""))
  }

  /** A category the table knows gets the table's type unless one was typed
      by hand; a new category has no type until one is typed. */
  lemma TypeOfKnownAndNewCategories(master: seq<MasterEntry>, category: string)
    ensures IsNewCategory(false, master, category) ==> CurrentExpenseType(false, master, None, category) == ""
    ensures !IsNewCategory(false, master, category) ==>
      exists i :: MasterStore.FirstMatchAt(master, category, i)
        && CurrentExpenseType(false, master, None, category) == master[i].expenseType
  {
    MasterStore.LookupIffKnown(master, category);
  }

  /** The row sent for the expense; the amount is sent as parsed. */
  datatype Payload = Payload(description: string, amount: Number, category: string, expenseType: string, date: string)

  /** What pressing submit did: the messages shown, the master row written
      (category and type), the expense sent, and whether the form closed. */
  datatype Submission = Submission(errors: Errors, masterRow: Option<(string, string)>, sent: Option<Payload>, closed: bool)

  /** The branches of `handleSubmit` once the form's checks are evaluated:
      `errors` from validation, whether the category is new, the type in
      effect and the row that would be sent. */
  function Decide(errors: Errors, isNew: bool, expenseType: string, payload: Payload,
                  masterAnswer: Outcome<string>, expenseAnswer: Outcome<string>): (r: Submission)
    ensures errors != NoErrors ==> r == Submission(errors, None, None, false)
    ensures r.masterRow.Some? <==> errors == NoErrors && isNew && expenseType != ""
    ensures r.masterRow.Some? ==> r.masterRow.value == (payload.category, expenseType)
    ensures r.sent.Some? <==>
      errors == NoErrors && (isNew ==> expenseType != "") && (r.masterRow.Some? ==> masterAnswer.Pass?)
    ensures r.sent.Some? ==> r.sent.value == payload
    ensures r.closed <==> r.sent.Some? && expenseAnswer.Pass?
    ensures r.sent.Some? && expenseAnswer.Fail? && expenseAnswer.error != "" ==> r.errors.submit == Some(expenseAnswer.error)
    ensures r.masterRow.Some? && masterAnswer.Fail? ==> r.errors.submit.Some? && r.errors.submit.value != ""
  {
    if errors != NoErrors then Submission(errors, None, None, false)
    else if isNew && expenseType == "" then
      Submission(NoErrors.(submit := Some("Please select an expense type for the new category")), None, None, false)
    else
      var masterRow := if isNew then Some((payload.category, expenseType)) else None;
      if isNew && masterAnswer.Fail? then
        Submission(NoErrors.(submit := Some(OrElse(masterAnswer.error, "Failed to add category to master table"))),
          masterRow, None, false)
      else
        match expenseAnswer
        case Pass => Submission(errors, masterRow, Some(payload), true)
        case Fail(message) =>
          Submission(if message != "" then errors.(submit := Some(message)) else errors, masterRow, Some(payload), false)
  }

  /** `handleSubmit`: validate; refuse a new category without a type; write
      a new category to the master table and stop if that fails; send the
      expense; close on success, show the store's message otherwise.
      `masterAnswer` and `expenseAnswer` are what the two calls answer. */
  function Submit(f: FormData, loading: bool, master: seq<MasterEntry>, manual: Option<string>,
                  masterAnswer: Outcome<string>, expenseAnswer: Outcome<string>): (r: Submission)
    ensures Validate(f) != NoErrors ==> r == Submission(Validate(f), None, None, false)
    ensures r.masterRow.Some? <==>
      Validate(f) == NoErrors && IsNewCategory(loading, master, f.category)
      && CurrentExpenseType(loading, master, manual, f.category) != ""
    ensures r.masterRow.Some? ==> r.masterRow.value == (f.category, CurrentExpenseType(loading, master, manual, f.category))
    ensures r.sent.Some? <==>
      Validate(f) == NoErrors
      && (IsNewCategory(loading, master, f.category) ==> CurrentExpenseType(loading, master, manual, f.category) != "")
      && (r.masterRow.Some? ==> masterAnswer.Pass?)
    ensures r.sent.Some? ==> r.sent.value == Payload(Text.Trim(f.description), ParseFloat(f.amount), f.category,
      CurrentExpenseType(loading, master, manual, f.category), f.date)
    ensures r.closed <==> r.sent.Some? && expenseAnswer.Pass?
    ensures r.sent.Some? && expenseAnswer.Fail? && expenseAnswer.error != "" ==> r.errors.submit == Some(expenseAnswer.error)
    ensures r.masterRow.Some? && masterAnswer.Fail? ==> r.errors.submit.Some? && r.errors.submit.value != ""
  {
    var expenseType := CurrentExpenseType(loading, master, manual, f.category);
    Decide(Validate(f), IsNewCategory(loading, master, f.category), expenseType,
      Payload(Text.Trim(f.description), ParseFloat(f.amount), f.category, expenseType, f.date),
      masterAnswer, expenseAnswer)
  }

  /** While the master table loads, no category counts as new and the
      derived type is `expense`, whatever the table, the typed type and the
      category. These are values the component derives but never submits:
      while the table loads it shows a spinner instead of the form. */
  lemma LoadingDerivesExpense(master: seq<MasterEntry>, otherMaster: seq<MasterEntry>,
                              manual: Option<string>, otherManual: Option<string>, category: string)
    ensures !IsNewCategory(true, master, category)
    ensures CurrentExpenseType(true, master, manual, category) == "expense"
    ensures CurrentExpenseType(true, master, manual, category) == CurrentExpenseType(true, otherMaster, otherManual, category)
  {
  }

  /** Once the new category's row is written, the category is known to the
      table with the type the expense was sent with. */
  lemma WrittenCategoryIsKnown(f: FormData, master: seq<MasterEntry>, manual: Option<string>,
                               row: MasterEntry, expenseAnswer: Outcome<string>)
    requires Submit(f, false, master, manual, Pass, expenseAnswer).masterRow == Some((row.category, row.expenseType))
    ensures Submit(f, false, master, manual, Pass, expenseAnswer).sent.Some?
    ensures MasterStore.ExpenseTypeByCategory(master + [row], f.category)
      == Some(Submit(f, false, master, manual, Pass, expenseAnswer).sent.value.expenseType)
  {
    var s := MasterStore.State(master, None);
    MasterStore.AddedCategoryResolves(s, row, f.category);
  }
}
