/** The recurring-expenses dialog: one editable row per recurring category,
    prefilled from last month's entry of that category; typing an amount or a
    date edits the rows (a date in the first row goes to every row); and the
    rows with a positive amount are added together. The query for last
    month's entries and today's date are parameters. */
module Recurring {
  import opened Wrappers
  import opened Seqs
  import opened Records
  import opened Numbers

  /** `RECURRING_CATEGORIES`, in the order the rows are shown. */
  const RecurringCategories: seq<string> :=
    ["House Rent", "Mess", "Monali", "TDS", "Proff Tax", "Light Bill", "Wifi"]

  datatype Row = Row(category: string, description: string, expenseType: string, amount: real, date: string)

  function HasCategory(category: string): Expense -> bool
  {
    (e: Expense) => e.category == category
  }

  /** The `categoryMap` loop: walking the rows in order, a category is
      entered only the first time it is seen. */
  function FirstSeen(m: map<string, Expense>, data: seq<Expense>): (r: map<string, Expense>)
    ensures forall c :: c in m ==> c in r && r[c] == m[c]
    decreases |data|
  {
    if data == [] then m
    else
      var e := data[0];
      FirstSeen(if e.category in m then m else m[e.category := e], data[1..])
  }

  /** The map holds, for each category that occurs, its first row. */
  lemma {:induction false} FirstSeenIsFirst(m: map<string, Expense>, data: seq<Expense>, c: string)
    requires c !in m
    ensures c in FirstSeen(m, data) <==> Find(data, HasCategory(c)).Some?
    ensures c in FirstSeen(m, data) ==> FirstSeen(m, data)[c] == Find(data, HasCategory(c)).value
    decreases |data|
  {
    if data != [] {
      var e := data[0];
      var next := if e.category in m then m else m[e.category := e];
      if e.category == c {
        assert FindIndex(data, HasCategory(c)) == 0;
      } else {
        FirstSeenIsFirst(next, data[1..], c);
        assert FindIndex(data, HasCategory(c)) == 1 + FindIndex(data[1..], HasCategory(c));
        assert Find(data, HasCategory(c)).None? <==> Find(data[1..], HasCategory(c)).None?;
      }
    }
  }

  /** `categoryMap`, built from last month's rows as the query returned them
      (newest first), so each category keeps its newest row. */
  function CategoryMap(data: seq<Expense>): map<string, Expense>
  {
    FirstSeen(map[], data)
  }

  /** `a || b` on strings. */
  function OrElse(a: string, b: string): string
  {
    if a != "" then a else b
  }

  /** The row of one category: last month's description, type and amount
      where there is one and they are not empty or zero, else the category
      name, `expense` and zero; dated `today`. */
  function RowFor(m: map<string, Expense>, category: string, today: string): (r: Row)
    ensures r.category == category && r.date == today
    ensures category !in m ==> r == Row(category, category, "expense", 0.0, today)
    ensures category in m ==>
      r.description == OrElse(m[category].description, category)
      && r.expenseType == OrElse(m[category].expenseType, "expense")
      && r.amount == m[category].amount
  {
    if category in m then
      var e := m[category];
      Row(category, OrElse(e.description, category), OrElse(e.expenseType, "expense"), e.amount, today)
    else Row(category, category, "expense", 0.0, today)
  }

  /** The rows built after fetching: one per recurring category, in the
      fixed order. */
  function BuildRows(data: seq<Expense>, today: string): (r: seq<Row>)
    ensures |r| == |RecurringCategories| == 7
    ensures forall i :: 0 <= i < |r| ==> r[i] == RowFor(CategoryMap(data), RecurringCategories[i], today)
  {
    BuildFrom(CategoryMap(data), RecurringCategories, today)
  }

  function BuildFrom(m: map<string, Expense>, categories: seq<string>, today: string): (r: seq<Row>)
    ensures |r| == |categories|
    ensures forall i :: 0 <= i < |r| ==> r[i] == RowFor(m, categories[i], today)
  {
    if categories == [] then [] else [RowFor(m, categories[0], today)] + BuildFrom(m, categories[1..], today)
  }

  /** Each row carries what the first (newest) row of its category last
      month held, or the defaults when the category has no row. */
  lemma RowsFromFirstOfCategory(data: seq<Expense>, today: string, i: int)
    requires 0 <= i < 7
    ensures Find(data, HasCategory(RecurringCategories[i])).None? ==>
      BuildRows(data, today)[i] == Row(RecurringCategories[i], RecurringCategories[i], "expense", 0.0, today)
    ensures Find(data, HasCategory(RecurringCategories[i])).Some? ==>
      BuildRows(data, today)[i].amount == Find(data, HasCategory(RecurringCategories[i])).value.amount
  {
    FirstSeenIsFirst(map[], data, RecurringCategories[i]);
  }

  /** `fetchLastMonthExpenses`: a failed query leaves the rows as they were. */
  function FetchRows(rows: seq<Row>, answer: Result<seq<Expense>, string>, today: string): (r: seq<Row>)
    ensures answer.Failure? ==> r == rows
    ensures answer.Success? ==> r == BuildRows(answer.value, today)
  {
    match answer
    case Failure(_) => rows
    case Success(data) => BuildRows(data, today)
  }

  // ---- editing

  /** `handleAmountChange`: the indexed row takes the typed amount, zero when
      it does not parse. */
  function AmountChange(rows: seq<Row>, index: int, text: string): (r: seq<Row>)
    requires 0 <= index < |rows|
    ensures |r| == |rows|
    ensures r[index] == rows[index].(amount := ParseFloat(text).OrZero())
    ensures forall i :: 0 <= i < |rows| && i != index ==> r[i] == rows[i]
  {
    rows[index := rows[index].(amount := ParseFloat(text).OrZero())]
  }

  /** `handleDateChange`: a date typed in the first row goes to every row;
      typed elsewhere, it changes only that row. */
  function DateChange(rows: seq<Row>, index: int, date: string): (r: seq<Row>)
    requires 0 <= index < |rows|
    ensures |r| == |rows|
    ensures index == 0 ==> forall i :: 0 <= i < |rows| ==> r[i] == rows[i].(date := date)
    ensures index != 0 ==> r[index] == rows[index].(date := date)
    ensures index != 0 ==> forall i :: 0 <= i < |rows| && i != index ==> r[i] == rows[i]
  {
    if index == 0 then SetDates(rows, date)
    else rows[index := rows[index].(date := date)]
  }

  function SetDates(rows: seq<Row>, date: string): (r: seq<Row>)
    ensures |r| == |rows|
    ensures forall i :: 0 <= i < |rows| ==> r[i] == rows[i].(date := date)
  {
    if rows == [] then [] else [rows[0].(date := date)] + SetDates(rows[1..], date)
  }

  // ---- submitting

  predicate Positive(r: Row) { r.amount > 0.0 }

  function ToInsert(r: Row): ExpenseInsert
  {
    ExpenseInsert(r.description, r.amount, r.category, r.expenseType, r.date)
  }

  /** The rows `handleUpdate` submits: those with a positive amount, in
      order, as inserts. */
  function ToAdd(rows: seq<Row>): (r: seq<ExpenseInsert>)
    ensures |r| == |Filter(rows, Positive)|
    ensures forall i :: 0 <= i < |r| ==> r[i] == ToInsert(Filter(rows, Positive)[i])
  {
    Map(Filter(rows, Positive), ToInsert)
  }

  /** What pressing update did: the batch sent, if any, and whether the
      dialog closed. */
  datatype Update = Update(sent: Option<seq<ExpenseInsert>>, closed: bool)

  /** `handleUpdate`: no call when no row has a positive amount; otherwise
      the batch is sent and the dialog closes only on success. */
  function HandleUpdate(rows: seq<Row>, answer: Outcome<string>): (u: Update)
    ensures u.sent.None? <==> forall i :: 0 <= i < |rows| ==> !Positive(rows[i])
    ensures u.sent.Some? ==> u.sent.value == ToAdd(rows) && u.sent.value != []
    ensures u.closed <==> u.sent.Some? && answer.Pass?
  {
    var batch := ToAdd(rows);
    if batch == [] then
      Update(None, false)
    else
      Update(Some(batch), answer.Pass?)
  }

  /** A row whose amount was typed as text that does not parse is left out
      of the batch. */
  lemma UnparsableAmountNotSent(rows: seq<Row>, index: int, text: string)
    requires 0 <= index < |rows|
    requires ParseFloat(text).NaN?
    ensures !Positive(AmountChange(rows, index, text)[index])
    ensures forall i :: 0 <= i < |ToAdd(AmountChange(rows, index, text))| ==>
      ToAdd(AmountChange(rows, index, text))[i] in ToAdd(rows)
  {
    var after := AmountChange(rows, index, text);
    assert ParseFloat(text).OrZero() == 0.0;
    assert !Positive(after[index]);
    OnlyOldPositivesSent(rows, after, index);
  }

  /** When the one changed row is not positive, every insert sent after the
      change was already among those sent before it. */
  lemma OnlyOldPositivesSent(rows: seq<Row>, after: seq<Row>, index: int)
    requires 0 <= index < |rows| == |after|
    requires !Positive(after[index])
    requires forall i :: 0 <= i < |rows| && i != index ==> after[i] == rows[i]
    ensures forall i :: 0 <= i < |ToAdd(after)| ==> ToAdd(after)[i] in ToAdd(rows)
  {
    forall i | 0 <= i < |ToAdd(after)| ensures ToAdd(after)[i] in ToAdd(rows) {
      var x := Filter(after, Positive)[i];
      assert x in after && Positive(x);
      var j :| 0 <= j < |after| && after[j] == x;
      assert j != index;
      assert rows[j] in Filter(rows, Positive);
      var k :| 0 <= k < |Filter(rows, Positive)| && Filter(rows, Positive)[k] == rows[j];
      assert ToAdd(rows)[k] == ToInsert(x);
    }
  }

  /** After a date is typed in the first row, every expense sent carries it. */
  lemma FirstRowDateReachesBatch(rows: seq<Row>, date: string)
    requires rows != []
    ensures forall i :: 0 <= i < |ToAdd(DateChange(rows, 0, date))| ==> ToAdd(DateChange(rows, 0, date))[i].date == date
  {
    var after := DateChange(rows, 0, date);
    forall i | 0 <= i < |ToAdd(after)| ensures ToAdd(after)[i].date == date {
      var x := Filter(after, Positive)[i];
      var j :| 0 <= j < |after| && after[j] == x;
    }
  }
}
