/** The rows of the four tables the application reads (`expenses`,
    `salary_details`, `master`, `milk_details`), the named field views the
    sums are taken over, and the two list updates the hooks apply after a
    successful remote write: replace the rows carrying an id, and drop them. */
module Records {

  datatype Expense = Expense(
    id: int,
    description: string,
    amount: real,
    category: string,
    expenseType: string,
    date: string)

  /** An expense as the forms submit it: the store assigns the id. */
  datatype ExpenseInsert = ExpenseInsert(
    description: string,
    amount: real,
    category: string,
    expenseType: string,
    date: string)

  datatype SalaryDetail = SalaryDetail(
    id: int,
    date: string,
    grossSalary: real,
    epf: real,
    mf: real,
    vpf: real,
    etf: real)

  /** A row of the category-to-type table. */
  datatype MasterEntry = MasterEntry(id: int, category: string, expenseType: string)

  datatype MilkDetail = MilkDetail(id: int, srNo: int, kg: real, createdAt: string)

  // ---- field views, passed to the generic sums and selections

  function Amount(e: Expense): real { e.amount }
  function ExpenseDate(e: Expense): string { e.date }
  function ExpenseId(e: Expense): int { e.id }
  function ExpenseTypeOf(e: Expense): string { e.expenseType }
  function CategoryOf(e: Expense): string { e.category }
  function DescriptionOf(e: Expense): string { e.description }
  function Gross(d: SalaryDetail): real { d.grossSalary }
  function SalaryDate(d: SalaryDetail): string { d.date }
  function SalaryId(d: SalaryDetail): int { d.id }
  function Kg(m: MilkDetail): real { m.kg }
  function MasterCategory(m: MasterEntry): string { m.category }
  function MasterType(m: MasterEntry): string { m.expenseType }

  /** The four saving contributions taken out of the gross salary
      (`epf + mf + vpf + etf`). */
  function DirectSaving(d: SalaryDetail): real
  {
    d.epf + d.mf + d.vpf + d.etf
  }

  /** `rows.map(r => r.id === id ? row : r)`: every row carrying `id` becomes
      `row`; all other rows stay where they are. */
  function ReplaceById<T>(rows: seq<T>, idOf: T -> int, id: int, row: T): (r: seq<T>)
    ensures |r| == |rows|
    ensures forall i :: 0 <= i < |rows| && idOf(rows[i]) != id ==> r[i] == rows[i]
    ensures forall i :: 0 <= i < |rows| && idOf(rows[i]) == id ==> r[i] == row
  {
    if rows == [] then []
    else [if idOf(rows[0]) == id then row else rows[0]] + ReplaceById(rows[1..], idOf, id, row)
  }

  /** Replacing by an id no row carries changes nothing. */
  lemma {:induction false} ReplaceAbsentId<T>(rows: seq<T>, idOf: T -> int, id: int, row: T)
    requires forall i :: 0 <= i < |rows| ==> idOf(rows[i]) != id
    ensures ReplaceById(rows, idOf, id, row) == rows
    decreases |rows|
  {
    if rows != [] {
      ReplaceAbsentId(rows[1..], idOf, id, row);
    }
  }

  /** Replacing twice with the same row is replacing once. */
  lemma ReplaceIdempotent<T>(rows: seq<T>, idOf: T -> int, id: int, row: T)
    requires idOf(row) == id
    ensures ReplaceById(ReplaceById(rows, idOf, id, row), idOf, id, row) == ReplaceById(rows, idOf, id, row)
  {
  }

  /** `rows.filter(r => r.id !== id)` */
  function RemoveById<T>(rows: seq<T>, idOf: T -> int, id: int): (r: seq<T>)
    ensures |r| <= |rows|
    ensures forall i :: 0 <= i < |r| ==> idOf(r[i]) != id
    ensures forall i :: 0 <= i < |rows| && idOf(rows[i]) != id ==> rows[i] in r
    ensures forall i :: 0 <= i < |r| ==> r[i] in rows
  {
    if rows == [] then []
    else if idOf(rows[0]) == id then RemoveById(rows[1..], idOf, id)
    else [rows[0]] + RemoveById(rows[1..], idOf, id)
  }

  /** Removal keeps the surviving rows in their order: removing the rows of
      `a + b` is removing them from each part. */
  lemma {:induction false} RemoveByIdAppend<T>(a: seq<T>, b: seq<T>, idOf: T -> int, id: int)
    ensures RemoveById(a + b, idOf, id) == RemoveById(a, idOf, id) + RemoveById(b, idOf, id)
    decreases |a|
  {
    if a == [] {
      assert a + b == b;
    } else {
      assert (a + b)[0] == a[0] && (a + b)[1..] == a[1..] + b;
      RemoveByIdAppend(a[1..], b, idOf, id);
    }
  }

  /** Removing a row that was just prepended undoes the prepend when the
      list held no row with that id. */
  lemma RemoveUndoesPrepend<T>(rows: seq<T>, idOf: T -> int, row: T)
    requires forall i :: 0 <= i < |rows| ==> idOf(rows[i]) != idOf(row)
    ensures RemoveById([row] + rows, idOf, idOf(row)) == rows
  {
    RemoveAbsentId(rows, idOf, idOf(row));
    assert ([row] + rows)[1..] == rows;
  }

  lemma {:induction false} RemoveAbsentId<T>(rows: seq<T>, idOf: T -> int, id: int)
    requires forall i :: 0 <= i < |rows| ==> idOf(rows[i]) != id
    ensures RemoveById(rows, idOf, id) == rows
    decreases |rows|
  {
    if rows != [] {
      RemoveAbsentId(rows[1..], idOf, id);
    }
  }
}
