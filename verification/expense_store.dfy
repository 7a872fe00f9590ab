/** The expenses hook: the paged fetch that reads the whole `expenses`
    table 1000 rows at a time, and the list updates that follow a
    successful insert, update or delete. The remote table is a sequence (in
    the order the query returns it) and each call's answer is a parameter. */
module ExpenseStore {
  import opened Wrappers
  import opened Seqs
  import opened Records
  import StringOrder

  /** Rows requested per page. */
  const BatchSize: nat := 1000

  /** The hook's state: the loaded rows and the last error message. */
  datatype State = State(expenses: seq<Expense>, error: Option<string>)

  /** The rows `range(from, from + BatchSize - 1)` returns from `table`: the
      inclusive range, cut at the end of the table. */
  function Page(table: seq<Expense>, from: nat): (r: seq<Expense>)
    ensures from <= |table| ==> r == table[from..if from + BatchSize <= |table| then from + BatchSize else |table|]
    ensures from >= |table| ==> r == []
    ensures |r| <= BatchSize
  {
    if from >= |table| then []
    else if from + BatchSize <= |table| then table[from..from + BatchSize]
    else table[from..]
  }

  /** The number of requests a complete fetch of `n` rows makes: every full
      page, and then the page that comes back short or empty. */
  function Requests(n: nat): nat
  {
    n / BatchSize + 1
  }

  /** `fetchExpenses`: request pages at offsets 0, 1000, 2000, ... until a
      page comes back empty or short, then store all pages in request order.
      `pageError(k)` is the answer to the k-th request as far as errors go;
      a failing request abandons the fetch, keeps the loaded rows and
      records the message. `ranges` are the inclusive ranges requested. */
  method FetchExpenses(s: State, table: seq<Expense>, pageError: nat -> Outcome<string>)
    returns (next: State, ranges: seq<(nat, nat)>)
    ensures 1 <= |ranges| <= Requests(|table|)
    ensures forall k :: 0 <= k < |ranges| ==> ranges[k] == (BatchSize * k, BatchSize * k + BatchSize - 1)
    ensures next.error.None? <==> forall k :: 0 <= k < Requests(|table|) ==> pageError(k).Pass?
    ensures next.error.None? ==> next.expenses == table && |ranges| == Requests(|table|)
    ensures next.error.Some? ==>
      next.expenses == s.expenses
      && pageError(|ranges| - 1) == Fail(next.error.value)
      && forall k :: 0 <= k < |ranges| - 1 ==> pageError(k).Pass?
  {
    var all: seq<Expense> := [];
    var from: nat := 0;
    var hasMore := true;
    var failure: Option<string> := None;
    ranges := [];
    while hasMore
      invariant forall k :: 0 <= k < |ranges| ==> ranges[k] == (BatchSize * k, BatchSize * k + BatchSize - 1)
      invariant hasMore ==> failure.None? && from == BatchSize * |ranges| && from <= |table| && all == table[..from]
      invariant failure.None? ==> forall k :: 0 <= k < |ranges| ==> pageError(k).Pass?
      invariant !hasMore ==> |ranges| >= 1
      invariant !hasMore && failure.None? ==> all == table && |ranges| == Requests(|table|)
      invariant failure.Some? ==>
        |ranges| >= 1 && pageError(|ranges| - 1) == Fail(failure.value)
        && (forall k :: 0 <= k < |ranges| - 1 ==> pageError(k).Pass?)
        && |ranges| <= Requests(|table|)
      decreases if hasMore then |table| + 1 - from else 0
    {
      var k := |ranges|;
      ranges := ranges + [(from, from + BatchSize - 1)];
      WithinRequests(k, |table|);
      match pageError(k)
      case Fail(message) =>
        failure := Some(message);
        hasMore := false;
      case Pass =>
        var data := Page(table, from);
        if data == [] {
          LastRequest(k, |table|);
          hasMore := false;
        } else {
          all := all + data;
          if |data| == BatchSize {
            assert all == table[..from + BatchSize];
          } else {
            LastRequest(k, |table|);
          }
          from := from + BatchSize;
          hasMore := |data| == BatchSize;
        }
    }
    if failure.Some? {
      next := State(s.expenses, failure);
    } else {
      next := State(all, None);
    }
  }

  /** A request made at offset `1000 k <= n` is within the bound. */
  lemma WithinRequests(k: nat, n: nat)
    requires BatchSize * k <= n
    ensures k + 1 <= Requests(n)
  {
  }

  /** A request at offset `1000 k` that sees fewer than 1000 remaining rows
      is the last one a complete fetch makes. */
  lemma LastRequest(k: nat, n: nat)
    requires BatchSize * k <= n < BatchSize * k + BatchSize
    ensures Requests(n) == k + 1
  {
  }

  // ---- list updates after a remote write

  /** `addExpense`: on a failed insert the list stays and the message is
      returned; when the store echoes rows the first is put in front;
      when it echoes nothing the list becomes whatever `refetched` holds
      (the state a fresh `fetchExpenses` leaves). */
  function AddExpense(s: State, inserted: Result<seq<Expense>, string>, refetched: State): (r: (State, Outcome<string>))
    ensures inserted.Failure? ==> r == (s, Fail(inserted.error))
    ensures inserted.Success? && inserted.value != [] ==>
      r.1 == Pass && r.0.expenses == [inserted.value[0]] + s.expenses && r.0.error == s.error
    ensures inserted.Success? && inserted.value == [] ==> r == (refetched, Pass)
  {
    match inserted
    case Failure(message) => (s, Fail(message))
    case Success(rows) =>
      if rows != [] then (s.(expenses := [rows[0]] + s.expenses), Pass)
      else (refetched, Pass)
  }

  /** `addExpenses`: like `AddExpense`, but every echoed row goes in front,
      in the order the store returned them. */
  function AddExpenses(s: State, inserted: Result<seq<Expense>, string>, refetched: State): (r: (State, Outcome<string>))
    ensures inserted.Failure? ==> r == (s, Fail(inserted.error))
    ensures inserted.Success? && inserted.value != [] ==>
      r.1 == Pass && |r.0.expenses| == |inserted.value| + |s.expenses|
      && r.0.expenses[..|inserted.value|] == inserted.value
      && r.0.expenses[|inserted.value|..] == s.expenses && r.0.error == s.error
    ensures inserted.Success? && inserted.value == [] ==> r == (refetched, Pass)
  {
    match inserted
    case Failure(message) => (s, Fail(message))
    case Success(rows) =>
      if rows != [] then (s.(expenses := rows + s.expenses), Pass)
      else (refetched, Pass)
  }

  /** Inserting one row is inserting a batch of one. */
  lemma AddOneIsAddBatch(s: State, row: Expense, refetched: State)
    ensures AddExpense(s, Success([row]), refetched) == AddExpenses(s, Success([row]), refetched)
  {
  }

  /** `updateExpense`: the rows carrying `id` become the row the store
      returned; a failure changes nothing and returns the message. */
  function UpdateExpense(s: State, id: int, updated: Result<Option<Expense>, string>): (r: (State, Outcome<string>))
    ensures updated.Failure? ==> r == (s, Fail(updated.error))
    ensures updated.Success? ==> r.1 == Pass && r.0.error == s.error && |r.0.expenses| == |s.expenses|
    ensures updated.Success? && updated.value.Some? ==>
      forall i :: 0 <= i < |s.expenses| ==>
        r.0.expenses[i] == if s.expenses[i].id == id then updated.value.value else s.expenses[i]
    ensures updated.Success? && updated.value.None? ==> r.0 == s
  {
    match updated
    case Failure(message) => (s, Fail(message))
    case Success(None) => (s, Pass)
    case Success(Some(row)) => (s.(expenses := ReplaceById(s.expenses, ExpenseId, id, row)), Pass)
  }

  /** `deleteExpense`: on success exactly the rows carrying `id` go, the
      others keep their order. */
  function DeleteExpense(s: State, id: int, deleted: Outcome<string>): (r: (State, Outcome<string>))
    ensures deleted.Fail? ==> r == (s, deleted)
    ensures deleted.Pass? ==> r.1 == Pass && r.0.error == s.error
    ensures deleted.Pass? ==> IsSubsequence(r.0.expenses, s.expenses)
    ensures deleted.Pass? ==> forall i :: 0 <= i < |r.0.expenses| ==> r.0.expenses[i].id != id
    ensures deleted.Pass? ==> forall i :: 0 <= i < |s.expenses| && s.expenses[i].id != id ==> s.expenses[i] in r.0.expenses
  {
    match deleted
    case Fail(_) => (s, deleted)
    case Pass =>
      var kept := RemoveById(s.expenses, ExpenseId, id);
      RemoveIsFilter(s.expenses, id);
      (s.(expenses := kept), Pass)
  }

  function KeepsOtherIds(id: int): Expense -> bool
  {
    (e: Expense) => e.id != id
  }

  /** `filter(exp => exp.id !== id)` is the generic id removal. */
  lemma {:induction false} RemoveIsFilter(rows: seq<Expense>, id: int)
    ensures RemoveById(rows, ExpenseId, id) == Filter(rows, KeepsOtherIds(id))
    decreases |rows|
  {
    if rows != [] {
      RemoveIsFilter(rows[1..], id);
    }
  }

  /** Deleting a row that was just added with a fresh id gives the list
      back. */
  lemma AddThenDelete(s: State, row: Expense, refetched: State)
    requires forall i :: 0 <= i < |s.expenses| ==> s.expenses[i].id != row.id
    ensures DeleteExpense(AddExpense(s, Success([row]), refetched).0, row.id, Pass).0 == s
  {
    RemoveUndoesPrepend(s.expenses, ExpenseId, row);
  }

  /** Applying the same update twice is applying it once. */
  lemma UpdateIdempotent(s: State, row: Expense)
    ensures UpdateExpense(UpdateExpense(s, row.id, Success(Some(row))).0, row.id, Success(Some(row)))
      == UpdateExpense(s, row.id, Success(Some(row)))
  {
    ReplaceIdempotent(s.expenses, ExpenseId, row.id, row);
  }

  /** Deleting twice is deleting once. */
  lemma DeleteIdempotent(s: State, id: int)
    ensures DeleteExpense(DeleteExpense(s, id, Pass).0, id, Pass) == DeleteExpense(s, id, Pass)
  {
    var once := DeleteExpense(s, id, Pass).0;
    RemoveAbsentId(once.expenses, ExpenseId, id);
  }

  /** `getUniqueCategories`: every category of the loaded rows once, in
      string order. */
  function UniqueCategories(expenses: seq<Expense>): (r: seq<string>)
    ensures StringOrder.StrictlySorted(r)
    ensures forall i :: 0 <= i < |expenses| ==> expenses[i].category in r
    ensures forall x :: x in r ==> x in Map(expenses, CategoryOf)
  {
    var r := StringOrder.SortedUnique(Map(expenses, CategoryOf));
    assert forall i :: 0 <= i < |expenses| ==> Map(expenses, CategoryOf)[i] == expenses[i].category;
    r
  }

  /** Asking again gives the same list. */
  lemma UniqueCategoriesStable(expenses: seq<Expense>)
    ensures StringOrder.SortedUnique(UniqueCategories(expenses)) == UniqueCategories(expenses)
  {
    StringOrder.SortedUniqueIdempotent(Map(expenses, CategoryOf));
  }
}
