/** The transactions page: the five-stage filter chain with its "latest 20
    when nothing is filtered" rule, the sorted option lists handed to the
    filter bar, and the one-by-one fallback for adding several expenses. */
module ExpensesPage {
  import opened Wrappers
  import opened Seqs
  import opened Records
  import opened FilterBar
  import StringOrder
  import Text
  import Dates

  /** `date.split('T')[0]`: the calendar part of a stored date. */
  function DatePart(e: Expense): string
  {
    Text.Before(e.date, 'T')
  }

  function FromKeeper(from: string): Expense -> bool
  {
    (e: Expense) => StringOrder.Le(from, DatePart(e))
  }

  function ToKeeper(to: string): Expense -> bool
  {
    (e: Expense) => StringOrder.Le(DatePart(e), to)
  }

  function CategoryKeeper(category: string): Expense -> bool
  {
    (e: Expense) => e.category == category
  }

  function DescriptionKeeper(descriptions: seq<string>): Expense -> bool
  {
    (e: Expense) => e.description in descriptions
  }

  function TypeKeeper(expenseType: string): Expense -> bool
  {
    (e: Expense) => e.expenseType == expenseType
  }

  /** An expense meets every active filter: date part within the bounds
      (inclusive, compared as strings), the chosen category, one of the
      ticked descriptions, the chosen type. */
  predicate PassesFilters(e: Expense, f: FilterState)
  {
    (f.fromDate == "" || StringOrder.Le(f.fromDate, DatePart(e)))
    && (f.toDate == "" || StringOrder.Le(DatePart(e), f.toDate))
    && (f.category == All || e.category == f.category)
    && (|f.description| == 0 || e.description in f.description)
    && (f.expenseType == All || e.expenseType == f.expenseType)
  }

  /** The five stages, each switched on by its field, as one predicate. */
  function Matcher(f: FilterState): Expense -> bool
  {
    Both(Both(Both(Both(
      When(f.fromDate != "", FromKeeper(f.fromDate)),
      When(f.toDate != "", ToKeeper(f.toDate))),
      When(f.category != All, CategoryKeeper(f.category))),
      When(|f.description| > 0, DescriptionKeeper(f.description))),
      When(f.expenseType != All, TypeKeeper(f.expenseType)))
  }

  lemma MatcherMeaning(f: FilterState, e: Expense)
    ensures Matcher(f)(e) == PassesFilters(e, f)
  {
  }

  /** The filter chain in the page's order: dates, category, descriptions,
      type. Running the stages one after another keeps exactly the expenses
      that meet all active filters, in their order. */
  function Staged(expenses: seq<Expense>, f: FilterState): (r: seq<Expense>)
    ensures r == Filter(expenses, Matcher(f))
  {
    var w1 := When(f.fromDate != "", FromKeeper(f.fromDate));
    var w2 := When(f.toDate != "", ToKeeper(f.toDate));
    var w3 := When(f.category != All, CategoryKeeper(f.category));
    var w4 := When(|f.description| > 0, DescriptionKeeper(f.description));
    var w5 := When(f.expenseType != All, TypeKeeper(f.expenseType));
    var r1 := Narrow(expenses, f.fromDate != "", FromKeeper(f.fromDate));
    var r2 := Narrow(r1, f.toDate != "", ToKeeper(f.toDate));
    var r3 := Narrow(r2, f.category != All, CategoryKeeper(f.category));
    var r4 := Narrow(r3, |f.description| > 0, DescriptionKeeper(f.description));
    var r5 := Narrow(r4, f.expenseType != All, TypeKeeper(f.expenseType));
    FilterFilter(expenses, w1, w2);
    FilterFilter(expenses, Both(w1, w2), w3);
    FilterFilter(expenses, Both(Both(w1, w2), w3), w4);
    FilterFilter(expenses, Both(Both(Both(w1, w2), w3), w4), w5);
    r5
  }

  /** `filteredExpenses`: an order-preserving selection of expenses meeting
      every active filter; with some filter active nothing that meets them
      is dropped, and with none active it is the first twenty expenses. */
  function FilteredExpenses(expenses: seq<Expense>, f: FilterState): (r: seq<Expense>)
    ensures IsSubsequence(r, expenses)
    ensures forall i :: 0 <= i < |r| ==> PassesFilters(r[i], f)
    ensures HasActiveFilters(f) ==>
      forall i :: 0 <= i < |expenses| && PassesFilters(expenses[i], f) ==> expenses[i] in r
    ensures !HasActiveFilters(f) ==> r == Take(expenses, 20)
  {
    var staged := Staged(expenses, f);
    forall e ensures Matcher(f)(e) == PassesFilters(e, f) {
      MatcherMeaning(f, e);
    }
    if HasActiveFilters(f) then staged
    else
      FilterAll(expenses, Matcher(f));
      Take(staged, 20)
  }

  /** For stored dates of the `YYYY-MM-DD` shape and bounds of that shape,
      the string comparison of the date filter is calendar order: an expense
      passes both bounds exactly when its date lies between them. */
  lemma DateBoundsAreChronological(e: Expense, from: string, to: string)
    requires Dates.IsIsoShape(from) && Dates.IsIsoShape(to) && Dates.IsIsoShape(DatePart(e))
    ensures FromKeeper(from)(e) && ToKeeper(to)(e) <==>
      (Dates.Fields(from) == Dates.Fields(DatePart(e)) || Dates.Earlier(Dates.Fields(from), Dates.Fields(DatePart(e))))
      && (Dates.Fields(DatePart(e)) == Dates.Fields(to) || Dates.Earlier(Dates.Fields(DatePart(e)), Dates.Fields(to)))
  {
    Dates.BoundIsChronological(from, DatePart(e));
    Dates.BoundIsChronological(DatePart(e), to);
  }

  // ---- option lists

  /** `uniqueDescriptions`: every description once, in string order. */
  function UniqueDescriptions(expenses: seq<Expense>): (r: seq<string>)
    ensures StringOrder.StrictlySorted(r)
    ensures forall i :: 0 <= i < |expenses| ==> expenses[i].description in r
    ensures forall x :: x in r ==> x in Map(expenses, DescriptionOf)
  {
    var r := StringOrder.SortedUnique(Map(expenses, DescriptionOf));
    assert forall i :: 0 <= i < |expenses| ==> Map(expenses, DescriptionOf)[i] == expenses[i].description;
    r
  }

  /** `uniqueCategories`: one entry per master row, in string order; a
      category listed in two rows appears twice. */
  function UniqueCategories(master: seq<MasterEntry>): (r: seq<string>)
    ensures StringOrder.Sorted(r)
    ensures multiset(r) == multiset(Map(master, MasterCategory))
    ensures |r| == |master|
  {
    StringOrder.Sort(Map(master, MasterCategory))
  }

  /** `uniqueExpenseTypes`: every type of the master rows once, in string
      order. */
  function UniqueExpenseTypes(master: seq<MasterEntry>): (r: seq<string>)
    ensures StringOrder.StrictlySorted(r)
    ensures forall i :: 0 <= i < |master| ==> master[i].expenseType in r
    ensures forall x :: x in r ==> x in Map(master, MasterType)
  {
    var r := StringOrder.SortedUnique(Map(master, MasterType));
    assert forall i :: 0 <= i < |master| ==> Map(master, MasterType)[i] == master[i].expenseType;
    r
  }

  /** Two master rows under one category give that category twice. */
  lemma CategoryListKeepsDuplicates(a: MasterEntry, b: MasterEntry)
    requires a.category == b.category
    ensures multiset(UniqueCategories([a, b]))[a.category] == 2
  {
    assert Map([a, b], MasterCategory) == [a.category, a.category];
  }

  // ---- adding several expenses

  /** `handleAddExpenses`: with a bulk insert available its answer is the
      answer; otherwise the expenses are added one at a time in order,
      `answers[i]` being the store's answer to the i-th, and the first
      failure is returned at once, leaving the rest unsent. */
  method AddExpenses(items: seq<ExpenseInsert>, bulk: Option<Outcome<string>>, answers: seq<Outcome<string>>)
    returns (sentOneByOne: seq<ExpenseInsert>, result: Outcome<string>)
    requires bulk.None? ==> |answers| == |items|
    ensures bulk.Some? ==> sentOneByOne == [] && result == bulk.value
    ensures bulk.None? ==> IsPrefixOf(sentOneByOne, items)
    ensures bulk.None? ==> (result.Pass? <==> forall i :: 0 <= i < |items| ==> answers[i].Pass?)
    ensures bulk.None? && result.Pass? ==> sentOneByOne == items
    ensures bulk.None? && result.Fail? ==>
      sentOneByOne != [] && result == answers[|sentOneByOne| - 1]
      && forall i :: 0 <= i < |sentOneByOne| - 1 ==> answers[i].Pass?
  {
    if bulk.Some? {
      return [], bulk.value;
    }
    var k := 0;
    while k < |items|
      invariant 0 <= k <= |items|
      invariant forall i :: 0 <= i < k ==> answers[i].Pass?
    {
      if answers[k].Fail? {
        return items[..k + 1], answers[k];
      }
      k := k + 1;
    }
    return items, Pass;
  }

  predicate IsPrefixOf<T(==)>(p: seq<T>, s: seq<T>)
  {
    |p| <= |s| && p == s[..|p|]
  }
}
