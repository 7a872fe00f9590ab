/** The summary cards: income (type exactly `income`), expense (type exactly
    `expense`) and their difference; records of any other type count in
    neither. */
module SummaryCards {
  import opened Seqs
  import opened Records

  predicate IsIncome(e: Expense) { e.expenseType == "income" }
  predicate IsExpense(e: Expense) { e.expenseType == "expense" }
  predicate IsOther(e: Expense) { !IsIncome(e) && !IsExpense(e) }

  datatype Cards = Cards(income: real, expenseTotal: real, balance: real)

  /** The three cards of a list of records. */
  function CardsOf(expenses: seq<Expense>): Cards
  {
    var income := Sum(Filter(expenses, IsIncome), Amount);
    var expenseTotal := Sum(Filter(expenses, IsExpense), Amount);
    Cards(income, expenseTotal, income - expenseTotal)
  }

  /** Every amount is on exactly one card or on neither: the two totals and
      the records of any other type add up to the sum of all records. */
  lemma {:induction false} CardsPartition(expenses: seq<Expense>)
    ensures CardsOf(expenses).income + CardsOf(expenses).expenseTotal + Sum(Filter(expenses, IsOther), Amount)
      == Sum(expenses, Amount)
    decreases |expenses|
  {
    if expenses != [] {
      CardsPartition(expenses[1..]);
    }
  }

  /** Adding a record of another type changes no card. */
  lemma OtherTypesDoNotCount(expenses: seq<Expense>, x: Expense)
    requires x.expenseType != "income" && x.expenseType != "expense"
    ensures CardsOf(expenses + [x]) == CardsOf(expenses)
  {
    FilterSnoc(expenses, x, IsIncome);
    FilterSnoc(expenses, x, IsExpense);
    assert Filter(expenses, IsIncome) + [] == Filter(expenses, IsIncome);
    assert Filter(expenses, IsExpense) + [] == Filter(expenses, IsExpense);
  }

  /** Adding an income record raises income and balance by its amount; an
      expense record raises the expense total and lowers the balance. */
  lemma CardsOfAppended(expenses: seq<Expense>, x: Expense)
    ensures IsIncome(x) ==> CardsOf(expenses + [x]).balance == CardsOf(expenses).balance + x.amount
    ensures IsExpense(x) ==> CardsOf(expenses + [x]).balance == CardsOf(expenses).balance - x.amount
  {
    FilterSnoc(expenses, x, IsIncome);
    FilterSnoc(expenses, x, IsExpense);
    SumAppend(Filter(expenses, IsIncome), if IsIncome(x) then [x] else [], Amount);
    SumAppend(Filter(expenses, IsExpense), if IsExpense(x) then [x] else [], Amount);
  }
}
