/** The master hook: the category-to-type table, looked up ignoring case,
    seeded with the default categories when it is found empty, and grown by
    one row whenever a form introduces a new category. */
module MasterStore {
  import opened Wrappers
  import opened Seqs
  import opened Records
  import Text

  /** The default categories (`CATEGORIES`), in their fixed order. */
  const DefaultCategories: seq<string> :=
    ["Food", "Transport", "Shopping", "Bills", "Entertainment", "Health", "Other"]

  /** The hook's state: the loaded rows and the last error message. */
  datatype State = State(masterData: seq<MasterEntry>, error: Option<string>)

  /** Two category names that agree once lower-cased. */
  predicate SameCategory(a: string, b: string)
  {
    Text.Lower(a) == Text.Lower(b)
  }

  function MatchesCategory(category: string): MasterEntry -> bool
  {
    (m: MasterEntry) => SameCategory(m.category, category)
  }

  /** `getExpenseTypeByCategory`: the type of the first row whose category
      agrees ignoring case, `None` when no row does. */
  function ExpenseTypeByCategory(master: seq<MasterEntry>, category: string): (r: Option<string>)
    ensures r.None? <==> forall i :: 0 <= i < |master| ==> !SameCategory(master[i].category, category)
    ensures r.Some? ==> exists i :: FirstMatchAt(master, category, i) && r.value == master[i].expenseType
  {
    match Find(master, MatchesCategory(category))
    case None => None
    case Some(m) =>
      var i := FindIndex(master, MatchesCategory(category));
      assert master[i] == m;
      Some(m.expenseType)
  }

  /** Row `i` is the first whose category agrees with `category`. */
  predicate FirstMatchAt(master: seq<MasterEntry>, category: string, i: int)
  {
    0 <= i < |master| && SameCategory(master[i].category, category)
    && forall j :: 0 <= j < i ==> !SameCategory(master[j].category, category)
  }

  /** `isCategoryInMaster` */
  function IsCategoryInMaster(master: seq<MasterEntry>, category: string): (r: bool)
    ensures r <==> exists i :: 0 <= i < |master| && SameCategory(master[i].category, category)
  {
    if master == [] then false
    else SameCategory(master[0].category, category) || IsCategoryInMaster(master[1..], category)
  }

  /** The lookup finds a type exactly when the category is known. */
  lemma LookupIffKnown(master: seq<MasterEntry>, category: string)
    ensures ExpenseTypeByCategory(master, category).Some? <==> IsCategoryInMaster(master, category)
  {
  }

  /** Case does not matter to either question. */
  lemma LookupIgnoresCase(master: seq<MasterEntry>, a: string, b: string)
    requires SameCategory(a, b)
    ensures IsCategoryInMaster(master, a) == IsCategoryInMaster(master, b)
    ensures ExpenseTypeByCategory(master, a) == ExpenseTypeByCategory(master, b)
  {
    var ra, rb := ExpenseTypeByCategory(master, a), ExpenseTypeByCategory(master, b);
    if ra.Some? {
      var i :| FirstMatchAt(master, a, i) && ra.value == master[i].expenseType;
      var j :| FirstMatchAt(master, b, j) && rb.value == master[j].expenseType;
      assert !(i < j) && !(j < i);
    }
  }

  /** `addMasterEntry`: on success the row the store returned goes at the
      end; on failure the table stays and the message is returned. */
  function AddMasterEntry(s: State, inserted: Result<Option<MasterEntry>, string>): (r: (State, Outcome<string>))
    ensures inserted.Failure? ==> r == (s, Fail(inserted.error))
    ensures inserted.Success? ==> r.1 == Pass && r.0.error == s.error
    ensures inserted.Success? && inserted.value.Some? ==>
      |r.0.masterData| == |s.masterData| + 1 && r.0.masterData[..|s.masterData|] == s.masterData
      && r.0.masterData[|s.masterData|] == inserted.value.value
    ensures inserted.Success? && inserted.value.None? ==> r.0 == s
  {
    match inserted
    case Failure(message) => (s, Fail(message))
    case Success(None) => (s, Pass)
    case Success(Some(row)) => (s.(masterData := s.masterData + [row]), Pass)
  }

  /** After adding a row its category is known; categories known before
      keep their type, since the new row comes last; a category unknown
      before now resolves to the new row's type. */
  lemma AddedCategoryResolves(s: State, row: MasterEntry, category: string)
    ensures IsCategoryInMaster(AddMasterEntry(s, Success(Some(row))).0.masterData, row.category)
    ensures IsCategoryInMaster(s.masterData, category) ==>
      ExpenseTypeByCategory(AddMasterEntry(s, Success(Some(row))).0.masterData, category)
        == ExpenseTypeByCategory(s.masterData, category)
    ensures !IsCategoryInMaster(s.masterData, category) && SameCategory(row.category, category) ==>
      ExpenseTypeByCategory(AddMasterEntry(s, Success(Some(row))).0.masterData, category) == Some(row.expenseType)
  {
    var after := s.masterData + [row];
    assert after[|s.masterData|] == row;
    FindAppend(s.masterData, [row], MatchesCategory(category));
  }

  /** Appending rows does not move the first match of the rows before. */
  lemma {:induction false} FindAppend(a: seq<MasterEntry>, b: seq<MasterEntry>, p: MasterEntry -> bool)
    ensures Find(a, p).Some? ==> Find(a + b, p) == Find(a, p)
    ensures Find(a, p).None? ==> Find(a + b, p) == Find(b, p)
    decreases |a|
  {
    if a == [] {
      assert a + b == b;
    } else {
      assert (a + b)[0] == a[0] && (a + b)[1..] == a[1..] + b;
      FindAppend(a[1..], b, p);
    }
  }

  // ---- loading the table

  /** The rows seeding inserts: every default category as an expense type. */
  function SeedRows(): (r: seq<(string, string)>)
    ensures |r| == |DefaultCategories|
    ensures forall i :: 0 <= i < |r| ==> r[i] == (DefaultCategories[i], "expense")
  {
    Map(DefaultCategories, AsExpenseCategory)
  }

  function AsExpenseCategory(category: string): (string, string)
  {
    (category, "expense")
  }

  /** `fetchMasterData`: a non-empty first answer is stored as is; an empty
      one triggers seeding and a second read, whose answer is stored; any
      failure leaves the table and records the message, a seeding failure
      without a message reading `Failed to initialize master table`.
      `seed` is the answer of seeding, `refetch` that of the second read. */
  function FetchMaster(s: State, first: Result<seq<MasterEntry>, string>, seed: Outcome<string>,
                       refetch: Result<seq<MasterEntry>, string>): (r: State)
    ensures first.Success? && first.value != [] ==> r == State(first.value, None)
    ensures first.Failure? ==> r == State(s.masterData, Some(first.error))
    ensures first.Success? && first.value == [] && seed.Fail? ==>
      r.masterData == s.masterData && r.error.Some? && r.error.value != []
      && (seed.error != [] ==> r.error == Some(seed.error))
    ensures first.Success? && first.value == [] && seed.Pass? ==>
      r == match refetch
        case Success(rows) => State(rows, None)
        case Failure(message) => State(s.masterData, Some(message))
  {
    match first
    case Failure(message) => State(s.masterData, Some(message))
    case Success(rows) =>
      if rows != [] then State(rows, None)
      else match seed
        case Fail(message) =>
          State(s.masterData, Some(if message != [] then message else "Failed to initialize master table"))
        case Pass =>
          match refetch
          case Success(rows2) => State(rows2, None)
          case Failure(message) => State(s.masterData, Some(message))
  }

  /** A fetch either stores a table answer and clears the error, or keeps the
      table and records an error. */
  lemma FetchOutcomes(s: State, first: Result<seq<MasterEntry>, string>, seed: Outcome<string>,
                      refetch: Result<seq<MasterEntry>, string>)
    ensures FetchMaster(s, first, seed, refetch).error.None? <==>
      (first.Success? && first.value != []) || (first.Success? && seed.Pass? && refetch.Success?)
    ensures FetchMaster(s, first, seed, refetch).error.Some? ==>
      FetchMaster(s, first, seed, refetch).masterData == s.masterData
  {
  }
}
