/** The record store of src/services/storageService.ts over an abstract
    key-value store. Each key holds a list or is absent; every read and
    every write of the underlying asynchronous store either succeeds or
    throws, and that outcome is a parameter. JSON encoding is the identity
    here, and a value that fails to parse counts as a failed read. */
module Storage {
  import opened Outcomes
  import opened Seqs
  import opened Records

  /** `DEFAULT_CATEGORIES`. */
  const DefaultCategories: seq<string> := [
    "Housing", "Food", "Transportation", "Entertainment",
    "Utilities", "Healthcare", "Shopping", "Personal",
    "Education", "Travel", "Savings", "Debt", "Other"
  ]

  /** The default list names thirteen different categories. */
  lemma DefaultCategoriesDistinct()
    ensures |DefaultCategories| == 13 && Distinct(DefaultCategories)
    ensures "Food" in DefaultCategories && "Entertainment" in DefaultCategories
    ensures "Savings" in DefaultCategories
  {
    assert DefaultCategories[1] == "Food" && DefaultCategories[3] == "Entertainment";
    assert DefaultCategories[10] == "Savings";
  }

  /** The three list keys `moneyflow_income`, `moneyflow_expenses` and
      `moneyflow_categories`; `Missing` is a key that was never written. */
  datatype Store = Store(
    income: Maybe<seq<Income>>,
    expenses: Maybe<seq<Expense>>,
    categories: Maybe<seq<string>>)

  /** `getItem` followed by `jsonValue ? JSON.parse(jsonValue) : []` inside
      a `try` whose `catch` also returns `[]`. */
  function ReadList<T>(stored: Maybe<seq<T>>, read: Outcome): (r: seq<T>)
    ensures read.Ok? && stored.Present? ==> r == stored.value
    ensures read.Failed? || stored.Missing? ==> r == []
  {
    if read.Failed? then [] else stored.ValueOr([])
  }

  /** `getAllIncome`: the stored income, or `[]` when the key is absent or
      the read fails. */
  function GetAllIncome(s: Store, read: Outcome): (r: seq<Income>)
    ensures read.Ok? && s.income.Present? ==> r == s.income.value
    ensures read.Failed? || s.income.Missing? ==> r == []
  {
    ReadList(s.income, read)
  }

  /** `getAllExpenses`: the stored expenses, or `[]` when the key is absent
      or the read fails. */
  function GetAllExpenses(s: Store, read: Outcome): (r: seq<Expense>)
    ensures read.Ok? && s.expenses.Present? ==> r == s.expenses.value
    ensures read.Failed? || s.expenses.Missing? ==> r == []
  {
    ReadList(s.expenses, read)
  }

  /** `getCategories`: the stored list, or the defaults when the key is
      absent or the read fails. */
  function GetCategories(s: Store, read: Outcome): (r: seq<string>)
    ensures read.Ok? && s.categories.Present? ==> r == s.categories.value
    ensures read.Failed? || s.categories.Missing? ==> r == DefaultCategories
  {
    if read.Failed? then DefaultCategories else s.categories.ValueOr(DefaultCategories)
  }

  /** `initializeStorage`: writes the defaults only when the categories key
      is absent; any error is swallowed. Only the categories key can change,
      an existing list is never overwritten, and after a successful seeding
      the key holds the defaults. */
  function InitializeStorage(s: Store, read: Outcome, write: Outcome): (r: Store)
    ensures r.income == s.income && r.expenses == s.expenses
    ensures s.categories.Present? ==> r == s
    ensures s.categories.Missing? && read.Ok? && write.Ok? ==> r.categories == Present(DefaultCategories)
    ensures read.Failed? || write.Failed? ==> r == s
  {
    if read.Ok? && s.categories.Missing? && write.Ok? then s.(categories := Present(DefaultCategories))
    else s
  }

  /** Seeding never changes what `getCategories` returns. */
  lemma InitializeKeepsCategoryView(s: Store, read: Outcome, write: Outcome)
    ensures GetCategories(InitializeStorage(s, read, write), Ok) == GetCategories(s, Ok)
  {
  }

  /** Seeding twice is seeding once. */
  lemma InitializeIdempotent(s: Store, read: Outcome, write: Outcome)
    ensures var once := InitializeStorage(s, read, write);
            InitializeStorage(once, read, write) == once
  {
  }

  /** The records of `xs` whose id is not `id`, in order
      (`filter(item => item.id !== id)`). */
  function RemoveById<T>(xs: seq<T>, idOf: T -> string, id: string): (r: seq<T>)
    ensures IsSubsequence(r, xs)
    ensures forall i :: 0 <= i < |r| ==> idOf(r[i]) != id
    ensures forall i :: 0 <= i < |xs| ==> (xs[i] in r <==> idOf(xs[i]) != id)
  {
    FilterIsSubsequence(xs, x => idOf(x) != id);
    Filter(xs, x => idOf(x) != id)
  }

  /** Deleting an id no record carries changes nothing. */
  lemma RemoveAbsentId<T>(xs: seq<T>, idOf: T -> string, id: string)
    requires forall i :: 0 <= i < |xs| ==> idOf(xs[i]) != id
    ensures RemoveById(xs, idOf, id) == xs
  {
    FilterAllPass(xs, x => idOf(x) != id);
  }

  /** Deleting twice is deleting once. */
  lemma RemoveByIdIdempotent<T>(xs: seq<T>, idOf: T -> string, id: string)
    ensures RemoveById(RemoveById(xs, idOf, id), idOf, id) == RemoveById(xs, idOf, id)
  {
    RemoveAbsentId(RemoveById(xs, idOf, id), idOf, id);
  }

  /** Appending a record with an id nobody carries and then deleting that
      id gives back the original list. */
  lemma RemoveUndoesAppend<T>(xs: seq<T>, x: T, idOf: T -> string)
    requires forall i :: 0 <= i < |xs| ==> idOf(xs[i]) != idOf(x)
    ensures RemoveById(xs + [x], idOf, idOf(x)) == xs
  {
    FilterSnoc(xs, x);
    RemoveAbsentId(xs, idOf, idOf(x));
  }

  /** `addIncome`: read the list (an absent key or a failed read gives
      `[]`), append the record and write the result; a failed write is
      swallowed. Only the income key can change. */
  function AddIncome(s: Store, x: Income, read: Outcome, write: Outcome): (r: Store)
    ensures r.expenses == s.expenses && r.categories == s.categories
    ensures write.Ok? ==> GetAllIncome(r, Ok) == GetAllIncome(s, read) + [x]
    ensures write.Failed? ==> r == s
  {
    if write.Ok? then s.(income := Present(GetAllIncome(s, read) + [x])) else s
  }

  /** `addExpense`, the same for the expenses key. */
  function AddExpense(s: Store, x: Expense, read: Outcome, write: Outcome): (r: Store)
    ensures r.income == s.income && r.categories == s.categories
    ensures write.Ok? ==> GetAllExpenses(r, Ok) == GetAllExpenses(s, read) + [x]
    ensures write.Failed? ==> r == s
  {
    if write.Ok? then s.(expenses := Present(GetAllExpenses(s, read) + [x])) else s
  }

  /** `deleteIncome`: read the list, drop every record with that id, write
      the rest back. Only the income key can change. */
  function DeleteIncome(s: Store, id: string, read: Outcome, write: Outcome): (r: Store)
    ensures r.expenses == s.expenses && r.categories == s.categories
    ensures write.Ok? ==> GetAllIncome(r, Ok) == RemoveById(GetAllIncome(s, read), IncomeId, id)
    ensures write.Failed? ==> r == s
  {
    if write.Ok? then s.(income := Present(RemoveById(GetAllIncome(s, read), IncomeId, id))) else s
  }

  /** `deleteExpense`, the same for the expenses key. */
  function DeleteExpense(s: Store, id: string, read: Outcome, write: Outcome): (r: Store)
    ensures r.income == s.income && r.categories == s.categories
    ensures write.Ok? ==> GetAllExpenses(r, Ok) == RemoveById(GetAllExpenses(s, read), ExpenseId, id)
    ensures write.Failed? ==> r == s
  {
    if write.Ok? then s.(expenses := Present(RemoveById(GetAllExpenses(s, read), ExpenseId, id))) else s
  }

  /** `addCategory`: read the categories (defaults on absence or failure);
      a name already present (exact match) changes nothing, a new one is
      appended and the list written back. Only the categories key can
      change, and it keeps every name it had. */
  function AddCategory(s: Store, c: string, read: Outcome, write: Outcome): (r: Store)
    ensures r.income == s.income && r.expenses == s.expenses
    ensures c in GetCategories(s, read) || write.Failed? ==> r == s
    ensures c !in GetCategories(s, read) && write.Ok? ==>
              GetCategories(r, Ok) == GetCategories(s, read) + [c]
  {
    var current := GetCategories(s, read);
    if c !in current && write.Ok? then s.(categories := Present(current + [c])) else s
  }

  /** With working reads and writes, a stored income record appears at the
      end of the list and every earlier record keeps its place. */
  lemma AddIncomeAppendsOne(s: Store, x: Income)
    ensures var before := GetAllIncome(s, Ok);
            var after := GetAllIncome(AddIncome(s, x, Ok, Ok), Ok);
            |after| == |before| + 1 && after[|before|] == x && after[..|before|] == before
  {
  }

  /** An absent income key reads as the empty list, so the first record
      stored becomes the whole list. */
  lemma AddIncomeToAbsentKey(s: Store, x: Income)
    requires s.income.Missing?
    ensures GetAllIncome(AddIncome(s, x, Ok, Ok), Ok) == [x]
  {
  }

  /** Storing an expense with a new id and deleting that id restores the
      stored list. */
  lemma DeleteUndoesAddExpense(s: Store, x: Expense)
    requires forall i :: 0 <= i < |GetAllExpenses(s, Ok)| ==> GetAllExpenses(s, Ok)[i].id != x.id
    ensures GetAllExpenses(DeleteExpense(AddExpense(s, x, Ok, Ok), x.id, Ok, Ok), Ok)
            == GetAllExpenses(s, Ok)
  {
    RemoveUndoesAppend(GetAllExpenses(s, Ok), x, ExpenseId);
  }

  /** Deleting the same income id twice is deleting it once, and deleting
      an id no stored record carries leaves the list as it was. */
  lemma DeleteIncomeIdempotent(s: Store, id: string)
    ensures var once := DeleteIncome(s, id, Ok, Ok);
            GetAllIncome(DeleteIncome(once, id, Ok, Ok), Ok) == GetAllIncome(once, Ok)
    ensures (forall i :: 0 <= i < |GetAllIncome(s, Ok)| ==> GetAllIncome(s, Ok)[i].id != id)
            ==> GetAllIncome(DeleteIncome(s, id, Ok, Ok), Ok) == GetAllIncome(s, Ok)
  {
    RemoveByIdIdempotent(GetAllIncome(s, Ok), IncomeId, id);
    if forall i :: 0 <= i < |GetAllIncome(s, Ok)| ==> GetAllIncome(s, Ok)[i].id != id {
      RemoveAbsentId(GetAllIncome(s, Ok), IncomeId, id);
    }
  }

  /** The same two laws for expenses. */
  lemma DeleteExpenseIdempotent(s: Store, id: string)
    ensures var once := DeleteExpense(s, id, Ok, Ok);
            GetAllExpenses(DeleteExpense(once, id, Ok, Ok), Ok) == GetAllExpenses(once, Ok)
    ensures (forall i :: 0 <= i < |GetAllExpenses(s, Ok)| ==> GetAllExpenses(s, Ok)[i].id != id)
            ==> GetAllExpenses(DeleteExpense(s, id, Ok, Ok), Ok) == GetAllExpenses(s, Ok)
  {
    RemoveByIdIdempotent(GetAllExpenses(s, Ok), ExpenseId, id);
    if forall i :: 0 <= i < |GetAllExpenses(s, Ok)| ==> GetAllExpenses(s, Ok)[i].id != id {
      RemoveAbsentId(GetAllExpenses(s, Ok), ExpenseId, id);
    }
  }

  /** Adding a category twice is adding it once, the name is present
      afterwards, and a list without duplicates stays without duplicates. */
  lemma AddCategoryLaws(s: Store, c: string)
    ensures var once := AddCategory(s, c, Ok, Ok);
            && AddCategory(once, c, Ok, Ok) == once
            && c in GetCategories(once, Ok)
            && (Distinct(GetCategories(s, Ok)) ==> Distinct(GetCategories(once, Ok)))
  {
    var before := GetCategories(s, Ok);
    var after := GetCategories(AddCategory(s, c, Ok, Ok), Ok);
    if c !in before {
      assert after == before + [c];
      assert after[|before|] == c;
    }
  }

  /** A failed read is indistinguishable from an empty list: adding a
      record after one overwrites whatever was stored with that record
      alone, and deleting after one stores an empty list. */
  lemma ReadFailureLosesRecords(s: Store, x: Income, id: string)
    ensures GetAllIncome(AddIncome(s, x, Failed, Ok), Ok) == [x]
    ensures GetAllIncome(DeleteIncome(s, id, Failed, Ok), Ok) == []
  {
  }

  /** Likewise a failed categories read makes `addCategory` replace any
      custom list by the defaults plus the new name. */
  lemma ReadFailureResetsCategories(s: Store, c: string)
    requires c !in DefaultCategories
    ensures GetCategories(AddCategory(s, c, Failed, Ok), Ok) == DefaultCategories + [c]
  {
  }
}
