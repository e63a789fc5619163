/** The state transitions of `AppProvider` (src/context/AppContext.tsx):
    an in-memory copy of the three lists next to the store. Every
    transition takes the outcomes of the store requests it makes, and the
    fresh id of a new record, as parameters. */
module AppContext {
  import opened Outcomes
  import opened Records
  import opened Storage

  /** The React state: `income`, `expenses` and `categories`. */
  datatype Memory = Memory(income: seq<Income>, expenses: seq<Expense>, categories: seq<string>)

  /** The store and the in-memory copy together. */
  datatype App = App(store: Store, mem: Memory)

  /** The in-memory lists are what the store returns when read. */
  predicate InSync(a: App) {
    && a.mem.income == GetAllIncome(a.store, Ok)
    && a.mem.expenses == GetAllExpenses(a.store, Ok)
    && a.mem.categories == GetCategories(a.store, Ok)
  }

  /** `xs` with every record whose id is `x`'s replaced by `x`
      (`map(item => item.id === x.id ? x : item)`). Ids come from the
      clock and need not be unique, so several records may be replaced. */
  function ReplaceById<T>(xs: seq<T>, idOf: T -> string, x: T): (r: seq<T>)
    ensures |r| == |xs|
    ensures forall i :: 0 <= i < |xs| ==> r[i] == (if idOf(xs[i]) == idOf(x) then x else xs[i])
  {
    seq(|xs|, i requires 0 <= i < |xs| => if idOf(xs[i]) == idOf(x) then x else xs[i])
  }

  /** Replacing with a record whose id no record carries changes nothing,
      and replacing twice is replacing once. */
  lemma ReplaceByIdLaws<T>(xs: seq<T>, idOf: T -> string, x: T)
    ensures (forall i :: 0 <= i < |xs| ==> idOf(xs[i]) != idOf(x)) ==> ReplaceById(xs, idOf, x) == xs
    ensures ReplaceById(ReplaceById(xs, idOf, x), idOf, x) == ReplaceById(xs, idOf, x)
  {
  }

  /** `refreshData`: the three lists as the store returns them, each read
      with its own outcome; the store is unchanged. */
  function RefreshData(a: App, readIncome: Outcome, readExpenses: Outcome, readCategories: Outcome): (r: App)
    ensures r.store == a.store
    ensures readIncome.Ok? && readExpenses.Ok? && readCategories.Ok? ==> InSync(r)
  {
    App(a.store, Memory(GetAllIncome(a.store, readIncome), GetAllExpenses(a.store, readExpenses),
                        GetCategories(a.store, readCategories)))
  }

  /** The start-up effect: `initializeStorage` and then `refreshData`.
      With working storage the app starts in sync, and with categories
      showing the defaults unless a list was already stored. */
  function Initialize(store: Store, read: Outcome, write: Outcome,
                      readIncome: Outcome, readExpenses: Outcome, readCategories: Outcome): (r: App)
    ensures read.Ok? && write.Ok? && readIncome.Ok? && readExpenses.Ok? && readCategories.Ok? ==>
              InSync(r) && r.mem.categories == store.categories.ValueOr(DefaultCategories)
  {
    RefreshData(App(InitializeStorage(store, read, write), Memory([], [], [])),
                readIncome, readExpenses, readCategories)
  }

  /** `addNewIncome`: the record gets the fresh id, the store appends it
      (errors swallowed), and memory appends it unconditionally, without
      checking that the id is new. */
  function AddNewIncome(a: App, data: Income, freshId: string, read: Outcome, write: Outcome): (r: App)
    ensures var x := data.(id := freshId);
            && r.mem.income == a.mem.income + [x]
            && r.mem.expenses == a.mem.expenses && r.mem.categories == a.mem.categories
            && r.store == AddIncome(a.store, x, read, write)
  {
    var x := data.(id := freshId);
    App(AddIncome(a.store, x, read, write), a.mem.(income := a.mem.income + [x]))
  }

  /** `addNewExpense`, the same for expenses. */
  function AddNewExpense(a: App, data: Expense, freshId: string, read: Outcome, write: Outcome): (r: App)
    ensures var x := data.(id := freshId);
            && r.mem.expenses == a.mem.expenses + [x]
            && r.mem.income == a.mem.income && r.mem.categories == a.mem.categories
            && r.store == AddExpense(a.store, x, read, write)
  {
    var x := data.(id := freshId);
    App(AddExpense(a.store, x, read, write), a.mem.(expenses := a.mem.expenses + [x]))
  }

  /** `updateIncome`: the in-memory list with the record replaced is
      written directly to the store, outside any `try`; a failed write
      rejects before the state is set, so nothing changes. After a
      successful write the income list in memory and in the store agree,
      whatever they were before. */
  function UpdateIncome(a: App, x: Income, write: Outcome): (r: App)
    ensures write.Failed? ==> r == a
    ensures write.Ok? ==> r.mem.income == ReplaceById(a.mem.income, IncomeId, x)
                          && GetAllIncome(r.store, Ok) == r.mem.income
    ensures r.mem.expenses == a.mem.expenses && r.mem.categories == a.mem.categories
    ensures r.store.expenses == a.store.expenses && r.store.categories == a.store.categories
  {
    if write.Failed? then a
    else
      var list := ReplaceById(a.mem.income, IncomeId, x);
      App(a.store.(income := Present(list)), a.mem.(income := list))
  }

  /** `updateExpense`, the same for expenses. */
  function UpdateExpense(a: App, x: Expense, write: Outcome): (r: App)
    ensures write.Failed? ==> r == a
    ensures write.Ok? ==> r.mem.expenses == ReplaceById(a.mem.expenses, ExpenseId, x)
                          && GetAllExpenses(r.store, Ok) == r.mem.expenses
    ensures r.mem.income == a.mem.income && r.mem.categories == a.mem.categories
    ensures r.store.income == a.store.income && r.store.categories == a.store.categories
  {
    if write.Failed? then a
    else
      var list := ReplaceById(a.mem.expenses, ExpenseId, x);
      App(a.store.(expenses := Present(list)), a.mem.(expenses := list))
  }

  /** `removeIncome`: the store deletes (errors swallowed), and memory
      drops exactly the records with that id, keeping the order of the
      rest. */
  function RemoveIncome(a: App, id: string, read: Outcome, write: Outcome): (r: App)
    ensures r.mem.income == RemoveById(a.mem.income, IncomeId, id)
    ensures r.mem.expenses == a.mem.expenses && r.mem.categories == a.mem.categories
    ensures r.store == DeleteIncome(a.store, id, read, write)
  {
    App(DeleteIncome(a.store, id, read, write), a.mem.(income := RemoveById(a.mem.income, IncomeId, id)))
  }

  /** `removeExpense`, the same for expenses. */
  function RemoveExpense(a: App, id: string, read: Outcome, write: Outcome): (r: App)
    ensures r.mem.expenses == RemoveById(a.mem.expenses, ExpenseId, id)
    ensures r.mem.income == a.mem.income && r.mem.categories == a.mem.categories
    ensures r.store == DeleteExpense(a.store, id, read, write)
  {
    App(DeleteExpense(a.store, id, read, write), a.mem.(expenses := RemoveById(a.mem.expenses, ExpenseId, id)))
  }

  /** `addNewCategory`: the store applies its own rule (errors swallowed),
      and memory appends the name only when its own list lacks it. */
  function AddNewCategory(a: App, c: string, read: Outcome, write: Outcome): (r: App)
    ensures r.store == AddCategory(a.store, c, read, write)
    ensures c in a.mem.categories ==> r.mem == a.mem
    ensures c !in a.mem.categories ==> r.mem.categories == a.mem.categories + [c]
    ensures r.mem.income == a.mem.income && r.mem.expenses == a.mem.expenses
  {
    var categories := if c in a.mem.categories then a.mem.categories else a.mem.categories + [c];
    App(AddCategory(a.store, c, read, write), a.mem.(categories := categories))
  }

  /** With every request succeeding, each transition keeps memory and
      store in sync: the store is written first with the same change that
      is then applied to memory. */
  lemma TransitionsPreserveSync(a: App, inc: Income, exp: Expense, freshId: string, id: string, c: string)
    requires InSync(a)
    ensures InSync(AddNewIncome(a, inc, freshId, Ok, Ok))
    ensures InSync(AddNewExpense(a, exp, freshId, Ok, Ok))
    ensures InSync(UpdateIncome(a, inc, Ok))
    ensures InSync(UpdateExpense(a, exp, Ok))
    ensures InSync(RemoveIncome(a, id, Ok, Ok))
    ensures InSync(RemoveExpense(a, id, Ok, Ok))
    ensures InSync(AddNewCategory(a, c, Ok, Ok))
  {
  }

  /** A failed update leaves the app exactly as it was, in sync or not. */
  lemma FailedUpdateChangesNothing(a: App, inc: Income, exp: Expense)
    ensures UpdateIncome(a, inc, Failed) == a && UpdateExpense(a, exp, Failed) == a
  {
  }

  /** Adding and removing do not see a failed write: from a synchronised
      state, a failed store write while adding leaves memory one record
      ahead of the store. */
  lemma FailedAddDiverges(a: App, inc: Income, freshId: string)
    requires InSync(a)
    ensures var r := AddNewIncome(a, inc, freshId, Ok, Failed);
            !InSync(r) && r.mem.income == GetAllIncome(r.store, Ok) + [inc.(id := freshId)]
  {
    var r := AddNewIncome(a, inc, freshId, Ok, Failed);
    assert |r.mem.income| == |GetAllIncome(r.store, Ok)| + 1;
  }

  /** A failed write while removing a record that is present leaves it in
      the store but not in memory. */
  lemma FailedRemoveDiverges(a: App, id: string, k: nat)
    requires InSync(a)
    requires k < |a.mem.income| && a.mem.income[k].id == id
    ensures var r := RemoveIncome(a, id, Ok, Failed);
            !InSync(r) && a.mem.income[k] in GetAllIncome(r.store, Ok) && a.mem.income[k] !in r.mem.income
  {
  }

  /** A successful refresh repairs any divergence. */
  lemma RefreshRestoresSync(a: App)
    ensures InSync(RefreshData(a, Ok, Ok, Ok))
  {
  }

  /** Adding a record under a new id and removing that id restores memory
      and, with working storage, the store's view as well. */
  lemma RemoveUndoesAddNewIncome(a: App, data: Income, freshId: string)
    requires InSync(a)
    requires forall i :: 0 <= i < |a.mem.income| ==> a.mem.income[i].id != freshId
    ensures var r := RemoveIncome(AddNewIncome(a, data, freshId, Ok, Ok), freshId, Ok, Ok);
            r.mem == a.mem && InSync(r)
  {
    var x := data.(id := freshId);
    RemoveUndoesAppend(a.mem.income, x, IncomeId);
  }
}
