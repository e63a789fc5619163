/** The two record types of src/services/storageService.ts. Amounts are
    exact reals; dates are already decoded local timestamps. */
module Records {
  import opened Outcomes
  import opened Dates

  /** One income entry; `id` is the decimal `Date.now()` of its creation. */
  datatype Income = Income(
    id: string,
    amount: real,
    source: string,
    date: DateTime,
    notes: Maybe<string>)

  /** One expense entry. */
  datatype Expense = Expense(
    id: string,
    amount: real,
    category: string,
    title: string,
    date: DateTime,
    tags: seq<string>,
    notes: Maybe<string>)

  function IncomeId(x: Income): string { x.id }
  function ExpenseId(x: Expense): string { x.id }
  function ExpenseDate(x: Expense): DateTime { x.date }
  function IncomeAmount(x: Income): real { x.amount }
  function ExpenseAmount(x: Expense): real { x.amount }
  function ExpenseCategory(x: Expense): string { x.category }
}
