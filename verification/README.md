# MoneyFlow core in Dafny

A model of the logic of the MoneyFlow personal-finance app (React Native).
It covers:

- the finance utilities: totals, balance, per-category totals, the pie-chart
  series, the string-hash colour, month-over-month change, recurring-expense
  detection and the savings-suggestion rules;
- the calendar-month windowing, newest-first sorting and day grouping of the
  date utilities;
- the record store over an abstract key-value store, with a success or
  failure outcome for every read and write;
- the in-memory state of the app provider, next to the store. The two
  agree after every transition whose store requests all succeed; a failed
  write while adding or removing leaves them apart until the next refresh.

Amounts are exact `real`s. Dates are decoded local civil timestamps, with
months numbered 0–11. The current time, fresh record ids and every storage
outcome are parameters. The `Date(year, month, day)` constructor is modelled
with its rule that a year argument from 0 to 99 means 1900 to 1999.

| file | module | contents |
|---|---|---|
| `outcomes.dfy` | `Outcomes` | the value under a storage key (`Maybe`), the `Ok`/`Failed` outcome of a storage request |
| `seqs.dfy` | `Seqs` | `Filter` (`Array.prototype.filter`), subsequences, first-occurrence key order |
| `dates.dfy` | `Dates` | Gregorian calendar, `Date(y, m, d)` normalisation, `getMonthRange` |
| `dateutils.dfy` | `DateUtils` | `filterByMonth`, `sortByDate`, `groupByDate` |
| `records.dfy` | `Records` | `Income` and `Expense` |
| `colorhash.dfy` | `ColorHash` | `generateColorFromString` |
| `finance.dfy` | `Finance` | totals, balance, per-category totals, pie chart, change percentage |
| `insights.dfy` | `Insights` | `getRecurringExpenses`, `generateSavingsSuggestions` |
| `storage.dfy` | `Storage` | `storageService.ts` |
| `appcontext.dfy` | `AppContext` | the transitions of `AppProvider` |

Design choices that shape the contracts:

- **Colour hash.** There are two models of the hash. `JsHash` is the
  loop as JavaScript evaluates it: an int32 shift, then exact float
  subtraction and addition. `Hash` is the fold `31·h + unit` modulo 2^32.
  A lemma proves that they agree modulo 2^32, and that the bytes `>>` and
  `& 0xFF` extract are the same for both.
- **Category order.** `Object.keys` lists categories in order of first
  occurrence. The stable sort with comparator `b - a` therefore puts first
  the earliest category among those with the largest total. The model keeps
  that exact tie-break (`FirstMax`).
- **Percentage.** `(top / total) * 100` with a zero total is Infinity or
  NaN in JavaScript. The `Quotient` datatype keeps those cases, so
  `> 30` is decided exactly as the source decides it.

Consequences of the code that the model makes explicit:

- **One dominant category.** With income 1000 and a single Food expense of
  400, Food is 100% of spending, so the top-category warning fires; Food
  exceeds 15% of income, so the food tip fires; nothing is saved, so the
  savings reminder fires. Three rule messages mean no generic tips:
  `Insights.FoodOnlyExample` proves the result is
  `[TopCategoryWarning("Food", 100%), FoodTip, SavingsReminder]`.
- **Failed writes.** Only `updateIncome`/`updateExpense` leave memory
  unchanged when the write fails, because they call `setItem` outside any
  `try` and the rejection stops them before the state is set. The store
  functions used by add and remove swallow write errors, so memory is
  updated anyway and memory and store diverge
  (`AppContext.FailedAddDiverges`, `AppContext.FailedRemoveDiverges`).
- **Two-digit years.** `getMonthRange` passes `getFullYear()` back into
  the constructor, so a reference date in the years 0 to 99 gets the window
  of the same month in 1900 to 1999 (`Dates.TwoDigitYearWindow`). For the
  same reason, in January of the year 100 the previous-month window of
  `getRecurringExpenses` is December 1999
  (`Insights.LastWindowOfYear100January`).

## Model

| member | source | states |
|---|---|---|
| Seqs.Filter | src/utils/dateUtils.ts:40-43 | `filter` keeps exactly the elements that pass the test, in order, and nothing else |
| Seqs.KeysInOrder | src/utils/financeUtils.ts:99-100 | the keys an object gains while walking a list: no repeats, every key of every element, nothing else |
| Seqs.FirstIndex | src/utils/financeUtils.ts:99-100 | the first position holding a key, or the length when no element has it: the element there has the key and no earlier one does |
| Seqs.KeysInOrderFirstOccurrence | src/utils/financeUtils.ts:99-100 | every listed key occurs, and a key listed earlier first occurs earlier, so the list is in first-occurrence order |
| Finance.TotalIncome | src/utils/financeUtils.ts:5-7 | the `reduce` total of the income amounts is 0 for no income and never negative when no amount is |
| Finance.TotalExpenses | src/utils/financeUtils.ts:10-12 | the same for the expense amounts |
| Finance.Balance | src/utils/financeUtils.ts:15-17 | income minus expenses is negative exactly when expenses exceed income, zero exactly when they are equal, and at most the income when no expense is negative |
| Finance.SumAppend | src/utils/financeUtils.ts:5-12 | the `reduce` sum of amounts from 0 is additive over concatenation |
| Finance.TotalsAdditive | src/utils/financeUtils.ts:5-12 | total income and total expenses are 0 for no records and add up over concatenated lists |
| Finance.BalanceAdditive | src/utils/financeUtils.ts:15-17 | the balance is additive and negative exactly when expenses exceed income |
| Finance.CategoryTotal | src/utils/financeUtils.ts:20-33 | a category's total is 0 when it does not occur, and positive when it occurs and all amounts are positive |
| Finance.ExpensesByCategory | src/utils/financeUtils.ts:20-33 | the map's keys are exactly the categories in first-occurrence order |
| Finance.ByCategoryValue | src/utils/financeUtils.ts:20-33 | each map value is the sum of that category's amounts |
| Finance.ByCategoryKeys | src/utils/financeUtils.ts:20-33 | a category is a key iff some expense has it |
| Finance.ByCategoryNoZero | src/utils/financeUtils.ts:20-33 | with positive amounts no entry is zero |
| Finance.SumOfCategoryTotalsIsTotal | src/utils/financeUtils.ts:20-33 | summing category totals over distinct categories covering every expense gives total expenses |
| Finance.ByCategorySumsToTotal | src/utils/financeUtils.ts:20-33 | the map's values, summed in key order, equal total expenses |
| Finance.FormatExpensesForPieChart | src/utils/financeUtils.ts:36-46 | one slice per category in key order, with that category's total, its hash colour, grey legend and font size 12; names are distinct |
| Finance.PieChartSumsToTotal | src/utils/financeUtils.ts:36-46 | the slices add up to total expenses |
| ColorHash.Utf16 | src/utils/financeUtils.ts:51-52 | `charCodeAt` yields UTF-16 code units below 0x10000, between one and two per character |
| ColorHash.ToInt32 | src/utils/financeUtils.ts:52 | the int32 conversion lands in [-2^31, 2^31) and preserves the value modulo 2^32 |
| ColorHash.JsHash | src/utils/financeUtils.ts:50-53 | the float hash grows by at most 2^31 + 2^16 per code unit, so it stays exact for inputs of up to about four million units |
| ColorHash.JsStep | src/utils/financeUtils.ts:52 | one loop step, `unit + ((hash << 5) - hash)` with the int32 shift, is `31·h + unit` modulo 2^32 |
| ColorHash.JsHashIsHash | src/utils/financeUtils.ts:50-53 | the JavaScript loop equals the reference fold `31·h + unit` modulo 2^32 |
| ColorHash.JsByte | src/utils/financeUtils.ts:57 | `(hash >> 8i) & 0xFF` is a byte, and for i < 3 it is byte i of the hash reduced modulo 2^32 |
| ColorHash.JsBytesAreHashBytes | src/utils/financeUtils.ts:56-57 | `(hash >> 8i) & 0xFF` of the unreduced hash is byte i of the reference hash, for i < 3 |
| ColorHash.ToHex | src/utils/financeUtils.ts:58 | `toString(16)` gives lower-case hex digits: one for values below 16, two for values below 256 |
| ColorHash.Pad2 | src/utils/financeUtils.ts:58 | `('00' + hex).substr(-2)` of a byte is exactly its two hex digits |
| ColorHash.ColorFromString | src/utils/financeUtils.ts:49-62 | the colour is `#` and six lower-case hex digits, whose pairs are bytes 0, 1, 2 of the reference hash |
| ColorHash.ColorRoundTrip | src/utils/financeUtils.ts:55-61 | parsing the colour back recovers the three low bytes of the hash |
| ColorHash.EmptyStringIsBlack | src/utils/financeUtils.ts:49-62 | the empty string gives `#000000` |
| Finance.MonthlyChangePercentage | src/utils/financeUtils.ts:65-71 | zero previous gives 100 for a positive current, else 0; otherwise applying the result to previous gives back current; its sign is that of the change for a positive previous value and the opposite for a negative one |
| Finance.MonthlyChangeExamples | src/utils/financeUtils.ts:65-71 | sample values, including equal nonzero months giving 0 and a negative previous value reversing the sign |
| Dates.PreviousMonthReference | src/utils/financeUtils.ts:76 | `new Date(y, m - 1)` lies on day 1 of the month before (y as the constructor widens it, m), December of the year before for January |
| Insights.PreviousMonthStart | src/utils/financeUtils.ts:76 | the previous-month reference is a valid date on day 1 of the month before today's widened month |
| Insights.RecurringExpenses | src/utils/financeUtils.ts:74-89 | an order-preserving subsequence of this month's expenses; an expense is kept iff some previous-month expense is similar; empty when last month is empty |
| Insights.RecurringMatchesPreviousMonth | src/utils/financeUtils.ts:74-89 | each recurring expense is from today's window month and has a same-category match within 10% from the previous-month window |
| Insights.LastWindowIsPreviousMonth | src/utils/financeUtils.ts:76-79 | outside the years 0 to 99 and January of the year 100, the previous-month window is the calendar month before today's |
| Insights.LastWindowOfYear100January | src/utils/financeUtils.ts:76-79 | in January of the year 100 the reference is December 99, whose window is December 1999 |
| Insights.Similar | src/utils/financeUtils.ts:85-86 | same category, and the current amount strictly between 90% and 110% of the previous one, which must be positive |
| Insights.SimilarExamples | src/utils/financeUtils.ts:85-86 | after 100, 105 matches and 120 does not |
| Insights.SimilarIsAsymmetric | src/utils/financeUtils.ts:86 | the tolerance is relative to the previous amount, so similarity is not symmetric |
| Insights.Percent | src/utils/financeUtils.ts:116 | a nonzero total gives the finite share; a zero total gives Infinity exactly for a positive top and NaN exactly for a zero top |
| Insights.FirstMax | src/utils/financeUtils.ts:108-114 | the element a stable descending sort puts first holds the maximum, and every earlier element is smaller |
| Insights.FirstMaxIsTop | src/utils/financeUtils.ts:108-115 | that element, over the category totals in key order, is the top category |
| Insights.TopCategoryUnique | src/utils/financeUtils.ts:108-114 | only one category is the top one |
| Insights.TopCategoryRule | src/utils/financeUtils.ts:113-121 | the category rule yields at most one message, a category warning |
| Insights.Push | src/utils/financeUtils.ts:103-105 | a conditional `push` adds the message iff the rule fires, and keeps the ranks increasing when the new message ranks above the rest |
| Insights.Assemble | src/utils/financeUtils.ts:102-138 | the five rules yield at most five messages, each at most once, in source order |
| Insights.AssembleContents | src/utils/financeUtils.ts:102-138 | each rule's message is present iff that rule fired |
| Insights.RuleSuggestions | src/utils/financeUtils.ts:96-138 | the rule messages number at most five, in source order |
| Insights.WithGenericAdvice | src/utils/financeUtils.ts:140-146 | two to five messages in order; the two generic tips appear, last, exactly when fewer than two rules fired |
| Insights.GenerateSavingsSuggestions | src/utils/financeUtils.ts:92-147 | every call returns two to five suggestions, each at most once, in rule order |
| Insights.LookupIsCategoryTotal | src/utils/financeUtils.ts:124-135 | `expensesByCategory[k] \|\| 0` is the category total, present or not |
| Insights.SuggestionRules | src/utils/financeUtils.ts:102-138 | the overspending, food, entertainment and savings messages are present iff their thresholds on the category totals hold |
| Insights.OverspendingFirst | src/utils/financeUtils.ts:102-105 | when expenses exceed income the overspending warning is first |
| Insights.TopCategoryRuleMeaning | src/utils/financeUtils.ts:107-121 | the rule warns about c with share p iff c is the top category, p its share, and p exceeds 30% |
| Insights.TopIsFirstMax | src/utils/financeUtils.ts:108-114 | c is the top category iff it is the first maximum of the map's values in key order, and its entry is its total |
| Insights.TopWarningComesFromRule | src/utils/financeUtils.ts:102-146 | a category warning is in the final list iff the category rule produced it |
| Insights.TopCategoryWarningIff | src/utils/financeUtils.ts:107-121 | the result warns about c iff c is the top category and its share exceeds 30%, and the share carried is that share |
| Insights.TopShareIsPercentage | src/utils/financeUtils.ts:114-116 | with positive amounts the top share is finite, above 0 and at most 100 |
| Insights.TopHoldsAThird | src/utils/financeUtils.ts:108-116 | with positive amounts and at most three categories the top category holds at least a third of spending |
| Insights.TopShareAboveThirty | src/utils/financeUtils.ts:113-120 | in that case its share exceeds 30% |
| Insights.FewCategoriesAlwaysWarn | src/utils/financeUtils.ts:113-120 | one to three categories with positive amounts always trigger the category warning |
| Insights.NoRecordsNoRules | src/utils/financeUtils.ts:96-138 | with no records no rule fires |
| Insights.NoRecordsGiveGenericAdvice | src/utils/financeUtils.ts:92-147 | with no records the result is exactly the two generic tips |
| Insights.NoIncomeNoSavingsReminder | src/utils/financeUtils.ts:135-138 | with zero income and non-negative amounts the savings reminder never appears |
| Insights.FoodOnlyExample | src/utils/financeUtils.ts:92-147 | income 1000 and a single Food expense of 400 give the category warning at 100%, the food tip and the savings reminder |
| Dates.DaysInMonth | src/utils/dateUtils.ts:27 | every month has 28 to 31 days under the Gregorian rule |
| Dates.NotAfterIsTotalOrder | src/utils/dateUtils.ts:42 | comparing two dates is a total order |
| Dates.NextMonth | src/utils/dateUtils.ts:27 | the following month, December carrying into January of the next year |
| Dates.PrevMonth | src/utils/financeUtils.ts:76 | the preceding month, January carrying into December of the year before |
| Dates.NormalizeDay | src/utils/dateUtils.ts:24-27 | a valid midnight; a day inside the month is kept; day 0 is the previous month's last day; one past the last day is the next month's first |
| Dates.FullYear | src/utils/dateUtils.ts:24 | the constructor's year: 0 to 99 become 1900 to 1999, never a two-digit year |
| Dates.LocalDate | src/utils/dateUtils.ts:24-27 | `new Date(y, m, d)` gives a valid date, and for days 1 to 28 the month index carries into the widened year |
| Dates.MonthRange | src/utils/dateUtils.ts:20-31 | start is day 1 at 00:00:00.000 and end the month's last day at 23:59:59.999, in the widened year; start < end; the reference lies between them unless its year is two-digit, when it lies before |
| Dates.InMonthIffSameMonth | src/utils/dateUtils.ts:38-43 | a valid date lies in the window iff it has the reference's month and widened year |
| Dates.TwoDigitYearWindow | src/utils/dateUtils.ts:20-43 | a reference in the years 0 to 99 is outside its own window, which is the same month 1900 years later |
| DateUtils.FilterByMonth | src/utils/dateUtils.ts:34-44 | an order-preserving subsequence; an item is kept iff its date lies in the window |
| DateUtils.FilterByMonthKeepsSameMonth | src/utils/dateUtils.ts:34-44 | for valid dates, kept iff the month and widened year of the reference |
| DateUtils.FilterByMonthIdempotent | src/utils/dateUtils.ts:34-44 | filtering twice by the same month is filtering once |
| DateUtils.FilterByMonthDisjoint | src/utils/dateUtils.ts:34-44 | references with different window months share no item |
| DateUtils.FilterByMonthSameWindow | src/utils/dateUtils.ts:34-44 | references with the same window month (e.g. years 50 and 1950) filter alike |
| DateUtils.InsertNewestFirst | src/utils/dateUtils.ts:53 | insertion adds exactly the one item |
| DateUtils.InsertKeepsNewestFirst | src/utils/dateUtils.ts:53 | inserting into a newest-first list keeps it newest first |
| DateUtils.SortByDate | src/utils/dateUtils.ts:52-54 | the sorted copy is a permutation of the input |
| DateUtils.SortByDateNewestFirst | src/utils/dateUtils.ts:52-54 | the sorted copy is ordered newest first |
| DateUtils.InsertKeepsTies | src/utils/dateUtils.ts:53 | an inserted item goes before the items with an equal timestamp |
| DateUtils.SortByDateStable | src/utils/dateUtils.ts:52-54 | items with equal timestamps keep their input order |
| DateUtils.GroupByDate | src/utils/dateUtils.ts:57-73 | every item's day key has a group; groups are non-empty and hold only items with their key |
| DateUtils.GroupByDateIsFilter | src/utils/dateUtils.ts:57-73 | each group is exactly the items with that key, in input order |
| DateUtils.GroupKeysInOrder | src/utils/dateUtils.ts:60-72 | the group keys are exactly the day keys that occur |
| DateUtils.GroupByDateCountsAll | src/utils/dateUtils.ts:57-73 | the groups together hold as many items as the input |
| Storage.DefaultCategoriesDistinct | src/services/storageService.ts:12-16 | thirteen distinct default names, including Food, Entertainment and Savings |
| Storage.ReadList | src/services/storageService.ts:51-59 | a successful read of a present key gives the stored list; an absent key or a failed read gives `[]` |
| Storage.GetAllIncome | src/services/storageService.ts:51-59 | the stored income on a successful read of a present key, otherwise `[]` |
| Storage.GetAllExpenses | src/services/storageService.ts:73-81 | the same for expenses |
| Storage.GetCategories | src/services/storageService.ts:95-103 | the stored categories, or the defaults when the key is absent or the read fails |
| Storage.InitializeStorage | src/services/storageService.ts:39-48 | only the categories key may change; an existing list is never overwritten; a successful seeding stores the defaults; a failure changes nothing |
| Storage.InitializeKeepsCategoryView | src/services/storageService.ts:39-48 | seeding never changes what reading the categories returns |
| Storage.InitializeIdempotent | src/services/storageService.ts:39-48 | seeding twice is seeding once |
| Storage.RemoveById | src/services/storageService.ts:122 | an order-preserving subsequence with no record of that id, keeping every other record |
| Storage.RemoveAbsentId | src/services/storageService.ts:119-127 | deleting an id no record carries changes nothing |
| Storage.RemoveByIdIdempotent | src/services/storageService.ts:119-127 | deleting twice is deleting once |
| Storage.RemoveUndoesAppend | src/services/storageService.ts:119-127 | deleting the id of a freshly appended record with a new id gives back the list |
| Storage.AddIncome | src/services/storageService.ts:62-70 | a successful write stores the read list plus the record at the end; only the income key changes; a failed write changes nothing |
| Storage.AddExpense | src/services/storageService.ts:84-92 | the same for expenses |
| Storage.DeleteIncome | src/services/storageService.ts:119-127 | a successful write stores the read list without that id; only the income key changes |
| Storage.DeleteExpense | src/services/storageService.ts:130-138 | the same for expenses |
| Storage.AddCategory | src/services/storageService.ts:106-116 | a present name or a failed write changes nothing; a new name is appended to the read list; other keys are untouched |
| Storage.AddIncomeAppendsOne | src/services/storageService.ts:62-70 | the list grows by one, the new record is last, earlier records are untouched |
| Storage.AddIncomeToAbsentKey | src/services/storageService.ts:51-70 | an absent key reads as `[]`, so the first record becomes the whole list |
| Storage.DeleteUndoesAddExpense | src/services/storageService.ts:130-138 | deleting a just-added expense with a new id restores the stored list |
| Storage.DeleteIncomeIdempotent | src/services/storageService.ts:119-127 | deleting twice equals deleting once; deleting an absent id is a no-op |
| Storage.DeleteExpenseIdempotent | src/services/storageService.ts:130-138 | the same for expenses |
| Storage.AddCategoryLaws | src/services/storageService.ts:106-116 | adding a category is idempotent, leaves the name present, and keeps a duplicate-free list duplicate-free |
| Storage.ReadFailureLosesRecords | src/services/storageService.ts:51-70 | after a failed read, adding overwrites the stored list with the one record and deleting stores `[]` |
| Storage.ReadFailureResetsCategories | src/services/storageService.ts:95-116 | after a failed read, adding a new category replaces a custom list with the defaults plus that name |
| AppContext.ReplaceById | src/context/AppContext.tsx:106-108 | same length; each record is replaced iff its id matches, otherwise unchanged |
| AppContext.ReplaceByIdLaws | src/context/AppContext.tsx:105-115 | an unknown id changes nothing; replacing twice is replacing once |
| AppContext.RefreshData | src/context/AppContext.tsx:70-80 | the store is unchanged; with successful reads memory equals the stored lists |
| AppContext.Initialize | src/context/AppContext.tsx:58-67 | with working storage the app starts in sync, showing the stored categories or the defaults |
| AppContext.AddNewIncome | src/context/AppContext.tsx:83-91 | memory gains the record with the fresh id at the end, whatever the store did; nothing else in memory changes |
| AppContext.AddNewExpense | src/context/AppContext.tsx:94-102 | the same for expenses |
| AppContext.UpdateIncome | src/context/AppContext.tsx:105-115 | a failed write changes nothing; a successful one replaces by id in memory and leaves store and memory agreeing on income |
| AppContext.UpdateExpense | src/context/AppContext.tsx:118-128 | the same for expenses |
| AppContext.RemoveIncome | src/context/AppContext.tsx:131-134 | memory drops exactly the records with that id, keeping order, whatever the store did |
| AppContext.RemoveExpense | src/context/AppContext.tsx:137-140 | the same for expenses |
| AppContext.AddNewCategory | src/context/AppContext.tsx:143-148 | memory appends the name only if its own list lacks it, mirroring the store rule |
| AppContext.TransitionsPreserveSync | src/context/AppContext.tsx:83-148 | with every request succeeding, each transition keeps memory equal to the store |
| AppContext.FailedUpdateChangesNothing | src/context/AppContext.tsx:105-128 | a failed update leaves the app unchanged |
| AppContext.FailedAddDiverges | src/context/AppContext.tsx:83-91 | a failed write while adding leaves memory one record ahead of the store |
| AppContext.FailedRemoveDiverges | src/context/AppContext.tsx:131-134 | a failed write while removing leaves the record in the store but not in memory |
| AppContext.RefreshRestoresSync | src/context/AppContext.tsx:70-80 | a successful refresh repairs any divergence |
| AppContext.RemoveUndoesAddNewIncome | src/context/AppContext.tsx:83-134 | adding a record under a new id and removing it restores memory and keeps sync |

## Left out

- Screens, components, navigation, theme and `App.tsx`: rendering only.
- `formatDate`, `formatCurrency`, `getMonthName`: locale formatting through `Intl`.
- The message texts of the suggestions. Each message is a constructor of `Insights.Suggestion`. The category warning carries the category and its share, but not the `toFixed(1)` rendering.
- ISO-8601 parsing, time zones and daylight saving. A record's date is an already decoded local timestamp, and `groupByDate`'s UTC day key is an abstract function `keyOf` of the record.
- The clock. `today` in `getRecurringExpenses`, the `date = new Date()` default of `getMonthRange` and `filterByMonth`, and the `Date.now()` id of a new record are explicit parameters.
- Dates.LocalDate: the calendar is unbounded; a JavaScript `Date` more than 8.64e15 ms from 1970 (beyond about the year 275760 either way) is invalid, and every comparison with it is false.
- Dates.MonthRange: for the same reason, windows beyond the `Date` range are not invalid in the model.
- Dates.InMonthIffSameMonth: holds in the model also for dates beyond the `Date` range, where JavaScript's comparisons are all false.
- DateUtils.FilterByMonthKeepsSameMonth: the same `Date` range limit is not modelled; an item dated beyond it would be dropped by the source.
- Dates.PreviousMonthReference: the same `Date` range limit is not modelled.
- Insights.PreviousMonthStart: the same `Date` range limit is not modelled.
- Insights.RecurringMatchesPreviousMonth: the same `Date` range limit is not modelled.
- IEEE-754 rounding. Amounts and shares are exact reals, so `0.1` and `0.15` are exact, unlike their binary doubles.
- ColorHash.JsHash: exact only while the unreduced hash stays below 2^53, that is for strings of up to about four million UTF-16 code units; longer strings are outside the model.
- Finance.CategoryOrder: category names that look like array indices ("0", "12") come first in `Object.keys` order in JavaScript; the model uses first-occurrence order for all names. Names that clash with `Object.prototype` members ("toString", "__proto__") are not modelled either.
- AsyncStorage, JSON encoding and `console.error`: the store is three optional lists, and a value that fails to parse counts as a failed read. The unused `moneyflow_settings` key is not modelled.
- `isLoading`, `Promise.all`, `async`/`await` interleaving and stale React closures: each transition is one atomic step over a snapshot of the state.
