/** The aggregation functions of src/utils/financeUtils.ts: totals,
    balance, per-category totals, pie-chart series and month-over-month
    change. Recurrence detection and savings suggestions live in the
    `Insights` module. */
module Finance {
  import opened Seqs
  import opened Records
  import ColorHash

  /** `reduce((total, item) => total + item.amount, 0)`: a left fold of the
      amounts from 0. Non-negative amounts give a non-negative total. */
  function Sum<T>(xs: seq<T>, amount: T -> real): (t: real)
    ensures (forall i :: 0 <= i < |xs| ==> amount(xs[i]) >= 0.0) ==> t >= 0.0
    decreases |xs|
  {
    if |xs| == 0 then 0.0
    else Sum(xs[..|xs| - 1], amount) + amount(xs[|xs| - 1])
  }

  /** The fold is additive over concatenation, so it also equals the right
      fold `amount(xs[0]) + Sum(xs[1..])`. */
  lemma {:induction false} SumAppend<T>(a: seq<T>, b: seq<T>, amount: T -> real)
    ensures Sum(a + b, amount) == Sum(a, amount) + Sum(b, amount)
    decreases |b|
  {
    if |b| == 0 {
      assert a + b == a;
    } else {
      var n := |b| - 1;
      assert (a + b)[..|a + b| - 1] == a + b[..n];
      SumAppend(a, b[..n], amount);
    }
  }

  /** `calculateTotalIncome`: 0 for no income, never negative when no
      amount is. */
  function TotalIncome(income: seq<Income>): (r: real)
    ensures |income| == 0 ==> r == 0.0
    ensures (forall i :: 0 <= i < |income| ==> income[i].amount >= 0.0) ==> r >= 0.0
  {
    Sum(income, IncomeAmount)
  }

  /** `calculateTotalExpenses`: 0 for no expenses, never negative when no
      amount is. */
  function TotalExpenses(expenses: seq<Expense>): (r: real)
    ensures |expenses| == 0 ==> r == 0.0
    ensures (forall i :: 0 <= i < |expenses| ==> expenses[i].amount >= 0.0) ==> r >= 0.0
  {
    Sum(expenses, ExpenseAmount)
  }

  /** Both totals are 0 for no records and add up over concatenated lists. */
  lemma TotalsAdditive(i1: seq<Income>, i2: seq<Income>, e1: seq<Expense>, e2: seq<Expense>)
    ensures TotalIncome([]) == 0.0 && TotalExpenses([]) == 0.0
    ensures TotalIncome(i1 + i2) == TotalIncome(i1) + TotalIncome(i2)
    ensures TotalExpenses(e1 + e2) == TotalExpenses(e1) + TotalExpenses(e2)
  {
    SumAppend(i1, i2, IncomeAmount);
    SumAppend(e1, e2, ExpenseAmount);
  }

  /** `calculateBalance`: income minus expenses. It is negative exactly
      when expenses exceed income, zero exactly when they are equal, and
      with non-negative expenses it never exceeds the income. */
  function Balance(income: seq<Income>, expenses: seq<Expense>): (r: real)
    ensures r < 0.0 <==> TotalExpenses(expenses) > TotalIncome(income)
    ensures r == 0.0 <==> TotalExpenses(expenses) == TotalIncome(income)
    ensures (forall i :: 0 <= i < |expenses| ==> expenses[i].amount >= 0.0) ==> r <= TotalIncome(income)
  {
    TotalIncome(income) - TotalExpenses(expenses)
  }

  /** The balance of combined lists is the sum of the balances, and it is
      negative exactly when expenses exceed income. */
  lemma BalanceAdditive(i1: seq<Income>, i2: seq<Income>, e1: seq<Expense>, e2: seq<Expense>)
    ensures Balance(i1 + i2, e1 + e2) == Balance(i1, e1) + Balance(i2, e2)
    ensures Balance(i1, e1) < 0.0 <==> TotalExpenses(e1) > TotalIncome(i1)
  {
    TotalsAdditive(i1, i2, e1, e2);
  }

  /** Some expense has category `c`. */
  predicate HasCategory(expenses: seq<Expense>, c: string) {
    exists i :: 0 <= i < |expenses| && expenses[i].category == c
  }

  /** Reference definition: the sum of the amounts of the expenses in
      category `c`. */
  function CategoryTotal(expenses: seq<Expense>, c: string): (t: real)
    ensures !HasCategory(expenses, c) ==> t == 0.0
    ensures (forall i :: 0 <= i < |expenses| ==> expenses[i].amount > 0.0) && HasCategory(expenses, c)
            ==> t > 0.0
    decreases |expenses|
  {
    if |expenses| == 0 then 0.0
    else
      var n := |expenses| - 1;
      assert forall i :: 0 <= i < n ==> expenses[..n][i] == expenses[i];
      CategoryTotal(expenses[..n], c) + (if expenses[n].category == c then expenses[n].amount else 0.0)
  }

  /** The categories in the order `Object.keys` lists them for the object
      `calculateExpensesByCategory` builds: order of first occurrence. */
  function CategoryOrder(expenses: seq<Expense>): seq<string> {
    KeysInOrder(expenses, ExpenseCategory)
  }

  /** `calculateExpensesByCategory`: one entry per category that occurs,
      holding that category's total. A present entry whose total is 0 is
      falsy, so the source resets it to 0 before adding, which changes
      nothing. */
  function ExpensesByCategory(expenses: seq<Expense>): (m: map<string, real>)
    ensures forall c :: c in m <==> c in CategoryOrder(expenses)
    decreases |expenses|
  {
    if |expenses| == 0 then map[]
    else
      var n := |expenses| - 1;
      var m := ExpensesByCategory(expenses[..n]);
      var e := expenses[n];
      var o := CategoryOrder(expenses[..n]);
      assert CategoryOrder(expenses) == if e.category in o then o else o + [e.category];
      var base := if e.category in m && m[e.category] != 0.0 then m[e.category] else 0.0;
      m[e.category := base + e.amount]
  }

  /** Each value is the sum of that category's amounts. */
  lemma {:induction false} ByCategoryValue(expenses: seq<Expense>, c: string)
    requires c in ExpensesByCategory(expenses)
    ensures ExpensesByCategory(expenses)[c] == CategoryTotal(expenses, c)
    decreases |expenses|
  {
    var n := |expenses| - 1;
    var m := ExpensesByCategory(expenses[..n]);
    if c in m {
      ByCategoryValue(expenses[..n], c);
    } else if HasCategory(expenses[..n], c) {
      ByCategoryKeys(expenses[..n]);
    }
  }

  lemma ByCategoryValues(expenses: seq<Expense>)
    ensures forall c :: c in ExpensesByCategory(expenses) ==>
      ExpensesByCategory(expenses)[c] == CategoryTotal(expenses, c)
  {
    forall c | c in ExpensesByCategory(expenses) {
      ByCategoryValue(expenses, c);
    }
  }

  /** The keys are exactly the categories that occur. */
  lemma ByCategoryKeys(expenses: seq<Expense>)
    ensures forall c :: c in ExpensesByCategory(expenses) <==> HasCategory(expenses, c)
  {
    var ks := CategoryOrder(expenses);
    forall c | HasCategory(expenses, c)
      ensures c in ks
    {
      var i :| 0 <= i < |expenses| && expenses[i].category == c;
      assert ExpenseCategory(expenses[i]) in ks;
    }
    forall c | c in ks
      ensures HasCategory(expenses, c)
    {
      var j :| 0 <= j < |ks| && ks[j] == c;
      var i :| 0 <= i < |expenses| && ExpenseCategory(expenses[i]) == ks[j];
      assert expenses[i].category == c;
    }
  }

  /** With positive amounts no category total is zero. */
  lemma ByCategoryNoZero(expenses: seq<Expense>)
    requires forall i :: 0 <= i < |expenses| ==> expenses[i].amount > 0.0
    ensures forall c :: c in ExpensesByCategory(expenses) ==> ExpensesByCategory(expenses)[c] > 0.0
  {
    ByCategoryKeys(expenses);
    ByCategoryValues(expenses);
  }

  /** The sum of `CategoryTotal` over the categories `ks`. */
  function SumOfCategoryTotals(expenses: seq<Expense>, ks: seq<string>): real {
    Sum(ks, k => CategoryTotal(expenses, k))
  }

  lemma {:induction false} SumOfCategoryTotalsStep(expenses: seq<Expense>, ks: seq<string>)
    requires |expenses| > 0 && Distinct(ks)
    ensures var n := |expenses| - 1;
            var e := expenses[n];
            SumOfCategoryTotals(expenses, ks)
            == SumOfCategoryTotals(expenses[..n], ks) + (if e.category in ks then e.amount else 0.0)
    decreases |ks|
  {
    if |ks| > 0 {
      var k := |ks| - 1;
      SumOfCategoryTotalsStep(expenses, ks[..k]);
      assert ks[..k] + [ks[k]] == ks;
      assert expenses[|expenses| - 1].category in ks[..k] ==> ks[k] != expenses[|expenses| - 1].category;
    }
  }

  /** Summing the per-category totals over distinct categories that cover
      every expense gives the total of all expenses. */
  lemma {:induction false} SumOfCategoryTotalsIsTotal(expenses: seq<Expense>, ks: seq<string>)
    requires Distinct(ks)
    requires forall i :: 0 <= i < |expenses| ==> expenses[i].category in ks
    ensures SumOfCategoryTotals(expenses, ks) == TotalExpenses(expenses)
    decreases |expenses|
  {
    if |expenses| == 0 {
      SumOfCategoryTotalsZero(ks);
    } else {
      var n := |expenses| - 1;
      SumOfCategoryTotalsIsTotal(expenses[..n], ks);
      SumOfCategoryTotalsStep(expenses, ks);
    }
  }

  lemma {:induction false} SumOfCategoryTotalsZero(ks: seq<string>)
    ensures SumOfCategoryTotals([], ks) == 0.0
    decreases |ks|
  {
    if |ks| > 0 {
      SumOfCategoryTotalsZero(ks[..|ks| - 1]);
    }
  }

  /** The sum of the map's values over the keys `ks`, a missing key
      counting as 0. */
  function SumOfValues(m: map<string, real>, ks: seq<string>): real {
    Sum(ks, k => if k in m then m[k] else 0.0)
  }

  lemma {:induction false} SumOfValuesIsSumOfTotals(expenses: seq<Expense>, ks: seq<string>)
    requires forall j :: 0 <= j < |ks| ==> ks[j] in ExpensesByCategory(expenses)
    ensures SumOfValues(ExpensesByCategory(expenses), ks) == SumOfCategoryTotals(expenses, ks)
    decreases |ks|
  {
    if |ks| > 0 {
      SumOfValuesIsSumOfTotals(expenses, ks[..|ks| - 1]);
      ByCategoryValue(expenses, ks[|ks| - 1]);
    }
  }

  /** The per-category totals, one per category in key order, add up to
      the total expenses. */
  lemma ByCategorySumsToTotal(expenses: seq<Expense>)
    ensures var m := ExpensesByCategory(expenses);
            var ks := CategoryOrder(expenses);
            (forall j :: 0 <= j < |ks| ==> ks[j] in m)
            && SumOfValues(m, ks) == TotalExpenses(expenses)
  {
    var ks := CategoryOrder(expenses);
    SumOfValuesIsSumOfTotals(expenses, ks);
    SumOfCategoryTotalsIsTotal(expenses, ks);
  }

  /** One entry of the pie-chart series. */
  datatype PieSlice = PieSlice(
    name: string,
    amount: real,
    color: string,
    legendFontColor: string,
    legendFontSize: int)

  /** `formatExpensesForPieChart`: one slice per category, in key order,
      carrying the category's total and its hash colour. */
  function FormatExpensesForPieChart(expenses: seq<Expense>): (r: seq<PieSlice>)
    ensures |r| == |CategoryOrder(expenses)|
    ensures forall i :: 0 <= i < |r| ==>
      && r[i].name == CategoryOrder(expenses)[i]
      && r[i].amount == CategoryTotal(expenses, r[i].name)
      && r[i].color == ColorHash.ColorFromString(r[i].name)
      && r[i].legendFontColor == "#7F7F7F" && r[i].legendFontSize == 12
    ensures forall i, j :: 0 <= i < j < |r| ==> r[i].name != r[j].name
  {
    var m := ExpensesByCategory(expenses);
    var ks := CategoryOrder(expenses);
    ByCategoryValues(expenses);
    seq(|ks|, i requires 0 <= i < |ks| =>
      PieSlice(ks[i], m[ks[i]], ColorHash.ColorFromString(ks[i]), "#7F7F7F", 12))
  }

  /** The sum of the slice amounts. */
  function SliceTotal(slices: seq<PieSlice>): real {
    Sum(slices, (x: PieSlice) => x.amount)
  }

  lemma {:induction false} SliceTotalIsSumOfValues(m: map<string, real>, ks: seq<string>, slices: seq<PieSlice>)
    requires forall j :: 0 <= j < |ks| ==> ks[j] in m
    requires |slices| == |ks|
    requires forall j :: 0 <= j < |ks| ==> slices[j].amount == m[ks[j]]
    ensures SliceTotal(slices) == SumOfValues(m, ks)
    decreases |ks|
  {
    if |ks| > 0 {
      var n := |ks| - 1;
      SliceTotalIsSumOfValues(m, ks[..n], slices[..n]);
    }
  }

  /** The pie chart shows all of the spending: its slices add up to the
      total expenses. */
  lemma PieChartSumsToTotal(expenses: seq<Expense>)
    ensures SliceTotal(FormatExpensesForPieChart(expenses)) == TotalExpenses(expenses)
  {
    ByCategorySumsToTotal(expenses);
    SliceTotalIsSumOfValues(ExpensesByCategory(expenses), CategoryOrder(expenses),
                            FormatExpensesForPieChart(expenses));
  }

  /** `calculateMonthlyChangePercentage`. With a zero previous value the
      result is 100 for a positive current value and 0 otherwise; else it
      is the relative change in percent, which applied to the previous value
      gives back the current one. Its sign is that of the change for a
      positive previous value and the opposite for a negative one. */
  function MonthlyChangePercentage(current: real, previous: real): (r: real)
    ensures previous == 0.0 ==> (current > 0.0 ==> r == 100.0) && (current <= 0.0 ==> r == 0.0)
    ensures previous != 0.0 ==> previous + previous * r / 100.0 == current
    ensures previous > 0.0 ==> (r > 0.0 <==> current > previous) && (r < 0.0 <==> current < previous)
    ensures previous < 0.0 ==> (r > 0.0 <==> current < previous) && (r < 0.0 <==> current > previous)
  {
    if previous == 0.0 then (if current > 0.0 then 100.0 else 0.0)
    else ((current - previous) / previous) * 100.0
  }

  /** Examples of `calculateMonthlyChangePercentage`; a negative previous
      value reverses the sign of a growth. */
  lemma MonthlyChangeExamples()
    ensures MonthlyChangePercentage(0.0, 0.0) == 0.0
    ensures MonthlyChangePercentage(50.0, 0.0) == 100.0
    ensures MonthlyChangePercentage(150.0, 100.0) == 50.0
    ensures MonthlyChangePercentage(50.0, 100.0) == -50.0
    ensures MonthlyChangePercentage(-50.0, -100.0) == -50.0
    ensures forall p: real :: p != 0.0 ==> MonthlyChangePercentage(p, p) == 0.0
  {
  }
}
