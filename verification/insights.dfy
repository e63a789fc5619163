/** The derived insights of src/utils/financeUtils.ts: recurring-expense
    detection and the rule table of savings suggestions. */
module Insights {
  import opened Seqs
  import opened Dates
  import opened Records
  import opened Finance
  import DateUtils

  // ---------------------------------------------------------------------
  // Recurring expenses
  // ---------------------------------------------------------------------

  function Abs(x: real): real {
    if x < 0.0 then -x else x
  }

  /** `last` from the previous month matches `current`: the same category
      (exact string match) and an amount differing by less than 10% of the
      PREVIOUS month's amount: the current amount lies strictly between
      90% and 110% of the previous one, which must therefore be positive. */
  function Similar(last: Expense, current: Expense): (b: bool)
    ensures b <==> last.category == current.category
                   && last.amount * 0.9 < current.amount < last.amount * 1.1
    ensures b ==> last.amount > 0.0
  {
    last.category == current.category && Abs(last.amount - current.amount) < last.amount * 0.1
  }

  /** `lastMonthExpenses.some(last => ...)`. */
  predicate HasSimilar(last: seq<Expense>, current: Expense) {
    exists j :: 0 <= j < |last| && Similar(last[j], current)
  }

  /** The reference instant of the previous month,
      `new Date(today.getFullYear(), today.getMonth() - 1)`: day 1 of the
      month before today's, with today's year widened by the constructor. */
  function PreviousMonthStart(today: DateTime): (p: DateTime)
    requires Valid(today)
    ensures Valid(p) && p.day == 1
    ensures (p.year, p.month) == PrevMonth(FullYear(today.year), today.month)
  {
    PreviousMonthReference(today);
    LocalDate(today.year, today.month - 1, 1)
  }

  function CurrentMonthExpenses(expenses: seq<Expense>, today: DateTime): seq<Expense>
    requires Valid(today)
  {
    DateUtils.FilterByMonth(expenses, ExpenseDate, today)
  }

  function LastMonthExpenses(expenses: seq<Expense>, today: DateTime): seq<Expense>
    requires Valid(today)
  {
    DateUtils.FilterByMonth(expenses, ExpenseDate, PreviousMonthStart(today))
  }

  /** `getRecurringExpenses` with the clock reading `today` as a parameter:
      the current month's expenses, in their order, that have a similar
      expense in the previous-month window. */
  function RecurringExpenses(expenses: seq<Expense>, today: DateTime): (r: seq<Expense>)
    requires Valid(today)
    ensures IsSubsequence(r, CurrentMonthExpenses(expenses, today))
    ensures forall i :: 0 <= i < |r| ==> InMonth(r[i].date, today)
    ensures forall i :: 0 <= i < |r| ==> HasSimilar(LastMonthExpenses(expenses, today), r[i])
    ensures var current := CurrentMonthExpenses(expenses, today);
            forall i :: 0 <= i < |current| ==>
              (current[i] in r <==> HasSimilar(LastMonthExpenses(expenses, today), current[i]))
    ensures |LastMonthExpenses(expenses, today)| == 0 ==> r == []
  {
    var current := CurrentMonthExpenses(expenses, today);
    var last := LastMonthExpenses(expenses, today);
    RecurringFilter(current, last, today);
    Filter(current, SimilarToSome(last))
  }

  /** Filtering month-`today` expenses by similarity to `last` keeps an
      ordered selection of them, each in that month with a similar expense
      in `last`, and nothing when `last` is empty. */
  lemma RecurringFilter(current: seq<Expense>, last: seq<Expense>, today: DateTime)
    requires Valid(today)
    requires forall i :: 0 <= i < |current| ==> InMonth(current[i].date, today)
    ensures var r := Filter(current, SimilarToSome(last));
            && IsSubsequence(r, current)
            && (forall i :: 0 <= i < |r| ==> InMonth(r[i].date, today) && HasSimilar(last, r[i]))
            && (forall i :: 0 <= i < |current| ==> (current[i] in r <==> HasSimilar(last, current[i])))
            && (|last| == 0 ==> r == [])
  {
    var r := Filter(current, SimilarToSome(last));
    FilterIsSubsequence(current, SimilarToSome(last));
    forall i | 0 <= i < |r|
      ensures InMonth(r[i].date, today) && HasSimilar(last, r[i])
    {
      assert SimilarToSome(last)(r[i]);
      var k :| 0 <= k < |current| && current[k] == r[i];
    }
  }

  /** The test of `lastMonthExpenses.some(...)` as a filter predicate. */
  function SimilarToSome(last: seq<Expense>): Expense -> bool {
    e => HasSimilar(last, e)
  }

  /** The calendar month `getMonthRange` covers for the previous-month
      reference: the month before today's widened month, whose year is
      widened once more when the window is built. */
  function LastWindow(today: DateTime): (w: (int, int))
    requires Valid(today)
    ensures 0 <= w.1 < 12
  {
    var (y, m) := PrevMonth(FullYear(today.year), today.month);
    (FullYear(y), m)
  }

  /** For expenses with valid timestamps, every recurring expense is from
      today's calendar month and is matched by an expense of the same
      category from the month `LastWindow` names. */
  lemma RecurringMatchesPreviousMonth(expenses: seq<Expense>, today: DateTime)
    requires Valid(today)
    requires forall i :: 0 <= i < |expenses| ==> Valid(expenses[i].date)
    ensures forall x :: x in RecurringExpenses(expenses, today) ==>
      && x.date.year == FullYear(today.year) && x.date.month == today.month
      && exists l :: l in expenses && Similar(l, x) && (l.date.year, l.date.month) == LastWindow(today)
  {
    forall x | x in RecurringExpenses(expenses, today)
      ensures x.date.year == FullYear(today.year) && x.date.month == today.month
      ensures exists l :: l in expenses && Similar(l, x) && (l.date.year, l.date.month) == LastWindow(today)
    {
      RecurringOneMatches(expenses, today, x);
    }
  }

  /** `RecurringMatchesPreviousMonth` for one recurring expense. */
  lemma RecurringOneMatches(expenses: seq<Expense>, today: DateTime, x: Expense)
    requires Valid(today)
    requires forall i :: 0 <= i < |expenses| ==> Valid(expenses[i].date)
    requires x in RecurringExpenses(expenses, today)
    ensures x.date.year == FullYear(today.year) && x.date.month == today.month
    ensures exists l :: l in expenses && Similar(l, x) && (l.date.year, l.date.month) == LastWindow(today)
  {
    var current := CurrentMonthExpenses(expenses, today);
    var last := LastMonthExpenses(expenses, today);
    var p := PreviousMonthStart(today);
    assert x in current && HasSimilar(last, x);
    assert x in expenses;
    InMonthIffSameMonth(x.date, today);
    var j :| 0 <= j < |last| && Similar(last[j], x);
    var l := last[j];
    assert l in expenses && InMonth(l.date, p);
    InMonthIffSameMonth(l.date, p);
  }

  /** Outside the two-digit years, and apart from January of the year 100,
      the two windows are today's calendar month and the one before it. */
  lemma LastWindowIsPreviousMonth(today: DateTime)
    requires Valid(today)
    requires !(0 <= today.year <= 99) && !(today.year == 100 && today.month == 0)
    ensures FullYear(today.year) == today.year
    ensures LastWindow(today) == PrevMonth(today.year, today.month)
  {
  }

  /** In January of the year 100 the previous-month reference is
      December of the year 99, whose window is December 1999. */
  lemma LastWindowOfYear100January(today: DateTime)
    requires Valid(today) && today.year == 100 && today.month == 0
    ensures PreviousMonthStart(today).year == 99
    ensures LastWindow(today) == (1999, 11)
  {
  }

  /** For example: last month Food 100; this month Food 105 recurs
      (|100 - 105| < 10) while Food 120 does not (|100 - 120| = 20). */
  lemma SimilarExamples(last: Expense, a: Expense, b: Expense)
    requires last.category == "Food" && a.category == "Food" && b.category == "Food"
    requires last.amount == 100.0 && a.amount == 105.0 && b.amount == 120.0
    ensures Similar(last, a) && !Similar(last, b)
  {
  }

  /** The tolerance is relative to the previous amount, so the relation is
      not symmetric: 100 then 110.5 does not match, 110.5 then 100 does. */
  lemma SimilarIsAsymmetric(x: Expense, y: Expense)
    requires x.category == y.category && x.amount == 100.0 && y.amount == 110.5
    ensures !Similar(x, y) && Similar(y, x)
  {
  }

  // ---------------------------------------------------------------------
  // Savings suggestions
  // ---------------------------------------------------------------------

  /** The value of a JavaScript number quotient `a / b * 100`: finite, or
      one of the IEEE special values a division by zero yields. */
  datatype Quotient = Finite(value: real) | PosInfinity | NegInfinity | NaN

  /** `(top / total) * 100` as JavaScript evaluates it: `x / 0` is
      Infinity with the sign of `x`, `0 / 0` is NaN, and multiplying by 100
      keeps both. */
  function Percent(top: real, total: real): (q: Quotient)
    ensures total != 0.0 ==> q.Finite? && q.value * total == top * 100.0
    ensures total == 0.0 ==> !q.Finite?
    ensures total == 0.0 ==> (q == PosInfinity <==> top > 0.0) && (q == NaN <==> top == 0.0)
  {
    if total == 0.0 then
      (if top > 0.0 then PosInfinity else if top < 0.0 then NegInfinity else NaN)
    else Finite(top / total * 100.0)
  }

  /** `percentage > 30`: true of Infinity, false of -Infinity and NaN. */
  predicate Exceeds30(q: Quotient) {
    match q
    case Finite(v) => v > 30.0
    case PosInfinity => true
    case NegInfinity => false
    case NaN => false
  }

  /** One suggestion string of `generateSavingsSuggestions`; the category
      warning carries the category name and the percentage it prints. */
  datatype Suggestion =
    | OverspendingWarning
    | TopCategoryWarning(category: string, percent: Quotient)
    | FoodTip
    | EntertainmentTip
    | SavingsReminder
    | TrackLongerTip
    | BudgetRuleTip

  /** The position of each suggestion's `push` in the source. */
  function Rank(s: Suggestion): nat {
    match s
    case OverspendingWarning => 0
    case TopCategoryWarning(_, _) => 1
    case FoodTip => 2
    case EntertainmentTip => 3
    case SavingsReminder => 4
    case TrackLongerTip => 5
    case BudgetRuleTip => 6
  }

  /** All ranks in `s` are below `k`. */
  predicate RanksBelow(s: seq<Suggestion>, k: nat) {
    forall i :: 0 <= i < |s| ==> Rank(s[i]) < k
  }

  /** Ranks strictly increase along `s`: no suggestion twice, source order. */
  predicate RanksIncrease(s: seq<Suggestion>) {
    forall i, j :: 0 <= i < j < |s| ==> Rank(s[i]) < Rank(s[j])
  }

  /** `if (fires) suggestions.push(x)`. Pushing a suggestion ranked above
      everything already present keeps the ranks increasing. */
  function Push(s: seq<Suggestion>, fires: bool, x: Suggestion): (r: seq<Suggestion>)
    ensures forall y :: y in r <==> y in s || (fires && y == x)
    ensures |r| <= |s| + 1
    ensures RanksIncrease(s) && RanksBelow(s, Rank(x)) ==> RanksIncrease(r)
    ensures forall k :: RanksBelow(s, k) && Rank(x) < k ==> RanksBelow(r, k)
  {
    if fires then s + [x] else s
  }

  /** `expensesByCategory[k] || 0`: a missing key reads as 0. */
  function Lookup(m: map<string, real>, k: string): real {
    if k in m then m[k] else 0.0
  }

  /** The map's values in the order of `order`. */
  function Values(m: map<string, real>, order: seq<string>): (v: seq<real>)
    requires forall j :: 0 <= j < |order| ==> order[j] in m
    ensures |v| == |order|
    ensures forall j :: 0 <= j < |v| ==> v[j] == m[order[j]]
  {
    seq(|order|, j requires 0 <= j < |order| => m[order[j]])
  }

  /** The index a stable descending sort moves to the front: the first
      position holding the largest value. `Array.prototype.sort` is stable,
      and the comparator `b - a` puts a larger value before a smaller one
      and keeps equal values in their original order. */
  function FirstMax(v: seq<real>): (k: nat)
    requires |v| > 0
    ensures k < |v|
    ensures forall i :: 0 <= i < |v| ==> v[i] <= v[k]
    ensures forall i :: 0 <= i < k ==> v[i] < v[k]
    decreases |v|
  {
    if |v| == 1 then 0
    else
      var j := 1 + FirstMax(v[1..]);
      assert forall i :: 1 <= i < |v| ==> v[i] == v[1..][i - 1];
      if v[0] >= v[j] then 0 else j
  }

  /** The "more than 30%" rule: take the category the sort puts first and
      warn when its share of the total exceeds 30%. */
  function TopCategoryRule(m: map<string, real>, order: seq<string>, totalExpenses: real): (r: seq<Suggestion>)
    requires forall j :: 0 <= j < |order| ==> order[j] in m
    ensures |r| <= 1 && forall i :: 0 <= i < |r| ==> r[i].TopCategoryWarning?
  {
    if |order| == 0 then []
    else
      var top := order[FirstMax(Values(m, order))];
      var q := Percent(m[top], totalExpenses);
      Push([], Exceeds30(q), TopCategoryWarning(top, q))
  }

  /** The rule messages in push order: the overspending warning, at most
      one category warning, then the food, entertainment and savings tips. */
  function Assemble(over: bool, top: seq<Suggestion>, food: bool, entertainment: bool, savings: bool): (r: seq<Suggestion>)
    requires |top| <= 1 && forall i :: 0 <= i < |top| ==> top[i].TopCategoryWarning?
    ensures |r| <= 5 && RanksIncrease(r) && RanksBelow(r, 5)
  {
    var s0 := Push([], over, OverspendingWarning);
    assert RanksIncrease(s0) && RanksBelow(s0, 1);
    var s1 := if |top| == 0 then s0 else Push(s0, true, top[0]);
    assert |top| == 1 ==> top == [top[0]];
    assert RanksIncrease(s1) && RanksBelow(s1, 2);
    var s2 := Push(s1, food, FoodTip);
    assert RanksIncrease(s2) && RanksBelow(s2, 3);
    var s3 := Push(s2, entertainment, EntertainmentTip);
    assert RanksIncrease(s3) && RanksBelow(s3, 4);
    Push(s3, savings, SavingsReminder)
  }

  /** Each rule's message is present exactly when the rule fired. */
  lemma AssembleContents(over: bool, top: seq<Suggestion>, food: bool, entertainment: bool, savings: bool)
    requires |top| <= 1 && forall i :: 0 <= i < |top| ==> top[i].TopCategoryWarning?
    ensures var r := Assemble(over, top, food, entertainment, savings);
            && (OverspendingWarning in r <==> over) && (FoodTip in r <==> food)
            && (EntertainmentTip in r <==> entertainment) && (SavingsReminder in r <==> savings)
            && forall c, p :: TopCategoryWarning(c, p) in r <==> TopCategoryWarning(c, p) in top
  {
    AssembleFlags(over, top, food, entertainment, savings);
    forall c, p
      ensures TopCategoryWarning(c, p) in Assemble(over, top, food, entertainment, savings)
              <==> TopCategoryWarning(c, p) in top
    {
      AssembleTop(over, top, food, entertainment, savings, TopCategoryWarning(c, p));
    }
  }

  lemma AssembleFlags(over: bool, top: seq<Suggestion>, food: bool, entertainment: bool, savings: bool)
    requires |top| <= 1 && forall i :: 0 <= i < |top| ==> top[i].TopCategoryWarning?
    ensures var r := Assemble(over, top, food, entertainment, savings);
            && (OverspendingWarning in r <==> over) && (FoodTip in r <==> food)
            && (EntertainmentTip in r <==> entertainment) && (SavingsReminder in r <==> savings)
  {
    assert |top| == 1 ==> top == [top[0]];
  }

  lemma AssembleTop(over: bool, top: seq<Suggestion>, food: bool, entertainment: bool, savings: bool, w: Suggestion)
    requires |top| <= 1 && forall i :: 0 <= i < |top| ==> top[i].TopCategoryWarning?
    requires w.TopCategoryWarning?
    ensures w in Assemble(over, top, food, entertainment, savings) <==> w in top
  {
    assert |top| == 1 ==> top == [top[0]];
  }

  /** The five rules, in source order, before the generic advice. */
  function RuleSuggestions(expenses: seq<Expense>, income: seq<Income>): (r: seq<Suggestion>)
    ensures |r| <= 5 && RanksIncrease(r) && RanksBelow(r, 5)
  {
    var totalIncome := TotalIncome(income);
    var totalExpenses := TotalExpenses(expenses);
    var m := ExpensesByCategory(expenses);
    Assemble(totalExpenses > totalIncome,
             TopCategoryRule(m, CategoryOrder(expenses), totalExpenses),
             Lookup(m, "Food") > totalIncome * 0.15,
             Lookup(m, "Entertainment") > totalIncome * 0.10,
             Lookup(m, "Savings") < totalIncome * 0.1)
  }

  /** The closing step of `generateSavingsSuggestions`: fewer than two
      rule messages get the two generic tips appended. The result holds two
      to five suggestions, still in source order, and the generic tips
      appear exactly when fewer than two rules fired. */
  function WithGenericAdvice(rules: seq<Suggestion>): (r: seq<Suggestion>)
    requires |rules| <= 5 && RanksIncrease(rules) && RanksBelow(rules, 5)
    ensures 2 <= |r| <= 5 && RanksIncrease(r)
    ensures (TrackLongerTip in r <==> |rules| < 2) && (BudgetRuleTip in r <==> |rules| < 2)
    ensures forall x :: Rank(x) < 5 ==> (x in r <==> x in rules)
    ensures |rules| >= 2 ==> r == rules
    ensures |rules| < 2 ==> r == rules + [TrackLongerTip, BudgetRuleTip]
  {
    var few := |rules| < 2;
    assert TrackLongerTip !in rules && BudgetRuleTip !in rules;
    Push(Push(rules, few, TrackLongerTip), few, BudgetRuleTip)
  }

  /** `generateSavingsSuggestions`. */
  function GenerateSavingsSuggestions(expenses: seq<Expense>, income: seq<Income>): (r: seq<Suggestion>)
    ensures 2 <= |r| <= 5 && RanksIncrease(r)
  {
    WithGenericAdvice(RuleSuggestions(expenses, income))
  }

  /** `expensesByCategory[k] || 0` is the category total, present or not. */
  lemma LookupIsCategoryTotal(expenses: seq<Expense>, k: string)
    ensures Lookup(ExpensesByCategory(expenses), k) == CategoryTotal(expenses, k)
  {
    ByCategoryKeys(expenses);
    if k in ExpensesByCategory(expenses) {
      ByCategoryValue(expenses, k);
    }
  }

  /** The rule messages of `generateSavingsSuggestions`, with every rule
      decided on the category map as the source decides it. */
  lemma RulesOfMap(expenses: seq<Expense>, income: seq<Income>)
    ensures RuleSuggestions(expenses, income)
            == Assemble(TotalExpenses(expenses) > TotalIncome(income),
                        TopCategoryRule(ExpensesByCategory(expenses), CategoryOrder(expenses), TotalExpenses(expenses)),
                        Lookup(ExpensesByCategory(expenses), "Food") > TotalIncome(income) * 0.15,
                        Lookup(ExpensesByCategory(expenses), "Entertainment") > TotalIncome(income) * 0.10,
                        Lookup(ExpensesByCategory(expenses), "Savings") < TotalIncome(income) * 0.1)
    ensures GenerateSavingsSuggestions(expenses, income) == WithGenericAdvice(RuleSuggestions(expenses, income))
  {
  }

  /** After the generic advice, each fixed-text rule's message is still
      present exactly when the rule fired. */
  lemma AdvisedFlags(over: bool, top: seq<Suggestion>, food: bool, entertainment: bool, savings: bool)
    requires |top| <= 1 && forall i :: 0 <= i < |top| ==> top[i].TopCategoryWarning?
    ensures var r := WithGenericAdvice(Assemble(over, top, food, entertainment, savings));
            && (OverspendingWarning in r <==> over) && (FoodTip in r <==> food)
            && (EntertainmentTip in r <==> entertainment) && (SavingsReminder in r <==> savings)
  {
    AssembleFlags(over, top, food, entertainment, savings);
    assert Rank(OverspendingWarning) < 5 && Rank(FoodTip) < 5;
    assert Rank(EntertainmentTip) < 5 && Rank(SavingsReminder) < 5;
  }

  /** After the generic advice, a category warning is present exactly
      when the category rule gave it. */
  lemma AdvisedTop(over: bool, top: seq<Suggestion>, food: bool, entertainment: bool, savings: bool, w: Suggestion)
    requires |top| <= 1 && forall i :: 0 <= i < |top| ==> top[i].TopCategoryWarning?
    requires w.TopCategoryWarning?
    ensures w in WithGenericAdvice(Assemble(over, top, food, entertainment, savings)) <==> w in top
  {
    AssembleTop(over, top, food, entertainment, savings, w);
    assert Rank(w) < 5;
  }

  /** Each fixed-text message of `generateSavingsSuggestions` is present
      exactly when its rule fired on the category map. */
  lemma GeneratedFlags(expenses: seq<Expense>, income: seq<Income>)
    ensures var r := GenerateSavingsSuggestions(expenses, income);
            var m := ExpensesByCategory(expenses);
            var ti := TotalIncome(income);
            && (OverspendingWarning in r <==> TotalExpenses(expenses) > ti)
            && (FoodTip in r <==> Lookup(m, "Food") > ti * 0.15)
            && (EntertainmentTip in r <==> Lookup(m, "Entertainment") > ti * 0.10)
            && (SavingsReminder in r <==> Lookup(m, "Savings") < ti * 0.1)
  {
    var ti := TotalIncome(income);
    var te := TotalExpenses(expenses);
    var m := ExpensesByCategory(expenses);
    RulesOfMap(expenses, income);
    AdvisedFlags(te > ti, TopCategoryRule(m, CategoryOrder(expenses), te), Lookup(m, "Food") > ti * 0.15,
                 Lookup(m, "Entertainment") > ti * 0.10, Lookup(m, "Savings") < ti * 0.1);
  }

  /** A category warning is in the result of `generateSavingsSuggestions`
      exactly when the category rule gave it. */
  lemma GeneratedTop(expenses: seq<Expense>, income: seq<Income>, w: Suggestion)
    requires w.TopCategoryWarning?
    ensures w in GenerateSavingsSuggestions(expenses, income) <==>
            w in TopCategoryRule(ExpensesByCategory(expenses), CategoryOrder(expenses), TotalExpenses(expenses))
  {
    var ti := TotalIncome(income);
    var te := TotalExpenses(expenses);
    var m := ExpensesByCategory(expenses);
    RulesOfMap(expenses, income);
    AdvisedTop(te > ti, TopCategoryRule(m, CategoryOrder(expenses), te), Lookup(m, "Food") > ti * 0.15,
               Lookup(m, "Entertainment") > ti * 0.10, Lookup(m, "Savings") < ti * 0.1, w);
  }

  /** The fixed-text rules fire exactly on the thresholds of the source,
      stated on the per-category totals. */
  lemma SuggestionRules(expenses: seq<Expense>, income: seq<Income>)
    ensures var r := GenerateSavingsSuggestions(expenses, income);
            var ti := TotalIncome(income);
            && (OverspendingWarning in r <==> TotalExpenses(expenses) > ti)
            && (FoodTip in r <==> CategoryTotal(expenses, "Food") > ti * 0.15)
            && (EntertainmentTip in r <==> CategoryTotal(expenses, "Entertainment") > ti * 0.10)
            && (SavingsReminder in r <==> CategoryTotal(expenses, "Savings") < ti * 0.1)
  {
    GeneratedFlags(expenses, income);
    LookupIsCategoryTotal(expenses, "Food");
    LookupIsCategoryTotal(expenses, "Entertainment");
    LookupIsCategoryTotal(expenses, "Savings");
  }

  /** The overspending warning, when given, comes first. */
  lemma OverspendingFirst(expenses: seq<Expense>, income: seq<Income>)
    requires TotalExpenses(expenses) > TotalIncome(income)
    ensures GenerateSavingsSuggestions(expenses, income)[0] == OverspendingWarning
  {
    var r := GenerateSavingsSuggestions(expenses, income);
    SuggestionRules(expenses, income);
    LowestRankFirst(r);
  }

  /** In a rank-ordered list the overspending warning, ranked lowest, can
      only stand first. */
  lemma LowestRankFirst(r: seq<Suggestion>)
    requires RanksIncrease(r) && OverspendingWarning in r
    ensures r[0] == OverspendingWarning
  {
    var i :| 0 <= i < |r| && r[i] == OverspendingWarning;
    assert Rank(r[0]) <= Rank(r[i]);
  }

  /** `c` is the category the sort puts first: the earliest, in key order,
      among those with the largest total. */
  ghost predicate IsTopCategory(expenses: seq<Expense>, c: string) {
    exists k :: TopAt(expenses, k) && CategoryOrder(expenses)[k] == c
  }

  /** Position `k` of the key order holds a largest total, and every
      earlier position a smaller one. */
  ghost predicate TopAt(expenses: seq<Expense>, k: int) {
    var order := CategoryOrder(expenses);
    && 0 <= k < |order|
    && (forall j :: 0 <= j < |order| ==> CategoryTotal(expenses, order[j]) <= CategoryTotal(expenses, order[k]))
    && (forall j :: 0 <= j < k ==> CategoryTotal(expenses, order[j]) < CategoryTotal(expenses, order[k]))
  }

  /** The rule on the category map warns about `c` with share `p` exactly
      when `c` is the top category, `p` its share of the total, and that
      share exceeds 30%. */
  lemma TopCategoryRuleMeaning(expenses: seq<Expense>, c: string, p: Quotient)
    ensures var m := ExpensesByCategory(expenses);
            var order := CategoryOrder(expenses);
            (forall j :: 0 <= j < |order| ==> order[j] in m)
            && (TopCategoryWarning(c, p) in TopCategoryRule(m, order, TotalExpenses(expenses))
                <==> IsTopCategory(expenses, c)
                     && p == Percent(CategoryTotal(expenses, c), TotalExpenses(expenses))
                     && Exceeds30(p))
  {
    var m := ExpensesByCategory(expenses);
    var order := CategoryOrder(expenses);
    TopIsFirstMax(expenses, c);
    TopCategoryRuleContents(m, order, TotalExpenses(expenses), c, p);
  }

  /** `c` is the top category exactly when it is the first maximum of the
      map's values in key order, and then its entry is its total. */
  lemma TopIsFirstMax(expenses: seq<Expense>, c: string)
    ensures var m := ExpensesByCategory(expenses);
            var order := CategoryOrder(expenses);
            (forall j :: 0 <= j < |order| ==> order[j] in m)
            && (IsTopCategory(expenses, c) <==> |order| > 0 && c == order[FirstMax(Values(m, order))])
            && (c in m ==> m[c] == CategoryTotal(expenses, c))
  {
    ByCategoryValues(expenses);
    FirstMaxIsTopCategory(expenses);
    if IsTopCategory(expenses, c) {
      TopIsTheFirstMax(expenses, c);
    }
  }

  /** The first maximum of the map's values in key order is the top
      category. */
  lemma FirstMaxIsTopCategory(expenses: seq<Expense>)
    ensures forall j :: 0 <= j < |CategoryOrder(expenses)| ==> CategoryOrder(expenses)[j] in ExpensesByCategory(expenses)
    ensures |CategoryOrder(expenses)| > 0 ==>
              IsTopCategory(expenses, CategoryOrder(expenses)[FirstMax(Values(ExpensesByCategory(expenses), CategoryOrder(expenses)))])
  {
    var m := ExpensesByCategory(expenses);
    var order := CategoryOrder(expenses);
    ValuesAreCategoryTotals(expenses);
    if |order| > 0 {
      var v := Values(m, order);
      FirstMaxIsTop(expenses, v, FirstMax(v));
    }
  }

  /** The map's values in key order are the category totals. */
  lemma ValuesAreCategoryTotals(expenses: seq<Expense>)
    ensures forall j :: 0 <= j < |CategoryOrder(expenses)| ==> CategoryOrder(expenses)[j] in ExpensesByCategory(expenses)
    ensures |Values(ExpensesByCategory(expenses), CategoryOrder(expenses))| == |CategoryOrder(expenses)|
    ensures forall j :: 0 <= j < |CategoryOrder(expenses)| ==>
              Values(ExpensesByCategory(expenses), CategoryOrder(expenses))[j]
              == CategoryTotal(expenses, CategoryOrder(expenses)[j])
  {
    var m := ExpensesByCategory(expenses);
    var order := CategoryOrder(expenses);
    assert forall j :: 0 <= j < |order| ==> order[j] in m;
    ByCategoryValues(expenses);
  }

  /** ... and, the top category being unique, no other category is. */
  lemma TopIsTheFirstMax(expenses: seq<Expense>, c: string)
    requires IsTopCategory(expenses, c)
    ensures var m := ExpensesByCategory(expenses);
            var order := CategoryOrder(expenses);
            (forall j :: 0 <= j < |order| ==> order[j] in m)
            && |order| > 0 && c == order[FirstMax(Values(m, order))]
  {
    var m := ExpensesByCategory(expenses);
    var order := CategoryOrder(expenses);
    FirstMaxIsTopCategory(expenses);
    var k :| TopAt(expenses, k) && order[k] == c;
    TopCategoryUnique(expenses, c, order[FirstMax(Values(m, order))]);
  }

  /** The rule on a map warns about `c` with share `p` exactly when `c` is
      the first maximum in key order, `p` its share, and the share exceeds
      30%. */
  lemma TopCategoryRuleContents(m: map<string, real>, order: seq<string>, t: real, c: string, p: Quotient)
    requires forall j :: 0 <= j < |order| ==> order[j] in m
    ensures TopCategoryWarning(c, p) in TopCategoryRule(m, order, t) <==>
              |order| > 0 && c == order[FirstMax(Values(m, order))] && p == Percent(m[c], t) && Exceeds30(p)
  {
  }

  /** The first maximum of the category totals in key order is the top
      category. */
  lemma FirstMaxIsTop(expenses: seq<Expense>, v: seq<real>, k: nat)
    requires |v| == |CategoryOrder(expenses)|
    requires forall j :: 0 <= j < |v| ==> v[j] == CategoryTotal(expenses, CategoryOrder(expenses)[j])
    requires k < |v|
    requires forall i :: 0 <= i < |v| ==> v[i] <= v[k]
    requires forall i :: 0 <= i < k ==> v[i] < v[k]
    ensures IsTopCategory(expenses, CategoryOrder(expenses)[k])
  {
    var order := CategoryOrder(expenses);
    var c := order[k];
    assert forall j :: 0 <= j < |order| ==> CategoryTotal(expenses, order[j]) <= CategoryTotal(expenses, c);
    assert TopAt(expenses, k);
  }

  /** The category warning names the top category with its share of the
      total, and it appears exactly when that share exceeds 30%. */
  lemma TopCategoryWarningIff(expenses: seq<Expense>, income: seq<Income>, c: string)
    ensures var r := GenerateSavingsSuggestions(expenses, income);
            var q := Percent(CategoryTotal(expenses, c), TotalExpenses(expenses));
            && ((exists p :: TopCategoryWarning(c, p) in r) <==> IsTopCategory(expenses, c) && Exceeds30(q))
            && (forall p :: TopCategoryWarning(c, p) in r ==> p == q)
  {
    var r := GenerateSavingsSuggestions(expenses, income);
    var q := Percent(CategoryTotal(expenses, c), TotalExpenses(expenses));
    forall p
      ensures TopCategoryWarning(c, p) in r <==> IsTopCategory(expenses, c) && p == q && Exceeds30(p)
    {
      TopWarningComesFromRule(expenses, income, c, p);
      TopCategoryRuleMeaning(expenses, c, p);
    }
    if IsTopCategory(expenses, c) && Exceeds30(q) {
      assert TopCategoryWarning(c, q) in r;
    }
  }

  /** A category warning is in the final list exactly when the category
      rule produced it. */
  lemma TopWarningComesFromRule(expenses: seq<Expense>, income: seq<Income>, c: string, p: Quotient)
    ensures var top := TopCategoryRule(ExpensesByCategory(expenses), CategoryOrder(expenses), TotalExpenses(expenses));
            TopCategoryWarning(c, p) in GenerateSavingsSuggestions(expenses, income) <==> TopCategoryWarning(c, p) in top
  {
    GeneratedTop(expenses, income, TopCategoryWarning(c, p));
  }

  /** Only one category is the top one. */
  lemma TopCategoryUnique(expenses: seq<Expense>, c: string, d: string)
    requires IsTopCategory(expenses, c) && IsTopCategory(expenses, d)
    ensures c == d
  {
    var order := CategoryOrder(expenses);
    var k1 :| TopAt(expenses, k1) && order[k1] == c;
    var k2 :| TopAt(expenses, k2) && order[k2] == d;
    assert k1 == k2;
  }

  /** With no records at all no rule fires and only the two generic tips
      are given. */
  lemma NoRecordsGiveGenericAdvice(expenses: seq<Expense>, income: seq<Income>)
    requires |expenses| == 0 && |income| == 0
    ensures GenerateSavingsSuggestions(expenses, income) == [TrackLongerTip, BudgetRuleTip]
  {
    NoRecordsNoRules(expenses, income);
  }

  lemma NoRecordsNoRules(expenses: seq<Expense>, income: seq<Income>)
    requires |expenses| == 0 && |income| == 0
    ensures RuleSuggestions(expenses, income) == []
  {
    assert expenses == [] && income == [];
    NothingFires();
  }

  /** No records, no rule messages. */
  lemma NothingFires()
    ensures RuleSuggestions([], []) == []
  {
    RulesOfMap([], []);
    NoExpensesNoCategories();
    assert Assemble(false, [], false, false, false) == [];
  }

  lemma NoExpensesNoCategories()
    ensures ExpensesByCategory([]) == map[] && CategoryOrder([]) == []
    ensures TopCategoryRule(map[], [], 0.0) == []
    ensures TotalIncome([]) == 0.0 && TotalExpenses([]) == 0.0
    ensures Lookup(map[], "Food") == 0.0 && Lookup(map[], "Entertainment") == 0.0
    ensures Lookup(map[], "Savings") == 0.0
  {
  }

  /** Without income, and with no negative amounts, the savings reminder
      never appears: nothing is below 10% of zero. */
  lemma NoIncomeNoSavingsReminder(expenses: seq<Expense>, income: seq<Income>)
    requires forall i :: 0 <= i < |expenses| ==> expenses[i].amount >= 0.0
    requires TotalIncome(income) == 0.0
    ensures SavingsReminder !in GenerateSavingsSuggestions(expenses, income)
  {
    SuggestionRules(expenses, income);
    CategoryTotalNonNegative(expenses, "Savings");
  }

  lemma {:induction false} CategoryTotalNonNegative(expenses: seq<Expense>, c: string)
    requires forall i :: 0 <= i < |expenses| ==> expenses[i].amount >= 0.0
    ensures CategoryTotal(expenses, c) >= 0.0
    decreases |expenses|
  {
    if |expenses| > 0 {
      CategoryTotalNonNegative(expenses[..|expenses| - 1], c);
    }
  }

  /** With non-negative amounts one category's total is at most the total
      of all expenses. */
  lemma {:induction false} CategoryTotalAtMostTotal(expenses: seq<Expense>, c: string)
    requires forall i :: 0 <= i < |expenses| ==> expenses[i].amount >= 0.0
    ensures CategoryTotal(expenses, c) <= TotalExpenses(expenses)
    decreases |expenses|
  {
    if |expenses| > 0 {
      var n := |expenses| - 1;
      CategoryTotalAtMostTotal(expenses[..n], c);
    }
  }

  lemma TopCategoryOccurs(expenses: seq<Expense>, c: string)
    requires IsTopCategory(expenses, c)
    ensures HasCategory(expenses, c)
  {
    var k :| TopAt(expenses, k) && CategoryOrder(expenses)[k] == c;
    ByCategoryKeys(expenses);
  }

  lemma ShareOfWhole(part: real, whole: real)
    requires 0.0 < part <= whole
    ensures 0.0 < part / whole * 100.0 <= 100.0
  {
    assert part / whole <= 1.0;
  }

  lemma DivAbove(a: real, w: real, c: real)
    requires w > 0.0 && a > c * w
    ensures a / w > c
  {
  }

  /** A part that is at least a third of the whole exceeds 30% of it. */
  lemma ShareOfAThird(part: real, whole: real)
    requires 0.0 < part && 0.0 < whole <= 3.0 * part
    ensures Exceeds30(Percent(part, whole))
  {
    assert part * 100.0 > 30.0 * whole;
    DivAbove(part * 100.0, whole, 30.0);
    assert part / whole * 100.0 == part * 100.0 / whole;
  }

  /** With positive amounts the top category's share is a genuine
      percentage: finite, above 0 and at most 100. */
  lemma TopShareIsPercentage(expenses: seq<Expense>, c: string)
    requires forall i :: 0 <= i < |expenses| ==> expenses[i].amount > 0.0
    requires IsTopCategory(expenses, c)
    ensures var q := Percent(CategoryTotal(expenses, c), TotalExpenses(expenses));
            q.Finite? && 0.0 < q.value <= 100.0
  {
    TopCategoryOccurs(expenses, c);
    var top := CategoryTotal(expenses, c);
    var total := TotalExpenses(expenses);
    CategoryTotalAtMostTotal(expenses, c);
    ShareOfWhole(top, total);
  }

  /** `n` copies of `b` added up. */
  function Times(n: nat, b: real): real {
    if n == 0 then 0.0 else Times(n - 1, b) + b
  }

  /** A sum of per-category totals, each at most `bound`, is at most
      `bound` times their number. */
  lemma {:induction false} SumOfCategoryTotalsBounded(expenses: seq<Expense>, ks: seq<string>, bound: real)
    requires forall j :: 0 <= j < |ks| ==> CategoryTotal(expenses, ks[j]) <= bound
    ensures SumOfCategoryTotals(expenses, ks) <= Times(|ks|, bound)
    decreases |ks|
  {
    if |ks| > 0 {
      var n := |ks| - 1;
      SumOfCategoryTotalsBounded(expenses, ks[..n], bound);
      assert CategoryTotal(expenses, ks[n]) <= bound;
    }
  }

  lemma TimesAtMostThree(k: nat, b: real)
    requires k <= 3 && b >= 0.0
    ensures Times(k, b) <= 3.0 * b
  {
    assert Times(0, b) == 0.0;
    assert Times(1, b) == b;
    assert Times(2, b) == 2.0 * b;
    assert Times(3, b) == 3.0 * b;
  }

  /** With positive amounts and at most three categories the top category
      holds at least a third of the spending. */
  lemma TopHoldsAThird(expenses: seq<Expense>, c: string)
    requires forall i :: 0 <= i < |expenses| ==> expenses[i].amount > 0.0
    requires |CategoryOrder(expenses)| <= 3
    requires IsTopCategory(expenses, c)
    ensures 0.0 < CategoryTotal(expenses, c) && 0.0 < TotalExpenses(expenses)
    ensures TotalExpenses(expenses) <= 3.0 * CategoryTotal(expenses, c)
  {
    var ks := CategoryOrder(expenses);
    var top := CategoryTotal(expenses, c);
    TopCategoryOccurs(expenses, c);
    CategoryTotalAtMostTotal(expenses, c);
    SumOfCategoryTotalsBounded(expenses, ks, top);
    SumOfCategoryTotalsIsTotal(expenses, ks);
    TimesAtMostThree(|ks|, top);
  }

  /** ... so its share is more than 30%. */
  lemma TopShareAboveThirty(expenses: seq<Expense>, c: string)
    requires forall i :: 0 <= i < |expenses| ==> expenses[i].amount > 0.0
    requires |CategoryOrder(expenses)| <= 3
    requires IsTopCategory(expenses, c)
    ensures Exceeds30(Percent(CategoryTotal(expenses, c), TotalExpenses(expenses)))
  {
    TopHoldsAThird(expenses, c);
    ShareOfAThird(CategoryTotal(expenses, c), TotalExpenses(expenses));
  }

  /** With positive amounts and at most three categories the category
      warning is always given. */
  lemma FewCategoriesAlwaysWarn(expenses: seq<Expense>, income: seq<Income>)
    requires forall i :: 0 <= i < |expenses| ==> expenses[i].amount > 0.0
    requires 1 <= |CategoryOrder(expenses)| <= 3
    ensures exists c, p :: TopCategoryWarning(c, p) in GenerateSavingsSuggestions(expenses, income)
  {
    var ks := CategoryOrder(expenses);
    var m := ExpensesByCategory(expenses);
    ByCategoryValues(expenses);
    var v := Values(m, ks);
    var k := FirstMax(v);
    FirstMaxIsTop(expenses, v, k);
    var c := ks[k];
    TopShareAboveThirty(expenses, c);
    TopCategoryWarningIff(expenses, income, c);
  }

  /** Income of 1000 and a single expense of 400 in "Food": Food is the
      whole of the spending, above 15% of income, and nothing is saved, so
      the result is the category warning at 100%, the food tip and the
      savings reminder, in that order. */
  lemma FoodOnlyExample(e: Expense, i: Income)
    requires e.category == "Food" && e.amount == 400.0 && i.amount == 1000.0
    ensures GenerateSavingsSuggestions([e], [i])
            == [TopCategoryWarning("Food", Finite(100.0)), FoodTip, SavingsReminder]
  {
    var top := [TopCategoryWarning("Food", Finite(100.0))];
    FoodOnlyRules(e, i);
    AssembleFoodOnly(top);
    assert |RuleSuggestions([e], [i])| == 3;
  }

  lemma FoodOnlyTotals(e: Expense, i: Income)
    requires e.category == "Food" && e.amount == 400.0 && i.amount == 1000.0
    ensures TotalExpenses([e]) == 400.0 && TotalIncome([i]) == 1000.0
    ensures CategoryOrder([e]) == ["Food"]
    ensures ExpensesByCategory([e]) == map["Food" := 400.0]
  {
    var expenses := [e];
    assert expenses[..|expenses| - 1] == [];
    assert Sum(expenses, ExpenseAmount) == Sum([], ExpenseAmount) + ExpenseAmount(e);
    assert [i][..|[i]| - 1] == [];
    assert Sum([i], IncomeAmount) == Sum([], IncomeAmount) + IncomeAmount(i);
    assert KeysInOrder(expenses, ExpenseCategory) == KeysInOrder([], ExpenseCategory) + ["Food"];
  }

  lemma FoodOnlyRules(e: Expense, i: Income)
    requires e.category == "Food" && e.amount == 400.0 && i.amount == 1000.0
    ensures RuleSuggestions([e], [i])
            == Assemble(false, [TopCategoryWarning("Food", Finite(100.0))], true, false, true)
  {
    FoodOnlyTotals(e, i);
    var m := ExpensesByCategory([e]);
    assert Values(m, ["Food"]) == [400.0];
    assert TopCategoryRule(m, ["Food"], 400.0) == [TopCategoryWarning("Food", Finite(100.0))];
    assert Lookup(m, "Food") == 400.0;
    assert Lookup(m, "Entertainment") == 0.0 && Lookup(m, "Savings") == 0.0;
  }

  lemma AssembleFoodOnly(top: seq<Suggestion>)
    requires top == [TopCategoryWarning("Food", Finite(100.0))]
    ensures Assemble(false, top, true, false, true) == top + [FoodTip, SavingsReminder]
  {
    assert Push([], false, OverspendingWarning) == [];
    assert Push([], true, top[0]) == top;
    assert Push(top, true, FoodTip) == top + [FoodTip];
    assert Push(top + [FoodTip], false, EntertainmentTip) == top + [FoodTip];
    assert Push(top + [FoodTip], true, SavingsReminder) == top + [FoodTip, SavingsReminder];
  }
}
