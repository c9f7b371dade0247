/** `getDashboardStats`: the month-to-date figures shown on the dashboard. Records dated in the
    window from the first of the current month at 00:00 to the last day of the month at 00:00
    are summed by type; expenses are grouped by category in first-appearance order, sorted by
    total (largest first, ties kept in that order) and cut to five; accounts are listed as they
    are. The clock is the parameter `now`. */
module Dashboard {
  import opened Text
  import opened Dates
  import opened ExpenseStore

  const MonthlyBudget: real := 50000.0
  const TopCount: nat := 5

  datatype CategoryTotal = CategoryTotal(category: string, amount: real)

  datatype AccountBalance = AccountBalance(account: string, balance: real, currency: string)

  datatype DashboardStats = DashboardStats(
    totalExpenses: real,
    totalIncome: real,
    monthlyBudget: real,
    remainingBudget: real,
    topCategories: seq<CategoryTotal>,
    accountBalances: seq<AccountBalance>)

  /** `new Date(now.getFullYear(), now.getMonth(), 1)`. */
  function MonthStart(now: Moment): Moment {
    Moment(MakeDate(now.date.year, now.date.month, 1), 0)
  }

  /** `new Date(now.getFullYear(), now.getMonth() + 1, 0)`: midnight opening the last day. */
  function MonthEnd(now: Moment): Moment {
    Moment(MakeDate(now.date.year, now.date.month + 1, 0), 0)
  }

  /** `expenseDate >= startOfMonth && expenseDate <= endOfMonth`. */
  predicate InWindow(t: Moment, now: Moment) {
    0 <= t.date.month < 12 && Stamp(MonthStart(now)) <= Stamp(t) <= Stamp(MonthEnd(now))
  }

  /** The records of one type dated in the window, in list order. */
  function Monthly(xs: seq<Expense>, now: Moment, kind: EntryType): (r: seq<Expense>)
    ensures |r| <= |xs|
    ensures forall i :: 0 <= i < |r| ==> InWindow(r[i].date, now) && r[i].entryType == kind
    ensures forall e :: e in xs && InWindow(e.date, now) && e.entryType == kind ==> e in r
    ensures forall e :: e in r ==> e in xs
  {
    Filter(xs, InMonthOf(now, kind))
  }

  /** The test applied to each entry: dated in the current month window and of the kind. */
  function InMonthOf(now: Moment, kind: EntryType): Expense -> bool {
    (e: Expense) => InWindow(e.date, now) && e.entryType == kind
  }

  /** The window filter keeps order and multiplicity: over a concatenation it filters each
      part, and a single entry is kept exactly when it is in the window and of the kind. */
  lemma MonthlyAppend(xs: seq<Expense>, ys: seq<Expense>, now: Moment, kind: EntryType)
    ensures Monthly(xs + ys, now, kind) == Monthly(xs, now, kind) + Monthly(ys, now, kind)
  {
    FilterAppend(xs, ys, InMonthOf(now, kind));
  }

  lemma MonthlySingle(e: Expense, now: Moment, kind: EntryType)
    ensures Monthly([e], now, kind) == if InWindow(e.date, now) && e.entryType == kind then [e] else []
  {
    assert [e][1..] == [];
  }


  /** The total of the records of one category. */
  function CategorySum(xs: seq<Expense>, c: string): real
    decreases |xs|
  {
    if xs == [] then 0.0
    else CategorySum(xs[..|xs| - 1], c) + (if xs[|xs| - 1].category == c then xs[|xs| - 1].amount else 0.0)
  }

  /** `acc[category] || 0`: the running total of a category, 0 when it has none yet. */
  function TotalOf(acc: seq<CategoryTotal>, c: string): real
    decreases |acc|
  {
    if acc == [] then 0.0 else if acc[0].category == c then acc[0].amount else TotalOf(acc[1..], c)
  }

  /** The keys of the accumulator, in entry order. */
  function Categories(acc: seq<CategoryTotal>): (r: seq<string>)
    ensures |r| == |acc|
    ensures forall i :: 0 <= i < |acc| ==> r[i] == acc[i].category
    decreases |acc|
  {
    if acc == [] then [] else [acc[0].category] + Categories(acc[1..])
  }

  predicate NoDuplicates(ks: seq<string>) {
    forall i, j :: 0 <= i < j < |ks| ==> ks[i] != ks[j]
  }

  predicate DistinctCategories(acc: seq<CategoryTotal>) {
    NoDuplicates(Categories(acc))
  }

  /** `acc[category] = (acc[category] || 0) + amount` on an object whose entries keep their
      insertion order: an existing key is updated in place, a new key is appended. */
  function AddToTotals(acc: seq<CategoryTotal>, c: string, amount: real): (r: seq<CategoryTotal>)
    decreases |acc|
  {
    if acc == [] then [CategoryTotal(c, amount)]
    else if acc[0].category == c then [CategoryTotal(c, acc[0].amount + amount)] + acc[1..]
    else [acc[0]] + AddToTotals(acc[1..], c, amount)
  }

  /** An accumulation step keeps the key order and appends a key seen for the first time. */
  lemma {:induction false} AddToTotalsKeys(acc: seq<CategoryTotal>, c: string, amount: real)
    ensures Categories(AddToTotals(acc, c, amount)) ==
      if c in Categories(acc) then Categories(acc) else Categories(acc) + [c]
    decreases |acc|
  {
    if acc != [] && acc[0].category != c {
      AddToTotalsKeys(acc[1..], c, amount);
      var head, rest := acc[0].category, Categories(acc[1..]);
      assert c in Categories(acc) <==> c in rest;
      if c !in rest {
        assert [head] + (rest + [c]) == ([head] + rest) + [c];
      }
    }
  }

  /** An accumulation step adds the amount to its own category's total only. */
  lemma {:induction false} AddToTotalsTotal(acc: seq<CategoryTotal>, c: string, amount: real, k: string)
    ensures TotalOf(AddToTotals(acc, c, amount), k) == TotalOf(acc, k) + (if k == c then amount else 0.0)
    decreases |acc|
  {
    if acc != [] && acc[0].category != c {
      AddToTotalsTotal(acc[1..], c, amount, k);
    }
  }

  /** An accumulation step adds the amount to the sum of all totals. */
  lemma {:induction false} AddToTotalsSum(acc: seq<CategoryTotal>, c: string, amount: real)
    ensures SumTotals(AddToTotals(acc, c, amount)) == SumTotals(acc) + amount
    decreases |acc|
  {
    if acc != [] && acc[0].category != c {
      AddToTotalsSum(acc[1..], c, amount);
    }
  }

  lemma AppendFreshKey(ks: seq<string>, c: string)
    requires NoDuplicates(ks) && c !in ks
    ensures NoDuplicates(ks + [c])
  {
    forall i, j | 0 <= i < j < |ks + [c]| ensures (ks + [c])[i] != (ks + [c])[j] {
      if j == |ks| {
        assert (ks + [c])[i] == ks[i];
      }
    }
  }

  function SumTotals(acc: seq<CategoryTotal>): real
    decreases |acc|
  {
    if acc == [] then 0.0 else acc[0].amount + SumTotals(acc[1..])
  }

  /** The `categoryTotals` fold over the month's expenses, in list order. */
  function FoldTotals(xs: seq<Expense>): seq<CategoryTotal>
    decreases |xs|
  {
    if xs == [] then [] else AddToTotals(FoldTotals(xs[..|xs| - 1]), xs[|xs| - 1].category, xs[|xs| - 1].amount)
  }

  /** The categories of the records, without repetition, in order of first appearance. */
  function FirstAppearances(xs: seq<Expense>): seq<string>
    decreases |xs|
  {
    if xs == [] then []
    else
      var ks := FirstAppearances(xs[..|xs| - 1]);
      if xs[|xs| - 1].category in ks then ks else ks + [xs[|xs| - 1].category]
  }

  lemma {:induction false} FirstAppearancesSpec(xs: seq<Expense>)
    ensures NoDuplicates(FirstAppearances(xs))
    ensures forall k :: k in FirstAppearances(xs) <==> exists j :: 0 <= j < |xs| && xs[j].category == k
    decreases |xs|
  {
    if xs != [] {
      var init := xs[..|xs| - 1];
      FirstAppearancesSpec(init);
      var ks := FirstAppearances(init);
      if xs[|xs| - 1].category !in ks {
        AppendFreshKey(ks, xs[|xs| - 1].category);
      }
      forall k ensures k in FirstAppearances(xs) <==> exists j :: 0 <= j < |xs| && xs[j].category == k {
        if k in ks {
          var j :| 0 <= j < |init| && init[j].category == k;
          assert xs[j].category == k;
        }
        if exists j :: 0 <= j < |xs| && xs[j].category == k {
          var j :| 0 <= j < |xs| && xs[j].category == k;
          if j < |init| {
            assert init[j].category == k;
          }
        }
      }
    }
  }

  /** The fold holds each category of the records once, in order of first appearance, with
      that category's total, and its totals add up to the sum of all amounts. */
  lemma {:induction false} FoldTotalsSpec(xs: seq<Expense>)
    ensures Categories(FoldTotals(xs)) == FirstAppearances(xs)
    ensures forall k :: TotalOf(FoldTotals(xs), k) == CategorySum(xs, k)
    ensures SumTotals(FoldTotals(xs)) == SumAmounts(xs)
    decreases |xs|
  {
    if xs != [] {
      var init := xs[..|xs| - 1];
      var last := xs[|xs| - 1];
      FoldTotalsSpec(init);
      AddToTotalsKeys(FoldTotals(init), last.category, last.amount);
      AddToTotalsSum(FoldTotals(init), last.category, last.amount);
      forall k ensures TotalOf(FoldTotals(xs), k) == CategorySum(xs, k) {
        AddToTotalsTotal(FoldTotals(init), last.category, last.amount, k);
      }
    }
  }

  /** With distinct categories, each entry's amount is the running total of its category. */
  lemma {:induction false} EntryIsTotal(acc: seq<CategoryTotal>, i: nat)
    requires DistinctCategories(acc) && i < |acc|
    ensures acc[i].amount == TotalOf(acc, acc[i].category)
    decreases i
  {
    if i > 0 {
      var ks := Categories(acc);
      assert ks[0] != ks[i];
      assert DistinctCategories(acc[1..]) by {
        forall p, q | 0 <= p < q < |acc[1..]| ensures Categories(acc[1..])[p] != Categories(acc[1..])[q] {
          assert Categories(acc[1..])[p] == ks[p + 1] && Categories(acc[1..])[q] == ks[q + 1];
        }
      }
      EntryIsTotal(acc[1..], i - 1);
    }
  }

  /** The `categoryTotals` loop: a mutable accumulator updated record by record. */
  method CategoryTotals(monthly: seq<Expense>) returns (totals: seq<CategoryTotal>)
    ensures totals == FoldTotals(monthly)
    ensures Categories(totals) == FirstAppearances(monthly) && DistinctCategories(totals)
    ensures forall i :: 0 <= i < |totals| ==> totals[i].amount == CategorySum(monthly, totals[i].category)
    ensures SumTotals(totals) == SumAmounts(monthly)
  {
    totals := [];
    var n := 0;
    while n < |monthly|
      invariant 0 <= n <= |monthly|
      invariant totals == FoldTotals(monthly[..n])
    {
      assert monthly[..n + 1][..n] == monthly[..n];
      totals := AddToTotals(totals, monthly[n].category, monthly[n].amount);
      n := n + 1;
    }
    assert monthly[..n] == monthly;
    FoldTotalsSpec(monthly);
    FirstAppearancesSpec(monthly);
    forall i | 0 <= i < |totals| ensures totals[i].amount == CategorySum(monthly, totals[i].category) {
      EntryIsTotal(totals, i);
    }
  }

  predicate SortedDesc(ts: seq<CategoryTotal>) {
    forall i, j :: 0 <= i < j < |ts| ==> ts[i].amount >= ts[j].amount
  }

  predicate AtMost(ts: seq<CategoryTotal>, v: real) {
    forall i :: 0 <= i < |ts| ==> ts[i].amount <= v
  }

  /** Puts t before the first entry that is not larger, so equal totals keep their order. */
  function Insert(t: CategoryTotal, ts: seq<CategoryTotal>): seq<CategoryTotal>
    decreases |ts|
  {
    if ts == [] || ts[0].amount <= t.amount then [t] + ts
    else [ts[0]] + Insert(t, ts[1..])
  }

  /** `sort((a, b) => b.amount - a.amount)`, a stable sort, as an insertion sort. */
  function SortByAmount(ts: seq<CategoryTotal>): seq<CategoryTotal>
    decreases |ts|
  {
    if ts == [] then [] else Insert(ts[0], SortByAmount(ts[1..]))
  }

  lemma {:induction false} InsertPermutes(t: CategoryTotal, ts: seq<CategoryTotal>)
    ensures multiset(Insert(t, ts)) == multiset(ts) + multiset{t}
    decreases |ts|
  {
    if ts != [] && ts[0].amount > t.amount {
      InsertPermutes(t, ts[1..]);
      assert ts == [ts[0]] + ts[1..];
    }
  }

  lemma {:induction false} InsertBound(t: CategoryTotal, ts: seq<CategoryTotal>, v: real)
    requires AtMost(ts, v) && t.amount <= v
    ensures AtMost(Insert(t, ts), v)
    decreases |ts|
  {
    if ts != [] && ts[0].amount > t.amount {
      InsertBound(t, ts[1..], v);
      var r := Insert(t, ts[1..]);
      assert Insert(t, ts) == [ts[0]] + r;
    }
  }

  lemma ConsSorted(h: CategoryTotal, r: seq<CategoryTotal>)
    requires SortedDesc(r) && AtMost(r, h.amount)
    ensures SortedDesc([h] + r)
  {
    forall i, j | 0 <= i < j < |[h] + r| ensures ([h] + r)[i].amount >= ([h] + r)[j].amount {
      assert ([h] + r)[j] == r[j - 1];
      if i > 0 {
        assert ([h] + r)[i] == r[i - 1];
      }
    }
  }

  lemma {:induction false} InsertSorted(t: CategoryTotal, ts: seq<CategoryTotal>)
    requires SortedDesc(ts)
    ensures SortedDesc(Insert(t, ts))
    decreases |ts|
  {
    if ts == [] || ts[0].amount <= t.amount {
      assert AtMost(ts, t.amount) by {
        forall i | 0 <= i < |ts| ensures ts[i].amount <= t.amount {
          assert ts[0].amount >= ts[i].amount || i == 0;
        }
      }
      ConsSorted(t, ts);
    } else {
      var rest := ts[1..];
      assert SortedDesc(rest) by {
        forall i, j | 0 <= i < j < |rest| ensures rest[i].amount >= rest[j].amount {
          assert rest[i] == ts[i + 1] && rest[j] == ts[j + 1];
        }
      }
      assert AtMost(rest, ts[0].amount) by {
        forall i | 0 <= i < |rest| ensures rest[i].amount <= ts[0].amount {
          assert rest[i] == ts[i + 1];
        }
      }
      InsertSorted(t, rest);
      InsertBound(t, rest, ts[0].amount);
      ConsSorted(ts[0], Insert(t, rest));
    }
  }

  /** The sort yields a permutation of its input, ordered from the largest total down. */
  lemma {:induction false} SortSpec(ts: seq<CategoryTotal>)
    ensures SortedDesc(SortByAmount(ts))
    ensures multiset(SortByAmount(ts)) == multiset(ts)
    decreases |ts|
  {
    if ts != [] {
      SortSpec(ts[1..]);
      InsertSorted(ts[0], SortByAmount(ts[1..]));
      InsertPermutes(ts[0], SortByAmount(ts[1..]));
      assert ts == [ts[0]] + ts[1..];
    }
  }

  /** Inserting an entry with a new category keeps the categories distinct. */
  lemma {:induction false} InsertDistinct(t: CategoryTotal, ts: seq<CategoryTotal>)
    requires DistinctCategories(ts) && t.category !in Categories(ts)
    ensures DistinctCategories(Insert(t, ts))
    ensures forall k :: k in Categories(Insert(t, ts)) <==> k in Categories(ts) || k == t.category
    decreases |ts|
  {
    var ks := Categories(ts);
    if ts == [] || ts[0].amount <= t.amount {
      assert Categories(Insert(t, ts)) == [t.category] + ks;
    } else {
      var rest := ts[1..];
      assert ks == [ts[0].category] + Categories(rest);
      assert DistinctCategories(rest) by {
        forall i, j | 0 <= i < j < |rest| ensures Categories(rest)[i] != Categories(rest)[j] {
          assert Categories(rest)[i] == ks[i + 1] && Categories(rest)[j] == ks[j + 1];
        }
      }
      InsertDistinct(t, rest);
      var r := Insert(t, rest);
      assert Categories(Insert(t, ts)) == [ts[0].category] + Categories(r);
      assert ts[0].category !in Categories(rest) by {
        forall i | 0 <= i < |rest| ensures Categories(rest)[i] != ts[0].category {
          assert Categories(rest)[i] == ks[i + 1] && ks[0] == ts[0].category;
        }
      }
      assert ts[0].category !in Categories(r);
      forall i, j | 0 <= i < j < |[ts[0].category] + Categories(r)|
        ensures ([ts[0].category] + Categories(r))[i] != ([ts[0].category] + Categories(r))[j]
      {
        if i == 0 {
          assert ([ts[0].category] + Categories(r))[j] in Categories(r);
        }
      }
    }
  }

  /** Sorting keeps the set of categories and their distinctness. */
  lemma {:induction false} SortDistinct(ts: seq<CategoryTotal>)
    requires DistinctCategories(ts)
    ensures DistinctCategories(SortByAmount(ts))
    ensures forall k :: k in Categories(SortByAmount(ts)) <==> k in Categories(ts)
    decreases |ts|
  {
    if ts != [] {
      var ks := Categories(ts);
      var rest := ts[1..];
      assert ks == [ts[0].category] + Categories(rest);
      assert DistinctCategories(rest) by {
        forall i, j | 0 <= i < j < |rest| ensures Categories(rest)[i] != Categories(rest)[j] {
          assert Categories(rest)[i] == ks[i + 1] && Categories(rest)[j] == ks[j + 1];
        }
      }
      assert ts[0].category !in Categories(rest) by {
        forall i | 0 <= i < |rest| ensures Categories(rest)[i] != ts[0].category {
          assert Categories(rest)[i] == ks[i + 1];
        }
      }
      SortDistinct(rest);
      InsertDistinct(ts[0], SortByAmount(rest));
    }
  }

  /** `slice(0, 5)`. */
  function Take(ts: seq<CategoryTotal>, n: nat): (r: seq<CategoryTotal>)
    ensures |r| <= n && |r| <= |ts|
    ensures r == ts[..|r|]
    ensures |r| == if |ts| < n then |ts| else n
  {
    if |ts| <= n then ts else ts[..n]
  }

  /** `state.accounts.map(account => ({ account: account.name, balance, currency }))`. */
  function AccountBalances(accounts: seq<Account>): (r: seq<AccountBalance>)
    ensures |r| == |accounts|
    ensures forall i :: 0 <= i < |r| ==> (r[i].account == accounts[i].name &&
      r[i].balance == accounts[i].balance && r[i].currency == accounts[i].currency)
  {
    seq(|accounts|, i requires 0 <= i < |accounts| =>
      AccountBalance(accounts[i].name, accounts[i].balance, accounts[i].currency))
  }

  /** The figures `getDashboardStats` reports for the state at the moment `now`. */
  function Stats(s: State, now: Moment): DashboardStats {
    var monthlyExpenses := Monthly(s.expenses, now, ExpenseEntry);
    var monthlyIncome := Monthly(s.expenses, now, IncomeEntry);
    var totalExpenses := SumAmounts(monthlyExpenses);
    var totalIncome := SumAmounts(monthlyIncome);
    DashboardStats(
      totalExpenses,
      totalIncome,
      MonthlyBudget,
      MonthlyBudget - totalExpenses,
      Top(monthlyExpenses),
      AccountBalances(s.accounts))
  }

  /** The five largest category totals of the month's expenses, largest first. */
  function Top(monthly: seq<Expense>): seq<CategoryTotal> {
    Take(SortByAmount(FoldTotals(monthly)), TopCount)
  }

  /** `getDashboardStats`: the filters and sums, the category accumulator loop, the sort and
      the cut to five. */
  method GetDashboardStats(s: State, now: Moment) returns (stats: DashboardStats)
    ensures stats == Stats(s, now)
    ensures stats.remainingBudget == MonthlyBudget - stats.totalExpenses
    ensures SortedDesc(stats.topCategories) && |stats.topCategories| <= TopCount
  {
    var monthlyExpenses := Monthly(s.expenses, now, ExpenseEntry);
    var monthlyIncome := Monthly(s.expenses, now, IncomeEntry);
    var totalExpenses := SumAmounts(monthlyExpenses);
    var totalIncome := SumAmounts(monthlyIncome);
    var remainingBudget := MonthlyBudget - totalExpenses;
    var categoryTotals := CategoryTotals(monthlyExpenses);
    var sorted := SortByAmount(categoryTotals);
    SortSpec(categoryTotals);
    var topCategories := Take(sorted, TopCount);
    assert topCategories == Top(monthlyExpenses);
    assert SortedDesc(topCategories) by {
      forall i, j | 0 <= i < j < |topCategories|
        ensures topCategories[i].amount >= topCategories[j].amount
      {
        assert topCategories[i] == sorted[i] && topCategories[j] == sorted[j];
      }
    }
    stats := DashboardStats(totalExpenses, totalIncome, MonthlyBudget, remainingBudget,
                            topCategories, AccountBalances(s.accounts));
  }

  /** The top categories: at most five, largest total first, each category of the month's
      expenses at most once and with its full total. */
  lemma TopCategoriesSpec(s: State, now: Moment)
    ensures var monthly := Monthly(s.expenses, now, ExpenseEntry);
      var top := Stats(s, now).topCategories;
      |top| <= TopCount && SortedDesc(top) && DistinctCategories(top) &&
      (forall i :: 0 <= i < |top| ==> top[i].amount == CategorySum(monthly, top[i].category)) &&
      (forall i :: 0 <= i < |top| ==> exists j :: 0 <= j < |monthly| && monthly[j].category == top[i].category)
  {
    TopOfMonth(Monthly(s.expenses, now, ExpenseEntry));
  }

  lemma TopOfMonth(monthly: seq<Expense>)
    ensures var top := Top(monthly);
      |top| <= TopCount && SortedDesc(top) && DistinctCategories(top) &&
      (forall i :: 0 <= i < |top| ==> top[i].amount == CategorySum(monthly, top[i].category)) &&
      (forall i :: 0 <= i < |top| ==> exists j :: 0 <= j < |monthly| && monthly[j].category == top[i].category)
  {
    var sorted := SortByAmount(FoldTotals(monthly));
    var top := Top(monthly);
    SortedEntries(monthly);
    assert DistinctCategories(top) by {
      forall i, j | 0 <= i < j < |top| ensures Categories(top)[i] != Categories(top)[j] {
        assert top[i] == sorted[i] && top[j] == sorted[j];
        assert Categories(sorted)[i] != Categories(sorted)[j];
      }
    }
    forall i | 0 <= i < |top|
      ensures top[i].amount == CategorySum(monthly, top[i].category)
      ensures exists j :: 0 <= j < |monthly| && monthly[j].category == top[i].category
    {
      assert top[i] == sorted[i];
    }
  }

  /** The sorted fold: ordered by total, distinct categories, exactly the month's categories,
      each with its total. */
  lemma SortedEntries(monthly: seq<Expense>)
    ensures var sorted := SortByAmount(FoldTotals(monthly));
      SortedDesc(sorted) && DistinctCategories(sorted) &&
      (forall k :: k in Categories(sorted) <==> exists j :: 0 <= j < |monthly| && monthly[j].category == k) &&
      (forall i :: 0 <= i < |sorted| ==> sorted[i].amount == CategorySum(monthly, sorted[i].category)) &&
      (forall i :: 0 <= i < |sorted| ==> exists j :: 0 <= j < |monthly| && monthly[j].category == sorted[i].category)
  {
    var fold := FoldTotals(monthly);
    var sorted := SortByAmount(fold);
    FoldTotalsSpec(monthly);
    FirstAppearancesSpec(monthly);
    SortSpec(fold);
    SortDistinct(fold);
    forall i | 0 <= i < |sorted|
      ensures sorted[i].amount == CategorySum(monthly, sorted[i].category)
      ensures exists j :: 0 <= j < |monthly| && monthly[j].category == sorted[i].category
    {
      assert sorted[i] in multiset(fold);
      var p :| 0 <= p < |fold| && fold[p] == sorted[i];
      EntryIsTotal(fold, p);
      assert Categories(fold)[p] == fold[p].category;
      assert fold[p].category in FirstAppearances(monthly);
    }
  }

  /** Cutting a sorted list to its first five leaves out nothing larger than the fifth. */
  lemma LeftOutOfTop(ts: seq<CategoryTotal>, c: string)
    requires SortedDesc(ts) && c in Categories(ts) && c !in Categories(Take(ts, TopCount))
    ensures |Take(ts, TopCount)| == TopCount
    ensures forall i :: 0 <= i < |ts| && ts[i].category == c ==> ts[i].amount <= ts[TopCount - 1].amount
  {
    var top := Take(ts, TopCount);
    forall i | 0 <= i < |ts| && ts[i].category == c
      ensures i >= |top|
    {
      assert forall k :: 0 <= k < |top| ==> Categories(top)[k] == ts[k].category;
    }
  }

  /** A category of the month's expenses that is not among the top five totals no more than
      the smallest total shown. */
  lemma LeftOutCategoriesAreSmaller(s: State, now: Moment, c: string)
    requires c in FirstAppearances(Monthly(s.expenses, now, ExpenseEntry))
    requires c !in Categories(Stats(s, now).topCategories)
    ensures |Stats(s, now).topCategories| == TopCount
    ensures CategorySum(Monthly(s.expenses, now, ExpenseEntry), c) <= Stats(s, now).topCategories[TopCount - 1].amount
  {
    LeftOutOfMonth(Monthly(s.expenses, now, ExpenseEntry), c);
  }

  lemma LeftOutOfMonth(monthly: seq<Expense>, c: string)
    requires c in FirstAppearances(monthly) && c !in Categories(Top(monthly))
    ensures |Top(monthly)| == TopCount
    ensures CategorySum(monthly, c) <= Top(monthly)[TopCount - 1].amount
  {
    var sorted := SortByAmount(FoldTotals(monthly));
    SortedEntries(monthly);
    FirstAppearancesSpec(monthly);
    assert c in Categories(sorted);
    LeftOutOfTop(sorted, c);
    var i :| 0 <= i < |sorted| && Categories(sorted)[i] == c;
    assert sorted[i].amount == CategorySum(monthly, c);
  }

  /** The month's totals: the sum of expense and income amounts in the window, the fixed budget
      less the expenses, and category totals that add up to the expense total. */
  lemma TotalsSpec(s: State, now: Moment)
    ensures var stats := Stats(s, now);
      stats.totalExpenses == SumAmounts(Monthly(s.expenses, now, ExpenseEntry)) &&
      stats.totalIncome == SumAmounts(Monthly(s.expenses, now, IncomeEntry)) &&
      stats.monthlyBudget == 50000.0 &&
      stats.remainingBudget == 50000.0 - stats.totalExpenses &&
      SumTotals(FoldTotals(Monthly(s.expenses, now, ExpenseEntry))) == stats.totalExpenses
  {
    FoldTotalsSpec(Monthly(s.expenses, now, ExpenseEntry));
  }

  /** The window is the calendar month of `now` minus the last day after midnight: a record
      stamped 00:00 on the last day counts, one stamped later that day does not. */
  lemma WindowIsMonthExceptLastDay(t: Moment, now: Moment)
    requires ValidMoment(t) && Valid(now.date) && FullYear(now.date.year) == now.date.year
    ensures InWindow(t, now) <==>
      t.date.year == now.date.year && t.date.month == now.date.month &&
      (t.date.day < DaysInMonth(now.date.year, now.date.month) || t.ms == 0)
  {
    var y, m := now.date.year, now.date.month;
    var first := CivilDate(y, m, 1);
    var last := CivilDate(y, m, DaysInMonth(y, m));
    MakeDateInRange(y, m, 1);
    LastDayOfMonth(y, m);
    assert MonthStart(now) == Moment(first, 0);
    assert MonthEnd(now) == Moment(last, 0);
    var d := t.date;
    if d.year == y && d.month == m {
      assert DayNumber(d) - DayNumber(first) == d.day - 1;
      assert DayNumber(last) - DayNumber(d) == DaysInMonth(y, m) - d.day;
    } else {
      if Before(d, first) {
        DayNumberOrder(d, first);
      } else {
        assert Before(last, d);
        DayNumberOrder(last, d);
      }
    }
  }
}
