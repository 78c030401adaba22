/**
 * The read side of `expenses/views.py` over one user's transactions: the
 * search filter, newest-first ordering, the dashboard's cycle summary (totals,
 * balance, top expenses, recent and matching transactions, trailing series),
 * the search-results endpoint and the name suggestions.
 */
module Queries {
  import opened Wrappers
  import opened Text
  import opened Sorting
  import opened Dates
  import opened Models
  import opened Cycles

  // ---------------------------------------------------------------- ownership

  /** `_user_transactions`: the rows owned by `user`, in store order. */
  function UserTransactions(txns: seq<Transaction>, user: nat): (r: seq<Transaction>)
    ensures forall i :: 0 <= i < |r| ==> r[i].user == user && r[i] in txns
    ensures forall i :: 0 <= i < |txns| && txns[i].user == user ==> txns[i] in r
  {
    var owned := (t: Transaction) => t.user == user;
    FilterMembers(owned, txns);
    Filter(owned, txns)
  }

  /** The category row with key `id`, if there is one. */
  function FindCategory(categories: seq<Category>, id: nat): (r: Option<Category>)
    ensures r.Some? ==> r.value in categories && r.value.id == id
    ensures r.None? ==> forall i :: 0 <= i < |categories| ==> categories[i].id != id
  {
    if categories == [] then None
    else if categories[0].id == id then Some(categories[0])
    else FindCategory(categories[1..], id)
  }

  /** The name of the transaction's category, `None` when it has none. */
  function CategoryNameOf(t: Transaction, categories: seq<Category>): Option<string> {
    match t.category
    case None => None
    case Some(id) =>
      match FindCategory(categories, id)
      case None => None
      case Some(c) => Some(c.name)
  }

  // ---------------------------------------------------------------- search

  /**
   * The search term occurs, ignoring case, in the note, the category name,
   * the stored type code or the name.
   */
  predicate Matches(t: Transaction, query: string, categories: seq<Category>) {
    IContains(t.note, query) ||
    (CategoryNameOf(t, categories).Some? && IContains(CategoryNameOf(t, categories).value, query)) ||
    IContains(TypeCode(t.txType), query) ||
    IContains(t.name, query)
  }

  /** `_filter_transactions`: no filtering for an empty term, else the matching rows in order. */
  function FilterTransactions(txns: seq<Transaction>, query: string, categories: seq<Category>): (r: seq<Transaction>)
    ensures query == "" ==> r == txns
    ensures query != "" ==> forall i :: 0 <= i < |r| ==> r[i] in txns && Matches(r[i], query, categories)
    ensures query != "" ==> forall i :: 0 <= i < |txns| && Matches(txns[i], query, categories) ==> txns[i] in r
  {
    if query == "" then txns
    else
      var matching := (t: Transaction) => Matches(t, query, categories);
      FilterMembers(matching, txns);
      Filter(matching, txns)
  }

  lemma MatchesIgnoresCase(t: Transaction, query: string, categories: seq<Category>)
    ensures Matches(t, UpperStr(query), categories) == Matches(t, query, categories)
  {
    LowerOfUpper(query);
  }

  /** Searching is case-insensitive: an upper-cased term finds the same rows. */
  lemma SearchIgnoresCase(txns: seq<Transaction>, query: string, categories: seq<Category>)
    ensures FilterTransactions(txns, UpperStr(query), categories) == FilterTransactions(txns, query, categories)
  {
    if query != "" {
      forall i | 0 <= i < |txns|
        ensures Matches(txns[i], UpperStr(query), categories) == Matches(txns[i], query, categories)
      {
        MatchesIgnoresCase(txns[i], query, categories);
      }
      FilterCongruent((t: Transaction) => Matches(t, UpperStr(query), categories),
        (t: Transaction) => Matches(t, query, categories), txns);
    }
  }

  /** The type column is searched too: "out" finds every expense. */
  lemma SearchByTypeCode(txns: seq<Transaction>, categories: seq<Category>)
    ensures forall i :: 0 <= i < |txns| && txns[i].txType == Outgo ==>
      txns[i] in FilterTransactions(txns, "out", categories)
  {
    assert LowerStr("OUTGO") == "outgo";
    assert LowerStr("out") == "out";
    assert OccursAt("outgo", "out", 0);
    ContainsMeansOccurs("outgo", "out");
  }

  // ---------------------------------------------------------------- ordering

  /** `order_by('-occurred_on')`: newer first. */
  predicate NewerFirst(a: Transaction, b: Transaction) {
    NotAfter(b.occurredOn, a.occurredOn)
  }

  lemma NewerFirstIsTotalPreorder()
    ensures IsTotalPreorder(NewerFirst)
  {
    forall a: Transaction, b: Transaction ensures NewerFirst(a, b) || NewerFirst(b, a) {
      OrderTrichotomy(a.occurredOn, b.occurredOn);
    }
  }

  /** The user's transactions, newest first. */
  function ByDateDesc(txns: seq<Transaction>): seq<Transaction> {
    Sort(txns, NewerFirst)
  }

  /** The newest-first ordering holds the same rows, and dates never increase along it. */
  lemma ByDateDescOrdered(txns: seq<Transaction>)
    ensures multiset(ByDateDesc(txns)) == multiset(txns)
    ensures SortedBy(ByDateDesc(txns), NewerFirst)
  {
    NewerFirstIsTotalPreorder();
    SortSorted(txns, NewerFirst);
  }

  /** `order_by('-amount_in_cents')`: larger first. */
  predicate LargerFirst(a: Transaction, b: Transaction) {
    a.amountInCents >= b.amountInCents
  }

  lemma LargerFirstIsTotalPreorder()
    ensures IsTotalPreorder(LargerFirst)
  {
  }

  predicate IsOutgo(t: Transaction) {
    t.txType == Outgo
  }

  /** The cycle's expenses, largest first. */
  function OutgoByAmount(cycle: seq<Transaction>): seq<Transaction> {
    Sort(Filter(IsOutgo, cycle), LargerFirst)
  }

  /** `top_expenses`: the three largest expenses of the cycle, or all when there are fewer. */
  function TopExpenses(cycle: seq<Transaction>): (top: seq<Transaction>)
    ensures var n := |Filter(IsOutgo, cycle)|; |top| == if n < 3 then n else 3
  {
    Take(3, OutgoByAmount(cycle))
  }

  /** `top_spend`: the largest expense of the cycle, present exactly when the cycle has one. */
  function TopSpend(cycle: seq<Transaction>): (r: Option<Transaction>)
    ensures r.Some? <==> Filter(IsOutgo, cycle) != []
  {
    var sorted := OutgoByAmount(cycle);
    if sorted == [] then None else Some(sorted[0])
  }

  lemma OutgoByAmountShape(cycle: seq<Transaction>)
    ensures var sorted := OutgoByAmount(cycle);
      multiset(sorted) == multiset(Filter(IsOutgo, cycle)) &&
      SortedBy(sorted, LargerFirst) &&
      (forall i :: 0 <= i < |sorted| ==> sorted[i] in cycle && sorted[i].txType == Outgo) &&
      (forall x :: x in cycle && x.txType == Outgo ==> x in sorted)
  {
    var outgo := Filter(IsOutgo, cycle);
    var sorted := OutgoByAmount(cycle);
    LargerFirstIsTotalPreorder();
    SortSorted(outgo, LargerFirst);
    FilterMembers(IsOutgo, cycle);
    forall i | 0 <= i < |sorted| ensures sorted[i] in cycle && sorted[i].txType == Outgo {
      assert sorted[i] in multiset(outgo);
    }
    forall x | x in cycle && x.txType == Outgo ensures x in sorted {
      var k :| 0 <= k < |cycle| && cycle[k] == x;
      assert x in outgo;
      assert x in multiset(sorted);
    }
  }

  /**
   * Three expenses, or all of them when the cycle has fewer, largest first,
   * and no expense of the cycle left out of them is larger than any of them.
   */
  lemma TopExpensesAreLargest(cycle: seq<Transaction>)
    ensures var top := TopExpenses(cycle);
      var outgo := Filter(IsOutgo, cycle);
      |top| == (if |outgo| < 3 then |outgo| else 3) &&
      multiset(top) <= multiset(outgo) &&
      (forall i :: 0 <= i < |top| ==> top[i] in cycle && top[i].txType == Outgo) &&
      (forall i, j :: 0 <= i < j < |top| ==> top[i].amountInCents >= top[j].amountInCents) &&
      (forall x :: x in cycle && x.txType == Outgo && x !in top ==>
        forall i :: 0 <= i < |top| ==> x.amountInCents <= top[i].amountInCents)
  {
    TopExpensesRanked(cycle);
    TopExpensesDrawn(cycle);
  }

  lemma TopExpensesRanked(cycle: seq<Transaction>)
    ensures var top := TopExpenses(cycle);
      (forall i :: 0 <= i < |top| ==> top[i] in cycle && top[i].txType == Outgo) &&
      (forall i, j :: 0 <= i < j < |top| ==> top[i].amountInCents >= top[j].amountInCents) &&
      (forall x :: x in cycle && x.txType == Outgo && x !in top ==>
        forall i :: 0 <= i < |top| ==> x.amountInCents <= top[i].amountInCents)
  {
    OutgoByAmountShape(cycle);
    TakeSortedLeavesLater(3, OutgoByAmount(cycle), LargerFirst);
  }

  lemma TopExpensesDrawn(cycle: seq<Transaction>)
    ensures multiset(TopExpenses(cycle)) <= multiset(Filter(IsOutgo, cycle))
  {
    OutgoByAmountShape(cycle);
    TakeSubMultiset(3, OutgoByAmount(cycle));
  }

  /** The largest expense exists exactly when the cycle has an expense, and none is larger. */
  lemma TopSpendIsMaximum(cycle: seq<Transaction>)
    ensures TopSpend(cycle).Some? <==> exists x :: x in cycle && x.txType == Outgo
    ensures TopSpend(cycle).Some? ==>
      TopSpend(cycle).value in cycle && TopSpend(cycle).value.txType == Outgo &&
      forall x :: x in cycle && x.txType == Outgo ==> x.amountInCents <= TopSpend(cycle).value.amountInCents
  {
    var sorted := OutgoByAmount(cycle);
    OutgoByAmountShape(cycle);
    if sorted != [] {
      assert sorted[0] in cycle && sorted[0].txType == Outgo;
      forall x | x in cycle && x.txType == Outgo
        ensures x.amountInCents <= sorted[0].amountInCents
      {
        var k :| 0 <= k < |sorted| && sorted[k] == x;
        if k > 0 {
          assert LargerFirst(sorted[0], sorted[k]);
        }
      }
    }
  }

  // ---------------------------------------------------------------- dashboard

  /** A percentage of the cycle's money flow; the float rounding is not modelled. */
  datatype FlowShare = NoFlow | Ratio(part: int, flow: int)

  function Percent(part: int, income: int, outgo: int): FlowShare {
    if income + outgo > 0 then Ratio(part, income + outgo) else NoFlow
  }

  /** Without money flow both shares are zero; otherwise the two parts add up to the flow. */
  lemma PercentsSplitFlow(income: int, outgo: int)
    requires income >= 0 && outgo >= 0
    ensures income + outgo == 0 <==> Percent(income, income, outgo) == NoFlow
    ensures income + outgo == 0 <==> Percent(outgo, income, outgo) == NoFlow
    ensures income + outgo > 0 ==>
      Percent(income, income, outgo).part + Percent(outgo, income, outgo).part ==
      Percent(income, income, outgo).flow
  {
  }

  datatype DashboardData = DashboardData(
    cycleStart: Date,
    cycleEnd: Date,
    spendHistory: seq<Transaction>,
    income: int,
    outgo: int,
    balance: int,
    incomePercent: FlowShare,
    expensePercent: FlowShare,
    topExpenses: seq<Transaction>,
    topSpend: Option<Transaction>,
    searchQuery: string,
    searchResults: seq<Transaction>,
    cycleStarts: seq<Date>,
    incomeData: seq<int>,
    expenseData: seq<int>)

  /** The transactions of the cycle containing `today`, newest first. */
  function CycleTransactions(userTxns: seq<Transaction>, today: Date, cycleDay: int): seq<Transaction>
    requires ValidDate(today) && 1 <= cycleDay
  {
    var start := CurrentCycleStart(today, cycleDay);
    Window(ByDateDesc(userTxns), start, NextCycleStart(start, cycleDay))
  }

  /**
   * The read side of the dashboard view for one user's transactions: the
   * current cycle from the anchor day of the stored cycle start, its totals,
   * the newest ten transactions in it, its largest expenses, up to fifteen
   * search matches and the twelve trailing cycles.
   */
  method Dashboard(userTxns: seq<Transaction>, categories: seq<Category>, cycleStartDate: Date,
                   today: Date, rawQuery: string)
    returns (d: DashboardData)
    requires ValidDate(today) && ValidDate(cycleStartDate)
    ensures var cycleDay := cycleStartDate.day;
      var cycle := CycleTransactions(userTxns, today, cycleDay);
      d.cycleStart == CurrentCycleStart(today, cycleDay) &&
      d.cycleEnd == CycleEnd(d.cycleStart, cycleDay) &&
      d.spendHistory == Take(10, cycle) &&
      d.income == TypeTotal(cycle, Income) && d.outgo == TypeTotal(cycle, Outgo) &&
      d.topExpenses == TopExpenses(cycle) && d.topSpend == TopSpend(cycle) &&
      d.searchQuery == Strip(rawQuery) &&
      d.searchResults == SearchResults(ByDateDesc(userTxns), categories, rawQuery, 15) &&
      d.cycleStarts == TrailingStarts(d.cycleStart, cycleDay) &&
      d.incomeData == SeriesTotals(ByDateDesc(userTxns), Income, d.cycleStarts, cycleDay) &&
      d.expenseData == SeriesTotals(ByDateDesc(userTxns), Outgo, d.cycleStarts, cycleDay)
    ensures d.balance == d.income - d.outgo
    ensures d.incomePercent == Percent(d.income, d.income, d.outgo)
    ensures d.expensePercent == Percent(d.outgo, d.income, d.outgo)
  {
    var cycleDay := cycleStartDate.day;
    var transactions := ByDateDesc(userTxns);
    var start := CurrentCycleStart(today, cycleDay);
    var next := NextCycleStart(start, cycleDay);
    var cycle := Window(transactions, start, next);
    var income := TypeTotal(cycle, Income);
    var query := Strip(rawQuery);
    var results := if query != "" then Take(15, FilterTransactions(transactions, query, categories)) else [];
    var outgo := TypeTotal(cycle, Outgo);
    var starts := TrailingStarts(start, cycleDay);
    var incomeData, expenseData := TrailingSeries(transactions, starts, cycleDay);
    d := DashboardData(start, CycleEnd(start, cycleDay), Take(10, cycle), income, outgo,
      income - outgo, Percent(income, income, outgo), Percent(outgo, income, outgo),
      TopExpenses(cycle), TopSpend(cycle), query, results, starts, incomeData, expenseData);
  }

  /**
   * The newest ten transactions shown are the user's own, dated in the
   * current cycle (which contains `today`), newest first.
   */
  lemma SpendHistoryInCycle(userTxns: seq<Transaction>, today: Date, cycleDay: int)
    requires ValidDate(today) && 1 <= cycleDay
    ensures var start := CurrentCycleStart(today, cycleDay);
      var history := Take(10, CycleTransactions(userTxns, today, cycleDay));
      |history| <= 10 &&
      (forall i :: 0 <= i < |history| ==>
        history[i] in userTxns && InWindow(history[i].occurredOn, start, NextCycleStart(start, cycleDay))) &&
      SortedBy(history, NewerFirst)
  {
    var ordered := ByDateDesc(userTxns);
    var start := CurrentCycleStart(today, cycleDay);
    var cycle := Window(ordered, start, NextCycleStart(start, cycleDay));
    ByDateDescOrdered(userTxns);
    WindowSorted(ordered, start, NextCycleStart(start, cycleDay));
    WindowMembers(ordered, start, NextCycleStart(start, cycleDay));
    forall i | 0 <= i < |cycle| ensures cycle[i] in userTxns {
      assert cycle[i] in multiset(ordered);
    }
  }

  lemma {:induction false} WindowSorted(txns: seq<Transaction>, start: Date, next: Date)
    requires SortedBy(txns, NewerFirst)
    ensures SortedBy(Window(txns, start, next), NewerFirst)
  {
    if txns != [] {
      var rest := Window(txns[1..], start, next);
      WindowSorted(txns[1..], start, next);
      WindowMembers(txns[1..], start, next);
      forall k | 0 <= k < |rest| ensures NewerFirst(txns[0], rest[k]) {
        var j :| 0 <= j < |txns[1..]| && txns[1..][j] == rest[k];
        assert txns[j + 1] == rest[k];
      }
    }
  }

  /** A worked cycle: 120.00 of income and 30.00 of expenses leave a balance of 90.00. */
  lemma BalanceExample(a: Transaction, b: Transaction, c: Transaction)
    requires a.txType == Income && a.amountInCents == 12000
    requires b.txType == Outgo && b.amountInCents == 1000
    requires c.txType == Outgo && c.amountInCents == 2000
    ensures TypeTotal([a, b, c], Income) == 12000
    ensures TypeTotal([a, b, c], Outgo) == 3000
    ensures TypeTotal([a, b, c], Income) - TypeTotal([a, b, c], Outgo) == 9000
    ensures TypeTotal([b, c], Income) == 0
  {
    assert [a, b, c][1..] == [b, c];
    assert [b, c][1..] == [c];
    assert [c][1..] == [];
    assert TypeTotal([c], Income) == 0 && TypeTotal([c], Outgo) == 2000;
    assert TypeTotal([b, c], Income) == 0 && TypeTotal([b, c], Outgo) == 3000;
  }

  // ---------------------------------------------------------------- search endpoint

  /**
   * The matches for a search box entry: nothing for a blank entry, else at
   * most `limit` matching rows in the given order (15 on the dashboard, 10
   * for `transaction_search_results`).
   */
  function SearchResults(ordered: seq<Transaction>, categories: seq<Category>, rawQuery: string, limit: nat): (r: seq<Transaction>)
    ensures |r| <= limit
    ensures Strip(rawQuery) == "" ==> r == []
    ensures forall i :: 0 <= i < |r| ==> r[i] in ordered && Matches(r[i], Strip(rawQuery), categories)
    ensures Strip(rawQuery) != "" ==>
      var m := FilterTransactions(ordered, Strip(rawQuery), categories);
      |r| == (if limit < |m| then limit else |m|) && r == m[..|r|]
  {
    var query := Strip(rawQuery);
    if query == "" then [] else Take(limit, FilterTransactions(ordered, query, categories))
  }

  /** Results are matching rows of the input, at most `limit`, newest first; a blank entry finds nothing. */
  lemma SearchResultsSound(userTxns: seq<Transaction>, categories: seq<Category>, rawQuery: string, limit: nat)
    ensures var r := SearchResults(ByDateDesc(userTxns), categories, rawQuery, limit);
      |r| <= limit &&
      (Strip(rawQuery) == "" ==> r == []) &&
      (forall i :: 0 <= i < |r| ==> r[i] in userTxns && Matches(r[i], Strip(rawQuery), categories)) &&
      SortedBy(r, NewerFirst)
  {
    var ordered := ByDateDesc(userTxns);
    var query := Strip(rawQuery);
    if query != "" {
      var matches := FilterTransactions(ordered, query, categories);
      assert SortedBy(matches, NewerFirst) by {
        ByDateDescOrdered(userTxns);
        FilterSorted((t: Transaction) => Matches(t, query, categories), ordered, NewerFirst);
      }
      assert forall i :: 0 <= i < |matches| ==> matches[i] in userTxns && Matches(matches[i], query, categories) by {
        ByDateDescOrdered(userTxns);
        forall i | 0 <= i < |matches| ensures matches[i] in userTxns {
          assert matches[i] in multiset(ordered);
        }
      }
      var r := Take(limit, matches);
      assert forall i :: 0 <= i < |r| ==> r[i] == matches[i];
    }
  }

  /**
   * When more rows match than are shown, the shown ones fill the limit and
   * no match left out is newer than any of them.
   */
  lemma SearchResultsKeepNewest(userTxns: seq<Transaction>, categories: seq<Category>, rawQuery: string, limit: nat)
    requires Strip(rawQuery) != ""
    ensures var r := SearchResults(ByDateDesc(userTxns), categories, rawQuery, limit);
      forall x :: x in userTxns && Matches(x, Strip(rawQuery), categories) && x !in r ==>
        |r| == limit && forall i :: 0 <= i < |r| ==> NotAfter(x.occurredOn, r[i].occurredOn)
  {
    var ordered := ByDateDesc(userTxns);
    var query := Strip(rawQuery);
    var m := FilterTransactions(ordered, query, categories);
    ByDateDescOrdered(userTxns);
    assert SortedBy(m, NewerFirst) by {
      FilterSorted((t: Transaction) => Matches(t, query, categories), ordered, NewerFirst);
    }
    TakeSortedLeavesLater(limit, m, NewerFirst);
    forall x | x in userTxns && Matches(x, query, categories) ensures x in m {
      assert x in multiset(ordered);
      var k :| 0 <= k < |ordered| && ordered[k] == x;
    }
  }

  /** A search box holding only blanks shows no results. */
  lemma BlankQueryFindsNothing(ordered: seq<Transaction>, categories: seq<Category>)
    ensures SearchResults(ordered, categories, "", 10) == []
    ensures SearchResults(ordered, categories, "  \t", 10) == []
  {
    StripShape("  \t");
  }

  /** When fewer than `limit` rows match, every match is returned. */
  lemma SearchResultsComplete(ordered: seq<Transaction>, categories: seq<Category>, rawQuery: string, limit: nat)
    requires Strip(rawQuery) != ""
    requires |FilterTransactions(ordered, Strip(rawQuery), categories)| <= limit
    ensures forall i :: 0 <= i < |ordered| && Matches(ordered[i], Strip(rawQuery), categories) ==>
      ordered[i] in SearchResults(ordered, categories, rawQuery, limit)
  {
  }

  // ---------------------------------------------------------------- suggestions

  lemma StrLeIsTotalPreorder()
    ensures IsTotalPreorder(StrLe)
  {
    forall a: string, b: string ensures StrLe(a, b) || StrLe(b, a) {
      StrLeTotal(a, b);
    }
    forall a: string, b: string, c: string | StrLe(a, b) && StrLe(b, c) ensures StrLe(a, c) {
      StrLeTransitive(a, b, c);
    }
  }

  function Names(txns: seq<Transaction>): (names: seq<string>)
    ensures |names| == |txns| && forall i :: 0 <= i < |txns| ==> names[i] == txns[i].name
  {
    seq(|txns|, i requires 0 <= i < |txns| => txns[i].name)
  }

  /** The names of the active categories, in order. */
  function ActiveCategoryNames(categories: seq<Category>): (names: seq<string>)
    ensures forall i :: 0 <= i < |names| ==> exists c :: c in categories && c.isActive && c.name == names[i]
    ensures forall c :: c in categories && c.isActive ==> c.name in names
  {
    if categories == [] then []
    else (if categories[0].isActive then [categories[0].name] else []) + ActiveCategoryNames(categories[1..])
  }

  /** `distinct().order_by('name')[:10]` over the names matching the term. */
  function FirstTenDistinct(names: seq<string>): seq<string> {
    Take(10, Sort(Dedupe(names), StrLe))
  }

  /**
   * Ten distinct names, or all of them when there are fewer, in ascending
   * order, each one of the inputs; an input left out comes after every
   * name kept, and only when ten were kept.
   */
  lemma FirstTenDistinctShape(names: seq<string>)
    ensures var r := FirstTenDistinct(names);
      |r| == (if |Dedupe(names)| < 10 then |Dedupe(names)| else 10) && NoDuplicates(r) &&
      (forall i :: 0 <= i < |r| ==> r[i] in names) &&
      (forall i, j :: 0 <= i < j < |r| ==> StrLe(r[i], r[j]) && r[i] != r[j]) &&
      (forall x :: x in names && x !in r ==>
        |r| == 10 && forall i :: 0 <= i < |r| ==> StrLe(r[i], x) && r[i] != x)
  {
    var distinct := Dedupe(names);
    DedupeMembers(names);
    var sorted := Sort(distinct, StrLe);
    var r := FirstTenDistinct(names);
    StrLeIsTotalPreorder();
    SortSorted(distinct, StrLe);
    PermutationNoDuplicates(distinct, sorted);
    forall i | 0 <= i < |sorted| ensures sorted[i] in names {
      assert sorted[i] in multiset(distinct);
    }
    forall x | x in names && x !in r ensures x in sorted {
      assert x in multiset(distinct);
    }
    TakeSortedLeavesLater(10, sorted, StrLe);
  }

  predicate NameMatches(name: string, query: string) {
    name != "" && IContains(name, query)
  }

  function NameSuggestions(userTxns: seq<Transaction>, query: string): seq<string> {
    FirstTenDistinct(Filter((n: string) => NameMatches(n, query), Names(userTxns)))
  }

  function CategorySuggestions(categories: seq<Category>, query: string): seq<string> {
    FirstTenDistinct(Filter((n: string) => IContains(n, query), ActiveCategoryNames(categories)))
  }

  /**
   * `transaction_suggestions`: nothing for a blank term, else the matching
   * transaction names followed by the matching active category names,
   * without repeats (`dict.fromkeys`).
   */
  function Suggestions(userTxns: seq<Transaction>, categories: seq<Category>, rawQuery: string): (r: seq<string>)
    ensures NoDuplicates(r) && |r| <= 20
    ensures Strip(rawQuery) == "" ==> r == []
  {
    var query := Strip(rawQuery);
    if query == "" then []
    else Dedupe(NameSuggestions(userTxns, query) + CategorySuggestions(categories, query))
  }

  /**
   * Suggestions are distinct, at most twenty, start with the matching
   * transaction names in ascending order, hold exactly the transaction-name
   * and category-name suggestions, and each is either a non-empty name of
   * one of the user's transactions or the name of an active category,
   * containing the term.
   */
  lemma SuggestionsShape(userTxns: seq<Transaction>, categories: seq<Category>, rawQuery: string)
    ensures var query := Strip(rawQuery);
      var r := Suggestions(userTxns, categories, rawQuery);
      var names := NameSuggestions(userTxns, query);
      NoDuplicates(r) && |r| <= 20 &&
      (query == "" ==> r == []) &&
      (query != "" ==> |r| >= |names| && r[..|names|] == names) &&
      (query != "" ==> forall s :: s in r <==> s in names || s in CategorySuggestions(categories, query)) &&
      (forall i :: 0 <= i < |r| ==>
        IContains(r[i], query) &&
        ((r[i] != "" && exists t :: t in userTxns && t.name == r[i]) ||
         (exists c :: c in categories && c.isActive && c.name == r[i])))
  {
    var query := Strip(rawQuery);
    if query != "" {
      var names := NameSuggestions(userTxns, query);
      var cats := CategorySuggestions(categories, query);
      var r := Dedupe(names + cats);
      assert NoDuplicates(names) && |names| <= 10 && |cats| <= 10 by {
        FirstTenDistinctShape(Filter((n: string) => NameMatches(n, query), Names(userTxns)));
        FirstTenDistinctShape(Filter((n: string) => IContains(n, query), ActiveCategoryNames(categories)));
      }
      DedupeKeepsPrefix(names, cats);
      assert forall s :: s in r <==> s in names + cats by {
        DedupeMembers(names + cats);
      }
      forall i | 0 <= i < |r|
        ensures IContains(r[i], query) &&
          ((r[i] != "" && exists t :: t in userTxns && t.name == r[i]) ||
           (exists c :: c in categories && c.isActive && c.name == r[i]))
      {
        assert r[i] in names + cats;
        if r[i] in names {
          NameSuggestionSource(userTxns, query, r[i]);
        } else {
          CategorySuggestionSource(categories, query, r[i]);
        }
      }
    }
  }

  /**
   * A non-empty name of one of the user's transactions that contains a
   * non-blank term is suggested, unless ten smaller matching names fill the
   * transaction-name part.
   */
  lemma NameSuggestionComplete(userTxns: seq<Transaction>, categories: seq<Category>, rawQuery: string, t: Transaction)
    requires Strip(rawQuery) != "" && t in userTxns && t.name != "" && IContains(t.name, Strip(rawQuery))
    ensures var names := NameSuggestions(userTxns, Strip(rawQuery));
      t.name in Suggestions(userTxns, categories, rawQuery) ||
      (|names| == 10 && forall i :: 0 <= i < |names| ==> StrLe(names[i], t.name) && names[i] != t.name)
  {
    var query := Strip(rawQuery);
    var matching := Filter((n: string) => NameMatches(n, query), Names(userTxns));
    var names := NameSuggestions(userTxns, query);
    var cats := CategorySuggestions(categories, query);
    assert t.name in matching by {
      var k :| 0 <= k < |userTxns| && userTxns[k] == t;
      assert Names(userTxns)[k] == t.name;
      FilterMembers((n: string) => NameMatches(n, query), Names(userTxns));
    }
    FirstTenDistinctShape(matching);
    if t.name in names {
      assert t.name in names + cats;
      DedupeMembers(names + cats);
    }
  }

  /**
   * The name of an active category that contains a non-blank term is
   * suggested, unless ten smaller matching category names fill the
   * category-name part.
   */
  lemma CategorySuggestionComplete(userTxns: seq<Transaction>, categories: seq<Category>, rawQuery: string, c: Category)
    requires Strip(rawQuery) != "" && c in categories && c.isActive && IContains(c.name, Strip(rawQuery))
    ensures var cats := CategorySuggestions(categories, Strip(rawQuery));
      c.name in Suggestions(userTxns, categories, rawQuery) ||
      (|cats| == 10 && forall i :: 0 <= i < |cats| ==> StrLe(cats[i], c.name) && cats[i] != c.name)
  {
    var query := Strip(rawQuery);
    var active := ActiveCategoryNames(categories);
    var matching := Filter((n: string) => IContains(n, query), active);
    var names := NameSuggestions(userTxns, query);
    var cats := CategorySuggestions(categories, query);
    assert c.name in matching by {
      var k :| 0 <= k < |active| && active[k] == c.name;
      FilterMembers((n: string) => IContains(n, query), active);
    }
    FirstTenDistinctShape(matching);
    if c.name in cats {
      assert c.name in names + cats;
      DedupeMembers(names + cats);
    }
  }

  /** A suggested transaction name is a non-empty name of one of the user's transactions containing the term. */
  lemma NameSuggestionSource(userTxns: seq<Transaction>, query: string, s: string)
    requires s in NameSuggestions(userTxns, query)
    ensures IContains(s, query) && s != "" && exists t :: t in userTxns && t.name == s
  {
    var matching := Filter((n: string) => NameMatches(n, query), Names(userTxns));
    FirstTenDistinctShape(matching);
    FilterMembers((n: string) => NameMatches(n, query), Names(userTxns));
    var j :| 0 <= j < |matching| && matching[j] == s;
    var k :| 0 <= k < |Names(userTxns)| && Names(userTxns)[k] == s;
    assert userTxns[k] in userTxns && userTxns[k].name == s;
  }

  /** A suggested category name is the name of an active category containing the term. */
  lemma CategorySuggestionSource(categories: seq<Category>, query: string, s: string)
    requires s in CategorySuggestions(categories, query)
    ensures IContains(s, query) && exists c :: c in categories && c.isActive && c.name == s
  {
    var matching := Filter((n: string) => IContains(n, query), ActiveCategoryNames(categories));
    FirstTenDistinctShape(matching);
    FilterMembers((n: string) => IContains(n, query), ActiveCategoryNames(categories));
    var j :| 0 <= j < |matching| && matching[j] == s;
    var k :| 0 <= k < |ActiveCategoryNames(categories)| && ActiveCategoryNames(categories)[k] == s;
  }

}
