/**
 * The dashboard's billing cycles (`expenses/views.py`): a cycle starts on the
 * user's anchor day of some month, clamped to that month's length, and runs
 * until the same anchor in the next month. This module holds the month shift,
 * the current cycle around `today`, the twelve trailing cycles and the
 * per-cycle income and expense totals.
 */
module Cycles {
  import opened Dates
  import opened Sorting
  import opened Models

  function Min(a: int, b: int): int {
    if a <= b then a else b
  }

  /** A date that is the cycle-start day of its month for anchor `cycleDay`. */
  predicate Anchored(x: Date, cycleDay: int) {
    ValidDate(x) && x.day == Min(cycleDay, DaysInMonth(x.year, x.month))
  }

  /**
   * `_cycle_month_shift`: the anchor day of the month `months` after the
   * month of `d` (before it when negative), clamped to that month's length.
   */
  function CycleMonthShift(d: Date, months: int, cycleDay: int): (r: Date)
    requires 1 <= d.month <= 12 && 1 <= cycleDay
    ensures Anchored(r, cycleDay)
    ensures MonthIndex(r) == MonthIndex(d) + months
  {
    var year := d.year + (d.month - 1 + months) / 12;
    var month := (d.month - 1 + months) % 12 + 1;
    Date(year, month, Min(cycleDay, DaysInMonth(year, month)))
  }

  lemma MonthIndexInjective(a: Date, b: Date)
    requires 1 <= a.month <= 12 && 1 <= b.month <= 12 && MonthIndex(a) == MonthIndex(b)
    ensures a.year == b.year && a.month == b.month
  {
  }

  /** There is one anchored date per month. */
  lemma AnchoredUnique(a: Date, b: Date, cycleDay: int)
    requires Anchored(a, cycleDay) && Anchored(b, cycleDay) && MonthIndex(a) == MonthIndex(b)
    ensures a == b
  {
    MonthIndexInjective(a, b);
  }

  /** Dates in an earlier month come earlier. */
  lemma MonthOrder(a: Date, b: Date)
    requires ValidDate(a) && ValidDate(b) && MonthIndex(a) < MonthIndex(b)
    ensures Before(a, b)
  {
    assert a.year * 12 < b.year * 12 + 12;
    assert a.year <= b.year;
  }

  lemma MonthOrderConverse(a: Date, b: Date)
    requires ValidDate(a) && ValidDate(b) && NotAfter(a, b)
    ensures MonthIndex(a) <= MonthIndex(b)
  {
    if a.year < b.year {
      assert a.year * 12 + 12 <= b.year * 12;
    }
  }

  /** Shifting twice is shifting by the sum: the result depends only on the target month. */
  lemma ShiftCompose(d: Date, n: int, k: int, cycleDay: int)
    requires 1 <= d.month <= 12 && 1 <= cycleDay
    ensures CycleMonthShift(CycleMonthShift(d, n, cycleDay), k, cycleDay) ==
      CycleMonthShift(d, n + k, cycleDay)
  {
    AnchoredUnique(CycleMonthShift(CycleMonthShift(d, n, cycleDay), k, cycleDay),
      CycleMonthShift(d, n + k, cycleDay), cycleDay);
  }

  /** An anchored date is its own shift by zero months. */
  lemma ShiftZeroOfAnchored(x: Date, cycleDay: int)
    requires Anchored(x, cycleDay) && 1 <= cycleDay
    ensures CycleMonthShift(x, 0, cycleDay) == x
  {
    AnchoredUnique(CycleMonthShift(x, 0, cycleDay), x, cycleDay);
  }

  /** Day 31 in April clamps to the 30th; February follows the leap-year rule; years carry. */
  lemma ShiftExamples()
    ensures CycleMonthShift(Date(2024, 3, 15), 1, 31) == Date(2024, 4, 30)
    ensures CycleMonthShift(Date(2024, 1, 31), 1, 31) == Date(2024, 2, 29)
    ensures CycleMonthShift(Date(2023, 1, 31), 1, 31) == Date(2023, 2, 28)
    ensures CycleMonthShift(Date(2024, 1, 10), -1, 5) == Date(2023, 12, 5)
    ensures CycleMonthShift(Date(2024, 11, 3), 14, 3) == Date(2026, 1, 3)
  {
  }

  // ---------------------------------------------------------------- current cycle

  /**
   * The start of the cycle `today` falls in: this month's anchor unless that
   * is still ahead, in which case last month's.
   */
  function CurrentCycleStart(today: Date, cycleDay: int): (start: Date)
    requires ValidDate(today) && 1 <= cycleDay
    ensures Anchored(start, cycleDay)
    ensures MonthIndex(today) - 1 <= MonthIndex(start) <= MonthIndex(today)
  {
    var candidate := CycleMonthShift(today, 0, cycleDay);
    if Before(today, candidate) then CycleMonthShift(today, -1, cycleDay) else candidate
  }

  /** The start of the next cycle. */
  function NextCycleStart(start: Date, cycleDay: int): (next: Date)
    requires 1 <= start.month <= 12 && 1 <= cycleDay
    ensures Anchored(next, cycleDay) && MonthIndex(next) == MonthIndex(start) + 1
  {
    CycleMonthShift(start, 1, cycleDay)
  }

  /** The last day shown for the cycle: the day before the next cycle starts. */
  function CycleEnd(start: Date, cycleDay: int): (end: Date)
    requires 1 <= start.month <= 12 && 1 <= cycleDay
    ensures ValidDate(end) && Before(end, NextCycleStart(start, cycleDay))
    ensures NextDay(end) == NextCycleStart(start, cycleDay)
  {
    var next := NextCycleStart(start, cycleDay);
    PrevDayIsPredecessor(next);
    PrevDay(next)
  }

  /** `today` lies in [start, next) and on or before the displayed end. */
  lemma CurrentCycleContainsToday(today: Date, cycleDay: int)
    requires ValidDate(today) && 1 <= cycleDay
    ensures var start := CurrentCycleStart(today, cycleDay);
      var next := NextCycleStart(start, cycleDay);
      NotAfter(start, today) && Before(today, next) &&
      NotAfter(today, CycleEnd(start, cycleDay)) &&
      Before(CycleEnd(start, cycleDay), next) && NextDay(CycleEnd(start, cycleDay)) == next
  {
    var candidate := CycleMonthShift(today, 0, cycleDay);
    var start := CurrentCycleStart(today, cycleDay);
    var next := NextCycleStart(start, cycleDay);
    if Before(today, candidate) {
      ShiftCompose(today, -1, 1, cycleDay);
      MonthOrder(start, today);
    } else {
      OrderTrichotomy(today, candidate);
      ShiftCompose(today, 0, 1, cycleDay);
      MonthOrder(today, next);
    }
    PrevDayIsPredecessor(next);
    assert NotAfter(today, CycleEnd(start, cycleDay));
  }

  /** No anchored date after the current start is on or before `today`. */
  lemma CurrentCycleIsLatestAnchor(today: Date, cycleDay: int, x: Date)
    requires ValidDate(today) && 1 <= cycleDay
    requires Anchored(x, cycleDay) && NotAfter(x, today)
    ensures NotAfter(x, CurrentCycleStart(today, cycleDay))
  {
    var candidate := CycleMonthShift(today, 0, cycleDay);
    var start := CurrentCycleStart(today, cycleDay);
    MonthOrderConverse(x, today);
    if MonthIndex(x) == MonthIndex(start) {
      AnchoredUnique(x, start, cycleDay);
    } else if MonthIndex(x) < MonthIndex(start) {
      MonthOrder(x, start);
    } else {
      // x is in today's month and start in the month before, so x is the candidate
      AnchoredUnique(x, candidate, cycleDay);
      OrderTrichotomy(x, today);
    }
  }

  // ---------------------------------------------------------------- windows and totals

  predicate InWindow(d: Date, start: Date, next: Date) {
    NotAfter(start, d) && Before(d, next)
  }

  /** The transactions dated in [start, next), in their original order. */
  function Window(txns: seq<Transaction>, start: Date, next: Date): (w: seq<Transaction>)
    ensures |w| <= |txns|
    ensures forall i :: 0 <= i < |w| ==> InWindow(w[i].occurredOn, start, next)
  {
    if txns == [] then []
    else (if InWindow(txns[0].occurredOn, start, next) then [txns[0]] else []) + Window(txns[1..], start, next)
  }

  /** The window keeps exactly the transactions dated in [start, next). */
  lemma {:induction false} WindowMembers(txns: seq<Transaction>, start: Date, next: Date)
    ensures forall i :: 0 <= i < |Window(txns, start, next)| ==> Window(txns, start, next)[i] in txns
    ensures forall i :: 0 <= i < |txns| && InWindow(txns[i].occurredOn, start, next) ==>
      txns[i] in Window(txns, start, next)
  {
    if txns != [] {
      var w := Window(txns, start, next);
      var head := if InWindow(txns[0].occurredOn, start, next) then [txns[0]] else [];
      var rest := Window(txns[1..], start, next);
      WindowMembers(txns[1..], start, next);
      assert w == head + rest;
      forall i | 0 <= i < |w| ensures w[i] in txns {
        if i >= |head| {
          assert w[i] == rest[i - |head|];
          var k :| 0 <= k < |txns[1..]| && txns[1..][k] == rest[i - |head|];
          assert txns[k + 1] == w[i];
        }
      }
      forall i | 0 <= i < |txns| && InWindow(txns[i].occurredOn, start, next) ensures txns[i] in w {
        if i == 0 {
          assert w[0] == txns[0];
        } else {
          assert txns[i] == txns[1..][i - 1];
          assert txns[i] in rest;
        }
      }
    }
  }

  /** `Sum('amount_in_cents')` over the transactions of type `ty`, or 0 when there are none. */
  function TypeTotal(txns: seq<Transaction>, ty: TxType): (total: int)
    ensures (forall i :: 0 <= i < |txns| ==> txns[i].amountInCents >= 0) ==> total >= 0
    ensures (forall i :: 0 <= i < |txns| ==> txns[i].txType != ty) ==> total == 0
  {
    if txns == [] then 0
    else (if txns[0].txType == ty then txns[0].amountInCents else 0) + TypeTotal(txns[1..], ty)
  }

  lemma {:induction false} TypeTotalAppend(a: seq<Transaction>, b: seq<Transaction>, ty: TxType)
    ensures TypeTotal(a + b, ty) == TypeTotal(a, ty) + TypeTotal(b, ty)
  {
    if a == [] {
      assert a + b == b;
    } else {
      assert (a + b)[0] == a[0];
      assert (a + b)[1..] == a[1..] + b;
      TypeTotalAppend(a[1..], b, ty);
    }
  }

  function WindowTotal(txns: seq<Transaction>, ty: TxType, start: Date, next: Date): int {
    TypeTotal(Window(txns, start, next), ty)
  }

  /** The contribution of one transaction to a window's total. */
  function Share(t: Transaction, ty: TxType, start: Date, next: Date): int {
    if InWindow(t.occurredOn, start, next) && t.txType == ty then t.amountInCents else 0
  }

  lemma WindowTotalCons(txns: seq<Transaction>, ty: TxType, start: Date, next: Date)
    requires txns != []
    ensures WindowTotal(txns, ty, start, next) ==
      Share(txns[0], ty, start, next) + WindowTotal(txns[1..], ty, start, next)
  {
    var t := txns[0];
    var head := if InWindow(t.occurredOn, start, next) then [t] else [];
    assert Window(txns, start, next) == head + Window(txns[1..], start, next);
    TypeTotalAppend(head, Window(txns[1..], start, next), ty);
  }

  lemma ShareSplit(t: Transaction, ty: TxType, a: Date, b: Date, c: Date)
    requires NotAfter(a, b) && NotAfter(b, c)
    ensures Share(t, ty, a, c) == Share(t, ty, a, b) + Share(t, ty, b, c)
  {
    var d := t.occurredOn;
    OrderTrichotomy(d, b);
  }

  /** Two adjacent windows together hold exactly the amounts of the window spanning both. */
  lemma {:induction false} WindowSplit(txns: seq<Transaction>, ty: TxType, a: Date, b: Date, c: Date)
    requires NotAfter(a, b) && NotAfter(b, c)
    ensures WindowTotal(txns, ty, a, c) == WindowTotal(txns, ty, a, b) + WindowTotal(txns, ty, b, c)
  {
    if txns != [] {
      WindowSplit(txns[1..], ty, a, b, c);
      WindowTotalCons(txns, ty, a, b);
      WindowTotalCons(txns, ty, b, c);
      WindowTotalCons(txns, ty, a, c);
      ShareSplit(txns[0], ty, a, b, c);
    }
  }

  // ---------------------------------------------------------------- trailing cycles

  /** The starts of the last twelve cycles, oldest first (offsets 11 down to 0). */
  function TrailingStarts(current: Date, cycleDay: int): (starts: seq<Date>)
    requires 1 <= current.month <= 12 && 1 <= cycleDay
    ensures |starts| == 12
    ensures forall i :: 0 <= i < 12 ==>
      Anchored(starts[i], cycleDay) && MonthIndex(starts[i]) == MonthIndex(current) - 11 + i
  {
    seq(12, i => CycleMonthShift(current, -(11 - i), cycleDay))
  }

  /** The series ends at the current cycle and each start is the previous one shifted by a month. */
  lemma TrailingStartsChain(current: Date, cycleDay: int)
    requires Anchored(current, cycleDay) && 1 <= cycleDay
    ensures var starts := TrailingStarts(current, cycleDay);
      starts[11] == current &&
      forall i :: 0 <= i < 11 ==>
        NextCycleStart(starts[i], cycleDay) == starts[i + 1] && Before(starts[i], starts[i + 1])
  {
    var starts := TrailingStarts(current, cycleDay);
    AnchoredUnique(starts[11], current, cycleDay);
    forall i | 0 <= i < 11
      ensures NextCycleStart(starts[i], cycleDay) == starts[i + 1] && Before(starts[i], starts[i + 1])
    {
      AnchoredUnique(NextCycleStart(starts[i], cycleDay), starts[i + 1], cycleDay);
      MonthOrder(starts[i], starts[i + 1]);
    }
  }

  /** Per-cycle totals of type `ty` for the windows [starts[i], next start), built oldest first. */
  function SeriesTotals(txns: seq<Transaction>, ty: TxType, starts: seq<Date>, cycleDay: int): (totals: seq<int>)
    requires forall i :: 0 <= i < |starts| ==> 1 <= starts[i].month <= 12
    requires 1 <= cycleDay
    ensures |totals| == |starts|
    decreases |starts|
  {
    if starts == [] then []
    else
      var k := |starts| - 1;
      SeriesTotals(txns, ty, starts[..k], cycleDay) +
        [WindowTotal(txns, ty, starts[k], NextCycleStart(starts[k], cycleDay))]
  }

  /** Entry i of the series is the total of the i-th cycle's window. */
  lemma {:induction false} SeriesTotalsAt(txns: seq<Transaction>, ty: TxType, starts: seq<Date>, cycleDay: int, i: nat)
    requires forall j :: 0 <= j < |starts| ==> 1 <= starts[j].month <= 12
    requires 1 <= cycleDay && i < |starts|
    ensures SeriesTotals(txns, ty, starts, cycleDay)[i] ==
      WindowTotal(txns, ty, starts[i], NextCycleStart(starts[i], cycleDay))
  {
    var k := |starts| - 1;
    var init := starts[..k];
    if i < k {
      assert SeriesTotals(txns, ty, starts, cycleDay)[i] == SeriesTotals(txns, ty, init, cycleDay)[i];
      SeriesTotalsAt(txns, ty, init, cycleDay, i);
      assert init[i] == starts[i];
    }
  }

  lemma SeriesTotalsSnoc(txns: seq<Transaction>, ty: TxType, starts: seq<Date>, k: nat, cycleDay: int)
    requires forall i :: 0 <= i < |starts| ==> 1 <= starts[i].month <= 12
    requires 1 <= cycleDay && k < |starts|
    ensures SeriesTotals(txns, ty, starts[..k + 1], cycleDay) ==
      SeriesTotals(txns, ty, starts[..k], cycleDay) +
      [WindowTotal(txns, ty, starts[k], NextCycleStart(starts[k], cycleDay))]
  {
    assert starts[..k + 1][..k] == starts[..k];
  }

  /**
   * The loop that fills `income_data` and `expense_data`, one entry per
   * cycle start.
   */
  method TrailingSeries(txns: seq<Transaction>, starts: seq<Date>, cycleDay: int)
    returns (incomeData: seq<int>, expenseData: seq<int>)
    requires forall i :: 0 <= i < |starts| ==> 1 <= starts[i].month <= 12
    requires 1 <= cycleDay
    ensures incomeData == SeriesTotals(txns, Income, starts, cycleDay)
    ensures expenseData == SeriesTotals(txns, Outgo, starts, cycleDay)
  {
    incomeData := [];
    expenseData := [];
    var k := 0;
    while k < |starts|
      invariant 0 <= k <= |starts|
      invariant incomeData == SeriesTotals(txns, Income, starts[..k], cycleDay)
      invariant expenseData == SeriesTotals(txns, Outgo, starts[..k], cycleDay)
    {
      var start := starts[k];
      var end := CycleMonthShift(start, 1, cycleDay);
      var cycleWindow := Window(txns, start, end);
      incomeData := incomeData + [TypeTotal(cycleWindow, Income)];
      expenseData := expenseData + [TypeTotal(cycleWindow, Outgo)];
      SeriesTotalsSnoc(txns, Income, starts, k, cycleDay);
      SeriesTotalsSnoc(txns, Outgo, starts, k, cycleDay);
      k := k + 1;
    }
    assert starts[..k] == starts;
  }

  function Sum(xs: seq<int>): int {
    if xs == [] then 0 else Sum(xs[..|xs| - 1]) + xs[|xs| - 1]
  }

  /** Anchored starts of consecutive months. */
  predicate Consecutive(starts: seq<Date>, cycleDay: int) {
    forall i :: 0 <= i < |starts| ==>
      1 <= starts[i].month <= 12 && Anchored(starts[i], cycleDay) &&
      MonthIndex(starts[i]) == MonthIndex(starts[0]) + i
  }

  lemma SeriesTotalsPrefix(txns: seq<Transaction>, ty: TxType, starts: seq<Date>, cycleDay: int)
    requires 1 <= cycleDay && |starts| >= 1 && Consecutive(starts, cycleDay)
    ensures Consecutive(starts[..|starts| - 1], cycleDay)
    ensures var totals := SeriesTotals(txns, ty, starts, cycleDay);
      totals[..|starts| - 1] == SeriesTotals(txns, ty, starts[..|starts| - 1], cycleDay)
  {
  }

  /**
   * Consecutive cycles tile time: the totals of a run of consecutive cycles
   * add up to the total over the span from the first start to the end of the
   * last cycle, so no transaction is counted twice or dropped.
   */
  lemma {:induction false} SeriesCoversSpan(txns: seq<Transaction>, ty: TxType, starts: seq<Date>, cycleDay: int)
    requires 1 <= cycleDay && |starts| >= 1 && Consecutive(starts, cycleDay)
    ensures Sum(SeriesTotals(txns, ty, starts, cycleDay)) ==
      WindowTotal(txns, ty, starts[0], NextCycleStart(starts[|starts| - 1], cycleDay))
  {
    var n := |starts|;
    if n == 1 {
      assert starts == [starts[0]];
      SingleCycle(txns, ty, starts[0], cycleDay);
    } else {
      var init := starts[..n - 1];
      SeriesTotalsPrefix(txns, ty, starts, cycleDay);
      SeriesCoversSpan(txns, ty, init, cycleDay);
      assert init[0] == starts[0] && init[n - 2] == starts[n - 2];
      CoversStep(txns, ty, starts, cycleDay);
    }
  }

  /** One more cycle at the end of a run extends the covered span by that cycle. */
  lemma CoversStep(txns: seq<Transaction>, ty: TxType, starts: seq<Date>, cycleDay: int)
    requires 1 <= cycleDay && |starts| >= 2 && Consecutive(starts, cycleDay)
    requires Sum(SeriesTotals(txns, ty, starts[..|starts| - 1], cycleDay)) ==
      WindowTotal(txns, ty, starts[0], NextCycleStart(starts[|starts| - 2], cycleDay))
    ensures Sum(SeriesTotals(txns, ty, starts, cycleDay)) ==
      WindowTotal(txns, ty, starts[0], NextCycleStart(starts[|starts| - 1], cycleDay))
  {
    var n := |starts|;
    var last := starts[n - 1];
    var totals := SeriesTotals(txns, ty, starts, cycleDay);
    SeriesTotalsPrefix(txns, ty, starts, cycleDay);
    assert totals[n - 1] == WindowTotal(txns, ty, last, NextCycleStart(last, cycleDay));
    AnchoredUnique(NextCycleStart(starts[n - 2], cycleDay), last, cycleDay);
    JoinLastCycle(txns, ty, starts[0], last, NextCycleStart(last, cycleDay), cycleDay);
  }

  lemma SingleCycle(txns: seq<Transaction>, ty: TxType, start: Date, cycleDay: int)
    requires 1 <= start.month <= 12 && 1 <= cycleDay
    ensures Sum(SeriesTotals(txns, ty, [start], cycleDay)) ==
      WindowTotal(txns, ty, start, NextCycleStart(start, cycleDay))
  {
    var totals := SeriesTotals(txns, ty, [start], cycleDay);
    assert [start][..0] == [];
    assert totals[..0] == [];
  }

  /** Extending a span that ends at an anchored start by that start's cycle. */
  lemma JoinLastCycle(txns: seq<Transaction>, ty: TxType, first: Date, last: Date, next: Date, cycleDay: int)
    requires 1 <= cycleDay && Anchored(first, cycleDay) && Anchored(last, cycleDay)
    requires 1 <= first.month <= 12 && 1 <= last.month <= 12
    requires MonthIndex(first) < MonthIndex(last) && next == NextCycleStart(last, cycleDay)
    ensures WindowTotal(txns, ty, first, next) ==
      WindowTotal(txns, ty, first, last) + WindowTotal(txns, ty, last, next)
  {
    MonthOrder(first, last);
    MonthOrder(last, next);
    WindowSplit(txns, ty, first, last, next);
  }

  lemma TrailingStartsConsecutive(current: Date, cycleDay: int)
    requires 1 <= current.month <= 12 && 1 <= cycleDay
    ensures Consecutive(TrailingStarts(current, cycleDay), cycleDay)
  {
  }

  /** The twelve trailing totals add up to the total from the oldest start to the end of the current cycle. */
  lemma TrailingTotalsCoverYear(txns: seq<Transaction>, ty: TxType, current: Date, cycleDay: int)
    requires Anchored(current, cycleDay) && 1 <= cycleDay
    ensures var starts := TrailingStarts(current, cycleDay);
      Sum(SeriesTotals(txns, ty, starts, cycleDay)) ==
      WindowTotal(txns, ty, starts[0], NextCycleStart(current, cycleDay))
  {
    var starts := TrailingStarts(current, cycleDay);
    TrailingStartsConsecutive(current, cycleDay);
    SeriesCoversSpan(txns, ty, starts, cycleDay);
    AnchoredUnique(starts[11], current, cycleDay);
  }
}
