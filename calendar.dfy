/**
 * `transaction_calendar_data` in `expenses/views.py`: the month a request
 * asks for (with its fallbacks to the current month), the month's
 * transactions grouped by day in ascending date order, and the day the
 * calendar opens on.
 */
module MonthCalendar {
  import opened Wrappers
  import opened Text
  import opened Sorting
  import opened Dates
  import opened Models
  import Currencies
  import opened Cycles
  import opened Queries

  // ---------------------------------------------------------------- request

  /**
   * CPython's default `sys.int_info.default_max_str_digits`: from 3.11 on,
   * `int()` of decimal text with more digits raises `ValueError`, and so does
   * `str()` of an integer that long.
   */
  const INT_MAX_STR_DIGITS: nat := 4300

  /**
   * Python's `int(s)` on text: surrounding whitespace, an optional sign and
   * one to `INT_MAX_STR_DIGITS` decimal digits; `None` where Python raises
   * `ValueError`. Accepted text, stripped, is digits after its first
   * character, and only a leading '-' makes the number negative.
   */
  function ParseInt(s: string): (r: Option<int>)
    ensures r.Some? ==> var t := Strip(s);
      0 < |t| <= INT_MAX_STR_DIGITS + 1 &&
      (forall i :: 0 < i < |t| ==> IsDigit(t[i])) && (r.value < 0 ==> t[0] == '-')
  {
    var t := Strip(s);
    var split := Currencies.SplitSign(t);
    if split.1 != [] && AllDigits(split.1) && |split.1| <= INT_MAX_STR_DIGITS then
      var off := |t| - |split.1|;
      assert off <= 1;
      assert forall i :: off <= i < |t| ==> t[i] == split.1[i - off];
      Some(if split.0 then 0 - DigitsValue(split.1) else DigitsValue(split.1))
    else None
  }

  /** `str(n)`. */
  function IntText(n: int): string {
    if n < 0 then "-" + NatToDigits(-n) else NatToDigits(n)
  }

  /**
   * Every integer's decimal text within the digit limit reads back as that
   * integer; longer text is refused.
   */
  lemma ParseIntText(n: int)
    ensures ParseInt(IntText(n)) == if |NatToDigits(Abs(n))| <= INT_MAX_STR_DIGITS then Some(n) else None
  {
    var t := IntText(n);
    var ds := NatToDigits(Abs(n));
    assert Strip(t) == t by {
      assert t[|t| - 1] == ds[|ds| - 1];
      assert IsDigit(ds[|ds| - 1]) && !IsSpace(ds[|ds| - 1]);
      StripOfTrimmed(t);
    }
    if n < 0 {
      assert Currencies.SplitSign(t) == (true, ds) by {
        assert t[1..] == ds;
      }
    } else {
      assert Currencies.SplitSign(t) == (false, ds);
    }
  }

  function Abs(n: int): nat { if n < 0 then -n else n }

  lemma StripPadded()
    ensures Strip(" 7 ") == "7"
  {
    assert StripLeft(" 7 ") == "7 " by {
      assert " 7 "[1..] == "7 ";
    }
    assert StripRight("7 ") == "7" by {
      assert "7 "[..1] == "7";
    }
  }

  /** Surrounding whitespace is ignored. */
  lemma ParseIntPadded()
    ensures ParseInt(" 7 ") == Some(7)
  {
    StripPadded();
    assert Strip("7") == "7" by {
      StripOfTrimmed("7");
    }
    assert ParseInt(" 7 ") == ParseInt("7");
    assert IntText(7) == "7";
    ParseIntText(7);
  }

  /** A run of digits one longer than the limit is refused, even when its value is 0. */
  lemma ParseIntTooLong()
    ensures ParseInt(Zeros(INT_MAX_STR_DIGITS + 1)) == None
  {
    var z := Zeros(INT_MAX_STR_DIGITS + 1);
    StripOfTrimmed(z);
    assert Currencies.SplitSign(z) == (false, z);
  }

  /** Text that is not a number is refused. */
  lemma ParseIntRejects()
    ensures ParseInt("abc") == None
  {
    assert Strip("abc") == "abc" by {
      StripOfTrimmed("abc");
    }
    assert !IsDigit("abc"[1]);
  }

  /** `int(param) if param else default`, falling back to `default` on `ValueError`. */
  function ParamInt(param: Option<string>, default: int): int {
    match param
    case None => default
    case Some(s) =>
      if s == "" then default
      else match ParseInt(s)
        case None => default
        case Some(n) => n
  }

  /**
   * The month shown: the requested month unless it is outside 1..12, the
   * requested year unless it is before 1900 or more than five years ahead,
   * and the current month and year together when the year has no date.
   */
  function ResolveYearMonth(yearParam: Option<string>, monthParam: Option<string>, today: Date): (r: (int, int))
    requires InPythonRange(today)
    ensures MIN_YEAR <= r.0 <= MAX_YEAR && 1 <= r.1 <= 12
  {
    var year := ParamInt(yearParam, today.year);
    var month := ParamInt(monthParam, today.month);
    var month' := if month < 1 || month > 12 then today.month else month;
    var year' := if year < 1900 || year > today.year + 5 then today.year else year;
    if year' > MAX_YEAR then (today.year, today.month) else (year', month')
  }

  /** Each fallback of the request, and the request honoured when nothing falls back. */
  lemma ResolveYearMonthCases(yearParam: Option<string>, monthParam: Option<string>, today: Date)
    requires InPythonRange(today)
    ensures var y := ParamInt(yearParam, today.year);
      var m := ParamInt(monthParam, today.month);
      var r := ResolveYearMonth(yearParam, monthParam, today);
      (r.0 == y || r.0 == today.year) && (r.1 == m || r.1 == today.month) &&
      (1900 <= y <= today.year + 5 && y <= MAX_YEAR && 1 <= m <= 12 ==> r == (y, m)) &&
      (1900 <= y <= today.year + 5 && y <= MAX_YEAR && !(1 <= m <= 12) ==> r == (y, today.month)) &&
      (y < 1900 || y > today.year + 5 ==> r.0 == today.year) &&
      (MAX_YEAR < y <= today.year + 5 ==> r == (today.year, today.month))
  {
  }

  /** Absent, empty and unreadable parameters all mean the current month. */
  lemma ResolveBlankRequest(today: Date)
    requires InPythonRange(today)
    ensures ResolveYearMonth(None, None, today) == (today.year, today.month)
    ensures ResolveYearMonth(Some(""), Some(""), today) == (today.year, today.month)
    ensures ResolveYearMonth(Some("abc"), Some("abc"), today) == (today.year, today.month)
  {
    ResolveDefaults(None, None, today);
    ResolveDefaults(Some(""), Some(""), today);
    assert ParamInt(Some("abc"), today.year) == today.year && ParamInt(Some("abc"), today.month) == today.month by {
      ParseIntRejects();
    }
    ResolveDefaults(Some("abc"), Some("abc"), today);
  }

  /** Parameters that read as the current year and month resolve to them. */
  lemma ResolveDefaults(yearParam: Option<string>, monthParam: Option<string>, today: Date)
    requires InPythonRange(today)
    requires ParamInt(yearParam, today.year) == today.year && ParamInt(monthParam, today.month) == today.month
    ensures ResolveYearMonth(yearParam, monthParam, today) == (today.year, today.month)
  {
  }

  lemma YearText()
    ensures IntText(10002) == "10002"
  {
    assert NatToDigits(10) == "10";
    assert NatToDigits(100) == NatToDigits(10) + "0";
    assert NatToDigits(1000) == NatToDigits(100) + "0";
    assert NatToDigits(10002) == NatToDigits(1000) + "2";
  }

  /** Late in year 9998 a request for year 10002 falls back to the current month entirely. */
  lemma ResolvePastMaxYear()
    ensures ResolveYearMonth(Some("10002"), Some("3"), Date(9998, 6, 15)) == (9998, 6)
  {
    assert ParamInt(Some("10002"), 9998) == 10002 by {
      YearText();
      ParseIntText(10002);
    }
    assert ParamInt(Some("3"), 6) == 3 by {
      assert IntText(3) == "3";
      ParseIntText(3);
    }
  }

  // ---------------------------------------------------------------- month transactions

  /** `order_by('occurred_on', 'name', 'pk')`, names compared by code point. */
  predicate CalendarOrder(a: Transaction, b: Transaction) {
    Before(a.occurredOn, b.occurredOn) ||
    (a.occurredOn == b.occurredOn &&
     ((a.name != b.name && StrLe(a.name, b.name)) || (a.name == b.name && a.id <= b.id)))
  }

  lemma CalendarOrderIsTotalPreorder()
    ensures IsTotalPreorder(CalendarOrder)
  {
    forall a: Transaction, b: Transaction ensures CalendarOrder(a, b) || CalendarOrder(b, a) {
      OrderTrichotomy(a.occurredOn, b.occurredOn);
      StrLeTotal(a.name, b.name);
    }
    forall a: Transaction, b: Transaction, c: Transaction | CalendarOrder(a, b) && CalendarOrder(b, c)
      ensures CalendarOrder(a, c)
    {
      if a.occurredOn == b.occurredOn == c.occurredOn && a.name != b.name && b.name != c.name {
        StrLeTransitive(a.name, b.name, c.name);
        if a.name == c.name {
          StrLeAntisymmetric(a.name, b.name);
        }
      }
    }
  }

  /**
   * `date(year, month, monthrange(year, month)[1])`: the last day of the
   * month, no date of which comes after it.
   */
  function MonthEnd(year: int, month: int): (r: Date)
    requires 1 <= month <= 12
    ensures ValidDate(r) && r.year == year && r.month == month
    ensures r.day == DaysInMonth(year, month)
    ensures forall d :: ValidDate(d) && d.year == year && d.month == month ==> NotAfter(d, r)
  {
    LastOfMonth(Date(year, month, 1))
  }

  /** A date falls in the window of a month exactly when it is a date of that month. */
  lemma MonthWindow(year: int, month: int, d: Date)
    requires 1 <= month <= 12 && ValidDate(d)
    ensures InWindow(d, Date(year, month, 1), NextDay(MonthEnd(year, month))) <==>
      d.year == year && d.month == month
  {
  }

  /** The user's transactions dated in the month, in calendar order. */
  function MonthTransactions(userTxns: seq<Transaction>, year: int, month: int): (r: seq<Transaction>)
    requires 1 <= month <= 12
    ensures |r| <= |userTxns| && SortedBy(r, CalendarOrder)
  {
    var w := Window(userTxns, Date(year, month, 1), NextDay(MonthEnd(year, month)));
    CalendarOrderIsTotalPreorder();
    SortSorted(w, CalendarOrder);
    Sort(w, CalendarOrder)
  }

  /** The month's transactions are the user's own, of that month, every one of them, in calendar order. */
  lemma MonthTransactionsShape(userTxns: seq<Transaction>, year: int, month: int)
    requires 1 <= month <= 12
    requires forall i :: 0 <= i < |userTxns| ==> ValidDate(userTxns[i].occurredOn)
    ensures var r := MonthTransactions(userTxns, year, month);
      multiset(r) == multiset(Window(userTxns, Date(year, month, 1), NextDay(MonthEnd(year, month)))) &&
      SortedBy(r, CalendarOrder) &&
      (forall i :: 0 <= i < |r| ==> r[i] in userTxns && r[i].occurredOn.year == year && r[i].occurredOn.month == month) &&
      (forall i :: 0 <= i < |userTxns| && userTxns[i].occurredOn.year == year && userTxns[i].occurredOn.month == month ==>
        userTxns[i] in r)
  {
    var start := Date(year, month, 1);
    var next := NextDay(MonthEnd(year, month));
    var w := Window(userTxns, start, next);
    var r := MonthTransactions(userTxns, year, month);
    CalendarOrderIsTotalPreorder();
    SortSorted(w, CalendarOrder);
    WindowMembers(userTxns, start, next);
    forall i | 0 <= i < |r|
      ensures r[i] in userTxns && r[i].occurredOn.year == year && r[i].occurredOn.month == month
    {
      assert r[i] in multiset(w);
      var k :| 0 <= k < |userTxns| && userTxns[k] == r[i];
      MonthWindow(year, month, r[i].occurredOn);
    }
    forall i | 0 <= i < |userTxns| && userTxns[i].occurredOn.year == year && userTxns[i].occurredOn.month == month
      ensures userTxns[i] in r
    {
      MonthWindow(year, month, userTxns[i].occurredOn);
      assert userTxns[i] in multiset(w);
    }
  }

  // ---------------------------------------------------------------- days

  /** One transaction as the calendar lists it. */
  datatype Entry = Entry(
    id: nat,
    name: string,
    typeCode: string,
    typeLabel: string,
    category: string,
    note: string,
    amountDisplay: string,
    occurredOn: string)

  /** The transactions of one day, under the day's ISO date. */
  datatype Day = Day(date: string, entries: seq<Entry>)

  predicate AllValid(txns: seq<Transaction>) {
    forall i :: 0 <= i < |txns| ==> ValidTransaction(txns[i])
  }

  /** `txn.occurred_on.isoformat()`, the key a transaction is grouped under. */
  function DayKey(t: Transaction): string
    requires ValidTransaction(t)
  {
    FormatIso(t.occurredOn)
  }

  /** The signed amount: "-" before an expense, "+" before income, then the display text of the cents. */
  function SignedAmount(t: Transaction, code: string): (s: string)
    requires Currencies.Displayable(t.amountInCents)
    ensures |s| > 0 && s[0] == (if t.txType == Outgo then '-' else '+')
    ensures s[1..] == Currencies.CentsToDisplay(t.amountInCents, code)
  {
    (if t.txType == Outgo then "-" else "+") + Currencies.CentsToDisplay(t.amountInCents, code)
  }

  /**
   * One transaction as the calendar lists it: its type's code and label, its
   * category's name or "Uncategorized", and its amount signed by type.
   */
  function EntryOf(t: Transaction, categories: seq<Category>, code: string): (e: Entry)
    requires ValidTransaction(t)
    ensures e.id == t.id && e.name == t.name && e.note == t.note
    ensures e.occurredOn == DayKey(t)
    ensures e.typeCode == TypeCode(t.txType) && e.typeLabel == TypeLabel(t.txType)
    ensures e.category == (match CategoryNameOf(t, categories) case Some(n) => n case None => "Uncategorized")
    ensures |e.amountDisplay| > 0 && e.amountDisplay[0] == (if t.txType == Outgo then '-' else '+')
    ensures e.amountDisplay[1..] == Currencies.CentsToDisplay(t.amountInCents, code)
  {
    var category := match CategoryNameOf(t, categories)
      case None => "Uncategorized"
      case Some(n) => n;
    ColumnAmountDisplayable(t.amountInCents);
    Entry(t.id, t.name, TypeCode(t.txType), TypeLabel(t.txType), category, t.note,
      SignedAmount(t, code), DayKey(t))
  }

  /** Each transaction's day key with its entry, in the order of `txns`. */
  function Items(txns: seq<Transaction>, categories: seq<Category>, code: string): (items: seq<(string, Entry)>)
    requires AllValid(txns)
    ensures |items| == |txns|
    ensures forall i :: 0 <= i < |txns| ==> items[i] == (DayKey(txns[i]), EntryOf(txns[i], categories, code))
  {
    seq(|txns|, i requires 0 <= i < |txns| => (DayKey(txns[i]), EntryOf(txns[i], categories, code)))
  }

  /** The entries filed under `key`, in item order. */
  function EntriesFor(items: seq<(string, Entry)>, key: string): (r: seq<Entry>)
    ensures r == [] <==> key !in ItemKeys(items)
  {
    if items == [] then []
    else
      var last := items[|items| - 1];
      assert ItemKeys(items) == ItemKeys(items[..|items| - 1]) + [last.0];
      EntriesFor(items[..|items| - 1], key) + (if last.0 == key then [last.1] else [])
  }

  /** The day keys of the items, in item order. */
  function ItemKeys(items: seq<(string, Entry)>): (keys: seq<string>)
    ensures |keys| == |items| && forall i :: 0 <= i < |items| ==> keys[i] == items[i].0
  {
    seq(|items|, i requires 0 <= i < |items| => items[i].0)
  }

  /** The dates of the listed days, in list order. */
  function DayDates(days: seq<Day>): (dates: seq<string>)
    ensures |dates| == |days| && forall j :: 0 <= j < |days| ==> dates[j] == days[j].date
  {
    seq(|days|, j requires 0 <= j < |days| => days[j].date)
  }

  predicate ListsEntries(days: seq<Day>, items: seq<(string, Entry)>) {
    forall j :: 0 <= j < |days| ==> days[j].entries == EntriesFor(items, days[j].date)
  }

  predicate Ascending(keys: seq<string>) {
    forall j, k :: 0 <= j < k < |keys| ==> StrLe(keys[j], keys[k]) && keys[j] != keys[k]
  }

  /**
   * `days` lists every key of `items` exactly once, in strictly ascending
   * order, each with the entries filed under it in item order.
   */
  predicate GroupsByDay(days: seq<Day>, items: seq<(string, Entry)>) {
    ListsEntries(days, items) &&
    (forall x :: x in DayDates(days) ==> x in ItemKeys(items)) &&
    (forall x :: x in ItemKeys(items) ==> x in DayDates(days)) &&
    Ascending(DayDates(days))
  }

  predicate AllDated(entries: seq<Entry>, key: string) {
    forall j :: 0 <= j < |entries| ==> entries[j].occurredOn == key
  }

  /** Every entry filed under a day key is dated that day. */
  lemma {:induction false} EntriesForDated(items: seq<(string, Entry)>, key: string)
    requires forall i :: 0 <= i < |items| ==> items[i].1.occurredOn == items[i].0
    ensures AllDated(EntriesFor(items, key), key)
  {
    if items != [] {
      var init := items[..|items| - 1];
      var last := items[|items| - 1];
      EntriesForDated(init, key);
      var tail := if last.0 == key then [last.1] else [];
      assert EntriesFor(items, key) == EntriesFor(init, key) + tail;
      assert AllDated(tail, key);
    }
  }

  /**
   * The state of the day map after filing `done`: `keys` holds each day key
   * once, in order of first appearance, and the map files under each key the
   * entries of that day.
   */
  ghost predicate Filed(dayMap: map<string, seq<Entry>>, keys: seq<string>, done: seq<(string, Entry)>) {
    NoDuplicates(keys) &&
    (forall k :: k in dayMap <==> k in keys) &&
    (forall k :: k in keys <==> k in ItemKeys(done)) &&
    (forall k :: k in dayMap ==> dayMap[k] == EntriesFor(done, k))
  }

  lemma EntriesForSnoc(done: seq<(string, Entry)>, key: string, entry: Entry, k: string)
    ensures EntriesFor(done + [(key, entry)], k) == EntriesFor(done, k) + (if k == key then [entry] else [])
    ensures ItemKeys(done + [(key, entry)]) == ItemKeys(done) + [key]
  {
    assert (done + [(key, entry)])[..|done|] == done;
  }

  /** Appending to the list of a day already in the map keeps the map filed. */
  lemma FileOnKnownDay(dayMap: map<string, seq<Entry>>, keys: seq<string>, done: seq<(string, Entry)>,
                       key: string, entry: Entry)
    requires Filed(dayMap, keys, done) && key in dayMap
    ensures Filed(dayMap[key := dayMap[key] + [entry]], keys, done + [(key, entry)])
  {
    forall k {
      EntriesForSnoc(done, key, entry, k);
    }
  }

  /** Starting the list of a new day keeps the map filed. */
  lemma FileOnNewDay(dayMap: map<string, seq<Entry>>, keys: seq<string>, done: seq<(string, Entry)>,
                     key: string, entry: Entry)
    requires Filed(dayMap, keys, done) && key !in dayMap
    ensures Filed(dayMap[key := [entry]], keys + [key], done + [(key, entry)])
  {
    assert key !in keys;
    var keys' := keys + [key];
    assert NoDuplicates(keys') by {
      forall i, j | 0 <= i < j < |keys'| ensures keys'[i] != keys'[j] {
        if j == |keys| {
          assert keys'[i] == keys[i];
        }
      }
    }
    forall k {
      EntriesForSnoc(done, key, entry, k);
    }
    assert EntriesFor(done, key) == [];
  }

  /** Sorting the keys of a filed map lists the days in the order `GroupsByDay` asks for. */
  lemma SortedFiling(dayMap: map<string, seq<Entry>>, keys: seq<string>, items: seq<(string, Entry)>,
                     sorted: seq<string>, days: seq<Day>)
    requires Filed(dayMap, keys, items)
    requires sorted == Sort(keys, StrLe)
    requires |days| == |sorted| && forall j :: 0 <= j < |sorted| ==> sorted[j] in dayMap && days[j] == Day(sorted[j], dayMap[sorted[j]])
    ensures GroupsByDay(days, items)
  {
    StrLeIsTotalPreorder();
    SortSorted(keys, StrLe);
    PermutationNoDuplicates(keys, sorted);
    assert DayDates(days) == sorted;
    forall x ensures x in sorted <==> x in keys {
      assert x in sorted <==> x in multiset(sorted);
      assert x in keys <==> x in multiset(keys);
    }
  }

  /**
   * The `day_map.setdefault(day_key, []).append(...)` loop over the items of
   * the month's transactions, followed by `sorted(day_map.items())`.
   */
  method BuildDays(items: seq<(string, Entry)>) returns (days: seq<Day>)
    ensures GroupsByDay(days, items)
  {
    var dayMap: map<string, seq<Entry>> := map[];
    var keys: seq<string> := [];
    var i := 0;
    while i < |items|
      invariant 0 <= i <= |items|
      invariant Filed(dayMap, keys, items[..i])
    {
      var (key, entry) := items[i];
      assert items[..i + 1] == items[..i] + [(key, entry)];
      if key in dayMap {
        FileOnKnownDay(dayMap, keys, items[..i], key, entry);
        dayMap := dayMap[key := dayMap[key] + [entry]];
      } else {
        FileOnNewDay(dayMap, keys, items[..i], key, entry);
        dayMap := dayMap[key := [entry]];
        keys := keys + [key];
      }
      i := i + 1;
    }
    assert items[..i] == items;
    var sorted := Sort(keys, StrLe);
    forall j | 0 <= j < |sorted| ensures sorted[j] in dayMap {
      assert sorted[j] in multiset(keys);
    }
    days := seq(|sorted|, j requires 0 <= j < |sorted| => Day(sorted[j], dayMap[sorted[j]]));
    SortedFiling(dayMap, keys, items, sorted, days);
  }

  /** Two ascending lists of distinct strings with the same members are equal. */
  lemma {:induction false} AscendingUnique(a: seq<string>, b: seq<string>)
    requires Ascending(a) && Ascending(b)
    requires forall x :: x in a <==> x in b
    ensures a == b
  {
    assert a == [] <==> b == [] by {
      if a != [] {
        assert a[0] in b;
      }
      if b != [] {
        assert b[0] in a;
      }
    }
    if a != [] {
      assert a[0] in b && b[0] in a;
      var ia :| 0 <= ia < |a| && a[ia] == b[0];
      var ib :| 0 <= ib < |b| && b[ib] == a[0];
      StrLeTotal(a[0], a[0]);
      assert StrLe(a[0], b[0]) by {
        if ia > 0 {
          assert StrLe(a[0], a[ia]);
        }
      }
      assert StrLe(b[0], a[0]) by {
        if ib > 0 {
          assert StrLe(b[0], b[ib]);
        }
      }
      StrLeAntisymmetric(a[0], b[0]);
      assert a == [a[0]] + a[1..] && b == [b[0]] + b[1..];
      forall x ensures x in a[1..] <==> x in b[1..] {
        if x in a[1..] {
          var k :| 0 <= k < |a[1..]| && a[1..][k] == x;
          assert a[k + 1] == x && a[0] != a[k + 1];
          assert x in b;
        }
        if x in b[1..] {
          var k :| 0 <= k < |b[1..]| && b[1..][k] == x;
          assert b[k + 1] == x && b[0] != b[k + 1];
          assert x in a;
        }
      }
      AscendingUnique(a[1..], b[1..]);
    }
  }

  /** The grouping by day is determined by the items: there is only one. */
  lemma GroupsByDayUnique(d1: seq<Day>, d2: seq<Day>, items: seq<(string, Entry)>)
    requires GroupsByDay(d1, items) && GroupsByDay(d2, items)
    ensures d1 == d2
  {
    var k1 := DayDates(d1);
    var k2 := DayDates(d2);
    AscendingUnique(k1, k2);
    forall j | 0 <= j < |d1| ensures d1[j] == d2[j] {
      assert k1[j] == k2[j];
    }
  }

  // ---------------------------------------------------------------- response

  const MONTH_NAMES: seq<string> := ["January", "February", "March", "April", "May", "June",
    "July", "August", "September", "October", "November", "December"]

  /** `start_date.strftime('%B %Y')` with English month names: the month's name, a space, the year's digits. */
  function MonthLabel(year: nat, month: int): (shown: string)
    requires 1 <= month <= 12
    ensures var name := MONTH_NAMES[month - 1];
      |shown| > |name| + 1 && shown[..|name|] == name && shown[|name|] == ' ' &&
      AllDigits(shown[|name| + 1..]) && DigitsValue(shown[|name| + 1..]) == year
  {
    MONTH_NAMES[month - 1] + " " + NatToDigits(year)
  }

  /** `f"{year:04d}-{month:02d}"`. */
  function MonthPrefix(year: nat, month: nat): string {
    ZeroPadded(year, 4) + "-" + ZeroPadded(month, 2)
  }

  predicate StartsWith(s: string, prefix: string) {
    |prefix| <= |s| && s[..|prefix|] == prefix
  }

  /** The prefix test of the source holds exactly when the shown month is the current one. */
  lemma TodayInShownMonth(today: Date, year: int, month: int)
    requires InPythonRange(today) && MIN_YEAR <= year <= MAX_YEAR && 1 <= month <= 12
    ensures StartsWith(FormatIso(today), MonthPrefix(year, month)) <==>
      year == today.year && month == today.month
  {
    var s := FormatIso(today);
    var ys := ZeroPadded(year, 4);
    var ms := ZeroPadded(month, 2);
    var p := MonthPrefix(year, month);
    assert |ys| == 4 && |ms| == 2 &&
      (ys == ZeroPadded(today.year, 4) <==> year == today.year) &&
      (ms == ZeroPadded(today.month, 2) <==> month == today.month) by {
      assert Pow10(4) == 10000 && Pow10(2) == 100;
      PaddedField(year, today.year, 4);
      PaddedField(month, today.month, 2);
    }
    assert |s| == 10 && s[..4] == ZeroPadded(today.year, 4) && s[4] == '-' &&
      s[5..7] == ZeroPadded(today.month, 2) by {
      FormatIsoShape(today);
    }
    DashedPrefix(s, ys, ms);
  }

  /** A text with a dash at index 4 starts with `y-m` exactly when its fields are `y` and `m`. */
  lemma DashedPrefix(s: string, y: string, m: string)
    requires |s| >= 7 && s[4] == '-' && |y| == 4 && |m| == 2
    ensures StartsWith(s, y + "-" + m) <==> s[..4] == y && s[5..7] == m
  {
    var p := y + "-" + m;
    if StartsWith(s, p) {
      assert s[..4] == p[..4] && s[5..7] == p[5..7];
    }
    if s[..4] == y && s[5..7] == m {
      assert s[..7] == s[..4] + [s[4]] + s[5..7];
    }
  }

  /** The day the calendar opens on: today in the current month, else the first listed day, else the 1st. */
  function InitialDate(today: Date, year: int, month: int, days: seq<Day>): string
    requires InPythonRange(today) && MIN_YEAR <= year <= MAX_YEAR && 1 <= month <= 12
  {
    if StartsWith(FormatIso(today), MonthPrefix(year, month)) then FormatIso(today)
    else if days != [] then days[0].date
    else FormatIso(Date(year, month, 1))
  }

  /** The month's transactions are all well-formed and dated in that month. */
  lemma MonthTransactionsValid(userTxns: seq<Transaction>, year: int, month: int)
    requires 1 <= month <= 12 && AllValid(userTxns)
    ensures var r := MonthTransactions(userTxns, year, month);
      AllValid(r) && forall i :: 0 <= i < |r| ==> r[i].occurredOn.year == year && r[i].occurredOn.month == month
  {
    var r := MonthTransactions(userTxns, year, month);
    MonthTransactionsShape(userTxns, year, month);
    forall i | 0 <= i < |r| ensures ValidTransaction(r[i]) {
      var k :| 0 <= k < |userTxns| && userTxns[k] == r[i];
    }
  }

  /** The calendar opens on a day of the month it shows, and on today when it shows the current month. */
  lemma InitialDateInMonth(today: Date, year: int, month: int, days: seq<Day>,
                           txns: seq<Transaction>, categories: seq<Category>, code: string)
    requires InPythonRange(today) && MIN_YEAR <= year <= MAX_YEAR && 1 <= month <= 12
    requires AllValid(txns)
    requires forall i :: 0 <= i < |txns| ==> txns[i].occurredOn.year == year && txns[i].occurredOn.month == month
    requires GroupsByDay(days, Items(txns, categories, code))
    ensures var d := ParseIso(InitialDate(today, year, month, days));
      d.Some? && d.value.year == year && d.value.month == month &&
      (year == today.year && month == today.month ==> d.value == today)
  {
    TodayInShownMonth(today, year, month);
    if StartsWith(FormatIso(today), MonthPrefix(year, month)) {
      ParseFormatIso(today);
    } else if days != [] {
      var items := Items(txns, categories, code);
      var key := days[0].date;
      assert key in ItemKeys(items) by {
        assert DayDates(days)[0] == key;
      }
      var i :| 0 <= i < |items| && ItemKeys(items)[i] == key;
      assert ValidTransaction(txns[i]);
      assert key == DayKey(txns[i]) by {
        assert items[i].0 == DayKey(txns[i]);
      }
      ParseFormatIso(txns[i].occurredOn);
    } else {
      ParseFormatIso(Date(year, month, 1));
    }
  }

  datatype CalendarResponse = CalendarResponse(
    year: int,
    month: int,
    monthLabel: string,
    days: seq<Day>,
    currencySymbol: string,
    today: string,
    initialDate: string)

  /**
   * `transaction_calendar_data` for a user with the given transactions and
   * currency, on `today`. `None` stands for the `OverflowError` the view
   * raises for December 9999, whose following day Python cannot represent.
   */
  method CalendarData(yearParam: Option<string>, monthParam: Option<string>, today: Date,
                      userTxns: seq<Transaction>, categories: seq<Category>, code: string)
    returns (r: Option<CalendarResponse>)
    requires InPythonRange(today) && AllValid(userTxns)
    ensures var ym := ResolveYearMonth(yearParam, monthParam, today);
      r.None? <==> ym == (MAX_YEAR, 12)
    ensures r.Some? ==>
      var ym := ResolveYearMonth(yearParam, monthParam, today);
      var monthTxns := MonthTransactions(userTxns, ym.0, ym.1);
      AllValid(monthTxns) &&
      r.value.year == ym.0 && r.value.month == ym.1 &&
      r.value.monthLabel == MonthLabel(ym.0, ym.1) &&
      GroupsByDay(r.value.days, Items(monthTxns, categories, code)) &&
      r.value.currencySymbol == Currencies.CurrencySymbol(code) &&
      r.value.today == FormatIso(today) &&
      r.value.initialDate == InitialDate(today, ym.0, ym.1, r.value.days)
    ensures r.Some? ==>
      var d := ParseIso(r.value.initialDate);
      d.Some? && d.value.year == r.value.year && d.value.month == r.value.month &&
      (r.value.year == today.year && r.value.month == today.month ==> d.value == today)
  {
    var ym := ResolveYearMonth(yearParam, monthParam, today);
    var year, month := ym.0, ym.1;
    if year == MAX_YEAR && month == 12 {
      return None;
    }
    var monthTxns := MonthTransactions(userTxns, year, month);
    MonthTransactionsValid(userTxns, year, month);
    var items := Items(monthTxns, categories, code);
    var days := BuildDays(items);
    var initial := InitialDate(today, year, month, days);
    InitialDateInMonth(today, year, month, days, monthTxns, categories, code);
    r := Some(CalendarResponse(year, month, MonthLabel(year, month), days, Currencies.CurrencySymbol(code), FormatIso(today), initial));
  }
}
