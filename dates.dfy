/**
 * Proleptic Gregorian calendar dates as Python's `datetime.date` has them:
 * month lengths with the leap-year rule, chronological order, the day before
 * and after a date, and the `YYYY-MM-DD` form that `date.isoformat` writes and
 * `date.fromisoformat` reads (the full-date form of section 5.6 of RFC 3339,
 * with the month-length limits of its section 5.7).
 */
module Dates {
  import opened Wrappers
  import opened Text

  datatype Date = Date(year: int, month: int, day: int)

  /** The year range of Python's `date` (`MINYEAR`, `MAXYEAR`). */
  const MIN_YEAR: int := 1
  const MAX_YEAR: int := 9999

  predicate IsLeapYear(y: int) {
    y % 4 == 0 && (y % 100 != 0 || y % 400 == 0)
  }

  /** `calendar.monthrange(y, m)[1]`. */
  function DaysInMonth(y: int, m: int): (n: int)
    requires 1 <= m <= 12
    ensures 28 <= n <= 31
    ensures n == 31 <==> m in {1, 3, 5, 7, 8, 10, 12}
    ensures n == 30 <==> m in {4, 6, 9, 11}
    ensures m == 2 ==> (n == 29 <==> IsLeapYear(y))
  {
    if m == 2 then (if IsLeapYear(y) then 29 else 28)
    else if m == 4 || m == 6 || m == 9 || m == 11 then 30
    else 31
  }

  /** A real calendar day (the year itself is not bounded here). */
  predicate ValidDate(d: Date) {
    1 <= d.month <= 12 && 1 <= d.day <= DaysInMonth(d.year, d.month)
  }

  /** A date Python's `date` type can hold. */
  predicate InPythonRange(d: Date) {
    ValidDate(d) && MIN_YEAR <= d.year <= MAX_YEAR
  }

  /** Chronological order: `a < b` on Python dates. */
  predicate Before(a: Date, b: Date) {
    a.year < b.year ||
    (a.year == b.year && (a.month < b.month || (a.month == b.month && a.day < b.day)))
  }

  /** `a <= b` on Python dates. */
  predicate NotAfter(a: Date, b: Date) {
    Before(a, b) || a == b
  }

  lemma OrderTrichotomy(a: Date, b: Date)
    ensures Before(a, b) || a == b || Before(b, a)
    ensures !(Before(a, b) && Before(b, a))
  {
  }

  /** Months since year 0, January: the month `d` falls in, as one number. */
  function MonthIndex(d: Date): int {
    d.year * 12 + d.month - 1
  }

  /** The first day of the month of `d` (`d.replace(day=1)`). */
  function FirstOfMonth(d: Date): (r: Date)
    requires ValidDate(d)
    ensures ValidDate(r) && r.day == 1 && MonthIndex(r) == MonthIndex(d)
    ensures NotAfter(r, d)
  {
    Date(d.year, d.month, 1)
  }

  /** The last day of the month of `d`. */
  function LastOfMonth(d: Date): (r: Date)
    requires ValidDate(d)
    ensures ValidDate(r) && MonthIndex(r) == MonthIndex(d) && NotAfter(d, r)
    ensures forall x :: ValidDate(x) && MonthIndex(x) == MonthIndex(d) ==> NotAfter(x, r)
  {
    Date(d.year, d.month, DaysInMonth(d.year, d.month))
  }

  /** `d + timedelta(days=1)`. */
  function NextDay(d: Date): Date
    requires ValidDate(d)
  {
    if d.day < DaysInMonth(d.year, d.month) then Date(d.year, d.month, d.day + 1)
    else if d.month < 12 then Date(d.year, d.month + 1, 1)
    else Date(d.year + 1, 1, 1)
  }

  /** `d - timedelta(days=1)`. */
  function PrevDay(d: Date): Date
    requires ValidDate(d)
  {
    if d.day > 1 then Date(d.year, d.month, d.day - 1)
    else if d.month > 1 then Date(d.year, d.month - 1, DaysInMonth(d.year, d.month - 1))
    else Date(d.year - 1, 12, 31)
  }

  /** The next day is the first valid date after `d`. */
  lemma NextDayIsSuccessor(d: Date)
    requires ValidDate(d)
    ensures ValidDate(NextDay(d)) && Before(d, NextDay(d))
    ensures forall x :: ValidDate(x) && Before(d, x) ==> NotAfter(NextDay(d), x)
  {
  }

  /** The previous day is the last valid date before `d`, and the two are inverse. */
  lemma PrevDayIsPredecessor(d: Date)
    requires ValidDate(d)
    ensures ValidDate(PrevDay(d)) && Before(PrevDay(d), d)
    ensures forall x :: ValidDate(x) && Before(x, d) ==> NotAfter(x, PrevDay(d))
    ensures NextDay(PrevDay(d)) == d
  {
  }

  lemma NextDayOfLast(d: Date)
    requires ValidDate(d)
    ensures NextDay(LastOfMonth(d)).day == 1
    ensures MonthIndex(NextDay(LastOfMonth(d))) == MonthIndex(d) + 1
  {
  }

  // ---------------------------------------------------------------- ISO form

  /** `d.isoformat()`: four-digit year, two-digit month and day. */
  function FormatIso(d: Date): (s: string)
    requires ValidDate(d) && 0 <= d.year <= MAX_YEAR
  {
    ZeroPadded(d.year, 4) + "-" + ZeroPadded(d.month, 2) + "-" + ZeroPadded(d.day, 2)
  }

  /**
   * `date.fromisoformat(s)` for the `YYYY-MM-DD` form: `None` where Python
   * raises `ValueError` (wrong shape, or a day the calendar does not have).
   */
  function ParseIso(s: string): (r: Option<Date>)
    ensures r.Some? ==> InPythonRange(r.value)
  {
    if |s| == 10 && s[4] == '-' && s[7] == '-' &&
       AllDigits(s[..4]) && AllDigits(s[5..7]) && AllDigits(s[8..])
    then
      var d := Date(DigitsValue(s[..4]), DigitsValue(s[5..7]), DigitsValue(s[8..]));
      if InPythonRange(d) then Some(d) else None
    else None
  }

  lemma FormatIsoShape(d: Date)
    requires ValidDate(d) && 0 <= d.year <= MAX_YEAR
    ensures var s := FormatIso(d);
      |s| == 10 && s[4] == '-' && s[7] == '-' &&
      s[..4] == ZeroPadded(d.year, 4) && s[5..7] == ZeroPadded(d.month, 2) &&
      s[8..] == ZeroPadded(d.day, 2)
  {
    ZeroPaddedLength(d.year, 4);
    ZeroPaddedLength(d.month, 2);
    ZeroPaddedLength(d.day, 2);
  }

  /** Writing a date and reading it back gives the same date. */
  lemma ParseFormatIso(d: Date)
    requires InPythonRange(d)
    ensures ParseIso(FormatIso(d)) == Some(d)
  {
    FormatIsoShape(d);
    ZeroPaddedValue(d.year, 4);
    ZeroPaddedValue(d.month, 2);
    ZeroPaddedValue(d.day, 2);
  }

  /** The ISO form is canonical: whatever string parses is the date's own form. */
  lemma FormatParseIso(s: string)
    requires ParseIso(s).Some?
    ensures FormatIso(ParseIso(s).value) == s
  {
    var d := ParseIso(s).value;
    FormatIsoShape(d);
    var t := FormatIso(d);
    ZeroPaddedValue(d.year, 4);
    ZeroPaddedValue(d.month, 2);
    ZeroPaddedValue(d.day, 2);
    DigitsValueInjective(s[..4], t[..4]);
    DigitsValueInjective(s[5..7], t[5..7]);
    DigitsValueInjective(s[8..], t[8..]);
    assert s == s[..4] + "-" + s[5..7] + "-" + s[8..];
    assert t == t[..4] + "-" + t[5..7] + "-" + t[8..];
  }

  lemma CompareDashed(ya: string, yb: string, ma: string, mb: string, da: string, db: string)
    requires |ya| == |yb| && |ma| == |mb|
    ensures StrLe(ya + "-" + ma + "-" + da, yb + "-" + mb + "-" + db) <==>
      (ya != yb && StrLe(ya, yb)) ||
      (ya == yb && ((ma != mb && StrLe(ma, mb)) || (ma == mb && StrLe(da, db))))
  {
    assert ya + "-" + ma + "-" + da == ya + (("-" + ma) + ("-" + da));
    assert yb + "-" + mb + "-" + db == yb + (("-" + mb) + ("-" + db));
    StrLeAppend(ya, yb, ("-" + ma) + ("-" + da), ("-" + mb) + ("-" + db));
    StrLeAppend("-" + ma, "-" + mb, "-" + da, "-" + db);
    assert ("-" + ma)[1..] == ma && ("-" + mb)[1..] == mb;
    assert ("-" + da)[1..] == da && ("-" + db)[1..] == db;
    assert StrLe("-" + ma, "-" + mb) == StrLe(ma, mb);
    assert StrLe("-" + da, "-" + db) == StrLe(da, db);
    assert ("-" + ma == "-" + mb) <==> ma == mb;
  }

  /** Two zero-padded fields of one width are equal and ordered as their values. */
  lemma PaddedField(x: nat, y: nat, w: nat)
    requires 1 <= w && x < Pow10(w) && y < Pow10(w)
    ensures |ZeroPadded(x, w)| == |ZeroPadded(y, w)| == w
    ensures ZeroPadded(x, w) == ZeroPadded(y, w) <==> x == y
    ensures StrLe(ZeroPadded(x, w), ZeroPadded(y, w)) <==> x <= y
  {
    ZeroPaddedLength(x, w);
    ZeroPaddedLength(y, w);
    ZeroPaddedValue(x, w);
    ZeroPaddedValue(y, w);
    StrLeDigits(ZeroPadded(x, w), ZeroPadded(y, w));
    if x == y {
      DigitsValueInjective(ZeroPadded(x, w), ZeroPadded(y, w));
    }
  }

  /** ISO strings of dates compare like the dates (the source sorts them as strings). */
  lemma IsoOrderIsDateOrder(a: Date, b: Date)
    requires InPythonRange(a) && InPythonRange(b)
    ensures Before(a, b) <==> (StrLe(FormatIso(a), FormatIso(b)) && a != b)
  {
    assert Pow10(4) == 10000 && Pow10(2) == 100;
    PaddedField(a.year, b.year, 4);
    PaddedField(a.month, b.month, 2);
    PaddedField(a.day, b.day, 2);
    CompareDashed(ZeroPadded(a.year, 4), ZeroPadded(b.year, 4),
                  ZeroPadded(a.month, 2), ZeroPadded(b.month, 2),
                  ZeroPadded(a.day, 2), ZeroPadded(b.day, 2));
  }
}
