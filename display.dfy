/**
 * The template filters of `expenses/templatetags/expense_extras.py`: the
 * category label a transaction shows and the amount filter over whatever
 * value a template hands it.
 */
module Display {
  import opened Wrappers
  import opened Text
  import opened Models
  import Currencies
  import opened Queries
  import MonthCalendar
  import Ledger

  const NOT_APPLICABLE := "N/A"

  /**
   * `display_category`: "N/A" for no transaction and for any income; an
   * expense shows its category's name, or "N/A" when it has none.
   */
  function DisplayCategory(t: Option<Transaction>, categories: seq<Category>): (shown: string)
    ensures t.None? ==> shown == NOT_APPLICABLE
    ensures t.Some? && t.value.txType == Income ==> shown == NOT_APPLICABLE
    ensures t.Some? && t.value.txType == Outgo && CategoryNameOf(t.value, categories).Some? ==>
      shown == CategoryNameOf(t.value, categories).value
    ensures t.Some? && CategoryNameOf(t.value, categories).None? ==> shown == NOT_APPLICABLE
  {
    match t
    case None => NOT_APPLICABLE
    case Some(txn) =>
      if txn.txType == Income then NOT_APPLICABLE
      else match CategoryNameOf(txn, categories)
        case Some(name) => name
        case None => NOT_APPLICABLE
  }

  /**
   * The label and the calendar agree on an expense's category; an income
   * that kept a category (as the add path allows) shows "N/A" here but its
   * category's name in the calendar.
   */
  lemma CategoryLabelVersusCalendar(t: Transaction, categories: seq<Category>, code: string)
    requires ValidTransaction(t) && CategoryNameOf(t, categories).Some?
    ensures var name := CategoryNameOf(t, categories).value;
      MonthCalendar.EntryOf(t, categories, code).category == name &&
      DisplayCategory(Some(t), categories) == (if t.txType == Income then NOT_APPLICABLE else name)
  {
  }

  /** After a category is removed, the transactions that had it show "N/A". */
  lemma RemovedCategoryShowsNA(txns: seq<Transaction>, categories: seq<Category>, id: nat, i: nat)
    requires i < |txns| && txns[i].category == Some(id)
    ensures DisplayCategory(Some(Ledger.NullCategory(txns, id)[i]), categories) == NOT_APPLICABLE
  {
  }

  /** A value a template can pass to `cents_to_currency`. */
  datatype FilterValue = IntValue(n: int) | TextValue(s: string) | OtherValue

  /** `int(value)`, with 0 where `int` raises a `TypeError` or `ValueError`. */
  function FilterCents(v: FilterValue): (c: int)
    ensures v.IntValue? ==> c == v.n
    ensures v.TextValue? && MonthCalendar.ParseInt(v.s).Some? ==> c == MonthCalendar.ParseInt(v.s).value
    ensures v.TextValue? && MonthCalendar.ParseInt(v.s).None? ==> c == 0
    ensures v.OtherValue? ==> c == 0
  {
    match v
    case IntValue(n) => n
    case TextValue(s) => if MonthCalendar.ParseInt(s).Some? then MonthCalendar.ParseInt(s).value else 0
    case OtherValue => 0
  }

  /**
   * `cents_to_currency`: the value's integer cents rendered by
   * `cents_to_display`; `None` where the decimal context raises.
   */
  function CentsToCurrency(v: FilterValue, code: string): (r: Option<string>)
    ensures r.Some? <==> Currencies.Displayable(FilterCents(v))
    ensures r.Some? ==>
      var sym := Currencies.CurrencySymbol(code);
      |r.value| >= |sym| && r.value[..|sym|] == sym &&
      Currencies.ParseAmountToCents(Currencies.Ungroup(r.value[|sym|..])) == Some(FilterCents(v))
  {
    var cents := FilterCents(v);
    if Currencies.Displayable(cents) then
      Currencies.DisplayRoundTrip(cents, code);
      Some(Currencies.CentsToDisplay(cents, code))
    else None
  }

  /** On an integer, and on its decimal text, the filter is `cents_to_display`. */
  lemma CentsToCurrencyOfInt(n: int, code: string)
    requires Currencies.Displayable(n)
    ensures CentsToCurrency(IntValue(n), code) == Some(Currencies.CentsToDisplay(n, code))
    ensures CentsToCurrency(TextValue(MonthCalendar.IntText(n)), code) == CentsToCurrency(IntValue(n), code)
  {
    MonthCalendar.ParseIntText(n);
    assert |NatToDigits(MonthCalendar.Abs(n))| <= MonthCalendar.INT_MAX_STR_DIGITS by {
      Currencies.DecimalLimitIsPow10();
      NatToDigitsLength(MonthCalendar.Abs(n), 28);
    }
    assert FilterCents(TextValue(MonthCalendar.IntText(n))) == n;
  }

  /** Any stored amount can be shown. */
  lemma StoredAmountShown(t: Transaction, code: string)
    requires ValidTransaction(t)
    ensures CentsToCurrency(IntValue(t.amountInCents), code).Some?
  {
    ColumnAmountDisplayable(t.amountInCents);
  }

  lemma ZeroDisplay()
    ensures Currencies.Displayable(0) && Currencies.CentsToDisplay(0, "USD") == "$0.00"
  {
    Currencies.SmallIsInPrecision(0);
    assert NatToDigits(0) == "0" by { }
    assert Currencies.Group("0") == "0" by { }
    assert ZeroPadded(0, 2) == "00" by { }
  }

  /** A value `int` rejects is shown as zero. */
  lemma CentsToCurrencyFallback()
    ensures CentsToCurrency(OtherValue, "USD") == Some("$0.00")
    ensures CentsToCurrency(TextValue("abc"), "USD") == Some("$0.00")
  {
    assert Currencies.Displayable(0) && Currencies.CentsToDisplay(0, "USD") == "$0.00" by {
      ZeroDisplay();
    }
    assert FilterCents(OtherValue) == 0;
    assert FilterCents(TextValue("abc")) == 0 by {
      MonthCalendar.ParseIntRejects();
    }
  }

  lemma CentsToCurrencyExample()
    ensures CentsToCurrency(IntValue(12345), "USD") == Some("$123.45")
  {
    Currencies.DisplayExample();
    Currencies.FormatUnitsExample();
  }
}
