/**
 * `TransactionForm` of `expenses/forms.py`, the form that edits an existing
 * transaction: the initial amount shown when the form opens, the amount
 * cleaner and the cross-field `clean` that rewrites the cleaned data.
 *
 * The per-field conversion Django runs first (required fields, the
 * `DecimalField`'s two decimal places and 18 digits, choice and date parsing)
 * is framework behaviour: its outcome is an input here, as the cleaned value
 * of each field (`None` when the field was rejected) and the errors it raised.
 */
module Forms {
  import opened Wrappers
  import opened Text
  import opened Dates
  import opened Models
  import Currencies

  // ---------------------------------------------------------------- amount

  /** What `clean_amount_in_cents` can reject. */
  datatype AmountError = MissingAmount | NegativeAmount | AmountTooLarge

  function AmountMessage(e: AmountError): string {
    match e
    case MissingAmount => "Please enter an amount."
    case NegativeAmount => "Amount cannot be negative."
    case AmountTooLarge => "Amount is too large to store. Please enter a smaller value."
  }

  /**
   * 10^16: `max_digits=18` less `decimal_places=2` leaves sixteen digits before
   * the point, so the whole part stays below this.
   */
  const FIELD_WHOLE_LIMIT: nat := 10_000_000_000_000_000

  /**
   * The format `DecimalField(decimal_places=2, max_digits=18)` lets through:
   * at most two decimal places and at most sixteen digits before the point.
   */
  predicate FieldDecimal(d: Currencies.Dec) {
    d.scale <= 2 && d.coeff < FIELD_WHOLE_LIMIT * Pow10(d.scale)
  }

  /**
   * A value the whole amount field lets through: the format above, and not
   * below `min_value=Decimal('0.00')`.
   */
  predicate FieldAccepts(d: Currencies.Dec) {
    FieldDecimal(d) && !IsNegative(d)
  }

  /** `amount < 0` on a `Decimal`; negative zero is not below zero. */
  predicate IsNegative(d: Currencies.Dec) {
    d.negative && d.coeff > 0
  }

  /** The cents of a field value, exactly: its coefficient scaled up to two decimals. */
  lemma FieldMagnitude(d: Currencies.Dec)
    requires FieldDecimal(d)
    ensures var m := Currencies.QuantizedMagnitude(d);
      m * Pow10(d.scale) == d.coeff * 100 && m < Currencies.DECIMAL_LIMIT &&
      (d.coeff == 0 ==> m == 0) &&
      (m > Currencies.MAX_CENTS <==> d.coeff * 100 > Currencies.MAX_CENTS * Pow10(d.scale))
  {
    var m := Currencies.QuantizedMagnitude(d);
    assert Pow10(1) == 10 && Pow10(2) == 100;
    if d.scale == 0 {
      assert m == d.coeff * 100;
    } else if d.scale == 1 {
      assert m == d.coeff * 10;
    } else {
      assert m == d.coeff;
    }
  }

  /**
   * A non-negative field value survives `str` and the currency parser as its
   * exact number of cents, and the cap compares the same way on both scales.
   */
  lemma FieldAmountCents(d: Currencies.Dec)
    requires FieldAccepts(d)
    ensures var r := Currencies.ParseAmountToCents(Currencies.RenderDec(d));
      r.Some? && r.value >= 0 && r.value * Pow10(d.scale) == d.coeff * 100 &&
      (r.value > Currencies.MAX_CENTS <==> d.coeff * 100 > Currencies.MAX_CENTS * Pow10(d.scale))
  {
    FieldMagnitude(d);
    Currencies.ParseRenderDec(d);
    assert Currencies.Quantize(d) == Some(Currencies.QuantizedMagnitude(d));
  }

  /**
   * `clean_amount_in_cents`: the field's value as integer cents through the
   * currency parser, after rejecting a missing or negative amount, and
   * rejecting a result above `MAX_CENTS`. Zero is accepted.
   */
  function CleanAmountInCents(amount: Option<Currencies.Dec>): (r: Result<int, AmountError>)
    requires amount.Some? ==> FieldDecimal(amount.value)
    ensures r == Failure(MissingAmount) <==> amount.None?
    ensures r == Failure(NegativeAmount) <==> amount.Some? && IsNegative(amount.value)
    ensures r == Failure(AmountTooLarge) <==>
      amount.Some? && !IsNegative(amount.value) &&
      amount.value.coeff * 100 > Currencies.MAX_CENTS * Pow10(amount.value.scale)
    ensures r.Success? ==>
      0 <= r.value <= Currencies.MAX_CENTS && r.value * Pow10(amount.value.scale) == amount.value.coeff * 100
  {
    match amount
    case None => Failure(MissingAmount)
    case Some(d) =>
      if IsNegative(d) then Failure(NegativeAmount)
      else
        FieldAmountCents(d);
        var cents := Currencies.ParseAmountToCents(Currencies.RenderDec(d)).value;
        if cents > Currencies.MAX_CENTS then Failure(AmountTooLarge) else Success(cents)
  }

  /** The edit form posts "82.00" for a stored 8200. */
  lemma CleanAmountExample8200()
    ensures Currencies.ParseDecimal("82.00") == Some(Currencies.Dec(false, 8200, 2))
    ensures CleanAmountInCents(Some(Currencies.Dec(false, 8200, 2))) == Success(8200)
  {
    assert Pow10(2) == 100;
    assert NatToDigits(82) == "82" && ZeroPadded(0, 2) == "00";
    Currencies.ParseRendered("82.00", Currencies.Dec(false, 8200, 2));
  }

  lemma CleanAmountZero()
    ensures CleanAmountInCents(Some(Currencies.Dec(false, 0, 2))) == Success(0)
  {
    var d := Currencies.Dec(false, 0, 2);
    assert Pow10(2) == 100;
    var r := CleanAmountInCents(Some(d));
    assert r.Success? && r.value * 100 == 0;
    var v := r.value;
    assert v == 0;
    assert r == Success(v);
  }

  lemma CleanAmountRejects()
    ensures CleanAmountInCents(None) == Failure(MissingAmount)
    ensures CleanAmountInCents(Some(Currencies.Dec(true, 150, 2))) == Failure(NegativeAmount)
  {
  }

  lemma CleanAmountTooLarge()
    ensures FieldAccepts(Currencies.Dec(false, 900_000_000_000_001, 2))
    ensures CleanAmountInCents(Some(Currencies.Dec(false, 900_000_000_000_001, 2))) == Failure(AmountTooLarge)
  {
    assert Pow10(2) == 100;
  }

  // ---------------------------------------------------------------- initial amount

  /**
   * `Decimal(amount_in_cents) / Decimal(100)`: the exact quotient, with trailing
   * zeros removed down to the dividend's exponent, as Python's exact division
   * does (12345 gives 123.45, 8200 gives 82).
   */
  function InitialAmount(cents: nat): (d: Currencies.Dec)
    ensures !d.negative && d.scale <= 2
    ensures d.coeff * 100 == cents * Pow10(d.scale)
    ensures d.scale > 0 ==> d.coeff % 10 != 0
  {
    assert Pow10(1) == 10 && Pow10(2) == 100;
    if cents % 100 == 0 then Currencies.Dec(false, cents / 100, 0)
    else if cents % 10 == 0 then
      assert cents % 100 == 10 * ((cents / 10) % 10);
      Currencies.Dec(false, cents / 10, 1)
    else Currencies.Dec(false, cents, 2)
  }

  /** Equal scaled values with a common positive scale factor have equal cents. */
  lemma CancelScale(a: int, b: int, p: nat)
    requires p >= 1 && a * p == b * p
    ensures a == b
  {
    assert (a - b) * p == 0;
  }

  /**
   * The amount a stored transaction opens with is a value the field accepts,
   * and submitting it unchanged cleans back to the stored cents.
   */
  lemma InitialAmountRoundTrip(cents: nat)
    requires cents <= Currencies.MAX_CENTS
    ensures FieldAccepts(InitialAmount(cents))
    ensures CleanAmountInCents(Some(InitialAmount(cents))) == Success(cents)
  {
    var d := InitialAmount(cents);
    assert d.coeff <= cents by {
      if d.scale == 0 { } else if d.scale == 1 { } else { }
    }
    assert d.coeff * 100 <= Currencies.MAX_CENTS * Pow10(d.scale) by {
      if d.scale == 0 { } else if d.scale == 1 { } else { }
    }
    var r := CleanAmountInCents(Some(d));
    CancelScale(r.value, cents, Pow10(d.scale));
  }

  /** `str` of the initial amount reads back as the stored cents for every column value. */
  lemma InitialAmountText(cents: nat)
    requires cents <= BIGINT_MAX
    ensures Currencies.ParseAmountToCents(Currencies.RenderDec(InitialAmount(cents))) == Some(cents)
  {
    var d := InitialAmount(cents);
    var m := Currencies.QuantizedMagnitude(d);
    assert m == cents by {
      Currencies.QuantizeExact(d);
      CancelScale(m, cents, Pow10(d.scale));
    }
    assert m < Currencies.DECIMAL_LIMIT by {
      ColumnAmountDisplayable(cents);
    }
    assert Currencies.Quantize(d) == Some(cents);
    Currencies.ParseRenderDec(d);
  }

  lemma InitialAmountExamples()
    ensures Currencies.RenderDec(InitialAmount(12345)) == "123.45"
    ensures Currencies.RenderDec(InitialAmount(8200)) == "82"
    ensures Currencies.RenderDec(InitialAmount(1230)) == "12.3"
  {
    InitialAmountCentsExample();
    InitialAmountWholeExample();
    InitialAmountTenthsExample();
  }

  lemma InitialAmountCentsExample()
    ensures Currencies.RenderDec(InitialAmount(12345)) == "123.45"
  {
    assert InitialAmount(12345) == Currencies.Dec(false, 12345, 2);
    assert Currencies.RenderDec(Currencies.Dec(false, 12345, 2)) == "123.45" by {
      assert Pow10(2) == 100;
      assert NatToDigits(123) == "123" && ZeroPadded(45, 2) == "45";
    }
  }

  lemma InitialAmountWholeExample()
    ensures Currencies.RenderDec(InitialAmount(8200)) == "82"
  {
    assert InitialAmount(8200) == Currencies.Dec(false, 82, 0);
    assert Currencies.RenderDec(Currencies.Dec(false, 82, 0)) == "82" by {
      assert NatToDigits(82) == "82";
    }
  }

  lemma InitialAmountTenthsExample()
    ensures Currencies.RenderDec(InitialAmount(1230)) == "12.3"
  {
    assert InitialAmount(1230) == Currencies.Dec(false, 123, 1);
    assert Currencies.RenderDec(Currencies.Dec(false, 123, 1)) == "12.3" by {
      assert Pow10(1) == 10;
      assert NatToDigits(12) == "12" && ZeroPadded(3, 1) == "3";
    }
  }

  // ---------------------------------------------------------------- clean

  /** The form's fields, in `Meta.fields` order. */
  datatype FormField = NameField | TypeField | AmountField | CategoryField | DateField | NoteField

  /** An error attached to one field of the form. */
  datatype FieldError = FieldError(field: FormField, message: string)

  /**
   * `cleaned_data`: each field's value, `None` when the key is absent (the
   * field was rejected or its error removed it). The category's value is
   * itself optional: the empty choice cleans to `None`.
   */
  datatype CleanedData = CleanedData(
    name: Option<string>,
    txType: Option<TxType>,
    amount: Option<int>,
    category: Option<Option<nat>>,
    occurredOn: Option<Date>,
    note: Option<string>)

  const NoData := CleanedData(None, None, None, None, None, None)

  const CATEGORY_REQUIRED := "Expenses must have a category."

  /** `cleaned_data.get('category') is None`: absent or the empty choice. */
  predicate NoCategory(d: CleanedData) {
    d.category.None? || d.category.value.None?
  }

  /**
   * `name.strip().title()`: the stripped input up to case; `NormalizeNameTitleCased`
   * adds how its letters are cased.
   */
  function NormalizeName(s: string): (r: string)
    ensures |r| <= |s|
    ensures Strip(r) == r
    ensures LowerStr(r) == LowerStr(Strip(s))
  {
    var t := Strip(s);
    StripShape(s);
    TitleCaseKeepsShape(t);
    TitleCase(t)
  }

  /**
   * Each letter of a normalized name is upper case exactly when it does not
   * follow a letter, and no other text equal to the stripped input up to case
   * is cased that way.
   */
  lemma NormalizeNameTitleCased(s: string, u: string)
    ensures TitleCased(NormalizeName(s))
    ensures TitleCased(u) && LowerStr(u) == LowerStr(Strip(s)) ==> u == NormalizeName(s)
  {
    var t := Strip(s);
    if TitleCased(u) && LowerStr(u) == LowerStr(t) {
      forall i | 0 <= i < |t| ensures ToLower(u[i]) == ToLower(t[i]) {
        assert LowerStr(u)[i] == LowerStr(t)[i];
      }
      TitleCaseUnique(t, u);
    }
  }

  /** Surrounding blanks go and each word starts with a capital. */
  lemma NormalizeNameExample()
    ensures NormalizeName("  coffee beans ") == "Coffee Beans"
  {
    StripExample();
    TitleCaseExample();
  }

  /** Normalizing a name twice changes nothing more. */
  lemma NormalizeNameIdempotent(s: string)
    ensures NormalizeName(NormalizeName(s)) == NormalizeName(s)
  {
    TitleCaseIdempotent(Strip(s));
  }

  /** The errors `clean` adds to those of the fields. */
  function CleanErrors(d: CleanedData): (r: seq<FieldError>)
    ensures r != [] <==> d.txType == Some(Outgo) && NoCategory(d)
    ensures forall i :: 0 <= i < |r| ==> r[i].field == CategoryField
  {
    if d.txType == Some(Outgo) && NoCategory(d) then [FieldError(CategoryField, CATEGORY_REQUIRED)] else []
  }

  /**
   * The cleaned data after `clean`: an income's category is set to `None`, an
   * expense without one loses the key with its error, and the name is
   * normalized; nothing else changes.
   */
  function AfterClean(d: CleanedData): (r: CleanedData)
    ensures r.txType == d.txType && r.amount == d.amount && r.occurredOn == d.occurredOn && r.note == d.note
    ensures d.txType == Some(Income) ==> r.category == Some(None)
    ensures d.txType == Some(Outgo) && NoCategory(d) ==> r.category.None?
    ensures d.txType == Some(Outgo) && !NoCategory(d) ==> r.category == d.category
    ensures d.txType.None? ==> r.category == d.category
    ensures r.name.Some? <==> d.name.Some?
    ensures r.name.Some? ==> r.name.value == NormalizeName(d.name.value)
  {
    var category :=
      if d.txType == Some(Income) then Some(None)
      else if d.txType == Some(Outgo) && NoCategory(d) then None
      else d.category;
    var name := if d.name.Some? then Some(NormalizeName(d.name.value)) else None;
    d.(category := category, name := name)
  }

  /** Cleaning cleaned data again changes nothing and adds no new kind of error. */
  lemma AfterCleanIdempotent(d: CleanedData)
    ensures AfterClean(AfterClean(d)) == AfterClean(d)
    ensures CleanErrors(AfterClean(d)) == CleanErrors(d)
  {
    if d.name.Some? {
      NormalizeNameIdempotent(d.name.value);
    }
  }

  /** The cleaned data and errors once the amount cleaner has run on the field's value. */
  function AmountStep(fields: CleanedData, amount: Option<Currencies.Dec>): (CleanedData, seq<FieldError>)
    requires amount.Some? ==> FieldAccepts(amount.value)
  {
    if amount.None? then (fields.(amount := None), [])
    else match CleanAmountInCents(amount)
      case Success(cents) => (fields.(amount := Some(cents)), [])
      case Failure(e) => (fields.(amount := None), [FieldError(AmountField, AmountMessage(e))])
  }

  /**
   * After the field's own validation the cleaner can only refuse an amount
   * as too large: the missing and negative branches are not reached.
   */
  lemma AmountStepErrors(fields: CleanedData, amount: Option<Currencies.Dec>)
    requires amount.Some? ==> FieldAccepts(amount.value)
    ensures var errs := AmountStep(fields, amount).1;
      errs == [] || errs == [FieldError(AmountField, AmountMessage(AmountTooLarge))]
  {
  }

  /**
   * The whole validation of a bound form: the fields' own results, then
   * `clean_amount_in_cents` on an amount the field accepted, then `clean`.
   * An amount error removes the amount from the cleaned data. The amount
   * field is required, so when it yields no value its own error is among
   * `fieldErrors`.
   */
  function Validate(fields: CleanedData, fieldErrors: seq<FieldError>, amount: Option<Currencies.Dec>): (r: (CleanedData, seq<FieldError>))
    requires amount.Some? ==> FieldAccepts(amount.value)
    requires amount.None? ==> fieldErrors != []
    ensures |r.1| >= |fieldErrors| && r.1[..|fieldErrors|] == fieldErrors
    ensures r.0.txType == fields.txType
  {
    var (afterAmount, amountErrors) := AmountStep(fields, amount);
    (AfterClean(afterAmount), fieldErrors + amountErrors + CleanErrors(afterAmount))
  }


  /**
   * A valid form has no field errors, an amount in [0, MAX_CENTS] that is the
   * submitted value in cents, a category exactly when it is an expense, and a
   * normalized name.
   */
  lemma ValidFormShape(fields: CleanedData, fieldErrors: seq<FieldError>, amount: Option<Currencies.Dec>)
    requires amount.Some? ==> FieldAccepts(amount.value)
    requires amount.None? ==> fieldErrors != []
    requires Validate(fields, fieldErrors, amount).1 == []
    ensures fieldErrors == [] && amount.Some? && !IsNegative(amount.value)
    ensures var c := Validate(fields, fieldErrors, amount).0;
      c.amount.Some? && 0 <= c.amount.value <= Currencies.MAX_CENTS &&
      c.amount.value * Pow10(amount.value.scale) == amount.value.coeff * 100 &&
      (c.txType == Some(Income) ==> c.category == Some(None)) &&
      (c.txType == Some(Outgo) ==> c.category.Some? && c.category.value.Some?) &&
      (c.name.Some? ==> c.name.value == NormalizeName(fields.name.value))
  {
    var r := CleanAmountInCents(amount);
    assert fieldErrors == [] && r.Success?;
  }

  /**
   * A bound form is valid exactly when its fields raised nothing, the amount
   * is at most `MAX_CENTS` once in cents, and it is not an expense without a
   * category.
   */
  lemma ValidateAccepts(fields: CleanedData, fieldErrors: seq<FieldError>, amount: Option<Currencies.Dec>)
    requires amount.Some? ==> FieldAccepts(amount.value)
    requires amount.None? ==> fieldErrors != []
    ensures Validate(fields, fieldErrors, amount).1 == [] <==>
      fieldErrors == [] && amount.Some? &&
      amount.value.coeff * 100 <= Currencies.MAX_CENTS * Pow10(amount.value.scale) &&
      !(fields.txType == Some(Outgo) && NoCategory(fields))
  {
    var (afterAmount, amountErrors) := AmountStep(fields, amount);
    assert afterAmount.txType == fields.txType && afterAmount.category == fields.category;
    assert amountErrors == [] <==>
      amount.None? || amount.value.coeff * 100 <= Currencies.MAX_CENTS * Pow10(amount.value.scale);
  }

  /** The form accepts a zero amount, which the dashboard's add path refuses. */
  lemma FormAcceptsZero(fields: CleanedData)
    requires fields.txType == Some(Income)
    ensures Validate(fields, [], Some(Currencies.Dec(false, 0, 2))).1 == []
    ensures Validate(fields, [], Some(Currencies.Dec(false, 0, 2))).0.amount == Some(0)
  {
    CleanAmountZero();
  }

  /** An expense with no category is refused whatever the other fields hold. */
  lemma ExpenseNeedsCategory(fields: CleanedData, fieldErrors: seq<FieldError>, amount: Option<Currencies.Dec>)
    requires amount.Some? ==> FieldAccepts(amount.value)
    requires amount.None? ==> fieldErrors != []
    requires fields.txType == Some(Outgo) && NoCategory(fields)
    ensures FieldError(CategoryField, CATEGORY_REQUIRED) in Validate(fields, fieldErrors, amount).1
  {
    var errs := Validate(fields, fieldErrors, amount).1;
    assert errs[|errs| - 1] == FieldError(CategoryField, CATEGORY_REQUIRED);
  }

  /** `TransactionForm` as an object: its configuration and its validation state. */
  class TransactionForm {
    var currencyCode: string
    var amountLabel: string
    var amountInitial: Option<Currencies.Dec>
    var cleaned: CleanedData
    var errors: seq<FieldError>

    /**
     * `__init__`: remembers the currency, labels the amount with its symbol and,
     * for an existing transaction, shows the stored amount in units.
     */
    constructor(code: string, instance: Option<Transaction>)
      requires instance.Some? ==> ValidTransaction(instance.value)
      ensures currencyCode == code
      ensures amountLabel == "Amount (" + Currencies.CurrencySymbol(code) + ")"
      ensures instance.None? ==> amountInitial.None?
      ensures instance.Some? ==> amountInitial == Some(InitialAmount(instance.value.amountInCents))
      ensures cleaned == NoData && errors == []
    {
      currencyCode := code;
      amountLabel := "Amount (" + Currencies.CurrencySymbol(code) + ")";
      amountInitial := if instance.Some? then Some(InitialAmount(instance.value.amountInCents)) else None;
      cleaned := NoData;
      errors := [];
    }

    /** `is_valid()` once the form has been cleaned. */
    predicate IsValid()
      reads this
    {
      errors == []
    }

    /** `add_error(field, message)`: records the error and drops the field's cleaned value. */
    method AddError(field: FormField, message: string)
      modifies this
      ensures errors == old(errors) + [FieldError(field, message)]
      ensures field == NameField ==> cleaned == old(cleaned).(name := None)
      ensures field == TypeField ==> cleaned == old(cleaned).(txType := None)
      ensures field == AmountField ==> cleaned == old(cleaned).(amount := None)
      ensures field == CategoryField ==> cleaned == old(cleaned).(category := None)
      ensures field == DateField ==> cleaned == old(cleaned).(occurredOn := None)
      ensures field == NoteField ==> cleaned == old(cleaned).(note := None)
      ensures currencyCode == old(currencyCode) && amountLabel == old(amountLabel) && amountInitial == old(amountInitial)
    {
      errors := errors + [FieldError(field, message)];
      match field
      case NameField => cleaned := cleaned.(name := None);
      case TypeField => cleaned := cleaned.(txType := None);
      case AmountField => cleaned := cleaned.(amount := None);
      case CategoryField => cleaned := cleaned.(category := None);
      case DateField => cleaned := cleaned.(occurredOn := None);
      case NoteField => cleaned := cleaned.(note := None);
    }

    /** `clean`: the cross-field rules, rewriting `cleaned_data` in place. */
    method Clean()
      modifies this
      ensures cleaned == AfterClean(old(cleaned))
      ensures errors == old(errors) + CleanErrors(old(cleaned))
      ensures currencyCode == old(currencyCode) && amountLabel == old(amountLabel) && amountInitial == old(amountInitial)
    {
      var before := cleaned;
      if before.txType == Some(Outgo) && NoCategory(before) {
        AddError(CategoryField, CATEGORY_REQUIRED);
      }
      assert errors == old(errors) + CleanErrors(before);
      if before.txType == Some(Income) {
        cleaned := cleaned.(category := Some(None));
      }
      ghost var want := AfterClean(before);
      assert cleaned == before.(category := want.category);
      if before.name.Some? {
        cleaned := cleaned.(name := Some(NormalizeName(before.name.value)));
      }
      assert cleaned == want;
    }

    /**
     * `full_clean` on bound data: takes the fields' results, runs the amount
     * cleaner on an amount the field accepted, then `clean`.
     */
    method FullClean(fields: CleanedData, fieldErrors: seq<FieldError>, amount: Option<Currencies.Dec>)
      requires amount.Some? ==> FieldAccepts(amount.value)
      requires amount.None? ==> fieldErrors != []
      modifies this
      ensures cleaned == Validate(fields, fieldErrors, amount).0
      ensures errors == Validate(fields, fieldErrors, amount).1
      ensures currencyCode == old(currencyCode) && amountLabel == old(amountLabel) && amountInitial == old(amountInitial)
    {
      cleaned := fields.(amount := None);
      errors := fieldErrors;
      if amount.Some? {
        var r := CleanAmountInCents(amount);
        if r.Success? {
          cleaned := cleaned.(amount := Some(r.value));
        } else {
          AddError(AmountField, AmountMessage(r.error));
        }
      }
      assert cleaned == AmountStep(fields, amount).0;
      assert errors == fieldErrors + AmountStep(fields, amount).1;
      Clean();
    }
  }
}
