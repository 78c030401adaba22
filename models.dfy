/**
 * The records of `expenses/models.py`: categories, transactions and per-user
 * settings, with the field constraints the database schema carries.
 * Users, categories and transactions are referred to by their integer keys.
 */
module Models {
  import opened Wrappers
  import opened Dates
  import Currencies
  import Text

  /** Direction of money flow (`Transaction.TYPE_CHOICES`). */
  datatype TxType = Income | Outgo

  /** The stored value of the `type` column. */
  function TypeCode(t: TxType): string {
    match t
    case Income => "INCOME"
    case Outgo => "OUTGO"
  }

  /** The human-readable choice label. */
  function TypeLabel(t: TxType): string {
    match t
    case Income => "Income"
    case Outgo => "Outgoing"
  }

  /** The type whose stored value is `s`, if any. */
  function ParseTypeCode(s: string): (r: Option<TxType>)
    ensures r.Some? <==> s == "INCOME" || s == "OUTGO"
  {
    if s == "INCOME" then Some(Income)
    else if s == "OUTGO" then Some(Outgo)
    else None
  }

  /** Exactly two stored values exist, one per type, and each reads back as its type. */
  lemma TypeCodeRoundTrip(t: TxType, s: string)
    ensures ParseTypeCode(TypeCode(t)) == Some(t)
    ensures ParseTypeCode(s) == Some(t) <==> s == TypeCode(t)
    ensures TypeLabel(Income) == "Income" && TypeLabel(Outgo) == "Outgoing"
  {
  }

  /** `Category.name` is a `CharField(max_length=100)`. */
  const CATEGORY_NAME_MAX_LENGTH: nat := 100

  /** The upper bound of a `PositiveBigIntegerField`. */
  const BIGINT_MAX: int := 9_223_372_036_854_775_807

  datatype Category = Category(id: nat, name: string, isActive: bool)

  datatype Transaction = Transaction(
    id: nat,
    user: nat,
    category: Option<nat>,
    name: string,
    txType: TxType,
    amountInCents: int,
    occurredOn: Date,
    note: string)

  datatype UserSettings = UserSettings(user: nat, cycleStartDate: Date, currencyCode: string)

  /** A category row the schema admits: a name of at most 100 characters. */
  predicate ValidCategory(c: Category) {
    |c.name| <= CATEGORY_NAME_MAX_LENGTH
  }

  predicate ValidCategories(categories: seq<Category>) {
    forall i :: 0 <= i < |categories| ==> ValidCategory(categories[i])
  }

  /**
   * The column constraints the schema enforces on every database: a
   * non-negative 64-bit amount and a real date. The 120-character name limit
   * is checked by forms but is not part of this predicate (see `Ledger`).
   */
  predicate ValidTransaction(t: Transaction) {
    0 <= t.amountInCents <= BIGINT_MAX && InPythonRange(t.occurredOn)
  }

  /** `default_cycle_start`: the first day of the month `today` falls in. */
  function DefaultCycleStart(today: Date): (r: Date)
    requires InPythonRange(today)
    ensures InPythonRange(r) && r.day == 1
    ensures r.year == today.year && r.month == today.month
    ensures NotAfter(r, today)
  {
    FirstOfMonth(today)
  }

  /** A settings record created with every default. */
  function DefaultSettings(user: nat, today: Date): (s: UserSettings)
    requires InPythonRange(today)
    ensures s.user == user && s.currencyCode == Currencies.DEFAULT_CURRENCY
    ensures s.currencyCode in Currencies.CURRENCY_CODES
    ensures s.cycleStartDate.day == 1 && MonthIndex(s.cycleStartDate) == MonthIndex(today)
  {
    UserSettings(user, DefaultCycleStart(today), Currencies.DEFAULT_CURRENCY)
  }

  /**
   * `UserSettings.objects.get_or_create(user=user)` on the whole table: the
   * user gains a default record if they had none; every record already there
   * is kept as it was.
   */
  function FetchedSettings(settings: map<nat, UserSettings>, user: nat, today: Date): (r: map<nat, UserSettings>)
    requires InPythonRange(today)
    ensures r.Keys == settings.Keys + {user}
    ensures forall u :: u in settings ==> r[u] == settings[u]
    ensures user !in settings ==> r[user] == DefaultSettings(user, today)
  {
    if user in settings then settings else settings[user := DefaultSettings(user, today)]
  }

  /** Every amount the column can hold can be displayed without exceeding the decimal precision. */
  lemma ColumnAmountDisplayable(cents: int)
    requires 0 <= cents <= BIGINT_MAX
    ensures Currencies.Displayable(cents)
  {
  }

  /** The store's cap on amounts fits the column. */
  lemma MaxCentsFitsColumn()
    ensures 0 < Currencies.MAX_CENTS < BIGINT_MAX
  {
  }
}
