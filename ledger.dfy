/**
 * The per-user ledger behind the views of `expenses/views.py`: the rows the
 * database holds (users, categories, transactions, one settings record per
 * user) and the requests that change them — adding a transaction from the
 * dashboard, moving the cycle anchor, editing through `TransactionForm`,
 * deleting one transaction, clearing a user's history, deleting a user and
 * removing a category. Every change is all-or-nothing: a rejected request
 * leaves the store as it was.
 */
module Ledger {
  import opened Wrappers
  import opened Text
  import opened Sorting
  import opened Dates
  import opened Models
  import Currencies
  import Forms
  import opened Queries
  import MonthCalendar

  // ---------------------------------------------------------------- adding

  /** The posted fields of the dashboard's add form, each absent or as sent. */
  datatype AddRequest = AddRequest(
    txType: Option<string>,
    category: Option<string>,
    name: Option<string>,
    occurredOn: Option<string>,
    amount: Option<string>,
    note: Option<string>)

  /**
   * Why the dashboard refuses to add a transaction, in the order it checks.
   * `UnknownCategory` is a posted category key that names no row: the insert
   * itself fails and nothing is stored.
   */
  datatype AddError =
    | BadType | MissingCategory | MissingName | BadDate
    | MissingAmount | BadAmount | NotPositive | TooLarge | UnknownCategory

  /** The flash message shown for each refusal; an unknown category ends in an error page. */
  function AddMessage(e: AddError): Option<string> {
    match e
    case BadType => Some("Please choose whether this entry is income or an expense.")
    case MissingCategory => Some("Outgoing transactions require a category. Please choose one before saving.")
    case MissingName => Some("Please enter a name for the transaction.")
    case BadDate => Some("Please select a valid date before saving the transaction.")
    case MissingAmount => Some("Please enter an amount before saving the transaction.")
    case BadAmount => Some("Amount must be a number using up to two decimal places for cents or pence (e.g., 12.50).")
    case NotPositive => Some("Amount must be greater than zero.")
    case TooLarge => Some("That amount is too large for Ledgerly to store. Please enter a smaller value.")
    case UnknownCategory => None
  }

  /** `value or ''` on a posted field. */
  function OrEmpty(o: Option<string>): string {
    if o.Some? then o.value else ""
  }

  /** `request.POST.get('category') or None`. */
  function PostedCategory(req: AddRequest): Option<string> {
    if req.category.Some? && req.category.value != "" then req.category else None
  }

  /** The key a posted category value stands for, when a category row has it. */
  function ResolveCategory(raw: string, categories: seq<Category>): (r: Option<nat>)
    ensures r.Some? ==> MonthCalendar.ParseInt(raw) == Some(r.value as int) && FindCategory(categories, r.value).Some?
    ensures r.None? ==> match MonthCalendar.ParseInt(raw)
      case None => true
      case Some(k) => k < 0 || FindCategory(categories, k as nat).None?
  {
    match MonthCalendar.ParseInt(raw)
    case None => None
    case Some(k) => if k >= 0 && FindCategory(categories, k).Some? then Some(k as nat) else None
  }

  /** A transaction ready to store, before it is given its key and owner. */
  datatype Draft = Draft(
    name: string,
    txType: TxType,
    amount: int,
    category: Option<nat>,
    occurredOn: Date,
    note: string)

  /**
   * What the add path reads from a request: the upper-cased type, the posted
   * category and the key it resolves to, the stripped name, the date, the
   * stripped amount text and the cents it parses to.
   */
  datatype AddFields = AddFields(
    typeCode: string,
    txType: Option<TxType>,
    posted: Option<string>,
    resolved: Option<nat>,
    name: string,
    date: Option<Date>,
    amountRaw: string,
    cents: Option<int>,
    note: string)

  function ReadAddRequest(req: AddRequest, categories: seq<Category>): (f: AddFields)
    ensures f.txType.Some? ==> TypeCode(f.txType.value) == f.typeCode
    ensures f.date.Some? ==> InPythonRange(f.date.value)
    ensures f.resolved.Some? ==> f.posted.Some? && FindCategory(categories, f.resolved.value).Some?
  {
    var typeCode := UpperStr(OrEmpty(req.txType));
    var posted := PostedCategory(req);
    var amountRaw := Strip(OrEmpty(req.amount));
    TypeCodeRoundTrip(Income, typeCode);
    TypeCodeRoundTrip(Outgo, typeCode);
    AddFields(
      typeCode,
      ParseTypeCode(typeCode),
      posted,
      if posted.Some? then ResolveCategory(posted.value, categories) else None,
      Strip(OrEmpty(req.name)),
      if req.occurredOn.Some? then ParseIso(req.occurredOn.value) else None,
      amountRaw,
      Currencies.ParseAmountToCents(amountRaw),
      OrEmpty(req.note))
  }

  /**
   * The checks of the add path, in the order the view makes them: the type,
   * a category for an expense, the name, the date, the amount's presence,
   * its syntax, its sign and its size; then the insert, which fails on a
   * category key that names no row.
   */
  function Decide(f: AddFields): (r: Result<Draft, AddError>)
    ensures r.Success? ==> r.value.name == f.name != "" && f.cents == Some(r.value.amount)
    ensures r.Success? ==> 0 < r.value.amount <= Currencies.MAX_CENTS
  {
    match f.txType
    case None => Failure(BadType)
    case Some(txType) =>
      if f.typeCode == "OUTGO" && f.posted.None? then Failure(MissingCategory)
      else if f.name == "" then Failure(MissingName)
      else if f.date.None? then Failure(BadDate)
      else if f.amountRaw == "" then Failure(MissingAmount)
      else match f.cents
        case None => Failure(BadAmount)
        case Some(cents) =>
          if cents <= 0 then Failure(NotPositive)
          else if cents > Currencies.MAX_CENTS then Failure(TooLarge)
          else if f.posted.Some? && f.resolved.None? then Failure(UnknownCategory)
          else Success(Draft(f.name, txType, cents, f.resolved, f.date.value, f.note))
  }

  /**
   * The dashboard's add path. A posted category is kept whatever the type;
   * the name's length is not checked.
   */
  function ValidateAdd(req: AddRequest, categories: seq<Category>): (r: Result<Draft, AddError>)
    ensures r.Success? ==> 0 < r.value.amount <= Currencies.MAX_CENTS && r.value.name != ""
  {
    var f := ReadAddRequest(req, categories);
    Decide(f)
  }

  /**
   * Each refusal names the first check the request failed, and a request
   * that passes every check is accepted.
   */
  lemma DecideRefusals(f: AddFields)
    ensures Decide(f) == Failure(BadType) <==> f.txType.None?
    ensures Decide(f) == Failure(MissingCategory) <==> f.txType.Some? && f.typeCode == "OUTGO" && f.posted.None?
    ensures Decide(f) == Failure(MissingName) ==> f.name == ""
    ensures Decide(f) == Failure(BadDate) ==> f.date.None?
    ensures Decide(f) == Failure(MissingAmount) ==> f.amountRaw == ""
    ensures Decide(f) == Failure(BadAmount) ==> f.cents.None?
    ensures Decide(f) == Failure(NotPositive) ==> f.cents.Some? && f.cents.value <= 0
    ensures Decide(f) == Failure(TooLarge) ==> f.cents.Some? && f.cents.value > Currencies.MAX_CENTS
    ensures Decide(f) == Failure(UnknownCategory) ==> f.posted.Some? && f.resolved.None?
    ensures Decide(f).Success? <==>
      f.txType.Some? && (f.typeCode == "OUTGO" ==> f.posted.Some?) && f.name != "" && f.date.Some? &&
      f.amountRaw != "" && f.cents.Some? && 0 < f.cents.value <= Currencies.MAX_CENTS && (f.posted.Some? ==> f.resolved.Some?)
  {
  }

  /**
   * An accepted request yields the draft its fields describe: the parsed
   * type, the stripped non-blank name, the date, the cents (positive and at
   * most `MAX_CENTS`), the resolved category (always one for an expense) and
   * the note.
   */
  lemma ValidateAddAccepted(req: AddRequest, categories: seq<Category>)
    requires ValidateAdd(req, categories).Success?
    ensures var f := ReadAddRequest(req, categories); var d := ValidateAdd(req, categories).value;
      TypeCode(d.txType) == f.typeCode && d.name == f.name && d.name != "" &&
      f.date == Some(d.occurredOn) && InPythonRange(d.occurredOn) &&
      f.cents == Some(d.amount) && 0 < d.amount <= Currencies.MAX_CENTS &&
      d.category == f.resolved && (d.txType == Outgo ==> d.category.Some?) &&
      (d.category.Some? ==> FindCategory(categories, d.category.value).Some?) &&
      d.note == f.note
  {
    var f := ReadAddRequest(req, categories);
    DecideRefusals(f);
    assert f.typeCode == "OUTGO" <==> f.txType == Some(Outgo) by {
      TypeCodeRoundTrip(Outgo, f.typeCode);
    }
  }

  lemma ZeroAmountExample()
    ensures Currencies.ParseAmountToCents("0.00") == Some(0)
  {
    assert Pow10(2) == 100;
    assert NatToDigits(0) == "0" && ZeroPadded(0, 2) == "00";
    Currencies.ParseRendered("0.00", Currencies.Dec(false, 0, 2));
  }

  /** The add path refuses a zero amount that the edit form accepts. */
  lemma AddRefusesZero(req: AddRequest, categories: seq<Category>)
    requires ReadAddRequest(req, categories).txType.Some?
    requires ReadAddRequest(req, categories).posted.Some?
    requires ReadAddRequest(req, categories).name != "" && ReadAddRequest(req, categories).date.Some?
    requires req.amount == Some("0.00")
    ensures ValidateAdd(req, categories) == Failure(NotPositive)
  {
    ZeroAmountField(req, categories);
    DecideZeroCents(ReadAddRequest(req, categories));
  }

  /** A posted "0.00" reads as zero cents. */
  lemma ZeroAmountField(req: AddRequest, categories: seq<Category>)
    requires req.amount == Some("0.00")
    ensures ReadAddRequest(req, categories).amountRaw == "0.00"
    ensures ReadAddRequest(req, categories).cents == Some(0)
  {
    ZeroAmountRaw(req, categories);
    ZeroAmountExample();
  }

  lemma ZeroAmountRaw(req: AddRequest, categories: seq<Category>)
    requires req.amount == Some("0.00")
    ensures ReadAddRequest(req, categories).amountRaw == "0.00"
  {
    StripOfTrimmed("0.00");
  }

  /** Fields that pass every earlier check with zero cents are refused as not positive. */
  lemma DecideZeroCents(f: AddFields)
    requires f.txType.Some? && f.posted.Some? && f.name != "" && f.date.Some?
    requires f.amountRaw != "" && f.cents == Some(0)
    ensures Decide(f) == Failure(NotPositive)
  {
  }

  /** The add path keeps a posted category on an income, unlike the edit form. */
  lemma AddKeepsIncomeCategory(req: AddRequest, categories: seq<Category>)
    requires ReadAddRequest(req, categories).txType == Some(Income)
    requires ValidateAdd(req, categories).Success? && PostedCategory(req).Some?
    ensures ValidateAdd(req, categories).value.txType == Income
    ensures ValidateAdd(req, categories).value.category.Some?
  {
    DecideRefusals(ReadAddRequest(req, categories));
  }

  /**
   * Nothing on the add path limits the name's length: a stripped name of any
   * length reaches the insert (the 120-character limit is the column's).
   */
  lemma AddAcceptsAnyNameLength(req: AddRequest, categories: seq<Category>, longName: string)
    requires ValidateAdd(req, categories).Success?
    requires longName != [] && !IsSpace(longName[0]) && !IsSpace(longName[|longName| - 1])
    ensures ValidateAdd(req.(name := Some(longName)), categories).Success?
    ensures ValidateAdd(req.(name := Some(longName)), categories).value.name == longName
  {
    StripOfTrimmed(longName);
    var f := ReadAddRequest(req, categories);
    var req' := req.(name := Some(longName));
    var f' := ReadAddRequest(req', categories);
    assert f' == f.(name := longName);
    DecideRefusals(f);
    DecideRefusals(f');
  }

  // ---------------------------------------------------------------- the store

  /** The outcome of `update_cycle_start`. */
  datatype CycleOutcome = CycleUnchanged | CycleInvalid | CycleUpdated

  /** The outcome of editing through the detail view. */
  datatype EditOutcome = NotFound | Rejected(errors: seq<Forms.FieldError>) | Updated

  /** No two rows share a key. */
  predicate UniqueIds(s: seq<Transaction>) {
    forall i, j :: 0 <= i < j < |s| ==> s[i].id != s[j].id
  }

  /** A stored row: a key already handed out, an existing owner and category, the column constraints. */
  predicate RowOk(t: Transaction, users: set<nat>, categories: seq<Category>, nextId: nat) {
    t.id < nextId && t.user in users && ValidTransaction(t) &&
    (t.category.Some? ==> FindCategory(categories, t.category.value).Some?)
  }

  /** Every row of `s` is a valid stored row. */
  predicate AllRowsOk(s: seq<Transaction>, users: set<nat>, categories: seq<Category>, nextId: nat) {
    forall i :: 0 <= i < |s| ==> RowOk(s[i], users, categories, nextId)
  }

  /** Settings of existing users, one record per user keyed by its owner. */
  predicate SettingsOk(settings: map<nat, UserSettings>, users: set<nat>) {
    forall u :: u in settings ==> u in users && settings[u].user == u && InPythonRange(settings[u].cycleStartDate)
  }

  /** The index of `user`'s transaction `id`: `get_object_or_404(Transaction, pk=id, user=user)`. */
  function OwnedIndex(txns: seq<Transaction>, user: nat, id: nat): (r: Option<nat>)
    ensures r.Some? ==> r.value < |txns| && txns[r.value].id == id && txns[r.value].user == user
    ensures r.None? ==> forall i :: 0 <= i < |txns| ==> !(txns[i].id == id && txns[i].user == user)
  {
    if txns == [] then None
    else if txns[0].id == id && txns[0].user == user then Some(0)
    else match OwnedIndex(txns[1..], user, id)
      case None => None
      case Some(k) => Some(k + 1)
  }

  /** The rows `DELETE ... WHERE id = id` leaves. */
  function WithoutId(txns: seq<Transaction>, id: nat): seq<Transaction> {
    Filter((t: Transaction) => t.id != id, txns)
  }

  /** The rows `DELETE ... WHERE user = user` leaves. */
  function WithoutUser(txns: seq<Transaction>, user: nat): seq<Transaction> {
    Filter((t: Transaction) => t.user != user, txns)
  }

  /** `on_delete=SET_NULL`: rows of category `id` lose their category and stay. */
  function NullCategory(txns: seq<Transaction>, id: nat): (r: seq<Transaction>)
    ensures |r| == |txns|
    ensures forall i :: 0 <= i < |r| ==> r[i] == (if txns[i].category == Some(id) then txns[i].(category := None) else txns[i])
  {
    seq(|txns|, i requires 0 <= i < |txns| => if txns[i].category == Some(id) then txns[i].(category := None) else txns[i])
  }

  /** A filter keeps every element when all of them pass. */
  lemma {:induction false} FilterAll<T>(p: T -> bool, s: seq<T>)
    requires forall i :: 0 <= i < |s| ==> p(s[i])
    ensures Filter(p, s) == s
  {
    if s != [] {
      FilterAll(p, s[1..]);
    }
  }

  /** A filter keeps nothing when nothing passes. */
  lemma {:induction false} FilterNone<T>(p: T -> bool, s: seq<T>)
    requires forall i :: 0 <= i < |s| ==> !p(s[i])
    ensures Filter(p, s) == []
  {
    if s != [] {
      FilterNone(p, s[1..]);
    }
  }

  /** Filtering keeps keys distinct. */
  lemma {:induction false} FilterUniqueIds(p: Transaction -> bool, s: seq<Transaction>)
    requires UniqueIds(s)
    ensures UniqueIds(Filter(p, s))
  {
    if s != [] {
      FilterUniqueIds(p, s[1..]);
      FilterMembers(p, s[1..]);
      var rest := Filter(p, s[1..]);
      forall i | 0 <= i < |rest| ensures rest[i].id != s[0].id {
        var j :| 0 <= j < |s[1..]| && s[1..][j] == rest[i];
        assert s[j + 1] == rest[i];
      }
    }
  }

  /** Filtering keeps every row well formed. */
  lemma FilterRowsOk(p: Transaction -> bool, s: seq<Transaction>, users: set<nat>, categories: seq<Category>, nextId: nat)
    requires AllRowsOk(s, users, categories, nextId)
    ensures AllRowsOk(Filter(p, s), users, categories, nextId)
  {
    var r := Filter(p, s);
    FilterMembers(p, s);
    forall i | 0 <= i < |r| ensures RowOk(r[i], users, categories, nextId) {
      var j :| 0 <= j < |s| && s[j] == r[i];
    }
  }

  /** A filter on one element keeps it exactly when it passes. */
  lemma FilterSingleton<T>(p: T -> bool, x: T)
    ensures Filter(p, [x]) == if p(x) then [x] else []
  {
    assert [x][1..] == [];
  }

  /** Deleting a key no row has changes nothing. */
  lemma WithoutAbsentId(s: seq<Transaction>, id: nat)
    requires forall i :: 0 <= i < |s| ==> s[i].id != id
    ensures WithoutId(s, id) == s
  {
    FilterAll((t: Transaction) => t.id != id, s);
  }

  /** Removing a key present once removes exactly that row. */
  lemma RemoveById(txns: seq<Transaction>, k: nat)
    requires UniqueIds(txns) && k < |txns|
    ensures WithoutId(txns, txns[k].id) == txns[..k] + txns[k + 1..]
  {
    var id := txns[k].id;
    var p := (t: Transaction) => t.id != id;
    var before, after := txns[..k], txns[k + 1..];
    assert txns == before + ([txns[k]] + after);
    forall i | 0 <= i < |before| ensures p(before[i]) {
      assert before[i] == txns[i];
    }
    forall i | 0 <= i < |after| ensures p(after[i]) {
      assert after[i] == txns[k + 1 + i];
    }
    FilterDropOne(p, before, txns[k], after);
  }

  /** A filter that rejects one element and keeps all the others removes exactly that one. */
  lemma FilterDropOne<T>(p: T -> bool, a: seq<T>, x: T, b: seq<T>)
    requires forall i :: 0 <= i < |a| ==> p(a[i])
    requires !p(x)
    requires forall i :: 0 <= i < |b| ==> p(b[i])
    ensures Filter(p, a + ([x] + b)) == a + b
  {
    var tail := [x] + b;
    assert Filter(p, tail) == b by {
      FilterAll(p, b);
      FilterSingleton(p, x);
      FilterAppend(p, [x], b);
      assert [] + b == b;
    }
    FilterAll(p, a);
    FilterAppend(p, a, tail);
  }

  /** Filtering twice by nested conditions is filtering by the narrower one. */
  lemma {:induction false} FilterNested<T>(p: T -> bool, q: T -> bool, s: seq<T>)
    requires forall x :: q(x) ==> p(x)
    ensures Filter(q, Filter(p, s)) == Filter(q, s)
  {
    if s != [] {
      FilterNested(p, q, s[1..]);
      var head := if p(s[0]) then [s[0]] else [];
      FilterAppend(q, head, Filter(p, s[1..]));
    }
  }

  /** Every row is either the user's or left by the clearing. */
  lemma {:induction false} ClearCount(txns: seq<Transaction>, user: nat)
    ensures |UserTransactions(txns, user)| + |WithoutUser(txns, user)| == |txns|
  {
    if txns != [] {
      ClearCount(txns[1..], user);
    }
  }

  /**
   * Clearing a user's history removes all of that user's rows and none of
   * anybody else's.
   */
  lemma ClearedHistory(txns: seq<Transaction>, user: nat, other: nat)
    ensures UserTransactions(WithoutUser(txns, user), user) == []
    ensures other != user ==> UserTransactions(WithoutUser(txns, user), other) == UserTransactions(txns, other)
  {
    var p := (t: Transaction) => t.user != user;
    var mine := (t: Transaction) => t.user == user;
    var theirs := (t: Transaction) => t.user == other;
    var rest := WithoutUser(txns, user);
    FilterNone(mine, rest);
    if other != user {
      FilterNested(p, theirs, txns);
    }
  }

  /** Removing the rows of category `id` leaves every other key resolving to the same row. */
  lemma {:induction false} FindCategoryAfterRemoval(categories: seq<Category>, id: nat, k: nat)
    requires k != id
    ensures FindCategory(Filter((c: Category) => c.id != id, categories), k) == FindCategory(categories, k)
  {
    if categories != [] {
      var p := (c: Category) => c.id != id;
      FindCategoryAfterRemoval(categories[1..], id, k);
      var rest := Filter(p, categories[1..]);
      assert Filter(p, categories) == (if p(categories[0]) then [categories[0]] else []) + rest;
      if p(categories[0]) {
        var x := [categories[0]] + rest;
        assert x[0] == categories[0] && x[1..] == rest;
      } else {
        assert [] + rest == rest;
      }
    }
  }

  /** `Transaction.objects.create(...)` from an accepted draft: the row under key `id`, owned by `user`. */
  function NewRow(d: Draft, id: nat, user: nat): (t: Transaction)
    ensures t.id == id && t.user == user && t.amountInCents == d.amount && t.category == d.category
  {
    Transaction(id, user, d.category, d.name, d.txType, d.amount, d.occurredOn, d.note)
  }

  /** The row an accepted request creates meets the column and key constraints. */
  lemma AcceptedRowOk(req: AddRequest, categories: seq<Category>, users: set<nat>, user: nat, id: nat)
    requires ValidateAdd(req, categories).Success? && user in users
    ensures RowOk(NewRow(ValidateAdd(req, categories).value, id, user), users, categories, id + 1)
  {
    var d := ValidateAdd(req, categories).value;
    assert InPythonRange(d.occurredOn) && 0 < d.amount <= Currencies.MAX_CENTS &&
      (d.category.Some? ==> FindCategory(categories, d.category.value).Some?) by {
      ValidateAddAccepted(req, categories);
    }
    assert d.amount <= BIGINT_MAX by {
      MaxCentsFitsColumn();
    }
    assert NewRow(d, id, user).occurredOn == d.occurredOn;
  }

  /** Appending a row under a fresh key keeps every row valid and the keys distinct. */
  lemma AppendRow(txns: seq<Transaction>, t: Transaction, users: set<nat>, categories: seq<Category>, nextId: nat)
    requires AllRowsOk(txns, users, categories, nextId)
    requires UniqueIds(txns) && t.id == nextId && RowOk(t, users, categories, nextId + 1)
    ensures AllRowsOk(txns + [t], users, categories, nextId + 1)
    ensures UniqueIds(txns + [t])
  {
    var r := txns + [t];
    forall i | 0 <= i < |r| ensures RowOk(r[i], users, categories, nextId + 1) {
      if i < |txns| {
        assert r[i] == txns[i];
      }
    }
  }

  /** Saving over a row under its own key keeps every row valid and the keys distinct. */
  lemma ReplaceRow(txns: seq<Transaction>, k: nat, t: Transaction, users: set<nat>, categories: seq<Category>, nextId: nat)
    requires AllRowsOk(txns, users, categories, nextId)
    requires UniqueIds(txns) && k < |txns| && t.id == txns[k].id && RowOk(t, users, categories, nextId)
    ensures AllRowsOk(txns[k := t], users, categories, nextId)
    ensures UniqueIds(txns[k := t])
  {
  }

  /** `construct_instance`: each field present in the cleaned data replaces the stored one. */
  function SaveForm(t: Transaction, c: Forms.CleanedData): (r: Transaction)
    ensures r.id == t.id && r.user == t.user
    ensures c.name.Some? ==> r.name == c.name.value
    ensures c.name.None? ==> r.name == t.name
    ensures c.txType.Some? ==> r.txType == c.txType.value
    ensures c.txType.None? ==> r.txType == t.txType
    ensures c.amount.Some? ==> r.amountInCents == c.amount.value
    ensures c.amount.None? ==> r.amountInCents == t.amountInCents
    ensures c.category.Some? ==> r.category == c.category.value
    ensures c.category.None? ==> r.category == t.category
    ensures c.occurredOn.Some? ==> r.occurredOn == c.occurredOn.value
    ensures c.occurredOn.None? ==> r.occurredOn == t.occurredOn
    ensures c.note.Some? ==> r.note == c.note.value
    ensures c.note.None? ==> r.note == t.note
  {
    Transaction(
      t.id, t.user,
      if c.category.Some? then c.category.value else t.category,
      if c.name.Some? then c.name.value else t.name,
      if c.txType.Some? then c.txType.value else t.txType,
      if c.amount.Some? then c.amount.value else t.amountInCents,
      if c.occurredOn.Some? then c.occurredOn.value else t.occurredOn,
      if c.note.Some? then c.note.value else t.note)
  }

  /**
   * What the form's own fields guarantee before the cleaners run: a chosen
   * category is an active category row and a date is a real date.
   */
  predicate FieldsFromForm(fields: Forms.CleanedData, categories: seq<Category>) {
    (fields.category.Some? && fields.category.value.Some? ==>
      FindCategory(categories, fields.category.value.value).Some? &&
      FindCategory(categories, fields.category.value.value).value.isActive) &&
    (fields.occurredOn.Some? ==> InPythonRange(fields.occurredOn.value))
  }

  /** Saving a valid form over a valid row gives a valid row under the same key. */
  lemma ValidFormRowOk(t: Transaction, fields: Forms.CleanedData, fieldErrors: seq<Forms.FieldError>,
                       amount: Option<Currencies.Dec>, users: set<nat>, categories: seq<Category>, nextId: nat)
    requires RowOk(t, users, categories, nextId) && FieldsFromForm(fields, categories)
    requires amount.Some? ==> Forms.FieldAccepts(amount.value)
    requires amount.None? ==> fieldErrors != []
    requires Forms.Validate(fields, fieldErrors, amount).1 == []
    ensures RowOk(SaveForm(t, Forms.Validate(fields, fieldErrors, amount).0), users, categories, nextId)
  {
    Forms.ValidFormShape(fields, fieldErrors, amount);
    MaxCentsFitsColumn();
  }

  /** The database rows Ledgerly reads and writes. */
  class LedgerStore {
    var users: set<nat>
    var categories: seq<Category>
    var txns: seq<Transaction>
    var settings: map<nat, UserSettings>
    var nextId: nat

    ghost predicate Valid()
      reads this
    {
      AllRowsOk(txns, users, categories, nextId) &&
      UniqueIds(txns) &&
      SettingsOk(settings, users) &&
      ValidCategories(categories)
    }

    /** A store with the given accounts and categories and no transactions yet. */
    constructor(accounts: set<nat>, labels: seq<Category>)
      requires ValidCategories(labels)
      ensures Valid()
      ensures users == accounts && categories == labels && txns == [] && settings == map[] && nextId == 1
    {
      users := accounts;
      categories := labels;
      txns := [];
      settings := map[];
      nextId := 1;
    }

    /** `_get_user_settings_details`: the user's settings, created with defaults on first use. */
    method GetOrCreateSettings(user: nat, today: Date) returns (s: UserSettings, code: string, symbol: string)
      requires Valid() && user in users && InPythonRange(today)
      modifies this
      ensures Valid()
      ensures user in old(settings) ==> s == old(settings)[user] && settings == old(settings)
      ensures user !in old(settings) ==> s == DefaultSettings(user, today) && settings == old(settings)[user := s]
      ensures settings == FetchedSettings(old(settings), user, today)
      ensures code == (if s.currencyCode == "" then Currencies.DEFAULT_CURRENCY else s.currencyCode)
      ensures symbol == Currencies.CurrencySymbol(code)
      ensures txns == old(txns) && users == old(users) && categories == old(categories) && nextId == old(nextId)
    {
      if user in settings {
        s := settings[user];
      } else {
        s := DefaultSettings(user, today);
        settings := settings[user := s];
      }
      code := if s.currencyCode == "" then Currencies.DEFAULT_CURRENCY else s.currencyCode;
      symbol := Currencies.CurrencySymbol(code);
    }

    /**
     * The `update_cycle_start` action: a blank value changes nothing, a value
     * that is not an ISO date is refused, any other becomes the user's anchor.
     */
    method UpdateCycleStart(user: nat, raw: Option<string>) returns (outcome: CycleOutcome)
      requires Valid() && user in settings
      modifies this
      ensures Valid()
      ensures outcome == CycleUnchanged <==> raw.None? || raw.value == ""
      ensures outcome == CycleInvalid <==> raw.Some? && raw.value != "" && ParseIso(raw.value).None?
      ensures outcome == CycleUpdated ==>
        settings == old(settings)[user := old(settings)[user].(cycleStartDate := ParseIso(raw.value).value)]
      ensures outcome != CycleUpdated ==> settings == old(settings)
      ensures txns == old(txns) && users == old(users) && categories == old(categories) && nextId == old(nextId)
    {
      if raw.None? || raw.value == "" {
        return CycleUnchanged;
      }
      var parsed := ParseIso(raw.value);
      if parsed.None? {
        return CycleInvalid;
      }
      settings := settings[user := settings[user].(cycleStartDate := parsed.value)];
      outcome := CycleUpdated;
    }

    /**
     * The add path: a request that passes `ValidateAdd` becomes exactly one new
     * row owned by the user under the next key; any refusal stores nothing.
     */
    method Add(user: nat, req: AddRequest) returns (r: Result<nat, AddError>)
      requires Valid() && user in users
      modifies this
      ensures Valid()
      ensures r.Success? <==> ValidateAdd(req, old(categories)).Success?
      ensures r.Failure? ==> r.error == ValidateAdd(req, old(categories)).error && txns == old(txns) && nextId == old(nextId)
      ensures r.Success? ==>
        r.value == old(nextId) && nextId == old(nextId) + 1 &&
        txns == old(txns) + [NewRow(ValidateAdd(req, old(categories)).value, r.value, user)]
      ensures users == old(users) && categories == old(categories) && settings == old(settings)
    {
      var v := ValidateAdd(req, categories);
      if v.Failure? {
        return Failure(v.error);
      }
      AcceptedRowOk(req, categories, users, user, nextId);
      var id := Create(user, v.value);
      r := Success(id);
    }

    /**
     * `Transaction.objects.create(...)`: the draft's row is stored under the
     * next key; the database demands a valid row.
     */
    method Create(user: nat, d: Draft) returns (id: nat)
      requires Valid() && RowOk(NewRow(d, nextId, user), users, categories, nextId + 1)
      modifies this
      ensures Valid()
      ensures id == old(nextId) && nextId == old(nextId) + 1 && txns == old(txns) + [NewRow(d, id, user)]
      ensures users == old(users) && categories == old(categories) && settings == old(settings)
    {
      var t := NewRow(d, nextId, user);
      AppendRow(txns, t, users, categories, nextId);
      txns := txns + [t];
      id := nextId;
      nextId := nextId + 1;
    }

    /**
     * The dashboard's POST: the settings record is fetched or created first,
     * then the `action` field picks the cycle update or, by default, the add,
     * each with the outcome and the new state `UpdateCycleStart` and `Add`
     * promise.
     */
    method DashboardPost(user: nat, action: Option<string>, cycleStart: Option<string>, req: AddRequest, today: Date)
      returns (cycle: Option<CycleOutcome>, added: Option<Result<nat, AddError>>)
      requires Valid() && user in users && InPythonRange(today)
      modifies this
      ensures Valid()
      ensures action == Some("update_cycle_start") ==>
        var fetched := FetchedSettings(old(settings), user, today);
        cycle.Some? && added.None? && txns == old(txns) && nextId == old(nextId) &&
        (cycle.value == CycleUnchanged <==> cycleStart.None? || cycleStart.value == "") &&
        (cycle.value == CycleInvalid <==> cycleStart.Some? && cycleStart.value != "" && ParseIso(cycleStart.value).None?) &&
        settings == if cycle.value == CycleUpdated
          then fetched[user := fetched[user].(cycleStartDate := ParseIso(cycleStart.value).value)]
          else fetched
      ensures action != Some("update_cycle_start") ==>
        cycle.None? && added.Some? && settings == FetchedSettings(old(settings), user, today) &&
        (added.value.Success? <==> ValidateAdd(req, old(categories)).Success?) &&
        (added.value.Failure? ==>
          added.value.error == ValidateAdd(req, old(categories)).error && txns == old(txns) && nextId == old(nextId)) &&
        (added.value.Success? ==>
          added.value.value == old(nextId) && nextId == old(nextId) + 1 &&
          txns == old(txns) + [NewRow(ValidateAdd(req, old(categories)).value, old(nextId), user)])
      ensures users == old(users) && categories == old(categories)
    {
      var _, _, _ := GetOrCreateSettings(user, today);
      if action == Some("update_cycle_start") {
        var o := UpdateCycleStart(user, cycleStart);
        cycle, added := Some(o), None;
      } else {
        var a := Add(user, req);
        cycle, added := None, Some(a);
      }
    }

    /** `get_object_or_404(Transaction, pk=id, user=user)`: only the caller's own rows are found. */
    function Lookup(user: nat, id: nat): (r: Option<Transaction>)
      reads this
      ensures r.Some? ==> r.value in txns && r.value.id == id && r.value.user == user
      ensures r.None? ==> forall t :: t in txns ==> !(t.id == id && t.user == user)
    {
      match OwnedIndex(txns, user, id)
      case None => None
      case Some(k) => Some(txns[k])
    }

    /**
     * `transaction_delete` on POST: the caller's own transaction `id` is
     * removed and every other row stays in order, after the user's settings
     * are fetched or created; when the caller owns no such row nothing changes.
     */
    method Delete(user: nat, id: nat, today: Date) returns (found: bool)
      requires Valid() && InPythonRange(today)
      modifies this
      ensures Valid()
      ensures found <==> OwnedIndex(old(txns), user, id).Some?
      ensures found ==> var k := OwnedIndex(old(txns), user, id).value; txns == old(txns)[..k] + old(txns)[k + 1..]
      ensures found ==> settings == FetchedSettings(old(settings), user, today)
      ensures !found ==> txns == old(txns) && settings == old(settings)
      ensures users == old(users) && categories == old(categories) && nextId == old(nextId)
    {
      var k := OwnedIndex(txns, user, id);
      if k.None? {
        return false;
      }
      var before := txns;
      assert RowOk(before[k.value], users, categories, nextId);
      var _, _, _ := GetOrCreateSettings(user, today);
      RemoveById(before, k.value);
      FilterRowsOk((t: Transaction) => t.id != id, before, users, categories, nextId);
      FilterUniqueIds((t: Transaction) => t.id != id, before);
      txns := WithoutId(before, id);
      found := true;
    }

    /**
     * `clear_history` on POST: removes every transaction of the user, none of
     * any other user's, and reports how many there were.
     */
    method ClearHistory(user: nat) returns (count: nat)
      requires Valid()
      modifies this
      ensures Valid()
      ensures count == |UserTransactions(old(txns), user)| && |txns| + count == |old(txns)|
      ensures UserTransactions(txns, user) == []
      ensures forall other :: other != user ==> UserTransactions(txns, other) == UserTransactions(old(txns), other)
      ensures users == old(users) && categories == old(categories) && settings == old(settings) && nextId == old(nextId)
    {
      count := |UserTransactions(txns, user)|;
      ClearCount(txns, user);
      FilterUniqueIds((t: Transaction) => t.user != user, txns);
      FilterMembers((t: Transaction) => t.user != user, txns);
      var before := txns;
      txns := WithoutUser(txns, user);
      forall other ensures other != user ==> UserTransactions(txns, other) == UserTransactions(before, other) {
        ClearedHistory(before, user, other);
      }
      ClearedHistory(before, user, user);
    }

    /** Deleting an account cascades to its transactions and its settings. */
    method DeleteUser(user: nat)
      requires Valid()
      modifies this
      ensures Valid()
      ensures users == old(users) - {user}
      ensures txns == WithoutUser(old(txns), user) && UserTransactions(txns, user) == []
      ensures forall other :: other != user ==> UserTransactions(txns, other) == UserTransactions(old(txns), other)
      ensures user !in settings && forall u :: u in settings <==> u in old(settings) && u != user
      ensures forall u :: u in settings ==> settings[u] == old(settings)[u]
      ensures categories == old(categories) && nextId == old(nextId)
    {
      FilterUniqueIds((t: Transaction) => t.user != user, txns);
      FilterMembers((t: Transaction) => t.user != user, txns);
      var before := txns;
      txns := WithoutUser(txns, user);
      settings := settings - {user};
      users := users - {user};
      forall other ensures other != user ==> UserTransactions(txns, other) == UserTransactions(before, other) {
        ClearedHistory(before, user, other);
      }
      ClearedHistory(before, user, user);
    }

    /** Removing a category keeps every transaction and clears the references to it. */
    method RemoveCategory(id: nat)
      requires Valid()
      modifies this
      ensures Valid()
      ensures categories == Filter((c: Category) => c.id != id, old(categories))
      ensures txns == NullCategory(old(txns), id)
      ensures forall i :: 0 <= i < |txns| ==> txns[i].category != Some(id)
      ensures users == old(users) && settings == old(settings) && nextId == old(nextId)
    {
      var before := txns;
      var kept := Filter((c: Category) => c.id != id, categories);
      forall i | 0 <= i < |before|
        ensures RowOk(NullCategory(before, id)[i], users, kept, nextId)
      {
        var t := NullCategory(before, id)[i];
        if t.category.Some? {
          FindCategoryAfterRemoval(categories, id, t.category.value);
        }
      }
      assert ValidCategories(kept) by {
        FilterMembers((c: Category) => c.id != id, categories);
      }
      txns := NullCategory(txns, id);
      categories := kept;
    }

    /**
     * `transaction_detail` on POST: the caller's own transaction is loaded,
     * the settings fetched or created, the form validated, and a valid form
     * saved over the row; an invalid one changes no transaction.
     */
    method Edit(user: nat, id: nat, fields: Forms.CleanedData, fieldErrors: seq<Forms.FieldError>,
                amount: Option<Currencies.Dec>, today: Date) returns (outcome: EditOutcome)
      requires Valid() && user in users && InPythonRange(today)
      requires FieldsFromForm(fields, categories)
      requires amount.Some? ==> Forms.FieldAccepts(amount.value)
      requires amount.None? ==> fieldErrors != []
      modifies this
      ensures Valid()
      ensures outcome == NotFound <==> OwnedIndex(old(txns), user, id).None?
      ensures outcome == NotFound ==> settings == old(settings)
      ensures outcome != NotFound ==> settings == FetchedSettings(old(settings), user, today)
      ensures outcome.Rejected? ==>
        outcome.errors == Forms.Validate(fields, fieldErrors, amount).1 && outcome.errors != [] && txns == old(txns)
      ensures outcome == Updated ==>
        var k := OwnedIndex(old(txns), user, id).value;
        Forms.Validate(fields, fieldErrors, amount).1 == [] &&
        txns == old(txns)[k := SaveForm(old(txns)[k], Forms.Validate(fields, fieldErrors, amount).0)]
      ensures outcome != Updated ==> txns == old(txns)
      ensures users == old(users) && categories == old(categories) && nextId == old(nextId)
    {
      var k := OwnedIndex(txns, user, id);
      if k.None? {
        return NotFound;
      }
      var t := txns[k.value];
      var _, code, _ := GetOrCreateSettings(user, today);
      var form := new Forms.TransactionForm(code, Some(t));
      form.FullClean(fields, fieldErrors, amount);
      if !form.IsValid() {
        return Rejected(form.errors);
      }
      var saved := SaveForm(t, form.cleaned);
      ValidFormRowOk(t, fields, fieldErrors, amount, users, categories, nextId);
      SaveRow(k.value, saved);
      outcome := Updated;
    }

    /** `instance.save()` on an existing row: the row at index `k` is overwritten under its own key. */
    method SaveRow(k: nat, t: Transaction)
      requires Valid() && k < |txns| && t.id == txns[k].id && RowOk(t, users, categories, nextId)
      modifies this
      ensures Valid()
      ensures txns == old(txns)[k := t]
      ensures users == old(users) && categories == old(categories) && settings == old(settings) && nextId == old(nextId)
    {
      ReplaceRow(txns, k, t, users, categories, nextId);
      txns := txns[k := t];
    }
  }
}
