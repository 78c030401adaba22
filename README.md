# Ledgerly core in Dafny

Ledgerly is a Django expense tracker. Each signed-in user records income and
outgoing transactions in integer cents. Every transaction has a date, a name,
an optional category and a note. The dashboard shows the current billing
cycle, which is anchored on a day of the month the user picks. It also shows
totals, a balance, the largest expenses, a search box, a twelve-cycle history
chart and a month calendar. Transactions can be edited through a form,
deleted, or cleared all at once.

This project models the logic under that web layer:

- **Amount codec** (`currencies.dfy`). Decimal text is parsed into cents with
  half-up rounding to the cent. Cents are rendered as a currency symbol
  followed by comma-grouped units with two decimals. The codec also holds the
  symbol table and the `MAX_CENTS` cap.
- **Records** (`models.dfy`). Categories, transactions and per-user
  settings, with the column constraints the schema carries.
- **Billing cycles** (`cycles.dfy`, on the calendar of `dates.dfy`). The
  month shift with day clamping, the current window `[start, next)`, and the
  twelve trailing windows with their per-type totals.
- **Queries** (`queries.dfy`, `calendar.dfy`). Case-insensitive search,
  cycle totals and balance, top expenses, suggestions, and the month
  calendar with parameter fallback and day grouping.
- **Edit form** (`forms.dfy`). Amount cleaning, the initial amount shown when
  editing, and the cross-field `clean`, as a class whose state is the
  cleaned data and the error list.
- **Ledger store** (`ledger.dfy`). A class holding users, categories,
  transactions and settings. It covers the dashboard add path, the cycle
  anchor update, owner-scoped lookup, edit and delete, clear-history, and
  the foreign-key cascades.
- **Template filters** (`display.dfy`). The category label and the cents
  filter.

`text.dfy` holds the ASCII digit, case, strip and title-case helpers.
`sorting.dfy` holds filter, a stable insertion sort, take and de-duplication.

Python's `Decimal` is modelled as a sign, an integer coefficient and a
number of decimal places. Decimal text is limited to an optional sign,
digits and an optional `.digits`. Python's 28-digit decimal context appears
where it makes an operation raise.

The clock is a `today` parameter. The database becomes the fields of
`Ledger.LedgerStore`, and ORM querysets become sequences in the store's
order.

## Model

| member | source | states |
|---|---|---|
| Currencies.CurrencySymbol | expenses/currencies.py:14-26 | USD gives `$`, GBP gives `£`, EUR gives `€`, and any other code falls back to `$` |
| Currencies.ParseDecimal | expenses/currencies.py:52 | an accepted text is non-empty, and the decimal is negative exactly when the text starts with `-` |
| Currencies.ParsedCharacters | expenses/currencies.py:52 | text that `Decimal` accepts is made only of digits, a sign and a point: blanks, letters and exponents are refused |
| Currencies.ParseRenderDec | expenses/currencies.py:52 | the plain text of any decimal with at most six places parses back to the same decimal |
| Currencies.Quantize | expenses/currencies.py:29-32 | a quantized amount is displayable and carries the input's sign when non-zero; with at most two places it is refused exactly when its cent count reaches the 28-digit limit |
| Currencies.ParseAmountToCents | expenses/currencies.py:49-55 | text `Decimal` refuses is refused; accepted cents are displayable, and negative cents come only from text starting with `-` |
| Currencies.QuantizeExact | expenses/currencies.py:29-32 | with at most two places, quantizing to the cent is exact: cents × 10^scale = coefficient × 100 |
| Currencies.QuantizeRoundsHalfUp | expenses/currencies.py:29-32 | with more than two places, the cent count is the nearest one, and a half rounds up in magnitude (ROUND_HALF_UP, not banker's rounding) |
| Currencies.QuantizeSignSymmetric | expenses/currencies.py:29-32 | rounding is symmetric in sign (half away from zero), and a value raises exactly when its negation does |
| Currencies.Group | expenses/currencies.py:45 | the `,` grouping adds one separator per full group of three digits after the first, and keeps the leading digit first |
| Currencies.FormatUnits | expenses/currencies.py:44-45 | the formatted units are non-empty and start with `-` exactly when the cents are negative |
| Currencies.CentsToDisplay | expenses/currencies.py:35-46 | the text is the code's symbol followed by the units, whose first character is `-` exactly when the cents are negative |
| Currencies.UngroupGroup | expenses/currencies.py:45 | removing the separators from grouped digits gives back the digits |
| Currencies.UngroupFormatUnits | expenses/currencies.py:44-45 | the grouped two-decimal units of `cents`, with the commas removed, are the plain rendering of cents/100 |
| Currencies.QuantizeCents | expenses/currencies.py:53-55 | a two-place decimal inside the precision converts to exactly its signed cent count |
| Currencies.ParseFormatUnits | expenses/currencies.py:35-55 | parsing the ungrouped units that `cents_to_display` prints gives back the cents, for every displayable amount, negatives included |
| Currencies.DisplayRoundTrip | expenses/currencies.py:35-55 | `cents_to_display` output starts with the code's symbol, and the rest, ungrouped, parses back to the cents |
| Currencies.ParseExample1999 | expenses/currencies.py:49-55 | "19.99" parses to 1999 |
| Currencies.ParseExample8200 | expenses/tests.py:66-78 | "82.00" parses to 8200 |
| Currencies.ParseLargeExample | expenses/tests.py:251-267 | "5000000000000.00" parses to 500000000000000, which is within `MAX_CENTS` |
| Currencies.ParseRoundingUp | expenses/currencies.py:52-55 | "1.005" parses to 101 |
| Currencies.ParseRoundingNegative | expenses/currencies.py:52-55 | "-1.005" parses to -101 |
| Currencies.ParseRoundingDown | expenses/currencies.py:52-55 | "1.004" parses to 100 |
| Currencies.ParseWholeExample | expenses/currencies.py:49-55 | "-5" parses to -500, so the parser itself accepts negatives |
| Currencies.ParseRejectEmpty | expenses/currencies.py:52 | "" is an error, not a value |
| Currencies.ParseRejectSignOnly | expenses/currencies.py:52 | a lone "-" is an error, not a value |
| Currencies.ParseRejectLetters | expenses/currencies.py:52 | "abc" is an error |
| Currencies.ParseRejectTwoDots | expenses/currencies.py:52 | "1.2.3" is an error |
| Currencies.FormatUnitsExample | expenses/currencies.py:44-45 | 12345 cents format as "123.45" |
| Currencies.DisplayExample | expenses/currencies.py:35-46 | 12345 cents in USD show as "$123.45" |
| Currencies.FormatUnitsGroupedExample | expenses/currencies.py:44-45 | 123456 cents format as "1,234.56" |
| Currencies.DisplayGroupedExample | expenses/currencies.py:35-46 | 123456 cents in GBP show as "£1,234.56" |
| Currencies.DisplayNegativeExample | expenses/currencies.py:35-46 | -5 cents under an unknown code show as "$-0.05" |
| Models.ParseTypeCode | expenses/models.py:32-37 | exactly "INCOME" and "OUTGO" are stored type values |
| Models.TypeCodeRoundTrip | expenses/models.py:32-37 | each type's stored value reads back as that type and no other value does; the labels are "Income" and "Outgoing" |
| Models.DefaultCycleStart | expenses/models.py:11-15 | the default anchor is day 1 of today's month, in range and not after today |
| Models.DefaultSettings | expenses/models.py:81-86 | a fresh settings row has currency USD (a valid choice) and an anchor on day 1 of the current month |
| Models.FetchedSettings | expenses/views.py:72-78 | `get_or_create` on the settings: every existing row is kept, and only a user without one gains the default row |
| Models.ColumnAmountDisplayable | expenses/models.py:57 | every amount the 64-bit column holds can be displayed within the 28-digit decimal context |
| Models.MaxCentsFitsColumn | expenses/currencies.py:20 | `MAX_CENTS` is positive and fits the 64-bit column |
| Text.StripShape | expenses/views.py:239 | `strip()` removes exactly a leading and a trailing run of whitespace, and the result has no whitespace at either end |
| Text.StripIdempotent | expenses/views.py:136 | stripping twice is stripping once |
| Text.StripExample | expenses/forms.py:110 | "  coffee beans " strips to "coffee beans" |
| Text.TitleCase | expenses/forms.py:110 | `str.title()` keeps the length and each character up to case, and upper-cases a letter exactly when it does not follow a letter |
| Text.TitleCaseUnique | expenses/forms.py:110 | any text equal to the input up to case and cased that way is the title-cased text |
| Text.TitleCaseKeepsShape | expenses/forms.py:110 | title-casing text without blanks at either end adds none and keeps its lower-case fold |
| Text.TitleCaseExample | expenses/forms.py:110 | "coffee beans" title-cases to "Coffee Beans" |
| Text.TitleCaseIdempotent | expenses/forms.py:110 | title-casing twice is title-casing once |
| Text.LowerOfUpper | expenses/views.py:50-53 | upper-casing a string does not change its lower-case fold, so `icontains` ignores the query's case |
| Text.ContainsMeansOccurs | expenses/views.py:50-53 | the substring test holds exactly when the needle occurs at some position |
| Text.StrLeTotal | expenses/views.py:624 | string order by code point is total |
| Text.StrLeTransitive | expenses/views.py:624 | string order is transitive |
| Text.StrLeAntisymmetric | expenses/views.py:624 | string order is antisymmetric |
| Text.StrLeDigits | expenses/views.py:509 | on digit strings of equal length, string order is numeric order |
| Sorting.Filter | expenses/views.py:49-54 | a filter is no longer than its input and everything it keeps passes |
| Sorting.FilterMembers | expenses/views.py:49-54 | everything kept comes from the input, and every input element that passes is kept |
| Sorting.FilterSorted | expenses/views.py:137 | filtering an ordered sequence keeps it ordered |
| Sorting.Sort | expenses/views.py:107 | ordering permutes the input |
| Sorting.SortSorted | expenses/views.py:107 | ordering by a total preorder yields an ordered sequence |
| Sorting.Take | expenses/views.py:139 | slicing `[:n]` is the first min(n, length) elements |
| Sorting.TakeSubMultiset | expenses/views.py:144 | a slice holds each element no more often than the sequence |
| Sorting.Dedupe | expenses/views.py:634 | `dict.fromkeys` leaves no repeats and is no longer than its input |
| Sorting.DedupeMembers | expenses/views.py:634 | `dict.fromkeys` keeps every value and adds none |
| Sorting.DedupeFirstOccurrenceOrder | expenses/views.py:634 | de-duplication keeps values in order of first occurrence |
| Sorting.DedupeOfDistinct | expenses/views.py:634 | a sequence without repeats is unchanged |
| Sorting.DedupeKeepsPrefix | expenses/views.py:634 | de-duplicating `a + b`, where `a` has no repeats, starts with `a` |
| Dates.DaysInMonth | expenses/views.py:62 | `monthrange` month lengths: 31 and 30 for the right months, and February has 29 days exactly in a Gregorian leap year |
| Dates.OrderTrichotomy | expenses/views.py:117 | any two dates are equal or exactly one is before the other |
| Dates.FirstOfMonth | expenses/models.py:15 | `replace(day=1)` stays in the month and is not after the date |
| Dates.LastOfMonth | expenses/views.py:469-470 | the month's last day is in the month and no day of the month is after it |
| Dates.NextDayIsSuccessor | expenses/views.py:471 | adding one day gives the earliest later date |
| Dates.PrevDayIsPredecessor | expenses/views.py:122 | subtracting one day gives the latest earlier date, and adding a day undoes it |
| Dates.NextDayOfLast | expenses/views.py:471 | the day after a month's end is day 1 of the next month |
| Dates.ParseIso | expenses/views.py:244-252 | `fromisoformat` yields only real dates in years 1..9999 |
| Dates.ParseFormatIso | expenses/views.py:246 | every date in range formats to ISO text that parses back to it |
| Dates.FormatParseIso | expenses/views.py:490 | accepted ISO text is the canonical `isoformat` of its date |
| Dates.IsoOrderIsDateOrder | expenses/views.py:509 | ISO keys sort as strings in date order |
| Cycles.CycleMonthShift | expenses/views.py:57-63 | the shifted date is `months` months on, with the year carried, and its day is min(cycle day, month length) |
| Cycles.AnchoredUnique | expenses/views.py:62-63 | each month holds exactly one anchored date |
| Cycles.ShiftCompose | expenses/views.py:57-63 | shifting by n and then k equals shifting by n + k |
| Cycles.ShiftZeroOfAnchored | expenses/views.py:57-63 | a zero shift leaves an anchored date unchanged |
| Cycles.ShiftExamples | expenses/views.py:57-63 | day 31 clamps to 30 in April, 29 in a leap February and 28 otherwise; a backward shift carries the year down and a forward one carries it up |
| Cycles.CurrentCycleStart | expenses/views.py:116-120 | the cycle start is the anchored date of this month or of the previous month |
| Cycles.NextCycleStart | expenses/views.py:121 | the next start is the anchored date one month later |
| Cycles.CycleEnd | expenses/views.py:122 | the displayed end is a real date, before the next start, and the next start is the day after it |
| Cycles.CurrentCycleContainsToday | expenses/views.py:110-122 | start ≤ today < next, the displayed end is next minus one day, and today ≤ end |
| Cycles.CurrentCycleIsLatestAnchor | expenses/views.py:116-120 | no anchored date after the start is on or before today |
| Cycles.MonthOrder | expenses/views.py:117 | an earlier month means an earlier date |
| Cycles.Window | expenses/views.py:124-127 | every transaction in the window is dated in [start, next) |
| Cycles.WindowMembers | expenses/views.py:124-127 | the window keeps exactly the transactions dated in [start, next), drawn from the input |
| Cycles.TypeTotal | expenses/views.py:128-133 | a type's total is non-negative over non-negative amounts and 0 when none has that type |
| Cycles.TypeTotalAppend | expenses/views.py:186-189 | totals add over concatenation |
| Cycles.WindowSplit | expenses/views.py:182-191 | the total over [a, c) is the total over [a, b) plus the total over [b, c) |
| Cycles.TrailingStarts | expenses/views.py:170-173 | twelve anchored starts, oldest first, the i-th one i − 11 months from the current one |
| Cycles.TrailingStartsChain | expenses/views.py:170-181 | the last start is the current one, and each window ends where the next begins |
| Cycles.SeriesTotals | expenses/views.py:178-191 | one total per start |
| Cycles.SeriesTotalsAt | expenses/views.py:178-191 | entry i is the total of type `ty` over the i-th start's cycle window |
| Cycles.SeriesTotalsSnoc | expenses/views.py:180-191 | each loop step appends the total of one more window |
| Cycles.TrailingSeries | expenses/views.py:178-191 | the loop builds `income_data` and `expense_data` as the per-window totals of each type |
| Cycles.SeriesCoversSpan | expenses/views.py:178-191 | over consecutive windows, the series sums to the total over their whole span |
| Cycles.CoversStep | expenses/views.py:178-191 | one more cycle at the end of a run adds its window to the covered span |
| Cycles.TrailingTotalsCoverYear | expenses/views.py:170-191 | the twelve trailing totals sum to the total from the oldest start to the next cycle start |
| Queries.UserTransactions | expenses/views.py:66-69 | exactly the user's transactions |
| Queries.FindCategory | expenses/models.py:46-51 | a category is found exactly when one with that key exists |
| Queries.FilterTransactions | expenses/views.py:36-54 | an empty query returns the input unchanged; otherwise exactly the transactions whose note, category name, type or name contains the query, ignoring case |
| Queries.MatchesIgnoresCase | expenses/views.py:50-53 | upper-casing the query does not change whether a transaction matches |
| Queries.SearchIgnoresCase | expenses/views.py:50-53 | upper-casing the query does not change the search result |
| Queries.SearchByTypeCode | expenses/views.py:52 | "out" finds every outgoing transaction through its type |
| Queries.NewerFirstIsTotalPreorder | expenses/views.py:107 | newest-first is a total preorder |
| Queries.ByDateDescOrdered | expenses/views.py:107 | `order_by('-occurred_on')` is a newest-first permutation |
| Queries.LargerFirstIsTotalPreorder | expenses/views.py:144 | largest-amount-first is a total preorder |
| Queries.OutgoByAmountShape | expenses/views.py:141-145 | the result holds each outgoing transaction of the cycle exactly as often as the cycle does (same multiset), and nothing else, largest first |
| Queries.TopExpensesAreLargest | expenses/views.py:141-145 | min(3, number of outgoing transactions) outgoing transactions of the cycle, each no more often than the cycle holds it (sub-multiset), largest first, none smaller than an outgoing one left out |
| Queries.TopExpenses | expenses/views.py:141-145 | the list has min(3, number of outgoing transactions) entries |
| Queries.TopSpend | expenses/views.py:161-166 | present exactly when the cycle has an outgoing transaction |
| Queries.TopSpendIsMaximum | expenses/views.py:161-166 | present exactly when the cycle has an outgoing transaction, and then one of largest amount |
| Queries.PercentsSplitFlow | expenses/views.py:152-159 | both shares are absent exactly when income + outgo is 0; otherwise the two parts add up to the flow |
| Queries.Dashboard | expenses/views.py:107-191 | the cycle bounds, the first ten cycle transactions, the income and outgo totals, balance = income − outgo, both shares, the top expenses and top spend, the stripped query and its first 15 results, and the twelve-cycle series |
| Queries.SpendHistoryInCycle | expenses/views.py:139 | at most ten of the user's transactions, all in the current window, newest first |
| Queries.WindowSorted | expenses/views.py:124-127 | the window of a newest-first list is newest-first |
| Queries.BalanceExample | expenses/views.py:128-152 | 12000 income against 1000 + 2000 outgo gives a balance of 9000, and a cycle without income totals 0 |
| Queries.SearchResultsSound | expenses/views.py:582-592 | at most `limit` of the user's matching transactions, newest first; a blank query gives none |
| Queries.SearchResults | expenses/views.py:582-592 | at most `limit` results, each from the ordered input and matching the stripped query; a blank query gives none; for a non-blank query, exactly min(`limit`, number of matches) results, the first matches in the given order |
| Queries.SearchResultsKeepNewest | expenses/views.py:590-592 | a matching transaction of the user that is left out means the limit was reached and it is no newer than any result |
| Queries.BlankQueryFindsNothing | expenses/tests.py:334-345 | an empty or all-whitespace query returns no results |
| Queries.SearchResultsComplete | expenses/views.py:591-592 | when the matches fit in the limit, every match is returned |
| Queries.StrLeIsTotalPreorder | expenses/views.py:624 | name order is a total preorder |
| Queries.Names | expenses/views.py:622 | `values_list('name')` is each transaction's name, in order |
| Queries.ActiveCategoryNames | expenses/views.py:627-629 | the names of exactly the active categories: every active category's name is there, and every name is an active category's |
| Queries.FirstTenDistinctShape | expenses/views.py:618-632 | min(10, number of distinct values) distinct values from the input in strictly ascending order, and every value left out sorts after all ten kept |
| Queries.NameSuggestionSource | expenses/views.py:618-625 | a suggested transaction name is non-empty, contains the term and is the name of one of the user's transactions |
| Queries.CategorySuggestionSource | expenses/views.py:626-632 | a suggested category name contains the term and is an active category's name |
| Queries.SuggestionsShape | expenses/views.py:610-636 | no repeats, at most twenty, none for a blank query, the name matches first in order; a suggestion is exactly a name match or a category match, each containing the query and being a non-empty name of the user's transactions or an active category's name |
| Queries.Suggestions | expenses/views.py:611-636 | no repeats, at most twenty, and none for a blank query |
| Queries.NameSuggestionComplete | expenses/views.py:618-625 | a non-empty name of the user's that contains the query is suggested, unless ten names that sort before it fill the name slots |
| Queries.CategorySuggestionComplete | expenses/views.py:626-632 | an active category whose name contains the query is suggested, unless ten names that sort before it fill the category slots |
| MonthCalendar.ParseIntText | expenses/views.py:447 | `int(str(n)) == n` for every integer of at most 4300 digits; longer text is refused, as CPython's digit limit refuses it |
| MonthCalendar.ParseIntTooLong | expenses/views.py:447-449 | 4301 digits are refused even when their value is 0 |
| MonthCalendar.ParseInt | expenses/views.py:446-454 | `int` accepts only stripped text whose characters after the first are digits, at most 4300 of them, and a negative value only with a leading `-` |
| MonthCalendar.ParseIntPadded | expenses/views.py:447 | `int` accepts surrounding whitespace: " 7 " is 7 |
| MonthCalendar.ParseIntRejects | expenses/views.py:447-449 | "abc" is not an integer |
| MonthCalendar.ResolveYearMonth | expenses/views.py:446-467 | the resolved year is in 1..9999 and the month in 1..12 |
| MonthCalendar.ResolveYearMonthCases | expenses/views.py:446-467 | a parsed value is kept when in range; a month outside 1..12 becomes today's month; a year outside 1900..today+5 becomes today's year; a year past 9999 falls back to today's year and month |
| MonthCalendar.ResolveBlankRequest | expenses/views.py:446-454 | missing, empty or unparsable parameters give today's year and month |
| MonthCalendar.ResolvePastMaxYear | expenses/views.py:462-467 | year 10002 with today in 9998 falls back to today's month |
| MonthCalendar.CalendarOrderIsTotalPreorder | expenses/views.py:484 | ordering by (date, name, key) is a total preorder |
| MonthCalendar.MonthEnd | expenses/views.py:469-470 | `monthrange`'s last day: a real date of the requested month whose day is the month's length, and no date of that month comes after it |
| MonthCalendar.MonthWindow | expenses/views.py:477-482 | [day 1, day after month end) holds exactly the month's dates |
| MonthCalendar.MonthTransactionsShape | expenses/views.py:477-485 | exactly the user's transactions in that month, each as often as in the store (same multiset as the month's window), ordered by date, name and key |
| MonthCalendar.MonthTransactions | expenses/views.py:477-485 | no more rows than the user has, ordered by date, name and key |
| MonthCalendar.SignedAmount | expenses/views.py:498-502 | an outgoing amount is prefixed `-` and any other `+`, and the rest is `cents_to_display` of the cents in the user's currency |
| MonthCalendar.EntryOf | expenses/views.py:491-505 | an entry carries the transaction's key, name, note, type code and label; its ISO date is the day key; the category is the category's name or "Uncategorized"; the amount is `-` for an outgoing transaction and `+` otherwise, followed by `cents_to_display` of the cents |
| MonthCalendar.Items | expenses/views.py:489-505 | one (day key, entry) pair per transaction, in order |
| MonthCalendar.EntriesFor | expenses/views.py:491 | a day has entries exactly when some transaction falls on it |
| MonthCalendar.EntriesForSnoc | expenses/views.py:491 | appending a pair extends only its own day's list |
| MonthCalendar.FileOnKnownDay | expenses/views.py:491 | `setdefault(...).append` on an existing day keeps the day map in step with the items filed so far |
| MonthCalendar.FileOnNewDay | expenses/views.py:491 | `setdefault(...).append` on a new day adds its key and keeps the day map in step |
| MonthCalendar.SortedFiling | expenses/views.py:507-510 | sorting the day map's keys yields the days grouped by date |
| MonthCalendar.BuildDays | expenses/views.py:488-510 | days in strictly ascending date order, one per date that has entries, each listing exactly that date's entries in order |
| MonthCalendar.AscendingUnique | expenses/views.py:509 | two ascending key lists with the same members are equal |
| MonthCalendar.GroupsByDayUnique | expenses/views.py:507-510 | the grouping of a given item list is unique |
| MonthCalendar.TodayInShownMonth | expenses/views.py:512-515 | today's ISO text starts with the `YYYY-MM` prefix exactly when the shown month is today's |
| MonthCalendar.MonthTransactionsValid | expenses/views.py:477-485 | every selected transaction is valid and lies in the month |
| MonthCalendar.InitialDateInMonth | expenses/views.py:512-520 | `initial_date` is a date in the shown month, and it is today when today is in that month |
| MonthCalendar.CalendarData | expenses/views.py:438-530 | the resolved year and month, its label, the grouped days of the month's transactions, the currency's symbol, today's ISO date and the initial date; none exactly when the month is December 9999, where the day after the month's end overflows |
| MonthCalendar.MonthLabel | expenses/views.py:525 | `%B %Y`: the month's English name, a space, then the year's digits |
| Forms.FieldMagnitude | expenses/forms.py:65-74 | a field-valid decimal quantizes exactly and within the precision, and exceeds the cap exactly when its value does |
| Forms.FieldAmountCents | expenses/forms.py:91 | `str(amount)` of a value the field accepts (non-negative, at most two places, at most 16 whole digits) parses to its exact cent count |
| Forms.CleanAmountInCents | expenses/forms.py:85-96 | an absent amount, a negative amount and an amount above `MAX_CENTS` are each refused exactly when they occur; otherwise the result is the exact cent count in 0..`MAX_CENTS` |
| Forms.AmountStepErrors | expenses/forms.py:65-96 | on a value the field accepts, the amount cleaner adds no error or only the too-large one |
| Forms.CleanAmountExample8200 | expenses/tests.py:66-78 | "82.00" is cleaned to 8200 |
| Forms.CleanAmountZero | expenses/forms.py:69 | the form accepts 0.00 as 0 cents |
| Forms.CleanAmountRejects | expenses/forms.py:87-90 | a missing amount and -1.50 are refused with their messages |
| Forms.CleanAmountTooLarge | expenses/forms.py:92-95 | one cent above `MAX_CENTS` is refused |
| Forms.InitialAmount | expenses/forms.py:79-83 | cents/100 as a `Decimal`: non-negative, at most two places, equal in value to cents/100, and with trailing zeros removed |
| Forms.InitialAmountRoundTrip | expenses/forms.py:79-96 | for every storable amount up to `MAX_CENTS`, the initial amount is one the field accepts, and submitting it unchanged cleans back to the same cents |
| Forms.InitialAmountText | expenses/forms.py:79-83 | the text of the initial amount parses back to the stored cents |
| Forms.InitialAmountExamples | expenses/tests.py:292-308 | 12345 shows as "123.45", 8200 as "82" and 1230 as "12.3" |
| Forms.NormalizeName | expenses/forms.py:108-110 | the cleaned name is no longer than the input, has no surrounding whitespace and equals the stripped input up to case |
| Forms.NormalizeNameTitleCased | expenses/forms.py:108-110 | each letter of the cleaned name is upper case exactly when it does not follow a letter, and it is the only text equal to the stripped input up to case that is cased that way |
| Forms.NormalizeNameExample | expenses/forms.py:108-110 | "  coffee beans " is cleaned to "Coffee Beans" |
| Forms.NormalizeNameIdempotent | expenses/forms.py:108-110 | cleaning a cleaned name changes nothing |
| Forms.CleanErrors | expenses/forms.py:103-104 | the category error is added exactly for an expense without a category |
| Forms.AfterClean | expenses/forms.py:98-112 | income ends with no category whatever was submitted; an expense without a category loses the field; any other category is kept; the name becomes `NormalizeName` of the submitted name; the other fields are untouched |
| Forms.AfterCleanIdempotent | expenses/forms.py:98-112 | a second `clean` changes nothing and raises the same errors |
| Forms.Validate | expenses/forms.py:85-112 | the errors start with the field errors, in order, and the cleaned type is the submitted one |
| Forms.ValidateAccepts | expenses/forms.py:85-112 | a bound form has no errors exactly when its fields raised none, the amount is present and at most `MAX_CENTS` in cents, and it is not an expense without a category |
| Forms.ValidFormShape | expenses/forms.py:85-112 | a form without errors had no field errors and a non-negative amount; its cents are exact and within the cap, income has no category, an expense has one, and the name is `NormalizeName` of the submitted one |
| Forms.FormAcceptsZero | expenses/forms.py:69 | an income with amount 0.00 validates with 0 cents |
| Forms.ExpenseNeedsCategory | expenses/forms.py:103-104 | an expense without a category always carries "Expenses must have a category." |
| Forms.TransactionForm.constructor | expenses/forms.py:37-83 | the label is "Amount (symbol)", the initial amount is set only for an existing transaction, and nothing is cleaned yet |
| Forms.TransactionForm.AddError | expenses/forms.py:104 | `add_error` appends the error and drops the named field, whichever of the six it is, from the cleaned data; every other field and the form's configuration are kept |
| Forms.TransactionForm.Clean | expenses/forms.py:98-112 | `clean` rewrites the cleaned data as `AfterClean` and appends `CleanErrors` |
| Forms.TransactionForm.FullClean | expenses/forms.py:85-112 | field cleaning, then the amount check, then `clean`, leave exactly `Validate`'s data and errors |
| Ledger.ResolveCategory | expenses/views.py:230 | a posted category resolves only when it is an integer key of an existing category |
| Ledger.ReadAddRequest | expenses/views.py:222-262 | the upper-cased type, the stripped name, an ISO date in range and the parsed amount; a resolved category was posted and exists |
| Ledger.DecideRefusals | expenses/views.py:222-283 | the refusals are checked in the source's order; the request is accepted exactly when the type is valid, an expense has a category, the name, date and amount are present, the amount is in 1..`MAX_CENTS` and a posted category exists |
| Ledger.Decide | expenses/views.py:222-283 | an accepted request keeps the non-blank name and the parsed cents, which are in 1..`MAX_CENTS` |
| Ledger.ValidateAdd | expenses/views.py:222-293 | an accepted request has a non-blank name and an amount in 1..`MAX_CENTS` |
| Ledger.ValidateAddAccepted | expenses/views.py:222-293 | an accepted request stores its upper-cased type, stripped name, date, amount in 1..`MAX_CENTS`, existing category and note |
| Ledger.ZeroAmountExample | expenses/views.py:262 | "0.00" parses to 0 cents |
| Ledger.AddRefusesZero | expenses/views.py:271-276 | the dashboard refuses an amount of "0.00", which the edit form accepts |
| Ledger.AddKeepsIncomeCategory | expenses/views.py:230-290 | an income added with a category keeps it |
| Ledger.AddAcceptsAnyNameLength | expenses/views.py:239-242 | the add path accepts a name of any length |
| Ledger.OwnedIndex | expenses/views.py:347-349 | the position of the row with that key and owner, or none when the caller owns no such row |
| Ledger.NullCategory | expenses/models.py:46-51 | `SET_NULL`: rows referring to the removed category lose the reference, and no other row changes |
| Ledger.FilterAll | expenses/views.py:567 | a filter everything passes is the identity |
| Ledger.FilterNone | expenses/views.py:567 | a filter nothing passes is empty |
| Ledger.FilterUniqueIds | expenses/views.py:567 | deleting rows keeps keys distinct |
| Ledger.FilterRowsOk | expenses/views.py:423 | deleting rows keeps every remaining row well formed |
| Ledger.FilterSingleton | expenses/views.py:423 | filtering one row keeps it exactly when it passes |
| Ledger.WithoutAbsentId | expenses/views.py:423 | deleting an absent key changes nothing |
| Ledger.RemoveById | expenses/views.py:423 | deleting a key present once removes exactly that row and keeps the order |
| Ledger.FilterNested | expenses/views.py:563-567 | a stricter filter after a looser one is the stricter filter |
| Ledger.ClearCount | expenses/views.py:563-567 | the count shown plus the rows left is the number of rows before |
| Ledger.ClearedHistory | expenses/views.py:567 | after clearing, the user has no transactions and every other user has the same ones |
| Ledger.FindCategoryAfterRemoval | expenses/models.py:46-51 | removing one category leaves every other key resolving as before |
| Ledger.NewRow | expenses/views.py:285-293 | the created row has the new key, the owner, and the validated amount and category |
| Ledger.AcceptedRowOk | expenses/views.py:285-293 | a row built from an accepted request satisfies the store's row invariant |
| Ledger.AppendRow | expenses/views.py:285 | appending a fresh-key valid row keeps the invariant |
| Ledger.ReplaceRow | expenses/views.py:363 | saving a valid row over its own key keeps the invariant |
| Ledger.ValidFormRowOk | expenses/views.py:362-363 | the row a valid edit form saves over a valid row is itself a valid row under the same key |
| Ledger.ZeroAmountField | expenses/views.py:254-262 | a posted "0.00" is read as zero cents |
| Ledger.ZeroAmountRaw | expenses/views.py:254-256 | a posted "0.00" is kept as the amount text |
| Ledger.SaveForm | expenses/views.py:363 | `form.save()` keeps the key and owner; for each of name, type, amount, category, date and note, a cleaned value is written and a dropped field keeps the stored value |
| Ledger.LedgerStore.constructor | expenses/models.py:29-86 | an empty ledger over the given users and categories (names of at most 100 characters) satisfies the invariant |
| Ledger.LedgerStore.GetOrCreateSettings | expenses/views.py:72-78 | the settings become `FetchedSettings`: an existing row is returned unchanged, otherwise the defaults are created; the code is the stored one or USD, with its symbol |
| Ledger.LedgerStore.UpdateCycleStart | expenses/views.py:197-217 | a blank value changes nothing; non-ISO text is refused and changes nothing; otherwise only the user's anchor changes |
| Ledger.LedgerStore.Create | expenses/views.py:285-293 | the new row is appended under the next key, which then advances; the store invariant holds and nothing else changes |
| Ledger.LedgerStore.SaveRow | expenses/views.py:363 | the row at the given index is replaced under its own key; the store invariant holds and nothing else changes |
| Ledger.LedgerStore.Add | expenses/views.py:222-299 | stores exactly one new row, owned by the user under the next key, exactly when `ValidateAdd` accepts; a refusal returns its reason and stores nothing |
| Ledger.LedgerStore.DashboardPost | expenses/views.py:193-299 | the settings are fetched or created first. `update_cycle_start` stores no transaction and changes at most the user's anchor, exactly when `UpdateCycleStart` accepts the value. Any other action takes the add path: exactly one new row under the next key when `ValidateAdd` accepts, nothing stored otherwise. Users and categories never change |
| Ledger.LedgerStore.Lookup | expenses/views.py:347-349 | finds a row only when it has that key and belongs to the caller |
| Ledger.LedgerStore.Delete | expenses/views.py:411-425 | removes exactly the caller's row with that key and keeps the others in order, after fetching or creating the caller's settings; another user's key changes nothing at all |
| Ledger.LedgerStore.ClearHistory | expenses/views.py:559-578 | reports how many transactions the user had, removes all of them and leaves every other user's transactions unchanged |
| Ledger.LedgerStore.DeleteUser | expenses/models.py:40-44 | deleting a user cascades to that user's transactions and settings, and every other user keeps theirs |
| Ledger.LedgerStore.RemoveCategory | expenses/models.py:46-51 | a category's removal keeps every transaction and clears every reference to it |
| Ledger.LedgerStore.Edit | expenses/views.py:344-366 | not found exactly when the caller owns no such row; otherwise the settings are fetched or created, an invalid form reports its errors and changes no transaction, and a valid form saves its cleaned data over that row only |
| Display.DisplayCategory | expenses/templatetags/expense_extras.py:24-39 | "N/A" for no transaction and for any income; an expense shows its category's name, or "N/A" without one |
| Display.CategoryLabelVersusCalendar | expenses/templatetags/expense_extras.py:31-37 | the label and the calendar agree on an expense's category, while an income with a category shows "N/A" in the label and the name in the calendar |
| Display.RemovedCategoryShowsNA | expenses/templatetags/expense_extras.py:35-39 | after its category is removed, a transaction shows "N/A" |
| Display.FilterCents | expenses/templatetags/expense_extras.py:16-19 | `int(value)` on an integer or integer text of at most 4300 digits, and 0 when `int` raises, longer digit text included |
| Display.CentsToCurrency | expenses/templatetags/expense_extras.py:10-21 | present exactly when the cents are displayable; the output starts with the symbol, and its ungrouped units parse back to the cents |
| Display.CentsToCurrencyOfInt | expenses/templatetags/expense_extras.py:16-21 | on an integer, and on its decimal text, the filter equals `cents_to_display` |
| Display.StoredAmountShown | expenses/templatetags/expense_extras.py:10-21 | every stored amount can be shown |
| Display.ZeroDisplay | expenses/currencies.py:35-46 | 0 cents show as "$0.00" |
| Display.CentsToCurrencyFallback | expenses/templatetags/expense_extras.py:16-19 | a non-integer value and unparsable text both show as "$0.00" |
| Display.CentsToCurrencyExample | expenses/templatetags/expense_extras.py:10-21 | 12345 shows as "$123.45" |

## Left out

- Request and response plumbing is out: authentication, AJAX detection, messages, redirects, rendering, JSON responses and URL reversal. Handlers are methods over explicit inputs and outcomes. `Ledger.AddMessage` and `Forms.AmountMessage` keep the message texts.
- The clock (`timezone.localdate`, `date.today`) is the `today` parameter.
- The database is modelled as the store's fields. ORM tie order among equal keys is not modelled: the sort is stable on store order, while the database leaves ties unspecified. The `get_or_create` race is not modelled.
- Queries.Dashboard, MonthCalendar.CalendarData and Queries.SearchResults are read-only functions. They leave out the settings `get_or_create` write that their views make (expenses/views.py:102, 473 and 589). The write itself is `Ledger.LedgerStore.GetOrCreateSettings`.
- The dashboard shares `income / total_flow * 100` are float divisions. Only the zero-flow branch and the part/flow pair are modelled (`Queries.FlowShare`).
- Queries.Dashboard does not return the chart's `months` labels, `start.strftime('%Y-%m-%d')` of each trailing cycle start (expenses/views.py:174-177). Each label is `Dates.FormatIso` of the start that `Cycles.TrailingStarts` gives.
- Name order (`order_by('name')`, the calendar's name tie-break, and the suggestion sort) is modelled as code-point order. That is SQLite's default BINARY collation and Python's string order; other database collations are not modelled.
- Cycle and calendar labels come from `strftime` (`%Y-%m-%d`, `%B %Y`). `MonthCalendar.MonthLabel` uses English month names and ignores locale.
- Case handling (`upper`, `icontains`, `str.title`) and `strip` are modelled for ASCII letters and ASCII whitespace only.
- `Decimal` input is limited to an optional sign, digits and an optional `.digits`. Exponents, NaN, Infinity and underscores are not modelled. `Decimal` also strips leading and trailing whitespace, while `Currencies.ParseDecimal` refuses it. Every caller passes stripped text or `str(amount)`, so no modelled path sees the difference.
- `int()` in the calendar and in `cents_to_currency` is modelled without underscores and non-ASCII digits. Its 4300-digit limit (`MonthCalendar.INT_MAX_STR_DIGITS`) is CPython's default from 3.11 on; older versions, and a changed `sys.set_int_max_str_digits`, are not modelled.
- `date.fromisoformat` is modelled for the `YYYY-MM-DD` form only. Newer Pythons also accept other ISO 8601 forms.
- Forms.CleanAmountInCents: field-level `DecimalField` validation is framework behaviour. That covers required, at most two decimal places, at most 18 digits (so at most 16 whole digits) and the minimum of 0. The model takes its outcome as input: a decimal satisfying `Forms.FieldAccepts`, or no value together with a field error. Because a missing value always brings a field error and a negative one never reaches the cleaner, the "Please enter an amount." and negative branches cannot be reached in `Forms.Validate` (`Forms.AmountStepErrors`).
- Widget attributes, placeholders, help texts, the disabled category widget for income and the category field's empty label are presentation and are left out.
- Model-level validation is left out. `ModelForm` runs the instance's `full_clean` at the end of `is_valid()`; `form.save()` itself does not validate. It cannot fail on data that passed the form: `Models.MaxCentsFitsColumn`.
- Ledger.LedgerStore.Add: the 120-character name limit is not checked, matching the add path, which passes the name straight to `create` (`Ledger.AddAcceptsAnyNameLength`). Whether an over-long name is refused depends on the database engine, so the store invariant does not include it.
- Ledger.LedgerStore.Add: a posted category that is not an integer, or names no category, fails when the row is inserted. This is the `ValueError` or integrity error that the view does not catch. The model returns it as `UnknownCategory` and stores nothing.
- Cycles.CycleMonthShift: the result is not limited to Python's year range 1..9999, where `date()` would raise. Shifts near year 1 or year 9999 are not modelled as errors.
- The `else 1` cycle-day branch (no anchor date) cannot occur: the column is not nullable and has a default.
- MonthCalendar.CalendarData: for December 9999, `end_date + timedelta(days=1)` raises `OverflowError`. This is modelled as no response.
- MonthCalendar.EntryOf: a dangling category reference shows as "Uncategorized", the same as no category. Foreign-key integrity rules it out in the store.
- MonthCalendar.EntryOf: the entry's `detail_url` (a reversed URL) is left out.
- MonthCalendar.BuildDays: the (day, entry) pairs are computed before the filing loop, not inside it. The result is the same.
- Display.FilterCents: a float or `Decimal` a template passes is modelled as `OtherValue` and shown as 0. `int()` would truncate it instead; the model does not carry non-integer numbers.
- GET confirmation pages (delete, clear history, account deletion) only render and are left out. `delete_account` is modelled by its effect, `Ledger.LedgerStore.DeleteUser`.
- The currency settings form, the transaction list page, the admin site and all JavaScript are outside the modelled core.
