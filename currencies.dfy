/**
 * The amount codec of `expenses/currencies.py`: currency symbols, the storage
 * cap, parsing a decimal string into integer cents with half-up rounding, and
 * rendering cents as a symbol, comma-grouped units and two decimals.
 *
 * Python's `Decimal` works in a context of 28 significant digits; the two
 * places where that limit changes the outcome are modelled: `quantize` raises
 * `InvalidOperation` when the cents need more than 28 digits, and so does the
 * display of such an amount.
 */
module Currencies {
  import opened Wrappers
  import opened Text

  const DEFAULT_CURRENCY: string := "USD"

  /** The three currency choices a user can pick. */
  const CURRENCY_CODES: seq<string> := ["USD", "GBP", "EUR"]

  const CURRENCY_SYMBOLS: map<string, string> := map["USD" := "$", "GBP" := "£", "EUR" := "€"]

  /** The largest amount a transaction may carry: 9 trillion units, in cents. */
  const MAX_CENTS: int := 900_000_000_000_000

  /** Significant digits of Python's default decimal context. */
  const DECIMAL_PRECISION: nat := 28

  /** 10^28, the least coefficient the default context cannot hold. */
  const DECIMAL_LIMIT: nat := 10_000_000_000_000_000_000_000_000_000

  lemma DecimalLimitIsPow10()
    ensures Pow10(DECIMAL_PRECISION) == DECIMAL_LIMIT
  {
    assert Pow10(14) == 100_000_000_000_000 by { }
    Pow10Add(14, 14);
  }

  /** `get_currency_symbol`: the table entry, or the default currency's symbol. */
  function CurrencySymbol(code: string): (sym: string)
    ensures code == "USD" ==> sym == "$"
    ensures code == "GBP" ==> sym == "£"
    ensures code == "EUR" ==> sym == "€"
    ensures code !in CURRENCY_CODES ==> sym == "$"
  {
    if code in CURRENCY_SYMBOLS then CURRENCY_SYMBOLS[code]
    else CURRENCY_SYMBOLS[DEFAULT_CURRENCY]
  }

  // ---------------------------------------------------------------- decimals

  /** A finite decimal: (-1)^negative * coeff * 10^-scale, as `Decimal` keeps it. */
  datatype Dec = Dec(negative: bool, coeff: nat, scale: nat)

  /** Index of the first '.' in `s`, or |s| when there is none. */
  function DotIndex(s: string): (k: nat)
    ensures k <= |s| && (k < |s| ==> s[k] == '.')
    ensures forall i :: 0 <= i < k ==> s[i] != '.'
  {
    if s == [] || s[0] == '.' then 0 else 1 + DotIndex(s[1..])
  }

  /** The optional leading sign and the rest of the string. */
  function SplitSign(s: string): (r: (bool, string))
    ensures |r.1| <= |s| && r.1 == s[|s| - |r.1|..]
  {
    if |s| > 0 && (s[0] == '-' || s[0] == '+') then (s[0] == '-', s[1..]) else (false, s)
  }

  /** Coefficient and scale of  digits ('.' digits?)?  |  '.' digits. */
  function ParseUnsigned(body: string): Option<(nat, nat)> {
    var dot := DotIndex(body);
    var intPart := body[..dot];
    var fracPart := if dot < |body| then body[dot + 1..] else "";
    if AllDigits(intPart) && AllDigits(fracPart) && |intPart| + |fracPart| > 0 then
      // the coefficient is the value of all the digits, the scale the number of decimals
      Some((DigitsValue(intPart) * Pow10(|fracPart|) + DigitsValue(fracPart), |fracPart|))
    else None
  }

  /** Digits with at most one '.' are all the unsigned part can hold when it parses. */
  lemma UnsignedCharacters(body: string)
    requires ParseUnsigned(body).Some?
    ensures forall i :: 0 <= i < |body| ==> IsDigit(body[i]) || body[i] == '.'
  {
    var dot := DotIndex(body);
    forall i | 0 <= i < |body| ensures IsDigit(body[i]) || body[i] == '.' {
      if i < dot {
        assert body[i] == body[..dot][i];
      } else if i > dot {
        assert body[i] == body[dot + 1..][i - dot - 1];
      }
    }
  }

  /**
   * `Decimal(s)` for the grammar  sign? digits ('.' digits?)?  |  sign? '.' digits;
   * `None` where Python raises `InvalidOperation`. Accepted text is made of
   * digits, a sign and a point, and the value is negative exactly when the
   * text starts with '-'.
   */
  function ParseDecimal(s: string): (r: Option<Dec>)
    ensures r.Some? ==> |s| > 0 && (r.value.negative <==> s[0] == '-')
  {
    var split := SplitSign(s);
    match ParseUnsigned(split.1)
    case None => None
    case Some(cs) => Some(Dec(split.0, cs.0, cs.1))
  }

  /** Only signs, digits and the point get through: blanks, letters and exponents are refused. */
  lemma ParsedCharacters(s: string)
    requires ParseDecimal(s).Some?
    ensures forall i :: 0 <= i < |s| ==> IsDigit(s[i]) || s[i] in "+-."
  {
    var split := SplitSign(s);
    UnsignedCharacters(split.1);
    assert forall i :: 0 <= i < |s| - |split.1| ==> s[i] in "+-.";
    assert forall i :: |s| - |split.1| <= i < |s| ==> s[i] == split.1[i - (|s| - |split.1|)];
  }

  /** `str(d)` for a decimal Python prints without an exponent (scale at most 6). */
  function RenderDec(d: Dec): (s: string)
    requires d.scale <= 6
  {
    var p := Pow10(d.scale);
    var ip := NatToDigits(Quot(d.coeff, p));
    SignText(d.negative) + (if d.scale > 0 then ip + "." + ZeroPadded(Rem(d.coeff, p), d.scale) else ip)
  }

  lemma {:induction false} DotIndexAfterDigits(a: string, rest: string)
    requires AllDigits(a)
    ensures DotIndex(a + rest) == |a| + DotIndex(rest)
  {
    if a == [] {
      assert a + rest == rest;
    } else {
      assert (a + rest)[0] == a[0];
      assert (a + rest)[1..] == a[1..] + rest;
      DotIndexAfterDigits(a[1..], rest);
    }
  }

  function SignText(negative: bool): string {
    if negative then "-" else ""
  }

  lemma SplitSignOfDigits(negative: bool, ip: string)
    requires |ip| >= 1 && IsDigit(ip[0])
    ensures SplitSign(SignText(negative) + ip) == (negative, ip)
  {
    var s := SignText(negative) + ip;
    if negative {
      assert s[0] == '-' && s[1..] == ip;
    } else {
      assert s == ip;
    }
  }

  lemma {:induction false} ParseUnsignedWithFraction(ip: string, fp: string)
    requires AllDigits(ip) && AllDigits(fp) && |ip| >= 1
    ensures ParseUnsigned(ip + "." + fp) ==
      Some((DigitsValue(ip) * Pow10(|fp|) + DigitsValue(fp), |fp|))
  {
    var body := ip + "." + fp;
    assert body == ip + ("." + fp);
    DotIndexAfterDigits(ip, "." + fp);
    assert DotIndex("." + fp) == 0;
    var dot := DotIndex(body);
    assert dot == |ip|;
    assert body[..dot] == ip;
    assert dot < |body|;
    assert body[dot + 1..] == fp;
    var coeff := DigitsValue(ip) * Pow10(|fp|) + DigitsValue(fp);
    assert ParseUnsigned(body) == Some((coeff, |fp|));
  }

  /** Reading `sign digits . digits`. */
  lemma {:induction false} ParseWithFraction(negative: bool, ip: string, fp: string)
    requires AllDigits(ip) && AllDigits(fp) && |ip| >= 1
    ensures ParseDecimal(SignText(negative) + (ip + "." + fp)) ==
      Some(Dec(negative, DigitsValue(ip) * Pow10(|fp|) + DigitsValue(fp), |fp|))
  {
    var body := ip + "." + fp;
    assert SplitSign(SignText(negative) + body) == (negative, body) by {
      assert body[0] == ip[0];
      SplitSignOfDigits(negative, body);
    }
    ParseUnsignedWithFraction(ip, fp);
  }

  lemma {:induction false} ParseUnsignedWhole(ip: string)
    requires AllDigits(ip) && |ip| >= 1
    ensures ParseUnsigned(ip) == Some((DigitsValue(ip), 0))
  {
    DotIndexAfterDigits(ip, "");
    assert ip + "" == ip;
    assert DotIndex(ip) == |ip|;
    assert ip[..|ip|] == ip;
    assert DigitsValue("") == 0;
  }

  /** Reading `sign digits`. */
  lemma {:induction false} ParseWhole(negative: bool, ip: string)
    requires AllDigits(ip) && |ip| >= 1
    ensures ParseDecimal(SignText(negative) + ip) == Some(Dec(negative, DigitsValue(ip), 0))
  {
    SplitSignOfDigits(negative, ip);
    ParseUnsignedWhole(ip);
  }

  lemma {:induction false} ParseRenderFraction(d: Dec)
    requires 0 < d.scale <= 6
    ensures ParseDecimal(RenderDec(d)) == Some(d)
  {
    var p := Pow10(d.scale);
    var q, r := Quot(d.coeff, p), Rem(d.coeff, p);
    var ip := NatToDigits(q);
    var fp := ZeroPadded(r, d.scale);
    assert |fp| == d.scale && DigitsValue(fp) == r by {
      ZeroPaddedLength(r, d.scale);
      ZeroPaddedValue(r, d.scale);
    }
    assert DigitsValue(ip) * Pow10(|fp|) + DigitsValue(fp) == d.coeff by {
      DivModSplit(d.coeff, p);
    }
    ParseWithFraction(d.negative, ip, fp);
    assert RenderDec(d) == SignText(d.negative) + (ip + "." + fp);
  }

  lemma {:induction false} ParseRenderWhole(d: Dec)
    requires d.scale == 0
    ensures ParseDecimal(RenderDec(d)) == Some(d)
  {
    var p := Pow10(d.scale);
    var ip := NatToDigits(Quot(d.coeff, p));
    assert p == 1;
    assert RenderDec(d) == SignText(d.negative) + ip;
    ParseWhole(d.negative, ip);
  }

  /** Printing a decimal and reading it back gives the same decimal. */
  lemma ParseRenderDec(d: Dec)
    requires d.scale <= 6
    ensures ParseDecimal(RenderDec(d)) == Some(d)
  {
    if d.scale > 0 {
      ParseRenderFraction(d);
    } else {
      ParseRenderWhole(d);
    }
  }

  // ---------------------------------------------------------------- quantize

  /** Rounds n / p to the nearest integer, halves upward. */
  function RoundHalfUp(n: nat, p: nat): nat
    requires p >= 1
  {
    Quot(n, p) + (if 2 * Rem(n, p) >= p then 1 else 0)
  }

  /** |cents| of `d.quantize(Decimal("0.01"), ROUND_HALF_UP) * 100`. */
  function QuantizedMagnitude(d: Dec): nat {
    if d.scale <= 2 then d.coeff * Pow10(2 - d.scale)
    else RoundHalfUp(d.coeff, Pow10(d.scale - 2))
  }

  /**
   * `quantize_amount` followed by the exact multiplication by 100: the amount
   * in whole cents, rounded half away from zero; `None` where the quantized
   * coefficient would need more than 28 digits and Python raises.
   */
  function Quantize(d: Dec): (r: Option<int>)
    ensures r.Some? ==> Displayable(r.value)
    ensures r.Some? && r.value != 0 ==> (r.value < 0 <==> d.negative)
    ensures d.scale <= 2 ==> (r.Some? <==> d.coeff * Pow10(2 - d.scale) < DECIMAL_LIMIT)
  {
    var m: int := QuantizedMagnitude(d);
    var signed: int := if d.negative then -m else m;
    if m >= DECIMAL_LIMIT then None else Some(signed)
  }

  /**
   * `parse_display_amount_to_cents`; `None` where Python raises. A result is
   * within the decimal precision, and negative only for text starting with '-'.
   */
  function ParseAmountToCents(s: string): (r: Option<int>)
    ensures ParseDecimal(s).None? ==> r.None?
    ensures r.Some? ==> Displayable(r.value)
    ensures r.Some? && r.value < 0 ==> |s| > 0 && s[0] == '-'
  {
    match ParseDecimal(s)
    case None => None
    case Some(d) => Quantize(d)
  }

  /** Amounts with at most two decimals are converted exactly. */
  lemma QuantizeExact(d: Dec)
    requires d.scale <= 2
    ensures QuantizedMagnitude(d) * Pow10(d.scale) == d.coeff * 100
  {
    assert Pow10(2 - d.scale) * Pow10(d.scale) == 100 by {
      if d.scale == 0 { } else if d.scale == 1 { } else { }
    }
  }

  /**
   * With more than two decimals the result is the nearest whole number of
   * cents, halves rounded up in magnitude (ROUND_HALF_UP, not bankers'
   * rounding).
   */
  lemma QuantizeRoundsHalfUp(d: Dec)
    requires d.scale > 2
    ensures var p := Pow10(d.scale - 2); var m := QuantizedMagnitude(d);
      2 * m * p <= 2 * d.coeff + p < 2 * m * p + 2 * p
  {
    var p := Pow10(d.scale - 2);
    var q, r := Quot(d.coeff, p), Rem(d.coeff, p);
    DivModSplit(d.coeff, p);
    assert QuantizedMagnitude(d) == q + (if 2 * r >= p then 1 else 0);
    HalfUpBounds(q, r, p);
  }

  lemma HalfUpBounds(q: nat, r: nat, p: nat)
    requires r < p
    ensures var m := q + (if 2 * r >= p then 1 else 0);
      2 * m * p <= 2 * (q * p + r) + p < 2 * m * p + 2 * p
  {
    if 2 * r >= p {
      assert 2 * (q + 1) * p == 2 * q * p + 2 * p;
    }
  }

  /** Rounding is symmetric in the sign: halves go away from zero. */
  lemma QuantizeSignSymmetric(coeff: nat, scale: nat)
    ensures Quantize(Dec(true, coeff, scale)).Some? == Quantize(Dec(false, coeff, scale)).Some?
    ensures Quantize(Dec(true, coeff, scale)).Some? ==>
      Quantize(Dec(true, coeff, scale)).value == -Quantize(Dec(false, coeff, scale)).value
  {
  }

  // ---------------------------------------------------------------- display

  /** Inserts a ',' between each group of three digits, counting from the right. */
  function Group(ds: string): (r: string)
    requires |ds| >= 1
    ensures |r| == |ds| + (|ds| - 1) / 3
    ensures r[0] == ds[0]
  {
    if |ds| <= 3 then ds
    else Group(ds[..|ds| - 3]) + "," + ds[|ds| - 3..]
  }

  /** The string with every ',' removed. */
  function Ungroup(s: string): (r: string)
    ensures ',' !in r
  {
    if s == [] then []
    else (if s[0] == ',' then [] else [s[0]]) + Ungroup(s[1..])
  }

  lemma {:induction false} UngroupAppend(a: string, b: string)
    ensures Ungroup(a + b) == Ungroup(a) + Ungroup(b)
  {
    if a == [] {
      assert a + b == b;
    } else {
      assert (a + b)[0] == a[0];
      assert (a + b)[1..] == a[1..] + b;
      UngroupAppend(a[1..], b);
    }
  }

  lemma {:induction false} UngroupPlain(s: string)
    requires ',' !in s
    ensures Ungroup(s) == s
  {
    if s != [] {
      UngroupPlain(s[1..]);
    }
  }

  lemma DigitsHaveNoComma(s: string)
    requires AllDigits(s)
    ensures ',' !in s
  {
  }

  lemma UngroupComma()
    ensures Ungroup(",") == []
  {
  }

  /** Dropping the separator between a grouped prefix and a comma-free tail. */
  lemma UngroupJoin(g: string, lo: string)
    requires ',' !in lo
    ensures Ungroup(g + "," + lo) == Ungroup(g) + lo
  {
    UngroupAppend(g, ",");
    UngroupAppend(g + ",", lo);
    UngroupComma();
    UngroupPlain(lo);
  }

  /** Removing the separators gives back the digits. */
  lemma {:induction false} UngroupGroup(ds: string)
    requires |ds| >= 1 && AllDigits(ds)
    ensures Ungroup(Group(ds)) == ds
  {
    if |ds| <= 3 {
      DigitsHaveNoComma(ds);
      UngroupPlain(ds);
    } else {
      var k := |ds| - 3;
      var hi, lo := ds[..k], ds[k..];
      UngroupGroup(hi);
      DigitsHaveNoComma(lo);
      UngroupJoin(Group(hi), lo);
      assert ds == hi + lo;
    }
  }

  /** Amounts whose display Python can compute without raising. */
  predicate Displayable(cents: int) {
    -(DECIMAL_LIMIT as int) < cents < DECIMAL_LIMIT
  }

  function Abs(x: int): nat { if x < 0 then -x else x }

  /** `f"{quantize_amount(Decimal(cents) / Decimal(100)):,.2f}"`. */
  function FormatUnits(cents: int): (r: string)
    requires Displayable(cents)
    ensures |r| > 0 && (r[0] == '-' <==> cents < 0)
  {
    var m := Abs(cents);
    SignText(cents < 0) + (Group(NatToDigits(m / 100)) + "." + ZeroPadded(m % 100, 2))
  }

  /**
   * `cents_to_display`: the currency symbol followed by the formatted units,
   * which start with '-' exactly for a negative amount.
   */
  function CentsToDisplay(cents: int, code: string): (shown: string)
    requires Displayable(cents)
    ensures var sym := CurrencySymbol(code);
      |shown| > |sym| && shown[..|sym|] == sym && (shown[|sym|] == '-' <==> cents < 0)
  {
    CurrencySymbol(code) + FormatUnits(cents)
  }

  /** Without its separators, the formatted amount is the plain two-decimal rendering. */
  lemma {:induction false} UngroupFormatUnits(cents: int)
    requires Displayable(cents)
    ensures Ungroup(FormatUnits(cents)) == RenderDec(Dec(cents < 0, Abs(cents), 2))
  {
    var m := Abs(cents);
    var sign := SignText(cents < 0);
    var ds := NatToDigits(m / 100);
    var cc := ZeroPadded(m % 100, 2);
    var tail := Group(ds) + "." + cc;
    assert FormatUnits(cents) == sign + tail;
    UngroupAppend(sign, tail);
    UngroupPlain(sign);
    UngroupAppend(Group(ds) + ".", cc);
    UngroupAppend(Group(ds), ".");
    UngroupGroup(ds);
    UngroupPlain(".");
    UngroupPlain(cc);
    assert Ungroup(tail) == ds + "." + cc;
    assert Pow10(2) == 100;
    assert RenderDec(Dec(cents < 0, m, 2)) == sign + (ds + "." + cc);
  }

  /** A two-decimal amount within precision quantizes to itself. */
  lemma QuantizeCents(negative: bool, m: nat)
    requires m < DECIMAL_LIMIT
    ensures var v: int := if negative then 0 - m as int else m; Quantize(Dec(negative, m, 2)) == Some(v)
  {
    QuantizeExact(Dec(negative, m, 2));
    assert Pow10(2) == 100;
  }

  /** Parsing the separator-free units gives back the cents. */
  lemma ParseFormatUnits(cents: int)
    requires Displayable(cents)
    ensures ParseAmountToCents(Ungroup(FormatUnits(cents))) == Some(cents)
  {
    var d := Dec(cents < 0, Abs(cents), 2);
    UngroupFormatUnits(cents);
    ParseRenderDec(d);
    QuantizeCents(cents < 0, Abs(cents));
  }

  /**
   * The display is an exact rendering: dropping the symbol and the thousands
   * separators and parsing the rest gives back the same number of cents.
   */
  lemma DisplayRoundTrip(cents: int, code: string)
    requires Displayable(cents)
    ensures var shown := CentsToDisplay(cents, code);
      |shown| >= |CurrencySymbol(code)| &&
      shown[..|CurrencySymbol(code)|] == CurrencySymbol(code) &&
      ParseAmountToCents(Ungroup(shown[|CurrencySymbol(code)|..])) == Some(cents)
  {
    var sym := CurrencySymbol(code);
    var units := FormatUnits(cents);
    var shown := sym + units;
    assert shown[|sym|..] == units;
    assert shown[..|sym|] == sym;
    ParseFormatUnits(cents);
  }

  // ---------------------------------------------------------------- examples

  /** Amounts of at most eight digits are inside the decimal precision. */
  lemma SmallIsInPrecision(m: nat)
    requires m < 100_000_000
    ensures m < DECIMAL_LIMIT
  {
  }

  /** Reading a decimal that prints as `s` and fits the precision. */
  lemma ParseRendered(s: string, d: Dec)
    requires d.scale <= 6 && RenderDec(d) == s
    ensures ParseDecimal(s) == Some(d)
  {
    ParseRenderDec(d);
  }

  lemma ParseExample1999()
    ensures ParseAmountToCents("19.99") == Some(1999)
  {
    assert Pow10(2) == 100;
    assert NatToDigits(19) == "19" && ZeroPadded(99, 2) == "99";
    ParseRendered("19.99", Dec(false, 1999, 2));
    SmallIsInPrecision(1999);
    QuantizeCents(false, 1999);
  }

  lemma ParseExample8200()
    ensures ParseAmountToCents("82.00") == Some(8200)
  {
    assert Pow10(2) == 100;
    assert NatToDigits(82) == "82" && ZeroPadded(0, 2) == "00";
    ParseRendered("82.00", Dec(false, 8200, 2));
    SmallIsInPrecision(8200);
    QuantizeCents(false, 8200);
  }

  lemma LargeDigits()
    ensures AllDigits("5000000000000") && DigitsValue("5000000000000") == 5_000_000_000_000
  {
    FiveThenZeros();
    assert DigitsValue("5") == 5 by { }
    ZerosValue(12);
    DigitsValueAppend("5", Zeros(12));
    Pow10Of12();
  }

  lemma FiveThenZeros()
    ensures "5000000000000" == "5" + Zeros(12)
  {
  }

  lemma Pow10Of12()
    ensures Pow10(12) == 1_000_000_000_000
  {
  }

  lemma LargeDecimal()
    ensures ParseDecimal("5000000000000.00") == Some(Dec(false, 500_000_000_000_000, 2))
  {
    var ip := "5000000000000";
    LargeDigits();
    assert AllDigits("00") && DigitsValue("00") == 0 by { }
    assert Pow10(2) == 100 by { }
    ParseWithFraction(false, ip, "00");
    var t := SignText(false) + (ip + "." + "00");
    var v := DigitsValue(ip) * Pow10(|"00"|) + DigitsValue("00");
    assert v == 500_000_000_000_000;
    assert ParseDecimal(t) == Some(Dec(false, v, |"00"|));
    assert t == "5000000000000.00" by { }
  }

  /** Five trillion units is 500000000000000 cents, under the cap. */
  lemma ParseLargeExample()
    ensures ParseAmountToCents("5000000000000.00") == Some(500_000_000_000_000)
    ensures 500_000_000_000_000 <= MAX_CENTS
  {
    LargeDecimal();
    QuantizeCents(false, 500_000_000_000_000);
  }

  /** Half a cent rounds away from zero. */
  lemma ParseRoundingUp()
    ensures ParseAmountToCents("1.005") == Some(101)
  {
    assert Pow10(3) == 1000 && Pow10(1) == 10;
    assert NatToDigits(1) == "1" && ZeroPadded(5, 3) == "005";
    ParseRendered("1.005", Dec(false, 1005, 3));
    SmallIsInPrecision(101);
  }

  lemma ParseRoundingNegative()
    ensures ParseAmountToCents("-1.005") == Some(-101)
  {
    assert Pow10(3) == 1000 && Pow10(1) == 10;
    assert NatToDigits(1) == "1" && ZeroPadded(5, 3) == "005";
    ParseRendered("-1.005", Dec(true, 1005, 3));
    SmallIsInPrecision(101);
  }

  /** Less than half a cent rounds down. */
  lemma ParseRoundingDown()
    ensures ParseAmountToCents("1.004") == Some(100)
  {
    assert Pow10(3) == 1000 && Pow10(1) == 10;
    assert NatToDigits(1) == "1" && ZeroPadded(4, 3) == "004";
    ParseRendered("1.004", Dec(false, 1004, 3));
    SmallIsInPrecision(100);
  }

  lemma ParseWholeExample()
    ensures ParseAmountToCents("-5") == Some(-500)
  {
    assert Pow10(0) == 1 && Pow10(2) == 100;
    assert NatToDigits(5) == "5";
    ParseRendered("-5", Dec(true, 5, 0));
    SmallIsInPrecision(500);
  }

  /** Text that is not a plain decimal is refused. */
  lemma ParseRejectEmpty()
    ensures ParseAmountToCents("") == None
  {
    assert ParseUnsigned("") == None;
  }

  lemma ParseRejectSignOnly()
    ensures ParseAmountToCents("-") == None
  {
    var s := "-";
    assert s[0] == '-' && s[1..] == [];
    assert SplitSign(s) == (true, []);
    assert ParseUnsigned([]) == None;
    assert ParseDecimal(s) == None;
  }

  lemma ParseRejectLetters()
    ensures ParseAmountToCents("abc") == None
  {
    assert DotIndex("abc") == 3 by { }
    assert !IsDigit('a') by { }
  }

  lemma ParseRejectTwoDots()
    ensures ParseAmountToCents("1.2.3") == None
  {
    assert DotIndex("1.2.3") == 1 by { }
    assert "1.2.3"[2..] == "2.3" by { }
    assert "2.3"[1] == '.' && !IsDigit('.') by { }
  }

  lemma FormatUnitsExample()
    ensures Displayable(12345) && FormatUnits(12345) == "123.45"
  {
    SmallIsInPrecision(12345);
    assert Abs(12345) / 100 == 123 && Abs(12345) % 100 == 45 by { }
    assert NatToDigits(123) == "123" by { }
    assert Group("123") == "123" by { }
    assert ZeroPadded(45, 2) == "45" by { }
  }

  lemma DisplayExample()
    ensures CentsToDisplay(12345, "USD") == "$123.45"
  {
    FormatUnitsExample();
  }

  lemma FormatUnitsGroupedExample()
    ensures Displayable(123456) && FormatUnits(123456) == "1,234.56"
  {
    SmallIsInPrecision(123456);
    assert Abs(123456) / 100 == 1234 && Abs(123456) % 100 == 56 by { }
    DigitsOf1234();
    assert ZeroPadded(56, 2) == "56" by { }
  }

  lemma DigitsOf1234()
    ensures NatToDigits(1234) == "1234" && Group("1234") == "1,234"
  {
    DigitsOf1234Plain();
    GroupOf1234();
  }

  lemma DigitsOf1234Plain()
    ensures NatToDigits(1234) == "1234"
  {
    assert NatToDigits(123) == "123";
  }

  lemma GroupOf1234()
    ensures Group("1234") == "1,234"
  {
    assert "1234"[..1] == "1" && "1234"[1..] == "234";
  }

  /** Thousands are separated by commas. */
  lemma DisplayGroupedExample()
    ensures CentsToDisplay(123456, "GBP") == "£1,234.56"
  {
    FormatUnitsGroupedExample();
  }

  /** An unknown currency falls back to the dollar sign; the sign precedes the units. */
  lemma DisplayNegativeExample()
    ensures CentsToDisplay(-5, "XYZ") == "$-0.05"
  {
    SmallIsInPrecision(5);
    assert NatToDigits(0) == "0";
    assert ZeroPadded(5, 2) == "05";
  }
}
