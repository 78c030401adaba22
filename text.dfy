/**
 * String helpers shared by the model: ASCII digits, the decimal rendering of
 * natural numbers, ASCII case mapping, Python's `str.strip`, `str.title`,
 * case-insensitive substring search and code-point string order.
 */
module Text {

  // ---------------------------------------------------------------- digits

  predicate IsDigit(c: char) { '0' <= c <= '9' }

  predicate AllDigits(s: string) {
    forall i :: 0 <= i < |s| ==> IsDigit(s[i])
  }

  function DigitValue(c: char): (d: nat)
    requires IsDigit(c)
    ensures d < 10
  {
    c as int - '0' as int
  }

  function DigitChar(d: nat): (c: char)
    requires d < 10
    ensures IsDigit(c) && DigitValue(c) == d
  {
    ('0' as int + d) as char
  }

  function Pow10(k: nat): (p: nat)
    ensures p >= 1
  {
    if k == 0 then 1 else 10 * Pow10(k - 1)
  }

  /** Quotient of natural numbers. */
  function Quot(n: nat, p: nat): nat
    requires p >= 1
  {
    n / p
  }

  /** Remainder of natural numbers. */
  function Rem(n: nat, p: nat): (r: nat)
    requires p >= 1
    ensures r < p
  {
    n % p
  }

  lemma DivModSplit(n: nat, p: nat)
    requires p >= 1
    ensures Quot(n, p) * p + Rem(n, p) == n
  {
  }

  /** The value of a string of decimal digits, most significant first. */
  function DigitsValue(s: string): nat
    requires AllDigits(s)
  {
    if s == [] then 0 else DigitsValue(s[..|s| - 1]) * 10 + DigitValue(s[|s| - 1])
  }

  /** The shortest decimal rendering of `n` (Python's `str(n)` for n >= 0). */
  function NatToDigits(n: nat): (r: string)
    ensures AllDigits(r) && |r| >= 1
    ensures DigitsValue(r) == n
    ensures r[0] == '0' ==> n == 0
  {
    if n < 10 then [DigitChar(n)]
    else
      var prefix := NatToDigits(n / 10);
      assert (prefix + [DigitChar(n % 10)])[..|prefix|] == prefix;
      prefix + [DigitChar(n % 10)]
  }

  function Zeros(k: nat): (r: string)
    ensures |r| == k && AllDigits(r)
    ensures forall i :: 0 <= i < k ==> r[i] == '0'
  {
    seq(k, _ => '0')
  }

  /** `n` rendered with at least `width` digits, padded on the left with zeros. */
  function ZeroPadded(n: nat, width: nat): (r: string)
    ensures AllDigits(r)
  {
    var ds := NatToDigits(n);
    if |ds| < width then Zeros(width - |ds|) + ds else ds
  }

  lemma {:induction false} DigitsValueAppend(a: string, b: string)
    requires AllDigits(a) && AllDigits(b)
    ensures AllDigits(a + b)
    ensures DigitsValue(a + b) == DigitsValue(a) * Pow10(|b|) + DigitsValue(b)
  {
    if b == [] {
      assert a + b == a;
    } else {
      var b' := b[..|b| - 1];
      var c := b[|b| - 1];
      assert (a + b)[..|a + b| - 1] == a + b';
      assert (a + b)[|a + b| - 1] == c;
      DigitsValueAppend(a, b');
      ShiftDigit(DigitsValue(a), Pow10(|b'|), DigitsValue(b'), DigitValue(c));
    }
  }

  /** Appending one digit to x * p + y multiplies the place value of x by ten. */
  lemma ShiftDigit(x: nat, p: nat, y: nat, d: nat)
    ensures (x * p + y) * 10 + d == x * (10 * p) + (y * 10 + d)
  {
  }

  /** A number ends in one last decimal digit. */
  lemma LastDigitUnique(x: nat, u: nat, y: nat, v: nat)
    requires u < 10 && v < 10 && x * 10 + u == y * 10 + v
    ensures x == y && u == v
  {
  }

  lemma {:induction false} ZerosValue(k: nat)
    ensures DigitsValue(Zeros(k)) == 0
  {
    if k > 0 {
      assert Zeros(k)[..k - 1] == Zeros(k - 1);
      ZerosValue(k - 1);
    }
  }

  lemma ZeroPaddedValue(n: nat, width: nat)
    ensures DigitsValue(ZeroPadded(n, width)) == n
  {
    var ds := NatToDigits(n);
    if |ds| < width {
      var zs := Zeros(width - |ds|);
      assert DigitsValue(zs + ds) == DigitsValue(zs) * Pow10(|ds|) + DigitsValue(ds) by {
        DigitsValueAppend(zs, ds);
      }
      assert DigitsValue(zs) == 0 by {
        ZerosValue(width - |ds|);
      }
    }
  }

  lemma {:induction false} Pow10Monotone(a: nat, b: nat)
    requires a <= b
    ensures Pow10(a) <= Pow10(b)
  {
    if a < b {
      Pow10Monotone(a, b - 1);
    }
  }

  lemma {:induction false} Pow10Add(a: nat, b: nat)
    ensures Pow10(a + b) == Pow10(a) * Pow10(b)
  {
    if b > 0 {
      Pow10Add(a, b - 1);
    }
  }

  lemma {:induction false} DigitsValueBound(s: string)
    requires AllDigits(s)
    ensures DigitsValue(s) < Pow10(|s|)
  {
    if s != [] {
      DigitsValueBound(s[..|s| - 1]);
    }
  }

  lemma {:induction false} NatToDigitsLength(n: nat, k: nat)
    requires 1 <= k && n < Pow10(k)
    ensures |NatToDigits(n)| <= k
  {
    if n >= 10 {
      NatToDigitsLength(n / 10, k - 1);
    }
  }

  lemma ZeroPaddedLength(n: nat, width: nat)
    requires 1 <= width && n < Pow10(width)
    ensures |ZeroPadded(n, width)| == width
  {
    NatToDigitsLength(n, width);
  }

  lemma {:induction false} DigitsValueInjective(a: string, b: string)
    requires AllDigits(a) && AllDigits(b) && |a| == |b|
    requires DigitsValue(a) == DigitsValue(b)
    ensures a == b
  {
    if a != [] {
      var n := |a|;
      LastDigitUnique(DigitsValue(a[..n - 1]), DigitValue(a[n - 1]), DigitsValue(b[..n - 1]), DigitValue(b[n - 1]));
      assert a[n - 1] == b[n - 1];
      DigitsValueInjective(a[..n - 1], b[..n - 1]);
      assert a == a[..n - 1] + [a[n - 1]];
      assert b == b[..n - 1] + [b[n - 1]];
    }
  }

  // ---------------------------------------------------------------- ASCII case

  predicate IsAsciiUpper(c: char) { 'A' <= c <= 'Z' }
  predicate IsAsciiLower(c: char) { 'a' <= c <= 'z' }
  predicate IsAsciiLetter(c: char) { IsAsciiUpper(c) || IsAsciiLower(c) }

  function ToLower(c: char): (r: char)
    ensures IsAsciiLetter(r) <==> IsAsciiLetter(c)
    ensures !IsAsciiUpper(r)
    ensures !IsAsciiLetter(c) ==> r == c
  {
    if IsAsciiUpper(c) then (c as int + 32) as char else c
  }

  function ToUpper(c: char): (r: char)
    ensures IsAsciiLetter(r) <==> IsAsciiLetter(c)
    ensures !IsAsciiLower(r)
    ensures !IsAsciiLetter(c) ==> r == c
  {
    if IsAsciiLower(c) then (c as int - 32) as char else c
  }

  function LowerStr(s: string): (r: string)
    ensures |r| == |s|
  {
    seq(|s|, i requires 0 <= i < |s| => ToLower(s[i]))
  }

  function UpperStr(s: string): (r: string)
    ensures |r| == |s|
  {
    seq(|s|, i requires 0 <= i < |s| => ToUpper(s[i]))
  }

  /** Lower-casing forgets the case a string was written in. */
  lemma LowerOfUpper(s: string)
    ensures LowerStr(UpperStr(s)) == LowerStr(s)
  {
  }

  // ---------------------------------------------------------------- substrings

  /** Substring test, scanning from the left. */
  predicate Contains(hay: string, needle: string)
    decreases |hay|
  {
    if |needle| > |hay| then false
    else if hay[..|needle|] == needle then true
    else Contains(hay[1..], needle)
  }

  predicate OccursAt(hay: string, needle: string, i: int) {
    0 <= i && i + |needle| <= |hay| && hay[i..i + |needle|] == needle
  }

  lemma {:induction false} ContainsMeansOccurs(hay: string, needle: string)
    ensures Contains(hay, needle) <==> exists i :: OccursAt(hay, needle, i)
    decreases |hay|
  {
    if |needle| > |hay| {
    } else if hay[..|needle|] == needle {
      assert OccursAt(hay, needle, 0);
    } else {
      ContainsMeansOccurs(hay[1..], needle);
      if Contains(hay[1..], needle) {
        var i :| OccursAt(hay[1..], needle, i);
        assert hay[i + 1..i + 1 + |needle|] == hay[1..][i..i + |needle|];
        assert OccursAt(hay, needle, i + 1);
      }
      if i :| OccursAt(hay, needle, i) {
        assert i != 0;
        assert hay[1..][i - 1..i - 1 + |needle|] == hay[i..i + |needle|];
        assert OccursAt(hay[1..], needle, i - 1);
      }
    }
  }

  /** A case-insensitive substring test with ASCII case folding (SQL `icontains`). */
  predicate IContains(hay: string, needle: string) {
    Contains(LowerStr(hay), LowerStr(needle))
  }

  lemma ContainsEmpty(hay: string)
    ensures Contains(hay, [])
  {
  }

  // ---------------------------------------------------------------- strip

  /** The ASCII characters Python's `str.isspace` accepts. */
  predicate IsSpace(c: char) {
    (9 <= c as int <= 13) || (28 <= c as int <= 32)
  }

  function StripLeft(s: string): (r: string)
    ensures |r| <= |s| && r == s[|s| - |r|..]
    ensures r == [] || !IsSpace(r[0])
    ensures forall i :: 0 <= i < |s| - |r| ==> IsSpace(s[i])
  {
    if |s| > 0 && IsSpace(s[0]) then StripLeft(s[1..]) else s
  }

  function StripRight(s: string): (r: string)
    ensures |r| <= |s| && r == s[..|r|]
    ensures r == [] || !IsSpace(r[|r| - 1])
    ensures forall i :: |r| <= i < |s| ==> IsSpace(s[i])
  {
    if |s| > 0 && IsSpace(s[|s| - 1]) then StripRight(s[..|s| - 1]) else s
  }

  /** Python's `str.strip()` for ASCII whitespace: no longer, and no whitespace left at either end. */
  function Strip(s: string): (r: string)
    ensures |r| <= |s|
  {
    StripRight(StripLeft(s))
  }

  /** How many leading whitespace characters `Strip` removes. */
  function StripOffset(s: string): (k: nat)
    ensures k <= |s|
  {
    |s| - |StripLeft(s)|
  }

  /**
   * `Strip` keeps one contiguous slice and removes only whitespace around it
   * (and, by its contract, none is left at either end of the slice).
   */
  lemma StripShape(s: string)
    ensures var k := StripOffset(s); var r := Strip(s);
      k + |r| <= |s| && r == s[k..k + |r|] &&
      (forall i :: 0 <= i < k ==> IsSpace(s[i])) &&
      (forall i :: k + |r| <= i < |s| ==> IsSpace(s[i])) &&
      (r == [] || (!IsSpace(r[0]) && !IsSpace(r[|r| - 1])))
  {
    var l := StripLeft(s);
    var r := StripRight(l);
    var k := |s| - |l|;
    assert Strip(s) == r && StripOffset(s) == k;
    assert forall i :: 0 <= i < k ==> IsSpace(s[i]);
    assert r == s[k..k + |r|] by {
      assert l == s[k..];
    }
    assert forall i :: k + |r| <= i < |s| ==> IsSpace(s[i]) by {
      forall i | k + |r| <= i < |s| ensures IsSpace(s[i]) {
        assert s[i] == l[i - k];
      }
    }
  }

  lemma StripOfTrimmed(r: string)
    requires r == [] || (!IsSpace(r[0]) && !IsSpace(r[|r| - 1]))
    ensures Strip(r) == r
  {
    assert StripLeft(r) == r;
  }

  /** `StripLeft` removes exactly the blanks before text that starts with a non-blank. */
  lemma {:induction false} StripLeftPadding(pad: string, t: string)
    requires forall i :: 0 <= i < |pad| ==> IsSpace(pad[i])
    requires t == [] || !IsSpace(t[0])
    ensures StripLeft(pad + t) == t
  {
    if pad != [] {
      assert (pad + t)[1..] == pad[1..] + t;
      StripLeftPadding(pad[1..], t);
    }
  }

  /** `StripRight` removes exactly the blanks after text that ends with a non-blank. */
  lemma {:induction false} StripRightPadding(t: string, pad: string)
    requires forall i :: 0 <= i < |pad| ==> IsSpace(pad[i])
    requires t == [] || !IsSpace(t[|t| - 1])
    ensures StripRight(t + pad) == t
  {
    if pad != [] {
      var init := pad[..|pad| - 1];
      assert (t + pad)[..|t + pad| - 1] == t + init;
      StripRightPadding(t, init);
    }
  }

  /** Leading and trailing blanks go; the inner one stays. */
  lemma StripExample()
    ensures Strip("  coffee beans ") == "coffee beans"
  {
    assert "  coffee beans " == "  " + "coffee beans ";
    StripLeftPadding("  ", "coffee beans ");
    assert "coffee beans " == "coffee beans" + " ";
    StripRightPadding("coffee beans", " ");
  }

  lemma StripIdempotent(s: string)
    ensures Strip(Strip(s)) == Strip(s)
  {
    StripShape(s);
    StripOfTrimmed(Strip(s));
  }

  // ---------------------------------------------------------------- title case

  /**
   * Each letter is upper case exactly when the character before it is not a
   * letter: a leading letter is upper case.
   */
  predicate TitleCased(s: string) {
    (|s| > 0 && IsAsciiLetter(s[0]) ==> IsAsciiUpper(s[0])) &&
    (forall i :: 0 < i < |s| && IsAsciiLetter(s[i]) ==> (IsAsciiUpper(s[i]) <==> !IsAsciiLetter(s[i - 1])))
  }

  /** The `i`-th character of the title-cased `s`: a letter after a letter is lowered, any other letter raised. */
  function TitleAt(s: string, i: nat): (c: char)
    requires i < |s|
    ensures ToLower(c) == ToLower(s[i])
    ensures IsAsciiLetter(c) <==> IsAsciiLetter(s[i])
    ensures IsAsciiLetter(s[i]) ==> (IsAsciiUpper(c) <==> (i == 0 || !IsAsciiLetter(s[i - 1])))
  {
    if i > 0 && IsAsciiLetter(s[i - 1]) then ToLower(s[i]) else ToUpper(s[i])
  }

  /**
   * Python's `str.title()` restricted to ASCII: the same text up to case, in
   * which a letter is upper case exactly when the character before it is not
   * a letter.
   */
  function TitleCase(s: string): (r: string)
    ensures |r| == |s|
    ensures forall i :: 0 <= i < |s| ==> ToLower(r[i]) == ToLower(s[i])
    ensures TitleCased(r)
  {
    var r := seq(|s|, i requires 0 <= i < |s| => TitleAt(s, i));
    assert TitleCased(r) by {
      assert |r| > 0 ==> r[0] == TitleAt(s, 0);
      forall i | 0 < i < |r| && IsAsciiLetter(r[i])
        ensures IsAsciiUpper(r[i]) <==> !IsAsciiLetter(r[i - 1])
      {
        assert r[i - 1] == TitleAt(s, i - 1);
      }
    }
    r
  }

  /**
   * Title-casing changes letters only: text without blanks at either end keeps
   * none, and lowering it gives what lowering the input gives.
   */
  lemma TitleCaseKeepsShape(t: string)
    requires t == [] || (!IsSpace(t[0]) && !IsSpace(t[|t| - 1]))
    ensures Strip(TitleCase(t)) == TitleCase(t)
    ensures LowerStr(TitleCase(t)) == LowerStr(t)
  {
    var r := TitleCase(t);
    if r != [] {
      assert ToLower(r[0]) == ToLower(t[0]) && ToLower(r[|r| - 1]) == ToLower(t[|t| - 1]);
    }
    StripOfTrimmed(r);
    forall i | 0 <= i < |t| ensures LowerStr(r)[i] == LowerStr(t)[i] {
      assert ToLower(r[i]) == ToLower(t[i]);
    }
  }

  /** Words are capitalized, the letters after them lowered. */
  lemma TitleCaseExample()
    ensures TitleCase("coffee beans") == "Coffee Beans"
  {
    var s := "coffee beans";
    var r := TitleCase(s);
    assert r[0] == TitleAt(s, 0) == ToUpper('c') == 'C';
    assert r[1] == TitleAt(s, 1) == ToLower('o') == 'o';
    assert r[2] == TitleAt(s, 2) == ToLower('f') == 'f';
    assert r[3] == TitleAt(s, 3) == ToLower('f') == 'f';
    assert r[4] == TitleAt(s, 4) == ToLower('e') == 'e';
    assert r[5] == TitleAt(s, 5) == ToLower('e') == 'e';
    assert r[6] == TitleAt(s, 6) == ToLower(' ') == ' ';
    assert r[7] == TitleAt(s, 7) == ToUpper('b') == 'B';
    assert r[8] == TitleAt(s, 8) == ToLower('e') == 'e';
    assert r[9] == TitleAt(s, 9) == ToLower('a') == 'a';
    assert r[10] == TitleAt(s, 10) == ToLower('n') == 'n';
    assert r[11] == TitleAt(s, 11) == ToLower('s') == 's';
  }

  /** Characters equal up to case are both letters or both not. */
  lemma LetterUpToCase(a: char, b: char)
    requires ToLower(a) == ToLower(b)
    ensures IsAsciiLetter(a) <==> IsAsciiLetter(b)
  {
    assert IsAsciiLetter(ToLower(a)) <==> IsAsciiLetter(a);
    assert IsAsciiLetter(ToLower(b)) <==> IsAsciiLetter(b);
  }

  /** Two characters equal up to case and both upper case or both not are the same. */
  lemma SameUpToCase(a: char, b: char)
    requires ToLower(a) == ToLower(b) && (IsAsciiUpper(a) <==> IsAsciiUpper(b))
    ensures a == b
  {
    if IsAsciiUpper(a) {
      assert (a as int + 32) as char == (b as int + 32) as char;
    }
  }

  /** `TitleCase(s)` is the only title-cased text equal to `s` up to case. */
  lemma TitleCaseUnique(s: string, u: string)
    requires |u| == |s| && TitleCased(u)
    requires forall i :: 0 <= i < |s| ==> ToLower(u[i]) == ToLower(s[i])
    ensures u == TitleCase(s)
  {
    var r := TitleCase(s);
    forall i | 0 <= i < |s| ensures u[i] == r[i] {
      assert IsAsciiLetter(u[i]) <==> IsAsciiLetter(r[i]) by {
        LetterUpToCase(u[i], r[i]);
      }
      if i > 0 {
        assert IsAsciiLetter(u[i - 1]) <==> IsAsciiLetter(r[i - 1]) by {
          LetterUpToCase(u[i - 1], r[i - 1]);
        }
      }
      SameUpToCase(u[i], r[i]);
    }
  }

  lemma TitleCaseIdempotent(s: string)
    ensures TitleCase(TitleCase(s)) == TitleCase(s)
  {
    var t := TitleCase(s);
    forall i | 0 <= i < |s| ensures TitleCase(t)[i] == t[i] {
      if i > 0 {
        assert IsAsciiLetter(t[i - 1]) <==> IsAsciiLetter(s[i - 1]);
      }
    }
  }

  // ---------------------------------------------------------------- order

  /** Code-point lexicographic order on strings (Python `<=` on `str`). */
  predicate StrLe(a: string, b: string) {
    a == [] || (b != [] && (a[0] < b[0] || (a[0] == b[0] && StrLe(a[1..], b[1..]))))
  }

  lemma {:induction false} StrLeTotal(a: string, b: string)
    ensures StrLe(a, b) || StrLe(b, a)
  {
    if a != [] && b != [] && a[0] == b[0] {
      StrLeTotal(a[1..], b[1..]);
    }
  }

  lemma {:induction false} StrLeTransitive(a: string, b: string, c: string)
    requires StrLe(a, b) && StrLe(b, c)
    ensures StrLe(a, c)
  {
    if a != [] && b != [] && c != [] && a[0] == b[0] == c[0] {
      StrLeTransitive(a[1..], b[1..], c[1..]);
    }
  }

  lemma {:induction false} StrLeAntisymmetric(a: string, b: string)
    requires StrLe(a, b) && StrLe(b, a)
    ensures a == b
  {
    if a != [] && b != [] {
      StrLeAntisymmetric(a[1..], b[1..]);
      assert a == [a[0]] + a[1..];
      assert b == [b[0]] + b[1..];
    }
  }

  /** Comparing two concatenations whose first parts have the same length. */
  lemma {:induction false} StrLeAppend(a: string, b: string, x: string, y: string)
    requires |a| == |b|
    ensures StrLe(a + x, b + y) <==> (a != b && StrLe(a, b)) || (a == b && StrLe(x, y))
  {
    if a == [] {
      assert a + x == x && b + y == y;
    } else {
      var a', b' := a[1..], b[1..];
      assert (a + x)[0] == a[0] && (a + x)[1..] == a' + x;
      assert (b + y)[0] == b[0] && (b + y)[1..] == b' + y;
      assert a == [a[0]] + a';
      assert b == [b[0]] + b';
      if a[0] == b[0] {
        StrLeAppend(a', b', x, y);
        assert a == b <==> a' == b';
      }
    }
  }

  lemma {:induction false} DigitsValueCons(c: char, s: string)
    requires IsDigit(c) && AllDigits(s)
    ensures AllDigits([c] + s)
    ensures DigitsValue([c] + s) == DigitValue(c) * Pow10(|s|) + DigitsValue(s)
  {
    assert [c][..0] == [];
    assert DigitsValue([c]) == DigitValue(c);
    DigitsValueAppend([c], s);
  }

  lemma CompareByLeadingDigit(x: nat, y: nat, u: nat, v: nat, p: nat)
    requires u < p && v < p
    ensures (x * p + u <= y * p + v) <==> (x < y || (x == y && u <= v))
  {
    if x < y {
      assert (x + 1) * p <= y * p;
    } else if y < x {
      assert (y + 1) * p <= x * p;
    }
  }

  /** For digit strings of one length, string order is numeric order. */
  lemma {:induction false} StrLeDigits(a: string, b: string)
    requires AllDigits(a) && AllDigits(b) && |a| == |b|
    ensures StrLe(a, b) <==> DigitsValue(a) <= DigitsValue(b)
  {
    if a != [] {
      var a', b' := a[1..], b[1..];
      assert a == [a[0]] + a';
      assert b == [b[0]] + b';
      DigitsValueCons(a[0], a');
      DigitsValueCons(b[0], b');
      DigitsValueBound(a');
      DigitsValueBound(b');
      StrLeDigits(a', b');
      CompareByLeadingDigit(DigitValue(a[0]), DigitValue(b[0]), DigitsValue(a'), DigitsValue(b'), Pow10(|a'|));
      assert StrLe(a, b) == (a[0] < b[0] || (a[0] == b[0] && StrLe(a', b')));
    }
  }
}
