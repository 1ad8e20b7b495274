/**
 * Amounts: reading the text of an amount field the way Python's `float()` does
 * (main.py:107, 147), and writing an amount with two decimals the way
 * `f"{x:.2f}"` does (main.py:195, 211). Amounts are exact reals.
 */
module Amounts {
  import opened Results
  import opened Text

  /** The first position of `c` in `s`, or `|s|` when it does not occur. */
  function IndexOf(s: string, c: char): (k: nat)
    ensures k <= |s|
    ensures k < |s| ==> s[k] == c
    ensures forall i :: 0 <= i < k ==> s[i] != c
  {
    if s == [] then 0 else if s[0] == c then 0 else 1 + IndexOf(s[1..], c)
  }

  predicate IsExponentMark(c: char) {
    c == 'e' || c == 'E'
  }

  /** The first position of an exponent mark in `s`, or `|s|` when there is none. */
  function IndexOfExponent(s: string): (k: nat)
    ensures k <= |s|
    ensures k < |s| ==> IsExponentMark(s[k])
    ensures forall i :: 0 <= i < k ==> !IsExponentMark(s[i])
  {
    if s == [] then 0 else if IsExponentMark(s[0]) then 0 else 1 + IndexOfExponent(s[1..])
  }

  /** `ddd`, `ddd.ddd`, `ddd.` or `.ddd`, with at least one digit. */
  function ParseMantissa(m: string): Option<real> {
    var dot := IndexOf(m, '.');
    var whole := m[..dot];
    var frac := if dot < |m| then m[dot + 1..] else [];
    if AllDigits(whole) && AllDigits(frac) && |whole| + |frac| > 0 then
      Some(DigitsValue(whole) as real + FractionValue(frac))
    else
      None
  }

  /** An optionally signed, non-empty run of digits. */
  function ParseExponent(e: string): Option<int> {
    var signed := e != [] && (e[0] == '-' || e[0] == '+');
    var digits := if signed then e[1..] else e;
    if digits != [] && AllDigits(digits) then
      Some(if signed && e[0] == '-' then -(DigitsValue(digits) as int) else DigitsValue(digits))
    else
      None
  }

  /** The value of the digits after a decimal point: `0.d1d2...`. */
  function FractionValue(s: string): real
    requires AllDigits(s)
  {
    if s == [] then 0.0 else (DigitValue(s[0]) as real + FractionValue(s[1..])) / 10.0
  }

  /** `x` times ten to the power `e`. */
  function Scale(x: real, e: int): real
    decreases if e >= 0 then e else -e
  {
    if e == 0 then x else if e > 0 then Scale(x, e - 1) * 10.0 else Scale(x, e + 1) / 10.0
  }

  /** A mantissa optionally followed by `e` or `E` and an exponent. */
  function ParseUnsigned(body: string): Option<real> {
    var k := IndexOfExponent(body);
    var mantissa := ParseMantissa(body[..k]);
    var exponent := if k < |body| then ParseExponent(body[k + 1..]) else Some(0);
    if mantissa.Some? && exponent.Some? then Some(Scale(mantissa.value, exponent.value)) else None
  }

  /** Whether `t` is led by a minus sign. */
  predicate Negative(t: string) {
    t != [] && t[0] == '-'
  }

  /** `t` without its leading `-` or `+`, if it has one. */
  function Unsigned(t: string): string {
    if t != [] && (t[0] == '-' || t[0] == '+') then t[1..] else t
  }

  /** An unsigned number, or one led by `-` or `+`. */
  function ParseNumber(t: string): Option<real> {
    match ParseUnsigned(Unsigned(t))
    case Some(v) => Some(if Negative(t) then -v else v)
    case None => None
  }

  /**
   * Python's `float(text)` on finite decimal input: surrounding whitespace is
   * ignored, then an optional sign, a mantissa and an optional exponent.
   * `None` stands for the `ValueError` that `float()` raises.
   */
  function ParseAmount(text: string): Option<real> {
    ParseNumber(Strip(text))
  }

  /** Blank text is never an amount. */
  lemma BlankIsNotAmount(text: string)
    requires AllSpace(text)
    ensures ParseAmount(text).None?
  {
    assert Strip(text) == [];
    assert ParseMantissa([]).None?;
  }

  /** The unsigned two-decimal spelling of `m` hundredths: `12.05` for 1205. */
  function CentsText(m: nat): (s: string)
    ensures |s| >= 4 && IsDigit(s[0]) && IsDigit(s[|s| - 1])
  {
    NatDigits(m / 100) + "." + [DigitChar(m % 100 / 10), DigitChar(m % 100 % 10)]
  }

  /** The nearest integer to `y`, ties going to the even neighbour. */
  function RoundHalfEven(y: real): (n: int)
    ensures n as real - 0.5 <= y <= n as real + 0.5
    ensures y >= 0.0 ==> n >= 0
  {
    var f := y.Floor;
    var d := y - f as real;
    if d > 0.5 || (d == 0.5 && f % 2 == 1) then f + 1 else f
  }

  /**
   * `f"{x:.2f}"`: the amount rounded to hundredths; a negative amount keeps its
   * minus sign even when it rounds to zero.
   */
  function Format2(x: real): string {
    if x < 0.0 then "-" + CentsText(RoundHalfEven(-x * 100.0)) else CentsText(RoundHalfEven(x * 100.0))
  }

  /** Reading back a two-decimal spelling gives its exact value. */
  lemma ParseCentsText(m: nat)
    ensures ParseAmount(CentsText(m)) == Some(m as real / 100.0)
  {
    NumberOfCents(m);
    StripUnchanged(CentsText(m));
  }

  /** Reading back a negated two-decimal spelling gives its exact (negated) value. */
  lemma ParseNegatedCentsText(m: nat)
    ensures ParseAmount("-" + CentsText(m)) == Some(-(m as real / 100.0))
  {
    NumberOfNegatedCents(m);
    NegatedCentsStripped(m);
  }

  lemma NumberOfCents(m: nat)
    ensures ParseNumber(CentsText(m)) == Some(m as real / 100.0)
  {
    ParseUnsignedCents(m);
    assert Unsigned(CentsText(m)) == CentsText(m) && !Negative(CentsText(m));
  }

  lemma NumberOfNegatedCents(m: nat)
    ensures ParseNumber("-" + CentsText(m)) == Some(-(m as real / 100.0))
  {
    ParseUnsignedCents(m);
    var t := "-" + CentsText(m);
    assert t[1..] == CentsText(m);
    assert Unsigned(t) == CentsText(m);
  }

  lemma NegatedCentsStripped(m: nat)
    ensures Strip("-" + CentsText(m)) == "-" + CentsText(m)
  {
    StripUnchanged("-" + CentsText(m));
  }

  lemma ParseUnsignedCents(m: nat)
    ensures ParseUnsigned(CentsText(m)) == Some(m as real / 100.0)
  {
    var body := CentsText(m);
    var whole := NatDigits(m / 100);
    var frac := [DigitChar(m % 100 / 10), DigitChar(m % 100 % 10)];
    assert body == whole + ['.'] + frac;
    assert IndexOfExponent(body) == |body| by {
      forall i | 0 <= i < |body| ensures !IsExponentMark(body[i]) {
        if i < |whole| {
          assert body[i] == whole[i];
        } else if i > |whole| {
          assert body[i] == frac[i - |whole| - 1];
        }
      }
      IndexOfExponentAbsent(body);
    }
    assert body[..|body|] == body;
    ParseMantissaCents(m, body, whole, frac);
  }

  lemma ParseMantissaCents(m: nat, body: string, whole: string, frac: string)
    requires whole == NatDigits(m / 100)
    requires frac == [DigitChar(m % 100 / 10), DigitChar(m % 100 % 10)]
    requires body == whole + ['.'] + frac
    ensures ParseMantissa(body) == Some(m as real / 100.0)
  {
    ParseMantissaSplit(body, whole, frac);
    NatDigitsValue(m / 100);
    TwoDigitsFraction(m % 100);
    CentsAsReal(m);
  }

  /** Digits, a point and digits read as the whole part plus the fraction. */
  lemma ParseMantissaSplit(body: string, whole: string, frac: string)
    requires AllDigits(whole) && AllDigits(frac) && |whole| + |frac| > 0
    requires body == whole + ['.'] + frac
    ensures ParseMantissa(body) == Some(DigitsValue(whole) as real + FractionValue(frac))
  {
    DotSplit(body, whole, frac);
  }

  /** A digit string, a point and more text: the point is found right after the digits. */
  lemma DotSplit(body: string, whole: string, frac: string)
    requires AllDigits(whole) && body == whole + ['.'] + frac
    ensures IndexOf(body, '.') == |whole|
    ensures body[..|whole|] == whole && body[|whole| + 1..] == frac
  {
    forall i | 0 <= i < |whole| ensures body[i] != '.' {
      assert body[i] == whole[i];
    }
    IndexOfAt(body, '.', |whole|);
  }

  lemma TwoDigitsFraction(r: nat)
    requires r < 100
    ensures FractionValue([DigitChar(r / 10), DigitChar(r % 10)]) == r as real / 100.0
  {
    var a, b := r / 10, r % 10;
    var s := [DigitChar(a), DigitChar(b)];
    assert s[1..] == [DigitChar(b)];
    assert [DigitChar(b)][1..] == [];
    assert FractionValue([DigitChar(b)]) == b as real / 10.0;
    assert FractionValue(s) == (a as real + b as real / 10.0) / 10.0;
    assert r as real == a as real * 10.0 + b as real;
  }

  lemma CentsAsReal(m: nat)
    ensures (m / 100) as real + (m % 100) as real / 100.0 == m as real / 100.0
  {
    var q := m / 100;
    var r := m % 100;
    assert m == q * 100 + r;
    assert m as real == q as real * 100.0 + r as real;
  }

  lemma {:induction false} IndexOfExponentAbsent(s: string)
    requires forall i :: 0 <= i < |s| ==> !IsExponentMark(s[i])
    ensures IndexOfExponent(s) == |s|
  {
    if s != [] {
      IndexOfExponentAbsent(s[1..]);
    }
  }

  lemma {:induction false} IndexOfAt(s: string, c: char, k: nat)
    requires k < |s| && s[k] == c
    requires forall i :: 0 <= i < k ==> s[i] != c
    ensures IndexOf(s, c) == k
  {
    if k > 0 {
      IndexOfAt(s[1..], c, k - 1);
    }
  }

  /** An amount with at most two decimals is displayed exactly: its text reads back as itself. */
  lemma ParseFormat2Exact(c: int)
    ensures ParseAmount(Format2(c as real / 100.0)) == Some(c as real / 100.0)
  {
    var x := c as real / 100.0;
    if c < 0 {
      var m: nat := -c;
      assert -x * 100.0 == m as real;
      assert Format2(x) == "-" + CentsText(m);
      ParseNegatedCentsText(m);
    } else {
      assert x * 100.0 == c as real;
      assert Format2(x) == CentsText(c);
      ParseCentsText(c);
    }
  }

  /** `x` is a whole number of hundredths, so two decimals spell it exactly. */
  predicate InCents(x: real) {
    (x * 100.0).Floor as real == x * 100.0
  }

  /** The displayed text of any amount reads back as a whole number of hundredths. */
  lemma ParseFormat2InCents(x: real)
    ensures ParseAmount(Format2(x)).Some? && InCents(ParseAmount(Format2(x)).value)
  {
    if x < 0.0 {
      NegatedCentsTextInCents(RoundHalfEven(-x * 100.0));
    } else {
      CentsTextInCents(RoundHalfEven(x * 100.0));
    }
  }

  lemma CentsTextInCents(m: nat)
    ensures ParseAmount(CentsText(m)).Some? && InCents(ParseAmount(CentsText(m)).value)
  {
    ParseCentsText(m);
    ValueInCents(ParseAmount(CentsText(m)), m);
  }

  lemma NegatedCentsTextInCents(m: nat)
    ensures ParseAmount("-" + CentsText(m)).Some? && InCents(ParseAmount("-" + CentsText(m)).value)
  {
    ParseNegatedCentsText(m);
    NegatedValueInCents(ParseAmount("-" + CentsText(m)), m);
  }

  lemma NegatedValueInCents(p: Option<real>, m: nat)
    requires p == Some(-(m as real / 100.0))
    ensures p.Some? && InCents(p.value)
  {
    assert -(m as real / 100.0) * 100.0 == -(m as int) as real;
  }

  lemma ValueInCents(p: Option<real>, k: int)
    requires p == Some(k as real / 100.0)
    ensures p.Some? && InCents(p.value)
  {
    assert k as real / 100.0 * 100.0 == k as real;
  }

  /**
   * The displayed text of an amount always reads back as a number, and that
   * number is within half a hundredth of the amount.
   */
  lemma ParseFormat2(x: real)
    ensures ParseAmount(Format2(x)).Some?
    ensures x - 0.005 <= ParseAmount(Format2(x)).value <= x + 0.005
  {
    if x < 0.0 {
      ParseNegatedCentsText(RoundHalfEven(-x * 100.0));
    } else {
      ParseCentsText(RoundHalfEven(x * 100.0));
    }
  }
}
