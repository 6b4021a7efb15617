/** Digit strings and their values: Python's `float()` applied to the
    `\d+\.?\d*` captures, `int()` applied to the `\d+` captures and to the
    age the user types, and `str()` of a natural number. Numbers are exact
    (`real` / `int`), not binary floating point. */
module Numerals {
  import opened Options
  import opened Text

  function DigitValue(c: char): (d: nat)
    requires IsDigit(c)
    ensures d < 10
  {
    c as int - '0' as int
  }

  function DigitChar(d: nat): (c: char)
    requires d < 10
    ensures IsDigit(c) && DigitValue(c) == d
  {
    ('0' as int + d) as char
  }

  /** Value of a decimal digit string, most significant digit first. */
  function DigitsValue(s: string): nat
    requires AllDigits(s)
  {
    if s == [] then 0 else DigitsValue(s[..|s| - 1]) * 10 + DigitValue(s[|s| - 1])
  }

  function Pow10(n: nat): (p: nat)
    ensures p >= 1
  {
    if n == 0 then 1 else 10 * Pow10(n - 1)
  }

  /** A string of `n` digits is worth less than `10^n`. */
  lemma {:induction false} DigitsValueBound(s: string)
    requires AllDigits(s)
    ensures DigitsValue(s) < Pow10(|s|)
  {
    if s != [] {
      DigitsValueBound(s[..|s| - 1]);
    }
  }

  /** `str(n)`: the shortest decimal spelling of `n`. */
  function Show(n: nat): (r: string)
    ensures |r| >= 1 && AllDigits(r)
    ensures |r| > 1 ==> r[0] != '0'
  {
    if n < 10 then [DigitChar(n)] else Show(n / 10) + [DigitChar(n % 10)]
  }

  lemma {:induction false} ShowRoundTrip(n: nat)
    ensures DigitsValue(Show(n)) == n
  {
    if n >= 10 {
      ShowRoundTrip(n / 10);
      var s := Show(n);
      assert s[..|s| - 1] == Show(n / 10);
    }
  }

  // ------------------------------------------------------- decimal readings

  /** The text `\d+\.?\d*` matches: a digit first, digits and at most one dot. */
  predicate IsDecimalText(u: string) {
    |u| > 0 && IsDigit(u[0])
    && (forall i :: 0 <= i < |u| ==> IsDigit(u[i]) || u[i] == '.')
    && (forall i, j :: 0 <= i < j < |u| && u[i] == '.' ==> u[j] != '.')
  }

  /** Index of the first `.` in `u`, if any. */
  function DotIndex(u: string): (r: Option<nat>)
    ensures r.Some? ==> r.value < |u| && u[r.value] == '.'
    ensures r.Some? ==> forall i :: 0 <= i < r.value ==> u[i] != '.'
    ensures r.None? ==> forall i :: 0 <= i < |u| ==> u[i] != '.'
  {
    if u == [] then None
    else if u[0] == '.' then Some(0)
    else match DotIndex(u[1..])
      case None => None
      case Some(d) => Some(d + 1)
  }

  /** How many characters the integer part has: up to the dot, or all. */
  function IntegerDigits(u: string): (d: nat)
    ensures d <= |u|
    ensures forall i :: 0 <= i < d ==> u[i] != '.'
  {
    match DotIndex(u)
    case None => |u|
    case Some(d) => d
  }

  /** `float(u)` for such a text, computed exactly: the integer part plus
      the fraction digits over the matching power of ten. */
  function DecimalValue(u: string): (v: real)
    requires IsDecimalText(u)
    ensures var d := IntegerDigits(u);
      AllDigits(u[..d]) && DigitsValue(u[..d]) as real <= v < DigitsValue(u[..d]) as real + 1.0
  {
    match DotIndex(u)
    case None =>
      assert AllDigits(u);
      assert u[..|u|] == u;
      DigitsValue(u) as real
    case Some(d) =>
      assert AllDigits(u[..d]);
      assert forall i :: d < i < |u| ==> IsDigit(u[i]);
      assert AllDigits(u[d + 1..]);
      DigitsValueBound(u[d + 1..]);
      FractionBelowOne(DigitsValue(u[d + 1..]), Pow10(|u| - d - 1));
      DigitsValue(u[..d]) as real + DigitsValue(u[d + 1..]) as real / Pow10(|u| - d - 1) as real
  }

  lemma ShowHasNoDot(n: nat)
    ensures IsDecimalText(Show(n)) && DotIndex(Show(n)).None?
    ensures DecimalValue(Show(n)) == n as real
  {
    ShowRoundTrip(n);
  }

  /** The reading of `<n>.<frac>` lies in `[n, n + 1)`: the fraction never
      carries into the integer part. */
  lemma DecimalValueBetween(n: nat, frac: string)
    requires AllDigits(frac)
    ensures IsDecimalText(Show(n) + "." + frac)
    ensures n as real <= DecimalValue(Show(n) + "." + frac) < n as real + 1.0
  {
    var s := Show(n);
    var u := s + "." + frac;
    DotJoin(s, frac);
    assert DecimalValue(u) == DigitsValue(s) as real + DigitsValue(frac) as real / Pow10(|frac|) as real;
    ShowRoundTrip(n);
    DigitsValueBound(frac);
    FractionBelowOne(DigitsValue(frac), Pow10(|frac|));
  }

  /** Digits, a dot, digits: a decimal text whose only dot is the one put
      between the two. */
  lemma DotJoin(s: string, frac: string)
    requires |s| >= 1 && AllDigits(s) && AllDigits(frac)
    ensures var u := s + "." + frac;
      IsDecimalText(u) && DotIndex(u) == Some(|s|) && u[..|s|] == s && u[|s| + 1..] == frac
  {
    var u := s + "." + frac;
    assert forall i :: 0 <= i < |s| ==> u[i] == s[i];
    assert u[|s|] == '.';
    assert forall i :: |s| < i < |u| ==> u[i] == frac[i - |s| - 1];
    assert IsDecimalText(u);
    assert u[..|s|] == s && u[|s| + 1..] == frac;
  }

  lemma FractionBelowOne(a: nat, b: nat)
    requires a < b
    ensures 0.0 <= a as real / b as real < 1.0
  {
  }

  // ------------------------------------------------------------- int(text)

  predicate IsDigitOrUnderscore(c: char) { IsDigit(c) || c == '_' }

  /** The body Python's `int()` accepts in base 10: digits, with single
      underscores allowed only between two digits. */
  predicate IsIntBody(b: string) {
    |b| > 0 && IsDigit(b[0]) && IsDigit(b[|b| - 1])
    && (forall i :: 0 <= i < |b| ==> IsDigitOrUnderscore(b[i]))
    && (forall i :: 0 <= i < |b| - 1 && b[i] == '_' ==> b[i + 1] != '_')
  }

  function WithoutUnderscores(b: string): (r: string)
    requires forall i :: 0 <= i < |b| ==> IsDigitOrUnderscore(b[i])
    ensures AllDigits(r) && |r| <= |b|
  {
    if b == [] then []
    else
      var init := WithoutUnderscores(b[..|b| - 1]);
      if b[|b| - 1] == '_' then init
      else
        assert IsDigitOrUnderscore(b[|b| - 1]);
        init + [b[|b| - 1]]
  }

  /** `int(s)`: surrounding whitespace is ignored, one optional sign, then
      an underscore-grouped digit body; anything else is a `ValueError`
      (`None` here). */
  function ParseInt(s: string): (r: Option<int>)
    ensures r.Some? ==> var t := Strip(s);
      t != [] && (IsDigit(t[0]) || t[0] == '-' || t[0] == '+')
    ensures r.Some? && r.value < 0 ==> Strip(s)[0] == '-'
  {
    ParseSigned(Strip(s))
  }

  /** The sign and body part of `int()`, on already stripped text. */
  function ParseSigned(t: string): (r: Option<int>)
  {
    if t == [] then None
    else if t[0] == '-' then
      (match ParseBody(t[1..]) case None => None case Some(m) => Some(-(m as int)))
    else if t[0] == '+' then ParseBody(t[1..])
    else ParseBody(t)
  }

  function ParseBody(b: string): (r: Option<nat>)
  {
    if IsIntBody(b) then Some(DigitsValue(WithoutUnderscores(b))) else None
  }

  /** `int(str(n)) == n`, also with an explicit sign. */
  lemma ParseIntShow(n: nat)
    ensures ParseInt(Show(n)) == Some(n)
    ensures ParseInt("-" + Show(n)) == Some(-(n as int))
    ensures ParseInt("+" + Show(n)) == Some(n)
  {
    var s := Show(n);
    ParseBodyShow(n);
    StripOfStripped(s);
    assert s[0] != '-' && s[0] != '+';
    NegativeParse(s, n);
    PositiveParse(s, n);
  }

  lemma NegativeParse(s: string, v: nat)
    requires |s| >= 1 && AllDigits(s) && ParseBody(s) == Some(v)
    ensures ParseInt("-" + s) == Some(-(v as int))
  {
    var t := "-" + s;
    StripOfStripped(t);
    assert t[0] == '-' && t[1..] == s;
  }

  lemma PositiveParse(s: string, v: nat)
    requires |s| >= 1 && AllDigits(s) && ParseBody(s) == Some(v)
    ensures ParseInt("+" + s) == Some(v)
  {
    var t := "+" + s;
    StripOfStripped(t);
    assert t[0] == '+' && t[1..] == s;
  }

  lemma ParseBodyShow(n: nat)
    ensures ParseBody(Show(n)) == Some(n)
  {
    NoUnderscores(Show(n));
    ShowRoundTrip(n);
  }

  lemma {:induction false} NoUnderscores(s: string)
    requires AllDigits(s)
    ensures WithoutUnderscores(s) == s
  {
    if s != [] {
      NoUnderscores(s[..|s| - 1]);
    }
  }
}
