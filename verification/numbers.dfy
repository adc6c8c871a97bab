/** Python's `int(...)` and `float(...)` on text, and the decimal rendering
    of whole numbers they invert. */
module Numbers {
  import opened Base
  import opened Text

  // ---------------------------------------------------------------------
  // Digits and integers
  // ---------------------------------------------------------------------

  predicate IsDigit(c: char)
  {
    '0' <= c <= '9'
  }

  predicate AllDigits(s: string)
  {
    forall i :: 0 <= i < |s| ==> IsDigit(s[i])
  }

  /** The value of a string of decimal digits ("" is 0). */
  function DigitsValue(s: string): nat
    requires AllDigits(s)
    decreases |s|
  {
    if |s| == 0 then 0
    else DigitsValue(s[..|s| - 1]) * 10 + (s[|s| - 1] as int - '0' as int)
  }

  function DigitChar(d: nat): char
    requires d < 10
  {
    ('0' as int + d) as char
  }

  /** Decimal rendering of a natural number; it reads back as the same number. */
  function NatToString(n: nat): (r: string)
    ensures |r| > 0 && AllDigits(r)
    ensures DigitsValue(r) == n
    ensures r[0] == '0' ==> n == 0
  {
    if n < 10 then [DigitChar(n)]
    else
      var h := NatToString(n / 10);
      var r := h + [DigitChar(n % 10)];
      assert r[..|r| - 1] == h;
      r
  }

  function IntToString(n: int): (r: string)
    ensures |r| > 0
  {
    if n < 0 then "-" + NatToString(-n) else NatToString(n)
  }

  function Pow10(k: nat): (r: nat)
    ensures r >= 1
  {
    if k == 0 then 1 else 10 * Pow10(k - 1)
  }

  /** The digits and underscores Python's `int()` accepts: digit runs joined
      by single underscores, starting and ending with a digit. */
  predicate WellGrouped(s: string)
  {
    && |s| > 0 && IsDigit(s[0]) && IsDigit(s[|s| - 1])
    && (forall i :: 0 <= i < |s| ==> IsDigit(s[i]) || s[i] == '_')
    && (forall i :: 0 <= i < |s| - 1 ==> s[i] == '_' ==> s[i + 1] != '_')
  }

  function DropUnderscores(s: string): (r: string)
    ensures (forall i :: 0 <= i < |s| ==> IsDigit(s[i]) || s[i] == '_') ==> AllDigits(r)
    ensures AllDigits(s) ==> r == s
  {
    if |s| == 0 then ""
    else if s[0] == '_' then DropUnderscores(s[1..])
    else [s[0]] + DropUnderscores(s[1..])
  }

  function ParseUnsigned(s: string): Option<nat>
  {
    if WellGrouped(s) then Some(DigitsValue(DropUnderscores(s))) else None
  }

  /** Python's `int(s)` on text: surrounding whitespace, an optional sign,
      then grouped decimal digits; None where Python raises ValueError. */
  function ParseInt(s: string): Option<int>
  {
    var t := Strip(s);
    if |t| > 0 && (t[0] == '+' || t[0] == '-') then
      match ParseUnsigned(t[1..])
      case None => None
      case Some(v) => var w: int := v; Some(if t[0] == '-' then -w else w)
    else
      match ParseUnsigned(t)
      case None => None
      case Some(v) => Some(v)
  }

  /** Rendering an integer and reading it back with `int()` gives it back. */
  lemma IntRoundTrip(n: int)
    ensures ParseInt(IntToString(n)) == Some(n)
  {
    var s := IntToString(n);
    var m: nat := if n < 0 then -n else n;
    UnsignedRoundTrip(m);
    if n < 0 {
      NegativeText(NatToString(m));
    } else {
      UnsignedIntText(NatToString(m));
    }
  }

  lemma NegativeText(d: string)
    requires |d| > 0 && AllDigits(d)
    ensures ParseInt("-" + d) == match ParseUnsigned(d)
      case None => None
      case Some(v) => Some(-(v as int))
  {
    var s := "-" + d;
    assert !IsSpace(s[0]) && !IsSpace(s[|s| - 1]);
    StripUnchanged(s);
    assert s[1..] == d;
  }

  lemma UnsignedIntText(d: string)
    requires |d| > 0 && AllDigits(d)
    ensures ParseInt(d) == match ParseUnsigned(d)
      case None => None
      case Some(v) => Some(v as int)
  {
    assert !IsSpace(d[0]) && !IsSpace(d[|d| - 1]);
    StripUnchanged(d);
  }

  lemma UnsignedRoundTrip(m: nat)
    ensures ParseUnsigned(NatToString(m)) == Some(m)
  {
    var d := NatToString(m);
    assert WellGrouped(d);
    assert DropUnderscores(d) == d;
  }

  // ---------------------------------------------------------------------
  // Decimal numbers
  // ---------------------------------------------------------------------

  function IndexOf(s: string, c: char): (r: Option<nat>)
    ensures r.Some? ==> r.value < |s| && s[r.value] == c
                        && forall i :: 0 <= i < r.value ==> s[i] != c
    ensures r.None? ==> forall i :: 0 <= i < |s| ==> s[i] != c
  {
    if |s| == 0 then None
    else if s[0] == c then Some(0)
    else match IndexOf(s[1..], c)
      case None => None
      case Some(k) => Some(k + 1)
  }

  function ParseUnsignedDecimal(s: string): Option<real>
  {
    match IndexOf(s, '.')
    case None =>
      if |s| > 0 && AllDigits(s) then Some(DigitsValue(s) as real) else None
    case Some(k) => PointParts(s[..k], s[k + 1..])
  }

  /** The value of `ip.fp` when both sides are digits and one is non-empty. */
  function PointParts(ip: string, fp: string): Option<real>
  {
    if AllDigits(ip) && AllDigits(fp) && |ip| + |fp| > 0
    then Some(DigitsValue(ip) as real + DigitsValue(fp) as real / Pow10(|fp|) as real)
    else None
  }

  /** `float(s)` on point-decimal text ("12", "-0.5", "3.", ".25"), surrounding
      whitespace allowed; None where the conversion fails. */
  function ParseDecimal(s: string): Option<real>
  {
    var t := Strip(s);
    if |t| > 0 && (t[0] == '+' || t[0] == '-') then
      match ParseUnsignedDecimal(t[1..])
      case None => None
      case Some(v) => Some(if t[0] == '-' then -v else v)
    else ParseUnsignedDecimal(t)
  }

  /** `.str.replace(",", ".")`: decimal commas become decimal points. */
  function NormaliseComma(s: string): (r: string)
    ensures |r| == |s|
    ensures forall i :: 0 <= i < |s| ==> r[i] == (if s[i] == ',' then '.' else s[i])
  {
    ReplaceOneChar(s, ',', '.');
    ReplaceAll(s, ",", ".")
  }

  /** `float(x.replace(",", "."))`: the conversion every comma-tolerant
      numeric column goes through. */
  function ParseCommaDecimal(s: string): Option<real>
  {
    ParseDecimal(NormaliseComma(s))
  }

  /** Text without a comma reads the same with or without comma tolerance. */
  lemma CommaFreeSame(s: string)
    requires forall i :: 0 <= i < |s| ==> s[i] != ','
    ensures ParseCommaDecimal(s) == ParseDecimal(s)
  {
    assert NormaliseComma(s) == s;
  }

  /** A decimal-comma number reads as the same value as its decimal-point
      spelling, and that value is integer part plus scaled fraction. */
  lemma {:induction false} CommaDecimal(a: string, b: string)
    requires |a| > 0 && AllDigits(a) && AllDigits(b)
    ensures ParseCommaDecimal(a + "," + b) == ParseDecimal(a + "." + b)
    ensures ParseCommaDecimal(a + "," + b)
            == Some(DigitsValue(a) as real + DigitsValue(b) as real / Pow10(|b|) as real)
  {
    CommaBecomesPoint(a, b);
    PointDecimal(a, b);
  }

  lemma CommaBecomesPoint(a: string, b: string)
    requires AllDigits(a) && AllDigits(b)
    ensures NormaliseComma(a + "," + b) == a + "." + b
  {
    var s := a + "," + b;
    var t := a + "." + b;
    var n := NormaliseComma(s);
    forall i | 0 <= i < |s|
      ensures n[i] == t[i]
    {
      if i < |a| {
        assert s[i] == a[i] && t[i] == a[i];
      } else if i == |a| {
      } else {
        assert s[i] == b[i - |a| - 1] && t[i] == b[i - |a| - 1];
      }
    }
  }

  lemma {:induction false} PointDecimal(a: string, b: string)
    requires |a| > 0 && AllDigits(a) && AllDigits(b)
    ensures ParseDecimal(a + "." + b)
            == Some(DigitsValue(a) as real + DigitsValue(b) as real / Pow10(|b|) as real)
  {
    var t := a + "." + b;
    assert !IsSpace(t[0]) && !IsSpace(t[|t| - 1]) && t[0] != '+' && t[0] != '-' by {
      assert t[0] == a[0];
      if |b| == 0 {
        assert t[|t| - 1] == '.';
      } else {
        assert t[|t| - 1] == b[|b| - 1];
      }
    }
    UnsignedText(t);
    PointSplit(a, b);
    PointValue(a, b);
  }

  lemma PointValue(a: string, b: string)
    requires |a| > 0 && AllDigits(a) && AllDigits(b)
    ensures PointParts(a, b)
            == Some(DigitsValue(a) as real + DigitsValue(b) as real / Pow10(|b|) as real)
  {
  }

  /** Text that starts with neither whitespace nor a sign is read unsigned. */
  lemma UnsignedText(t: string)
    requires |t| > 0 && !IsSpace(t[0]) && !IsSpace(t[|t| - 1])
    requires t[0] != '+' && t[0] != '-'
    ensures ParseDecimal(t) == ParseUnsignedDecimal(t)
  {
    StripUnchanged(t);
  }

  lemma PointSplit(a: string, b: string)
    requires AllDigits(a)
    ensures ParseUnsignedDecimal(a + "." + b) == PointParts(a, b)
  {
    var t := a + "." + b;
    FirstPoint(a, b);
    assert t[..|a|] == a;
    assert t[|a| + 1..] == b;
  }

  lemma FirstPoint(a: string, b: string)
    requires AllDigits(a)
    ensures IndexOf(a + "." + b, '.') == Some(|a|)
  {
    var t := a + "." + b;
    var k := IndexOf(t, '.');
    assert t[|a|] == '.';
    assert forall i :: 0 <= i < |a| ==> t[i] == a[i];
  }

  /** A whole number written in digits converts to itself. */
  lemma DecimalOfInteger(n: nat)
    ensures ParseDecimal(NatToString(n)) == Some(n as real)
    ensures ParseCommaDecimal(NatToString(n)) == Some(n as real)
  {
    var d := NatToString(n);
    assert !IsSpace(d[0]) && !IsSpace(d[|d| - 1]);
    StripUnchanged(d);
    assert IndexOf(d, '.') == None;
    assert NormaliseComma(d) == d;
  }
}
