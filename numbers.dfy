/** Decimal numbers as the wizard reads and prints them: `Number.prototype.toString`
    for catalog numbers, and `parseFloat` / `parseInt` for what the user types. Values are
    exact reals; the double-precision rounding of JavaScript is not modelled. */
module Numbers {
  import opened Wrappers
  import opened Text

  predicate IsDigit(c: char)
  {
    '0' <= c <= '9'
  }

  predicate AllDigits(s: string)
  {
    forall i | 0 <= i < |s| :: IsDigit(s[i])
  }

  function DigitValue(c: char): (d: nat)
    requires IsDigit(c)
    ensures d < 10
  {
    c as int - '0' as int
  }

  function DigitChar(d: nat): (c: char)
    requires d < 10
    ensures IsDigit(c) && DigitValue(c) == d
  {
    ('0' as int + d) as char
  }

  function Pow10(n: nat): (r: nat)
    ensures r >= 1
  {
    if n == 0 then 1 else 10 * Pow10(n - 1)
  }

  /** The number a string of decimal digits denotes, most significant digit first. */
  function DigitsValue(s: string): nat
    requires AllDigits(s)
  {
    if s == [] then 0 else DigitsValue(s[..|s| - 1]) * 10 + DigitValue(s[|s| - 1])
  }

  /** The length of the longest prefix of `s` made of digits. */
  function DigitRun(s: string): (k: nat)
    ensures k <= |s| && AllDigits(s[..k])
    ensures k == |s| || !IsDigit(s[k])
  {
    if s != [] && IsDigit(s[0]) then
      var k := 1 + DigitRun(s[1..]);
      assert forall i | 1 <= i < k :: s[..k][i] == s[1..][..k - 1][i - 1];
      k
    else 0
  }

  lemma {:induction false} DigitRunOf(a: string, b: string)
    requires AllDigits(a)
    requires b == [] || !IsDigit(b[0])
    ensures DigitRun(a + b) == |a| && (a + b)[..|a|] == a
  {
    if a != [] {
      DigitRunOf(a[1..], b);
      assert (a + b)[1..] == a[1..] + b;
    }
  }

  /** `String(n)` for a natural number: its digits without leading zeros. */
  function NatToString(n: nat): (r: string)
    ensures r != [] && AllDigits(r) && DigitsValue(r) == n
  {
    if n < 10 then [DigitChar(n)]
    else
      var high := NatToString(n / 10);
      var r := high + [DigitChar(n % 10)];
      assert r[..|r| - 1] == high;
      r
  }

  /** `String(n)` for an integer. */
  function IntToString(n: int): (r: string)
    ensures r != []
    ensures (r[0] == '-') == (n < 0)
  {
    (if n < 0 then "-" else "") + NatToString(if n < 0 then -n else n)
  }

  /** A decimal number `units / 10^scale`: how a numeric literal of the catalog is kept. */
  datatype Decimal = Decimal(units: int, scale: nat)
  {
    function Value(): real
    {
      units as real / Pow10(scale) as real
    }
  }

  /** The same number with trailing zeros of the fraction removed. */
  function Normalize(d: Decimal): (n: Decimal)
    ensures n.Value() == d.Value()
    ensures n.scale == 0 || n.units % 10 != 0
    decreases d.scale
  {
    if d.scale > 0 && d.units % 10 == 0 then
      var smaller := Decimal(d.units / 10, d.scale - 1);
      assert d.units as real == 10.0 * smaller.units as real;
      assert Pow10(d.scale) as real == 10.0 * Pow10(d.scale - 1) as real;
      Normalize(smaller)
    else d
  }

  /** `m` cut into its whole part and its last `scale` digits (see `CutFractionSplits`). */
  function CutFraction(m: nat, scale: nat): (r: (nat, string))
    ensures |r.1| == scale && AllDigits(r.1)
  {
    if scale == 0 then (m, [])
    else
      var (whole, frac) := CutFraction(m / 10, scale - 1);
      var digits := frac + [DigitChar(m % 10)];
      assert forall i | 0 <= i < |frac| :: digits[i] == frac[i];
      (whole, digits)
  }

  /** The cut is exact: m = whole * 10^scale + fraction. */
  lemma {:induction false} CutFractionSplits(m: nat, scale: nat)
    ensures m == CutFraction(m, scale).0 * Pow10(scale) + DigitsValue(CutFraction(m, scale).1)
  {
    if scale > 0 {
      CutFractionSplits(m / 10, scale - 1);
      var (whole, frac) := CutFraction(m / 10, scale - 1);
      var digits := frac + [DigitChar(m % 10)];
      assert CutFraction(m, scale) == (whole, digits);
      assert digits[..|digits| - 1] == frac;
      assert DigitsValue(digits) == DigitsValue(frac) * 10 + m % 10;
      Regroup(m, whole, Pow10(scale - 1), DigitsValue(frac));
    }
  }

  /** If m / 10 = w * p + f, then m = w * (10 * p) + (10 * f + the last digit of m). */
  lemma Regroup(m: int, w: int, p: int, f: int)
    requires m / 10 == w * p + f
    ensures m == w * (10 * p) + (f * 10 + m % 10)
  {
    assert m == (m / 10) * 10 + m % 10;
    assert (w * p + f) * 10 == w * (10 * p) + f * 10;
  }

  /** The digits of `m / 10^scale` with no sign: the integer part, then, when `scale` is
      positive, a point and exactly `scale` fraction digits. */
  function FormatUnsigned(m: nat, scale: nat): (r: string)
    ensures r != [] && IsDigit(r[0]) && '-' !in r
  {
    var (whole, frac) := CutFraction(m, scale);
    var digits := NatToString(whole);
    var tail := if scale == 0 then "" else "." + frac;
    assert '-' !in digits && '-' !in tail;
    digits + tail
  }

  /** `Number.prototype.toString` for a catalog number: an optional minus sign, the
      integer part without leading zeros, and, when the number is not whole, a point and
      the fraction without trailing zeros (so 3.0 prints as "3"). A minus sign appears,
      and only in front, exactly when the number is negative. */
  function FormatDecimal(d: Decimal): (r: string)
    ensures r != [] && (r[0] == '-' || IsDigit(r[0]))
    ensures (r[0] == '-') == (d.Value() < 0.0)
    ensures '-' !in r[1..]
  {
    var n := Normalize(d);
    ValueSign(n);
    if n.units < 0 then
      var m: nat := -n.units;
      MinusFirst(FormatUnsigned(m, n.scale));
      "-" + FormatUnsigned(m, n.scale)
    else FormatUnsigned(n.units, n.scale)
  }

  /** A decimal is negative exactly when its units are. */
  lemma ValueSign(n: Decimal)
    ensures (n.units < 0) == (n.Value() < 0.0)
  {
  }

  lemma MinusFirst(s: string)
    ensures ("-" + s)[0] == '-' && ("-" + s)[1..] == s
  {
  }

  /** The unsigned part of `parseFloat`: digits, optionally a point and more digits, with
      at least one digit in all; whatever follows is ignored. */
  function ParseUnsigned(s: string): (r: Option<real>)
    ensures r.Some? ==> r.value >= 0.0
  {
    var k := DigitRun(s);
    var whole := DigitsValue(s[..k]);
    if k < |s| && s[k] == '.' then
      var frac := s[k + 1..];
      var f := DigitRun(frac);
      if k + f == 0 then None
      else Some(whole as real + DigitsValue(frac[..f]) as real / Pow10(f) as real)
    else if k == 0 then None
    else Some(whole as real)
  }

  /** `parseFloat(s)`, with `None` for NaN: leading whitespace is skipped, then an
      optional sign and the longest decimal prefix are read. */
  function ParseFloat(s: string): (r: Option<real>)
    ensures r.Some? ==> exists i | 0 <= i < |s| :: IsDigit(s[i])
  {
    var t := TrimStart(s);
    var u := if t != [] && (t[0] == '-' || t[0] == '+') then t[1..] else t;
    DigitInSuffix(s, u);
    ParseSigned(t)
  }

  /** `parseFloat` gives NaN unless it finds a digit. */
  lemma UnsignedNeedsDigit(u: string)
    requires ParseUnsigned(u).Some?
    ensures exists i | 0 <= i < |u| :: IsDigit(u[i])
  {
    var k := DigitRun(u);
    if k > 0 {
      assert u[..k][0] == u[0];
    } else {
      var frac := u[k + 1..];
      assert DigitRun(frac) > 0;
      assert frac[..DigitRun(frac)][0] == u[1];
    }
  }

  /** A digit of a suffix of `s` is a digit of `s`. */
  lemma DigitInSuffix(s: string, u: string)
    requires |u| <= |s| && u == s[|s| - |u|..]
    ensures ParseUnsigned(u).Some? ==> exists i | 0 <= i < |s| :: IsDigit(s[i])
  {
    if ParseUnsigned(u).Some? {
      UnsignedNeedsDigit(u);
      var j :| 0 <= j < |u| && IsDigit(u[j]);
      assert s[|s| - |u| + j] == u[j];
    }
  }

  /** An optional sign followed by an unsigned decimal prefix. */
  function ParseSigned(t: string): Option<real>
  {
    if t != [] && t[0] == '-' then Negate(ParseUnsigned(t[1..]))
    else if t != [] && t[0] == '+' then ParseUnsigned(t[1..])
    else ParseUnsigned(t)
  }

  function Negate(r: Option<real>): Option<real>
  {
    if r.Some? then Some(-r.value) else None
  }

  /** Without a minus sign, `parseFloat` never gives a negative number. */
  lemma ParseFloatNonNegative(s: string)
    requires '-' !in s
    ensures ParseFloat(s).Some? ==> ParseFloat(s).value >= 0.0
  {
    var t := TrimStart(s);
    if t != [] {
      assert t[0] == s[|s| - |t|];
    }
  }

  /** `parseInt(s)` in base ten, with `None` for NaN: leading whitespace is skipped, then
      an optional sign and the longest run of digits are read. */
  function ParseInt(s: string): (r: Option<int>)
    ensures r.Some? ==> exists i | 0 <= i < |s| :: IsDigit(s[i])
  {
    var t := TrimStart(s);
    var body := if t != [] && (t[0] == '-' || t[0] == '+') then t[1..] else t;
    var k := DigitRun(body);
    if k == 0 then None
    else
      var v: int := DigitsValue(body[..k]);
      assert body[..k][0] == s[|s| - |body|];
      if t[0] == '-' then Some(-v) else Some(v)
  }

  /** A string with no whitespace in front is left alone by `TrimStart`. */
  lemma TrimStartNoop(s: string)
    requires s == [] || !IsWhitespace(s[0])
    ensures TrimStart(s) == s
  {
  }

  /** `parseInt` reads back what `String` prints for an integer. */
  lemma {:induction false} ParseIntRoundTrip(n: int)
    ensures ParseInt(IntToString(n)) == Some(n)
  {
    var m: nat := if n < 0 then -n else n;
    var digits := NatToString(m);
    var s := IntToString(n);
    TrimStartNoop(s);
    DigitRunOf(digits, []);
    assert digits + [] == digits;
    if n < 0 {
      assert s[1..] == digits;
    } else {
      assert s == digits;
    }
  }

  /** `parseFloat` reads a whole number followed by a non-digit as that number. */
  lemma {:induction false} ParseUnsignedWhole(q: nat)
    ensures ParseUnsigned(NatToString(q)) == Some(q as real)
  {
    var digits := NatToString(q);
    DigitRunOf(digits, []);
    assert digits + [] == digits;
  }

  /** `parseFloat` reads `q.frac` as q plus the fraction. */
  lemma {:induction false} ParseUnsignedFraction(q: nat, frac: string)
    requires |frac| >= 1 && AllDigits(frac)
    ensures ParseUnsigned(NatToString(q) + ("." + frac))
         == Some(q as real + DigitsValue(frac) as real / Pow10(|frac|) as real)
  {
    var whole := NatToString(q);
    var s := whole + ("." + frac);
    DigitRunOf(whole, "." + frac);
    assert s[|whole| + 1..] == frac;
    DigitRunOf(frac, []);
    assert frac + [] == frac;
  }

  /** A number written as a whole part and a fraction of `width` digits. */
  lemma ShiftedValue(whole: nat, frac: nat, width: nat)
    ensures (whole * Pow10(width) + frac) as real / Pow10(width) as real
         == whole as real + frac as real / Pow10(width) as real
  {
    var p := Pow10(width);
    ProductAsReal(whole, p);
    DivideSum(whole as real, frac as real, p as real);
  }

  lemma ProductAsReal(a: int, b: int)
    ensures (a * b) as real == a as real * b as real
  {
  }

  lemma DivideSum(a: real, b: real, p: real)
    requires p > 0.0
    ensures (a * p + b) / p == a + b / p
  {
  }

  /** The value of a number cut by `CutFraction`: whole part plus fraction. */
  function CutValue(m: nat, scale: nat): real
  {
    var (whole, frac) := CutFraction(m, scale);
    whole as real + DigitsValue(frac) as real / Pow10(scale) as real
  }

  lemma {:induction false} CutValueExact(m: nat, scale: nat)
    ensures CutValue(m, scale) == m as real / Pow10(scale) as real
  {
    var (whole, frac) := CutFraction(m, scale);
    CutFractionSplits(m, scale);
    ShiftedValue(whole, DigitsValue(frac), scale);
  }

  lemma {:induction false} ParseCutWhole(m: nat)
    ensures ParseUnsigned(FormatUnsigned(m, 0)) == Some(CutValue(m, 0))
  {
    assert CutFraction(m, 0) == (m, []);
    assert FormatUnsigned(m, 0) == NatToString(m) + "";
    assert NatToString(m) + "" == NatToString(m);
    ParseUnsignedWhole(m);
  }

  lemma {:induction false} ParseCutFraction(m: nat, scale: nat)
    requires scale > 0
    ensures ParseUnsigned(FormatUnsigned(m, scale)) == Some(CutValue(m, scale))
  {
    var (whole, frac) := CutFraction(m, scale);
    assert FormatUnsigned(m, scale) == NatToString(whole) + ("." + frac);
    ParseUnsignedFraction(whole, frac);
  }

  /** `parseFloat` reads back the unsigned digits `FormatUnsigned` prints. */
  lemma {:induction false} ParseFormatUnsigned(m: nat, scale: nat)
    ensures ParseUnsigned(FormatUnsigned(m, scale)) == Some(m as real / Pow10(scale) as real)
  {
    if scale == 0 {
      ParseCutWhole(m);
    } else {
      ParseCutFraction(m, scale);
    }
    CutValueExact(m, scale);
  }

  lemma {:induction false} ParseFormatNonNegative(d: Decimal)
    requires Normalize(d).units >= 0
    ensures ParseFloat(FormatDecimal(d)) == Some(d.Value())
  {
    var n := Normalize(d);
    var text := FormatUnsigned(n.units, n.scale);
    assert FormatDecimal(d) == text;
    TrimStartNoop(text);
    ParseFormatUnsigned(n.units, n.scale);
  }

  /** A negative decimal is minus the quotient of its magnitude. */
  lemma NegativeValue(n: Decimal, m: nat)
    requires m == -n.units
    ensures n.Value() == -(m as real / Pow10(n.scale) as real)
  {
  }

  /** A leading minus sign negates what follows it. */
  lemma ParseFloatMinus(text: string, v: real)
    requires ParseUnsigned(text) == Some(v)
    ensures ParseFloat("-" + text) == Some(-v)
  {
    TrimStartNoop("-" + text);
    assert ("-" + text)[1..] == text;
  }

  /** A printed number always ends in a digit. */
  lemma FormatEndsInDigit(d: Decimal)
    ensures IsDigit(FormatDecimal(d)[|FormatDecimal(d)| - 1])
  {
    var n := Normalize(d);
    if n.units < 0 {
      FormatNegative(d, -n.units);
      FormatUnsignedEndsInDigit(-n.units, n.scale);
    } else {
      FormatUnsignedEndsInDigit(n.units, n.scale);
    }
  }

  lemma FormatUnsignedEndsInDigit(m: nat, scale: nat)
    ensures IsDigit(FormatUnsigned(m, scale)[|FormatUnsigned(m, scale)| - 1])
  {
    var (whole, frac) := CutFraction(m, scale);
    var tail := if scale == 0 then "" else "." + frac;
    assert tail == [] || IsDigit(tail[|tail| - 1]);
    assert FormatUnsigned(m, scale) == NatToString(whole) + tail;
  }

  lemma FormatNegative(d: Decimal, m: nat)
    requires Normalize(d).units < 0 && m == -Normalize(d).units
    ensures FormatDecimal(d) == "-" + FormatUnsigned(m, Normalize(d).scale)
  {
    var n := Normalize(d);
    assert n.units < 0;
  }

  lemma {:induction false} ParseFormatNegative(d: Decimal)
    requires Normalize(d).units < 0
    ensures ParseFloat(FormatDecimal(d)) == Some(d.Value())
  {
    var n := Normalize(d);
    var m: nat := -n.units;
    var text := FormatUnsigned(m, n.scale);
    var q := m as real / Pow10(n.scale) as real;
    FormatNegative(d, m);
    ParseFormatUnsigned(m, n.scale);
    ParseFloatMinus(text, q);
    NegativeValue(n, m);
  }

  /** `parseFloat` reads back what `toString` prints for a catalog number. */
  lemma ParseFormatRoundTrip(d: Decimal)
    ensures ParseFloat(FormatDecimal(d)) == Some(d.Value())
  {
    if Normalize(d).units < 0 {
      ParseFormatNegative(d);
    } else {
      ParseFormatNonNegative(d);
    }
  }
}
