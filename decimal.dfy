/** Exact decimal numbers in the manner of java.math.BigDecimal: an unscaled
    integer and a scale, HALF_UP rounding to a scale, the plain string
    rendering (`toPlainString`) and the string constructor (`BigDecimal(String)`,
    without exponent notation). */
module Decimals {
  import opened Resources

  /** 10 to the power k. */
  function Pow10(k: nat): (p: nat)
    ensures p >= 1
    ensures k > 0 ==> p >= 10
  {
    if k == 0 then 1 else 10 * Pow10(k - 1)
  }

  /** The number unscaled / 10^scale. */
  datatype Decimal = Decimal(unscaled: int, scale: nat)

  function Value(d: Decimal): real {
    d.unscaled as real / Pow10(d.scale) as real
  }

  /** How far the unscaled value n lies below x once x is expressed in units of
      10^-scale. */
  function Residue(x: real, scale: nat, n: int): real {
    x * Pow10(scale) as real - n as real
  }

  /** The characterisation of RoundingMode.HALF_UP: n is a nearest integer to
      x * 10^scale, and on a tie the one farther from zero. */
  ghost predicate IsHalfUp(x: real, scale: nat, n: int) {
    var e := Residue(x, scale, n);
    && -0.5 <= e <= 0.5
    && (e == 0.5 ==> x < 0.0)
    && (e == -0.5 ==> x >= 0.0)
  }

  /** x rounded HALF_UP to `scale` fractional digits (setScale, divide). */
  function RoundHalfUp(x: real, scale: nat): (d: Decimal)
    ensures d.scale == scale
    ensures IsHalfUp(x, scale, d.unscaled)
  {
    var y := x * Pow10(scale) as real;
    Decimal(if x >= 0.0 then (y + 0.5).Floor else -((0.5 - y).Floor), scale)
  }

  /** The characterisation in RoundHalfUp's contract admits exactly one
      integer, so it is an independent definition of the rounding. */
  lemma RoundHalfUpUnique(x: real, scale: nat, n: int)
    requires IsHalfUp(x, scale, n)
    ensures n == RoundHalfUp(x, scale).unscaled
  {
    var m := RoundHalfUp(x, scale).unscaled;
    assert Residue(x, scale, m) - Residue(x, scale, n) == (n - m) as real;
  }

  /** A HALF_UP rounded number differs from the exact value by at most half
      a unit of its last digit. */
  lemma HalfUpError(x: real, d: Decimal)
    requires IsHalfUp(x, d.scale, d.unscaled)
    ensures -0.5 <= (x - Value(d)) * Pow10(d.scale) as real <= 0.5
  {
    var p := Pow10(d.scale) as real;
    var e := Residue(x, d.scale, d.unscaled);
    assert -0.5 <= e <= 0.5;
    ScaledBack(d.unscaled as real, p);
    Distribute(x, Value(d), p);
    assert (x - Value(d)) * p == e;
  }

  lemma ScaledBack(n: real, p: real)
    requires p != 0.0
    ensures n / p * p == n
  {
  }

  lemma Distribute(x: real, v: real, p: real)
    ensures (x - v) * p == x * p - v * p
  {
  }

  // ---------------------------------------------------------------------
  // Arithmetic

  lemma {:induction false} Pow10Add(a: nat, b: nat)
    ensures Pow10(a + b) == Pow10(a) * Pow10(b)
  {
    if a > 0 {
      Pow10Add(a - 1, b);
      assert Pow10(a + b) == 10 * Pow10((a - 1) + b);
      assert 10 * (Pow10(a - 1) * Pow10(b)) == (10 * Pow10(a - 1)) * Pow10(b);
    }
  }

  lemma QuotientZero(u: real, p: real)
    requires p > 0.0
    ensures u / p == 0.0 <==> u == 0.0
  {
    assert (u / p) * p == u;
  }

  lemma QuotientProduct(ua: real, ub: real, pa: real, pb: real)
    requires pa > 0.0 && pb > 0.0
    ensures (ua * ub) / (pa * pb) == (ua / pa) * (ub / pb)
  {
    var qa, qb := ua / pa, ub / pb;
    assert qa * pa == ua && qb * pb == ub;
    assert (qa * qb) * (pa * pb) == (qa * pa) * (qb * pb);
  }

  /** A number is zero exactly when its unscaled value is (signum() == 0). */
  lemma ValueZero(d: Decimal)
    ensures Value(d) == 0.0 <==> d.unscaled == 0
  {
    QuotientZero(d.unscaled as real, Pow10(d.scale) as real);
  }

  /** multiply: the exact product, whose scale is the sum of the scales. */
  function Multiply(a: Decimal, b: Decimal): (p: Decimal)
    ensures p.scale == a.scale + b.scale
  {
    Decimal(a.unscaled * b.unscaled, a.scale + b.scale)
  }

  /** The product's value is the product of the values. */
  lemma MultiplyValue(a: Decimal, b: Decimal)
    ensures Value(Multiply(a, b)) == Value(a) * Value(b)
  {
    var pa, pb := Pow10(a.scale), Pow10(b.scale);
    Pow10Add(a.scale, b.scale);
    IntProductAsReal(pa, pb);
    IntProductAsReal(a.unscaled, b.unscaled);
    QuotientProduct(a.unscaled as real, b.unscaled as real, pa as real, pb as real);
  }

  lemma IntProductAsReal(x: int, y: int)
    ensures (x * y) as real == x as real * y as real
  {
  }

  /** setScale(scale, HALF_UP). */
  function SetScale(d: Decimal, scale: nat): (r: Decimal)
    ensures r.scale == scale && IsHalfUp(Value(d), scale, r.unscaled)
  {
    RoundHalfUp(Value(d), scale)
  }

  /** divide(divisor, scale, HALF_UP): the quotient rounded to `scale`
      digits; a zero divisor raises ArithmeticException, so callers test it. */
  function Divide(a: Decimal, b: Decimal, scale: nat): (q: Decimal)
    requires b.unscaled != 0
    ensures q.scale == scale && IsHalfUp(Value(a) / Value(b), scale, q.unscaled)
  {
    ValueZero(b);
    RoundHalfUp(Value(a) / Value(b), scale)
  }

  // ---------------------------------------------------------------------
  // Decimal digits

  predicate IsDigit(c: char) { '0' <= c <= '9' }

  predicate AllDigits(s: string) {
    forall i :: 0 <= i < |s| ==> IsDigit(s[i])
  }

  function DigitValue(c: char): (v: nat)
    requires IsDigit(c)
    ensures v < 10
  {
    c as int - '0' as int
  }

  function DigitChar(v: nat): (c: char)
    requires v < 10
    ensures IsDigit(c) && DigitValue(c) == v
  {
    ('0' as int + v) as char
  }

  /** The number a string of decimal digits denotes. */
  function DigitsValue(s: string): nat
    requires AllDigits(s)
  {
    if s == [] then 0 else DigitsValue(s[..|s| - 1]) * 10 + DigitValue(s[|s| - 1])
  }

  /** The shortest decimal numeral of n ("0" for zero). */
  function NatToDigits(n: nat): (s: string)
    ensures |s| >= 1 && AllDigits(s)
  {
    if n < 10 then [DigitChar(n)] else NatToDigits(n / 10) + [DigitChar(n % 10)]
  }

  /** The last `width` decimal digits of n, padded with leading zeros. */
  function PadDigits(n: nat, width: nat): (s: string)
    ensures |s| == width && AllDigits(s)
  {
    if width == 0 then [] else PadDigits(n / 10, width - 1) + [DigitChar(n % 10)]
  }

  lemma {:induction false} DigitsValueAppend(a: string, b: string)
    requires AllDigits(a) && AllDigits(b)
    ensures AllDigits(a + b)
    ensures DigitsValue(a + b) == DigitsValue(a) * Pow10(|b|) + DigitsValue(b)
  {
    if b == [] {
      assert a + b == a;
    } else {
      var b', c := b[..|b| - 1], b[|b| - 1];
      assert (a + b)[..|a + b| - 1] == a + b';
      assert (a + b)[|a + b| - 1] == c;
      DigitsValueAppend(a, b');
      assert DigitsValue(a + b) == DigitsValue(a + b') * 10 + DigitValue(c);
      AppendArithmetic(DigitsValue(a), Pow10(|b'|), DigitsValue(b'), DigitValue(c));
    }
  }

  lemma AppendArithmetic(va: int, p: int, vb: int, c: int)
    ensures (va * p + vb) * 10 + c == va * (10 * p) + (vb * 10 + c)
  {
  }

  lemma {:induction false} NatToDigitsValue(n: nat)
    ensures DigitsValue(NatToDigits(n)) == n
  {
    if n >= 10 {
      var s := NatToDigits(n);
      assert s[..|s| - 1] == NatToDigits(n / 10);
      NatToDigitsValue(n / 10);
    }
  }

  lemma {:induction false} PadDigitsValue(n: nat, width: nat)
    requires n < Pow10(width)
    ensures DigitsValue(PadDigits(n, width)) == n
  {
    if width > 0 {
      var s := PadDigits(n, width);
      assert s[..|s| - 1] == PadDigits(n / 10, width - 1);
      PadDigitsValue(n / 10, width - 1);
    }
  }

  // ---------------------------------------------------------------------
  // Rendering and parsing

  lemma DivMod(m: nat, p: nat)
    requires p >= 1
    ensures 0 <= m / p && 0 <= m % p < p && m == (m / p) * p + m % p
  {
  }

  function Magnitude(i: int): nat { if i < 0 then -i else i }

  /** BigDecimal.toPlainString: an optional minus sign, then the digits of
      the magnitude. */
  function ToPlainString(d: Decimal): string {
    (if d.unscaled < 0 then "-" else "") + UnsignedText(Magnitude(d.unscaled), d.scale)
  }

  /** The integer part of m / 10^scale without leading zeros (at least one
      digit) and, when the scale is positive, a point followed by exactly
      `scale` digits. */
  function UnsignedText(m: nat, scale: nat): string {
    var p := Pow10(scale);
    DivMod(m, p);
    NatToDigits(m / p) + (if scale == 0 then "" else "." + PadDigits(m % p, scale))
  }

  /** The first position of c in s, or |s| when c does not occur. */
  function IndexOf(s: string, c: char): (k: nat)
    ensures k <= |s|
    ensures k < |s| ==> s[k] == c
    ensures forall i :: 0 <= i < k ==> s[i] != c
  {
    if s == [] then 0 else if s[0] == c then 0 else 1 + IndexOf(s[1..], c)
  }

  /** The BigDecimal(String) constructor on plain numerals: an optional sign,
      digits with at most one point, and at least one digit. The scale is the
      number of digits after the point. */
  function ParseDecimal(s: string): Option<Decimal> {
    if |s| > 0 && s[0] == '-' then
      match ParseUnsigned(s[1..])
      case None => None
      case Some(d) => Some(Decimal(-d.unscaled, d.scale))
    else if |s| > 0 && s[0] == '+' then ParseUnsigned(s[1..])
    else ParseUnsigned(s)
  }

  function ParseUnsigned(s: string): (r: Option<Decimal>)
    ensures r.Some? ==> r.value.unscaled >= 0
  {
    var k := IndexOf(s, '.');
    var whole := s[..k];
    var fraction := if k < |s| then s[k + 1..] else [];
    if AllDigits(whole) && AllDigits(fraction) && |whole| + |fraction| > 0 then
      assert AllDigits(whole + fraction);
      Some(Decimal(DigitsValue(whole + fraction), |fraction|))
    else None
  }

  /** Plain decimal text with exactly `scale` digits after the point (no point
      at all when the scale is 0), no exponent and no grouping. */
  predicate IsPlainDecimal(s: string, scale: nat) {
    var body := if |s| > 0 && s[0] == '-' then s[1..] else s;
    if scale == 0 then |body| > 0 && AllDigits(body)
    else
      && |body| >= scale + 2
      && AllDigits(body[..|body| - scale - 1])
      && body[|body| - scale - 1] == '.'
      && AllDigits(body[|body| - scale..])
  }

  /** Rendering a number and reading the text back gives the same number,
      scale included, and the text has the plain form. */
  lemma ParseToPlainString(d: Decimal)
    ensures ParseDecimal(ToPlainString(d)) == Some(d)
    ensures IsPlainDecimal(ToPlainString(d), d.scale)
  {
    var m := Magnitude(d.unscaled);
    UnsignedTextParses(m, d.scale);
    UnsignedTextIsPlain(m, d.scale);
    if d.unscaled < 0 {
      NegativeRoundTrip(UnsignedText(m, d.scale), d);
    } else {
      assert ToPlainString(d) == UnsignedText(m, d.scale);
    }
  }

  lemma NegativeRoundTrip(body: string, d: Decimal)
    requires d.unscaled < 0
    requires |body| > 0 && IsDigit(body[0])
    requires ParseUnsigned(body) == Some(Decimal(-d.unscaled, d.scale))
    requires IsPlainDecimal(body, d.scale)
    requires ToPlainString(d) == "-" + body
    ensures ParseDecimal(ToPlainString(d)) == Some(d)
    ensures IsPlainDecimal(ToPlainString(d), d.scale)
  {
    ParseNegative(body, d.scale);
    PlainNegative(body, d.scale);
  }

  lemma ParseNegative(body: string, scale: nat)
    requires |body| > 0 && IsDigit(body[0])
    ensures ParseDecimal("-" + body) ==
      match ParseUnsigned(body)
      case None => None
      case Some(d) => Some(Decimal(-d.unscaled, d.scale))
  {
    var signed := "-" + body;
    assert signed[0] == '-' && signed[1..] == body;
  }

  lemma PlainNegative(body: string, scale: nat)
    requires |body| > 0 && IsDigit(body[0])
    ensures IsPlainDecimal("-" + body, scale) == IsPlainDecimal(body, scale)
  {
    var signed := "-" + body;
    assert signed[0] == '-' && signed[1..] == body;
    assert body[0] != '-';
  }

  lemma UnsignedTextParses(m: nat, scale: nat)
    ensures var t := UnsignedText(m, scale);
      IsDigit(t[0]) && ParseUnsigned(t) == Some(Decimal(m, scale))
  {
    var p := Pow10(scale);
    DivMod(m, p);
    var whole, fraction := NatToDigits(m / p), PadDigits(m % p, scale);
    assert DigitsValue(whole + fraction) == m by {
      NatToDigitsValue(m / p);
      PadDigitsValue(m % p, scale);
      DigitsValueAppend(whole, fraction);
    }
    if scale == 0 {
      assert UnsignedText(m, scale) == whole + fraction;
      ParseDigits(whole);
    } else {
      assert UnsignedText(m, scale) == whole + "." + fraction;
      ParsePointed(whole, fraction);
    }
  }

  lemma ParseDigits(whole: string)
    requires |whole| > 0 && AllDigits(whole)
    ensures whole + [] == whole
    ensures ParseUnsigned(whole) == Some(Decimal(DigitsValue(whole + []), 0))
  {
    IndexOfAfterDigits(whole, []);
    assert whole + [] == whole;
  }

  lemma ParsePointed(whole: string, fraction: string)
    requires |whole| > 0 && AllDigits(whole) && AllDigits(fraction)
    ensures AllDigits(whole + fraction)
    ensures ParseUnsigned(whole + "." + fraction)
      == Some(Decimal(DigitsValue(whole + fraction), |fraction|))
  {
    var t := whole + "." + fraction;
    IndexOfAfterDigits(whole, "." + fraction);
    assert t == whole + ("." + fraction);
    assert t[..|whole|] == whole;
    assert t[|whole| + 1..] == fraction;
  }

  lemma UnsignedTextIsPlain(m: nat, scale: nat)
    ensures IsPlainDecimal(UnsignedText(m, scale), scale)
  {
    var p := Pow10(scale);
    DivMod(m, p);
    var whole, fraction := NatToDigits(m / p), PadDigits(m % p, scale);
    var t := UnsignedText(m, scale);
    if scale != 0 {
      assert t == whole + "." + fraction;
      assert t[..|t| - scale - 1] == whole;
      assert t[|t| - scale..] == fraction;
    }
  }

  lemma IndexOfAfterDigits(whole: string, rest: string)
    requires AllDigits(whole)
    requires rest == [] || rest[0] == '.'
    ensures IndexOf(whole + rest, '.') == |whole|
  {
    if rest != [] {
      assert (whole + rest)[|whole|] == '.';
    }
  }
}
