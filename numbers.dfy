/**
 * Decimal numbers as the normaliser reads them: the text forms Python's
 * `float()` accepts for plain decimals, held exactly as a scaled integer,
 * and rounding half to even as numpy's `round` does.
 */
module Numbers {
  import opened Wrappers
  import opened Text

  /** The exact value `mantissa / 10^scale`. */
  datatype Decimal = Decimal(mantissa: int, scale: nat)

  /**
   * An unsigned decimal: `D+`, `D+.D*` or `.D+`. The mantissa is the
   * digits with the dot removed, the scale the number of digits after it.
   */
  function ParseUnsigned(b: string): (r: Option<Decimal>)
    ensures r.Some? ==> r.value.mantissa >= 0 && r.value.scale < |b|
  {
    var i := SpanEnd(b, 0, Digit);
    assert AllDigits(b[..i]) by {
      forall k | 0 <= k < i ensures IsDigit(b[..i][k]) {
        assert b[..i][k] == b[k];
      }
    }
    if i == |b| then
      if i > 0 then Some(Decimal(DigitsValue(b[..i]), 0)) else None
    else if b[i] == '.' && AllDigits(b[i + 1..]) && (i > 0 || i + 1 < |b|) then
      var f := b[i + 1..];
      Some(Decimal(DigitsValue(b[..i]) * Pow10(|f|) + DigitsValue(f), |f|))
    else None
  }

  /**
   * Python `float(s)` for plain decimals: surrounding whitespace, then an
   * optional sign, then an unsigned decimal; anything else fails.
   */
  function ParseNumber(s: string): (r: Option<Decimal>)
    ensures r.Some? ==> Strip(s) != [] && r.value.scale < |Strip(s)|
    ensures r.Some? && r.value.mantissa < 0 ==> Strip(s)[0] == '-'
  {
    var t := Strip(s);
    if t != [] && (t[0] == '+' || t[0] == '-') then
      match ParseUnsigned(t[1..])
      case None => None
      case Some(d) => Some(if t[0] == '-' then Decimal(-d.mantissa, d.scale) else d)
    else ParseUnsigned(t)
  }

  /** Writes a decimal with exactly `scale` digits after the dot (no dot when `scale` is 0). */
  function RenderDecimal(d: Decimal): string {
    if d.mantissa < 0 then "-" + RenderUnsigned(-d.mantissa, d.scale)
    else RenderUnsigned(d.mantissa, d.scale)
  }

  /**
   * The unsigned part of a rendering: the digits of `m`, zero-padded to
   * more than `scale` digits, with the dot before the last `scale` of them.
   */
  function RenderUnsigned(m: nat, scale: nat): (s: string)
    ensures s != [] && IsDigit(s[0]) && IsDigit(s[|s| - 1])
  {
    var t := PadNat(m, scale + 1);
    PadNatValue(m, scale + 1);
    if scale == 0 then t else t[..|t| - scale] + "." + t[|t| - scale..]
  }

  lemma ParseUnsignedDigits(a: string)
    requires a != [] && AllDigits(a)
    ensures ParseUnsigned(a) == Some(Decimal(DigitsValue(a), 0))
  {
    SpanEndAt(a, 0, |a|, Digit);
    assert a[..|a|] == a;
  }

  /** Where the integer digits of `a.f` end, and the pieces on either side of the dot. */
  lemma FractionPieces(a: string, f: string)
    requires AllDigits(a)
    ensures var b := a + "." + f;
      SpanEnd(b, 0, Digit) == |a| && b[|a|] == '.' && b[..|a|] == a && b[|a| + 1..] == f
  {
    var b := a + "." + f;
    forall k | 0 <= k < |a| ensures InClass(b[k], Digit) {
      assert b[k] == a[k];
    }
    assert b[|a|] == '.';
    SpanEndAt(b, 0, |a|, Digit);
    assert b[..|a|] == a;
    assert b[|a| + 1..] == f;
  }

  lemma ParseUnsignedFraction(a: string, f: string)
    requires a != [] && AllDigits(a) && f != [] && AllDigits(f)
    ensures ParseUnsigned(a + "." + f) == Some(Decimal(DigitsValue(a) * Pow10(|f|) + DigitsValue(f), |f|))
  {
    var b := a + "." + f;
    FractionPieces(a, f);
    var i := SpanEnd(b, 0, Digit);
    assert i < |b| && b[i] == '.' && b[..i] == a && b[i + 1..] == f;
  }

  /** Cutting a digit string in two: both parts are digits, and the value splits by place. */
  lemma SplitDigits(t: string, k: nat)
    requires AllDigits(t) && k <= |t|
    ensures AllDigits(t[..k]) && AllDigits(t[k..])
    ensures DigitsValue(t[..k]) * Pow10(|t| - k) + DigitsValue(t[k..]) == DigitsValue(t)
  {
    var a, b := t[..k], t[k..];
    AllDigitsSlice(t, 0, k);
    AllDigitsSlice(t, k, |t|);
    assert a + b == t;
    assert |b| == |t| - k;
    DigitsValueAppend(a, b);
  }

  /** With a positive scale, the rendering is the padded digits cut into an integer and a fractional part. */
  lemma RenderPieces(m: nat, scale: nat)
    requires scale > 0
    ensures var t := PadNat(m, scale + 1); var k := |t| - scale;
      && 0 < k && AllDigits(t[..k]) && AllDigits(t[k..]) && |t[k..]| == scale
      && DigitsValue(t[..k]) * Pow10(scale) + DigitsValue(t[k..]) == m
      && RenderUnsigned(m, scale) == t[..k] + "." + t[k..]
  {
    var t := PadNat(m, scale + 1);
    PadNatValue(m, scale + 1);
    SplitDigits(t, |t| - scale);
  }

  lemma ParseRenderUnsigned(m: nat, scale: nat)
    ensures ParseUnsigned(RenderUnsigned(m, scale)) == Some(Decimal(m, scale))
  {
    if scale == 0 {
      PadNatValue(m, 1);
      ParseUnsignedDigits(PadNat(m, 1));
    } else {
      var t := PadNat(m, scale + 1);
      RenderPieces(m, scale);
      ParseUnsignedFraction(t[..|t| - scale], t[|t| - scale..]);
    }
  }

  lemma ParseRenderNonNegative(m: nat, scale: nat)
    ensures ParseNumber(RenderDecimal(Decimal(m, scale))) == Some(Decimal(m, scale))
  {
    var u := RenderUnsigned(m, scale);
    assert RenderDecimal(Decimal(m, scale)) == u;
    ParseRenderUnsigned(m, scale);
    ParseNonNegative(u);
  }

  /** A negative decimal is written as a minus sign before the rendering of its magnitude. */
  lemma RenderNegative(m: nat, scale: nat)
    requires m > 0
    ensures var s := RenderDecimal(Decimal(-(m as int), scale));
      |s| >= 2 && s[0] == '-' && s[1..] == RenderUnsigned(m, scale)
  {
    var u := RenderUnsigned(m, scale);
    assert ("-" + u)[1..] == u;
  }

  lemma ParseRenderNegative(m: nat, scale: nat)
    requires m > 0
    ensures ParseNumber(RenderDecimal(Decimal(-(m as int), scale))) == Some(Decimal(-(m as int), scale))
  {
    RenderNegative(m, scale);
    ParseRenderUnsigned(m, scale);
    ParseNegative(RenderDecimal(Decimal(-(m as int), scale)), Decimal(m, scale));
  }

  /**
   * Rendering loses nothing: `float()` reads a rendered decimal back to the
   * same mantissa and scale.
   */
  lemma ParseRenderRoundTrip(d: Decimal)
    ensures ParseNumber(RenderDecimal(d)) == Some(d)
  {
    if d.mantissa < 0 {
      ParseRenderNegative(-d.mantissa, d.scale);
    } else {
      ParseRenderNonNegative(d.mantissa, d.scale);
    }
  }

  /** Text whose first character cannot begin a number does not read as one. */
  lemma ParseNumberRejectsLead(s: string)
    requires s != [] && !IsSpace(s[0]) && !IsDigit(s[0]) && s[0] != '+' && s[0] != '-' && s[0] != '.'
    ensures ParseNumber(s) == None
  {
    assert TrimLeft(s) == s;
    TrimRightSpec(s);
    assert !AllSpaces(s);
    var t := Strip(s);
    assert t[0] == s[0];
    SpanEndAt(t, 0, 0, Digit);
  }

  /** Text that starts and ends with a digit is read as an unsigned decimal. */
  lemma ParseNonNegative(u: string)
    requires u != [] && IsDigit(u[0]) && IsDigit(u[|u| - 1])
    ensures ParseNumber(u) == ParseUnsigned(u)
  {
    StripNoOp(u);
  }

  /** `a.f` with digits on both sides reads as the number it spells. */
  lemma ParseFraction(a: string, f: string)
    requires a != [] && AllDigits(a) && f != [] && AllDigits(f)
    ensures ParseNumber(a + "." + f) == Some(Decimal(DigitsValue(a) * Pow10(|f|) + DigitsValue(f), |f|))
  {
    var u := a + "." + f;
    assert u[0] == a[0] && u[|u| - 1] == f[|f| - 1];
    ParseNonNegative(u);
    ParseUnsignedFraction(a, f);
  }

  /** A minus sign in front negates the mantissa. */
  lemma ParseNegative(s: string, v: Decimal)
    requires |s| >= 2 && s[0] == '-' && IsDigit(s[1]) && IsDigit(s[|s| - 1])
    requires ParseUnsigned(s[1..]) == Some(v)
    ensures ParseNumber(s) == Some(Decimal(-v.mantissa, v.scale))
  {
    StripNoOp(s);
  }

  /**
   * `r` is an integer nearest to `n / d` (at most half of `d` away from it,
   * after scaling by `d`), and an even one when `n / d` lies halfway.
   */
  predicate NearestEven(n: int, d: int, r: int) {
    && 2 * (n - r * d) <= d && -d <= 2 * (n - r * d)
    && (2 * (n - r * d) == d || 2 * (n - r * d) == -d ==> r % 2 == 0)
  }

  /**
   * numpy's rounding of `n / d` to an integer: the nearest one, and the even
   * one of two equally near.
   */
  function RoundHalfEven(n: int, d: int): (r: int)
    requires d > 0
    ensures NearestEven(n, d, r)
  {
    var q, rem := n / d, n % d;
    assert n == q * d + rem;
    if 2 * rem < d then q
    else if 2 * rem > d then q + 1
    else if q % 2 == 0 then q
    else q + 1
  }

  /** The two properties pin the rounded value down: no other integer has them. */
  lemma RoundHalfEvenUnique(n: int, d: int, r: int)
    requires d > 0
    requires NearestEven(n, d, r)
    ensures r == RoundHalfEven(n, d)
  {
    var r0 := RoundHalfEven(n, d);
    if r != r0 {
      var lo, hi := if r < r0 then r else r0, if r < r0 then r0 else r;
      var e, e0 := n - lo * d, n - hi * d;
      Distribute(n, hi, lo, d);
      assert e - e0 == (hi - lo) * d;
      AtLeastTwice(hi - lo, d);
    }
  }

  lemma Distribute(n: int, a: int, b: int, d: int)
    ensures (n - b * d) - (n - a * d) == (a - b) * d
  {
  }

  lemma AtLeastTwice(k: int, d: int)
    requires k >= 1 && d > 0
    ensures k * d >= d
    ensures k >= 2 ==> k * d >= 2 * d
  {
  }

  /** A quotient that is already whole is its own rounding. */
  lemma RoundHalfEvenExact(q: int, d: int)
    requires d > 0
    ensures RoundHalfEven(q * d, d) == q
  {
    RoundHalfEvenUnique(q * d, d, q);
  }
}
