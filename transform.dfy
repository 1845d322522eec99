/**
 * The normaliser (`clean_and_transform` in utils/transform.py): drop rows
 * with the invalid-rating placeholder, coerce every column of the rest, and
 * return no rows at all when any coercion fails.
 *
 * A table is a sequence of rows. The price is kept exactly, in tenths of a
 * rupiah (the source rounds the float to one decimal place).
 */
module Transform {
  import opened Wrappers
  import opened Text
  import opened Patterns
  import opened Timestamps
  import opened Records
  import opened Numbers

  /** US dollars to rupiah. */
  const EXCHANGE_RATE: int := 16000

  /** One normalised row. */
  datatype CleanRecord = CleanRecord(
    title: string,
    priceTenths: int,
    rating: Option<Decimal>,
    colors: nat,
    size: string,
    gender: string,
    timestamp: Option<string>)

  /** The rows whose rating is not the invalid-rating placeholder, in their order. */
  function KeepValidRatings(rows: seq<RawRecord>): (r: seq<RawRecord>)
    ensures |r| <= |rows|
    ensures forall i :: 0 <= i < |r| ==> r[i].rating != INVALID_RATING
  {
    if rows == [] then []
    else (if rows[0].rating == INVALID_RATING then [] else [rows[0]]) + KeepValidRatings(rows[1..])
  }

  /**
   * The filter works row by row: filtering a concatenation is concatenating
   * the filtered parts, so the surviving rows keep their relative order.
   */
  lemma {:induction false} KeepValidRatingsAppend(a: seq<RawRecord>, b: seq<RawRecord>)
    ensures KeepValidRatings(a + b) == KeepValidRatings(a) + KeepValidRatings(b)
  {
    if a != [] {
      assert (a + b)[1..] == a[1..] + b;
      KeepValidRatingsAppend(a[1..], b);
    } else {
      assert a + b == b;
    }
  }

  /** When no row carries the placeholder, the filter keeps every row. */
  lemma {:induction false} KeepValidRatingsAll(rows: seq<RawRecord>)
    requires forall i :: 0 <= i < |rows| ==> rows[i].rating != INVALID_RATING
    ensures KeepValidRatings(rows) == rows
  {
    if rows != [] {
      KeepValidRatingsAll(rows[1..]);
      assert [rows[0]] + rows[1..] == rows;
    }
  }

  /** A single row survives exactly when its rating is not the placeholder. */
  lemma KeepValidRatingsSingle(x: RawRecord)
    ensures KeepValidRatings([x]) == (if x.rating == INVALID_RATING then [] else [x])
  {
    assert [x][1..] == [];
  }

  /** `.str.replace('$', '').str.replace(',', '')`. */
  function CleanPrice(s: string): (r: string)
    ensures |r| <= |s|
    ensures forall i :: 0 <= i < |r| ==> r[i] != '$' && r[i] != ','
  {
    if s == [] then []
    else (if s[0] == '$' || s[0] == ',' then [] else [s[0]]) + CleanPrice(s[1..])
  }

  /** Text without a dollar sign or a comma is left as it is. */
  lemma {:induction false} CleanPriceNoOp(s: string)
    requires forall i :: 0 <= i < |s| ==> s[i] != '$' && s[i] != ','
    ensures CleanPrice(s) == s
  {
    if s != [] {
      CleanPriceNoOp(s[1..]);
      assert [s[0]] + s[1..] == s;
    }
  }

  /** A first character that is neither a dollar sign nor a comma stays first. */
  lemma CleanPriceLead(s: string)
    requires s != [] && s[0] != '$' && s[0] != ','
    ensures CleanPrice(s) != [] && CleanPrice(s)[0] == s[0]
  {
  }

  /** One character: dropped when it is a dollar sign or a comma, kept otherwise. */
  lemma CleanPriceSingle(c: char)
    ensures CleanPrice([c]) == if c == '$' || c == ',' then [] else [c]
  {
    assert [c][1..] == [];
  }

  /** The removal works character by character. */
  lemma {:induction false} CleanPriceAppend(a: string, b: string)
    ensures CleanPrice(a + b) == CleanPrice(a) + CleanPrice(b)
  {
    if a != [] {
      assert (a + b)[1..] == a[1..] + b;
      CleanPriceAppend(a[1..], b);
    } else {
      assert a + b == b;
    }
  }

  /**
   * `* 16000` followed by `.round(1)`, in tenths of a rupiah: the whole
   * number of tenths nearest to the exact amount, the even one on a tie.
   */
  function PriceTenths(d: Decimal): (r: int)
    ensures NearestEven(d.mantissa * EXCHANGE_RATE * 10, Pow10(d.scale), r)
  {
    RoundHalfEven(d.mantissa * EXCHANGE_RATE * 10, Pow10(d.scale))
  }

  lemma Pow10Small()
    ensures Pow10(0) == 1 && Pow10(1) == 10 && Pow10(2) == 100 && Pow10(3) == 1000
  {
    assert Pow10(1) == 10 * Pow10(0);
    assert Pow10(2) == 10 * Pow10(1);
    assert Pow10(3) == 10 * Pow10(2);
  }

  lemma Regroup(m: int, k: int, p: int)
    ensures m * k * p == m * (k * p)
  {
  }

  lemma TimesTen(x: int)
    ensures (x * 10) % 10 == 0
  {
  }

  /**
   * With at most three digits after the dot the conversion is exact: no
   * rounding happens and the rupiah amount is a whole number.
   */
  lemma PriceExact(d: Decimal)
    requires d.scale <= 3
    ensures PriceTenths(d) * Pow10(d.scale) == d.mantissa * EXCHANGE_RATE * 10
    ensures PriceTenths(d) % 10 == 0
  {
    Pow10Small();
    var p := Pow10(d.scale);
    var k := if d.scale == 0 then 16000 else if d.scale == 1 then 1600 else if d.scale == 2 then 160 else 16;
    assert k * p == EXCHANGE_RATE;
    Regroup(d.mantissa, k, p);
    Regroup(d.mantissa * k, 10, p);
    Regroup(d.mantissa, EXCHANGE_RATE, 10);
    assert d.mantissa * EXCHANGE_RATE * 10 == d.mantissa * k * 10 * p;
    RoundHalfEvenExact(d.mantissa * k * 10, p);
    TimesTen(d.mantissa * k);
  }

  /** `.str.extract(r'(\d+)')` then `int`: the value of the first digit run. */
  function ColorsCount(s: string): (r: Option<nat>)
    ensures r.Some? ==> exists i :: (0 <= i < |s| && DigitRunAt(s, i).Some? && r.value == DigitsValue(DigitRunAt(s, i).value)
      && forall k :: 0 <= k < i ==> !IsDigit(s[k]))
  {
    match Search(s, DigitRunAt)
    case None => None
    case Some(g) =>
      FirstDigitRun(s);
      Some(DigitsValue(g))
  }

  /** What the colours pattern finds is the digit run at the first digit. */
  lemma FirstDigitRun(s: string)
    requires Search(s, DigitRunAt).Some?
    ensures exists i :: (0 <= i < |s| && DigitRunAt(s, i) == Search(s, DigitRunAt)
      && forall k :: 0 <= k < i ==> !IsDigit(s[k]))
  {
    var p := FirstMatchFrom(s, 0, DigitRunAt).value;
    assert Search(s, DigitRunAt) == DigitRunAt(s, p);
    forall k | 0 <= k < p ensures !IsDigit(s[k]) {
      assert DigitRunAt(s, k).None?;
    }
  }

  /** Colours has a count exactly when the text has a digit somewhere. */
  lemma ColorsCountSome(s: string)
    ensures ColorsCount(s).Some? <==> exists i :: 0 <= i < |s| && IsDigit(s[i])
  {
    SearchNone(s, DigitRunAt);
    if exists i :: 0 <= i < |s| && IsDigit(s[i]) {
      var i :| 0 <= i < |s| && IsDigit(s[i]);
      assert DigitRunAt(s, i).Some?;
    }
  }

  /** Text that starts with a digit run counts as that run's value. */
  lemma ColorsCountLeading(g: string, rest: string)
    requires g != [] && AllDigits(g)
    requires rest != [] ==> !IsDigit(rest[0])
    ensures ColorsCount(g + rest) == Some(DigitsValue(g))
  {
    var s := g + rest;
    forall k | 0 <= k < |g| ensures InClass(s[k], Digit) {
      assert s[k] == g[k];
    }
    if rest != [] {
      assert s[|g|] == rest[0];
    }
    SpanEndAt(s, 0, |g|, Digit);
    assert s[0..|g|] == g;
    SearchLeftmost(s, DigitRunAt, 0);
  }

  /** `N Colors` counts as N. */
  lemma ColorsCountOfLabel(n: nat)
    ensures ColorsCount(NatToString(n) + " Colors") == Some(n)
  {
    ColorsCountLeading(NatToString(n), " Colors");
    NatToStringRoundTrip(n);
  }

  /** The `No Colors` placeholder has no count. */
  lemma ColorsCountPlaceholder()
    ensures ColorsCount(NO_COLORS) == None
  {
    ColorsCountSome(NO_COLORS);
  }

  /**
   * `.str.extract(r'STAR\s*(\d+\.\d+)')` then `float`: a rating with a
   * fractional part, else missing. A rating found is never negative and
   * keeps at least one digit after the dot.
   */
  function RatingValue(s: string): (r: Option<Decimal>)
    ensures r.Some? ==> r.value.mantissa >= 0 && r.value.scale >= 1
  {
    match Search(s, StarDecimalAt)
    case None => None
    case Some(g) =>
      StarDecimalFound(s);
      DecimalTextValue(g);
      ParseNumber(g)
  }

  /** What the rating pattern finds has the shape `digits.digits`. */
  lemma StarDecimalFound(s: string)
    requires Search(s, StarDecimalAt).Some?
    ensures IsDigitsDotDigits(Search(s, StarDecimalAt).value)
  {
    var p := FirstMatchFrom(s, 0, StarDecimalAt).value;
    assert Search(s, StarDecimalAt) == StarDecimalAt(s, p);
  }

  /** Text of the shape `digits.digits` reads as a non-negative number with a fractional part. */
  lemma DecimalTextValue(g: string)
    requires IsDigitsDotDigits(g)
    ensures ParseNumber(g).Some?
    ensures ParseNumber(g).value.mantissa >= 0 && ParseNumber(g).value.scale >= 1
  {
    var k := SpanEnd(g, 0, Digit);
    var a, f := g[..k], g[k + 1..];
    assert AllDigits(a) by {
      forall q | 0 <= q < |a| ensures IsDigit(a[q]) {
        assert a[q] == g[q];
      }
    }
    assert g == a + "." + f;
    ParseFraction(a, f);
  }

  /** Where the star, optional whitespace and `digits.digits` sit in a rating text. */
  lemma StarTextLayout(sp: string, a: string, f: string)
    requires AllSpaces(sp) && a != [] && AllDigits(a) && f != [] && AllDigits(f)
    ensures var s, b := STAR + sp + a + "." + f, |STAR| + |sp|;
      && |s| == b + |a| + 1 + |f|
      && StartsWith(s[0..], STAR)
      && (forall k :: |STAR| <= k < b ==> IsSpace(s[k]))
      && (forall k :: b <= k < b + |a| ==> IsDigit(s[k]))
      && s[b + |a|] == '.'
      && (forall k :: b + |a| < k < |s| ==> IsDigit(s[k]))
      && s[b..] == a + "." + f
  {
    var s, b := STAR + sp + a + "." + f, |STAR| + |sp|;
    assert s[0..][..|STAR|] == STAR;
    forall k | |STAR| <= k < b ensures IsSpace(s[k]) {
      assert s[k] == sp[k - |STAR|];
    }
    forall k | b <= k < b + |a| ensures IsDigit(s[k]) {
      assert s[k] == a[k - b];
    }
    forall k | b + |a| < k < |s| ensures IsDigit(s[k]) {
      assert s[k] == f[k - b - |a| - 1];
    }
  }

  /**
   * A rating text `STAR`, whitespace, `a.f` reads as the number `a.f`: its
   * mantissa is the digits of `a` and `f` together and its scale is `|f|`.
   */
  lemma RatingValueOf(sp: string, a: string, f: string)
    requires AllSpaces(sp) && a != [] && AllDigits(a) && f != [] && AllDigits(f)
    ensures RatingValue(STAR + sp + a + "." + f) == Some(Decimal(DigitsValue(a) * Pow10(|f|) + DigitsValue(f), |f|))
  {
    StarDecimalAtText(sp, a, f);
    SearchLeftmost(STAR + sp + a + "." + f, StarDecimalAt, 0);
    ParseFraction(a, f);
  }

  /** The rating pattern matches a rating text at its start and captures `a.f`. */
  lemma StarDecimalAtText(sp: string, a: string, f: string)
    requires AllSpaces(sp) && a != [] && AllDigits(a) && f != [] && AllDigits(f)
    ensures StarDecimalAt(STAR + sp + a + "." + f, 0) == Some(a + "." + f)
  {
    var s, b := STAR + sp + a + "." + f, |STAR| + |sp|;
    var c := b + |a|;
    StarFacts();
    StarTextLayout(sp, a, f);
    SpanEndAt(s, |STAR|, b, Space);
    SpanEndAt(s, b, c, Digit);
    SpanEndAt(s, c + 1, |s|, Digit);
    assert DecimalEnd(s, b) == Some(|s|);
    assert s[b..|s|] == a + "." + f;
    assert StartsWith(s[0..], STAR);
    assert SpanEnd(s, 0 + |STAR|, Space) == b;
  }

  /**
   * One row's coercion: the price and the colours must be numeric, the
   * rating may be missing, the title, size and gender pass through and the
   * timestamp is rendered.
   */
  function CoerceRow(row: RawRecord): (r: Option<CleanRecord>)
    ensures r.Some? <==> ParseNumber(CleanPrice(row.price)).Some? && ColorsCount(row.colors).Some?
    ensures r.Some? ==> r.value.title == row.title && r.value.size == row.size && r.value.gender == row.gender
    ensures r.Some? ==> r.value.timestamp.Some? ==> |r.value.timestamp.value| == 26 && r.value.timestamp.value[10] == 'T'
  {
    match (ParseNumber(CleanPrice(row.price)), ColorsCount(row.colors))
    case (Some(price), Some(colors)) =>
      Some(CleanRecord(row.title, PriceTenths(price), RatingValue(row.rating), colors,
                       row.size, row.gender, NormalizeTimestamp(row.timestamp)))
    case _ => None
  }

  /** Coerces every row, or fails as a whole as soon as one row fails. */
  function CoerceAll(rows: seq<RawRecord>): (r: Option<seq<CleanRecord>>)
    ensures r.Some? <==> forall i :: 0 <= i < |rows| ==> CoerceRow(rows[i]).Some?
    ensures r.Some? ==> |r.value| == |rows| && forall i :: 0 <= i < |rows| ==> CoerceRow(rows[i]) == Some(r.value[i])
  {
    if rows == [] then Some([])
    else
      var head, tail := CoerceRow(rows[0]), CoerceAll(rows[1..]);
      ConsCoerced(CoerceRow, rows, head, tail);
      if head.Some? && tail.Some? then Some([head.value] + tail.value) else None
  }

  /** How the coercion of the first row and of the rest combine, for any row coercion `f`. */
  lemma ConsCoerced<A, B>(f: A -> Option<B>, rows: seq<A>, head: Option<B>, tail: Option<seq<B>>)
    requires rows != [] && head == f(rows[0])
    requires tail.Some? <==> forall i :: 0 <= i < |rows| - 1 ==> f(rows[1..][i]).Some?
    requires tail.Some? ==> |tail.value| == |rows| - 1 && forall i :: 0 <= i < |rows| - 1 ==> f(rows[1..][i]) == Some(tail.value[i])
    ensures head.Some? && tail.Some? <==> forall i :: 0 <= i < |rows| ==> f(rows[i]).Some?
    ensures head.Some? && tail.Some? ==>
      var r := [head.value] + tail.value;
      |r| == |rows| && forall i :: 0 <= i < |rows| ==> f(rows[i]) == Some(r[i])
  {
    assert forall i :: 1 <= i < |rows| ==> rows[i] == rows[1..][i - 1];
    if !tail.Some? {
      var i :| 0 <= i < |rows| - 1 && f(rows[1..][i]).None?;
      assert f(rows[i + 1]).None?;
    }
  }

  /**
   * `clean_and_transform(df)`. The output is empty exactly when no row
   * survives the filter or some surviving row fails to coerce; otherwise it
   * has one row per surviving row, in order, each that row's coercion (so
   * title, size and gender pass through unchanged).
   */
  function CleanAndTransform(rows: seq<RawRecord>): (out: seq<CleanRecord>)
    ensures var kept := KeepValidRatings(rows);
      && (out == [] <==> kept == [] || exists i :: 0 <= i < |kept| && CoerceRow(kept[i]).None?)
      && (out != [] ==> |out| == |kept| && forall i :: 0 <= i < |kept| ==> CoerceRow(kept[i]) == Some(out[i]))
  {
    match CoerceAll(KeepValidRatings(rows))
    case None => []
    case Some(table) => table
  }

  /**
   * A row with the invalid-rating placeholder is dropped before anything is
   * coerced, so whatever its price and colours hold it cannot empty the
   * output: removing it changes nothing.
   */
  lemma InvalidRowIgnored(a: seq<RawRecord>, x: RawRecord, b: seq<RawRecord>)
    requires x.rating == INVALID_RATING
    ensures CleanAndTransform(a + [x] + b) == CleanAndTransform(a + b)
  {
    KeepValidRatingsAppend(a + [x], b);
    KeepValidRatingsAppend(a, [x]);
    KeepValidRatingsAppend(a, b);
    KeepValidRatingsSingle(x);
    assert KeepValidRatings(a) + [] == KeepValidRatings(a);
  }
}
