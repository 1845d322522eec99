/**
 * Hand-coded recognisers for the six regular expressions the scraper uses,
 * each with Python `re.search` semantics: the leftmost start position at
 * which the pattern matches wins, and the result is capture group 1.
 *
 * Every pattern below is built from greedy runs (`\s*`, `\d+`, `\w+`) each
 * followed by a character outside the run's class, so the greedy run is the
 * only candidate and no backtracking is needed.
 */
module Patterns {
  import opened Wrappers
  import opened Text

  /** The star glyph that precedes a rating (U+2B50 "WHITE MEDIUM STAR"). */
  const STAR: string := "\U{2B50}"

  /** The glyph is neither whitespace, a digit, a word character nor a dot. */
  lemma StarFacts()
    ensures |STAR| == 1
    ensures !IsSpace(STAR[0]) && !IsDigit(STAR[0]) && !IsWordChar(STAR[0]) && STAR[0] != '.'
  {
  }

  /** A pattern anchored at a start position: the capture group, or `None`. */
  type Matcher = (string, nat) -> Option<string>

  /** The first position `p` in `i..|s|` (inclusive) at which `at` matches. */
  function FirstMatchFrom(s: string, i: nat, at: Matcher): (r: Option<nat>)
    ensures r.Some? ==> i <= r.value <= |s| && at(s, r.value).Some?
    ensures r.Some? ==> forall k :: i <= k < r.value ==> at(s, k).None?
    ensures r.None? ==> forall k :: i <= k <= |s| ==> at(s, k).None?
    decreases |s| + 1 - i
  {
    if i > |s| then None
    else if at(s, i).Some? then Some(i)
    else FirstMatchFrom(s, i + 1, at)
  }

  /**
   * Python `re.search(pattern, s)`, reduced to its capture group: a match at
   * the very start is the one reported (`SearchLeftmost` and `SearchNone`
   * state the general case).
   */
  function Search(s: string, at: Matcher): (r: Option<string>)
    ensures at(s, 0).Some? ==> r == at(s, 0)
  {
    match FirstMatchFrom(s, 0, at)
    case None => None
    case Some(p) => at(s, p)
  }

  /** The leftmost position that matches is the one `Search` reports. */
  lemma SearchLeftmost(s: string, at: Matcher, p: nat)
    requires p <= |s| && at(s, p).Some?
    requires forall k :: 0 <= k < p ==> at(s, k).None?
    ensures Search(s, at) == at(s, p)
  {
  }

  /** Nothing is found exactly when no position matches. */
  lemma SearchNone(s: string, at: Matcher)
    ensures Search(s, at).None? <==> forall k :: 0 <= k <= |s| ==> at(s, k).None?
  {
  }

  /**
   * End of `STAR\s*\d+(?:\.\d+)?` read from position `a`, if it matches
   * there: the star, optional whitespace, a digit run and an optional
   * fraction that is taken only when a digit follows the dot.
   */
  function StarNumberEnd(s: string, a: nat): (r: Option<nat>)
    ensures r.Some? ==> a + |STAR| < r.value <= |s| && IsDigit(s[r.value - 1])
  {
    if a <= |s| && StartsWith(s[a..], STAR) then NumberEnd(s, SpanEnd(s, a + |STAR|, Space))
    else None
  }

  /** End of `\d+(?:\.\d+)?` read from position `b`, if it matches there. */
  function NumberEnd(s: string, b: nat): (r: Option<nat>)
    requires b <= |s|
    ensures r.Some? ==> b < r.value <= |s| && IsDigit(s[r.value - 1])
  {
    var c := SpanEnd(s, b, Digit);
    if c == b then None
    else if c < |s| && s[c] == '.' && SpanEnd(s, c + 1, Digit) > c + 1 then
      Some(SpanEnd(s, c + 1, Digit))
    else Some(c)
  }

  /** The captured rating text has the shape `STAR\s*\d+(?:\.\d+)?` and nothing more. */
  predicate IsStarNumber(g: string) {
    StarNumberEnd(g, 0) == Some(|g|)
  }

  /** `<label>\s*` anchored at `i`: where the text after the label and its spaces starts. */
  function AfterLabel(tag: string, s: string, i: nat): (r: Option<nat>)
    ensures r.Some? ==> i + |tag| <= r.value <= |s|
  {
    if i <= |s| && StartsWith(s[i..], tag) then Some(SpanEnd(s, i + |tag|, Space)) else None
  }

  /** `Rating:\s*(STAR\s*\d+(?:\.\d+)?)` anchored at `i`. */
  function RatingFieldAt(s: string, i: nat): (r: Option<string>)
    ensures r.Some? ==> IsStarNumber(r.value)
  {
    match AfterLabel("Rating:", s, i)
    case None => None
    case Some(a) =>
      match StarNumberEnd(s, a)
      case None => None
      case Some(e) =>
        StarNumberEndSlice(s, a, e);
        Some(s[a..e])
  }

  /** `(\d+)\s*Colors` anchored at `i`. */
  function ColorsFieldAt(s: string, i: nat): (r: Option<string>)
    ensures r.Some? ==> r.value != [] && AllDigits(r.value)
  {
    if i < |s| && IsDigit(s[i]) then
      var j := SpanEnd(s, i, Digit);
      var k := SpanEnd(s, j, Space);
      if StartsWith(s[k..], "Colors") then Some(s[i..j]) else None
    else None
  }

  predicate AllWordChars(s: string) {
    forall k :: 0 <= k < |s| ==> IsWordChar(s[k])
  }

  /** `<label>\s*(\w+)` anchored at `i`, for the labels `Size:` and `Gender:`. */
  function LabelWordAt(tag: string, s: string, i: nat): (r: Option<string>)
    ensures r.Some? ==> r.value != [] && AllWordChars(r.value)
  {
    match AfterLabel(tag, s, i)
    case None => None
    case Some(a) =>
      var b := SpanEnd(s, a, Word);
      if b > a then Some(s[a..b]) else None
  }

  function SizeFieldAt(s: string, i: nat): Option<string> {
    LabelWordAt("Size:", s, i)
  }

  function GenderFieldAt(s: string, i: nat): Option<string> {
    LabelWordAt("Gender:", s, i)
  }

  /** The text `digits.digits`, as the normaliser's rating pattern captures it. */
  predicate IsDigitsDotDigits(g: string) {
    var k := SpanEnd(g, 0, Digit);
    0 < k < |g| - 1 && g[k] == '.' && AllDigits(g[k + 1..])
  }

  /** End of `\d+\.\d+` read from position `b`, if it matches there. */
  function DecimalEnd(s: string, b: nat): Option<nat>
    requires b <= |s|
  {
    var c := SpanEnd(s, b, Digit);
    if b < c < |s| && s[c] == '.' && SpanEnd(s, c + 1, Digit) > c + 1 then
      Some(SpanEnd(s, c + 1, Digit))
    else None
  }

  /** What `DecimalEnd` delimits is `digits.digits`. */
  lemma DecimalEndShape(s: string, b: nat, e: nat)
    requires b <= |s| && DecimalEnd(s, b) == Some(e)
    ensures b <= e <= |s| && IsDigitsDotDigits(s[b..e])
  {
    var g := s[b..e];
    var c := SpanEnd(s, b, Digit);
    SpanEndSlice(s, b, e, 0, Digit);
    assert g[c - b] == s[c];
    var f := g[c - b + 1..];
    forall q | 0 <= q < |f| ensures IsDigit(f[q]) {
      assert f[q] == s[c + 1 + q];
    }
  }

  /** `STAR\s*(\d+\.\d+)` anchored at `i` (the normaliser's rating pattern). */
  function StarDecimalAt(s: string, i: nat): (r: Option<string>)
    ensures r.Some? ==> IsDigitsDotDigits(r.value)
  {
    if i <= |s| && StartsWith(s[i..], STAR) then
      var a := SpanEnd(s, i + |STAR|, Space);
      match DecimalEnd(s, a)
      case None => None
      case Some(e) =>
        DecimalEndShape(s, a, e);
        Some(s[a..e])
    else None
  }

  /** `(\d+)` anchored at `i` (the normaliser's colours pattern). */
  function DigitRunAt(s: string, i: nat): (r: Option<string>)
    ensures r.Some? ==> r.value != [] && AllDigits(r.value)
  {
    if i < |s| && IsDigit(s[i]) then Some(s[i..SpanEnd(s, i, Digit)]) else None
  }

  /** A maximal run read inside the window `s[a..e]` is the run of `s` cut at `e`. */
  lemma SpanEndSlice(s: string, a: nat, e: nat, k: nat, p: CharClass)
    requires a + k <= e <= |s|
    ensures SpanEnd(s[a..e], k, p) == (if SpanEnd(s, a + k, p) < e then SpanEnd(s, a + k, p) else e) - a
  {
    var t := s[a..e];
    var j := SpanEnd(s, a + k, p);
    var m := if j < e then j else e;
    forall q | k <= q < m - a ensures InClass(t[q], p) {
      assert t[q] == s[a + q];
    }
    if m - a < |t| {
      assert t[m - a] == s[m];
    }
    SpanEndAt(t, k, m - a, p);
  }

  /** Reading the number again inside a window that ends with it gives the same end. */
  lemma NumberEndSlice(s: string, a: nat, b: nat, e: nat)
    requires a <= b <= |s| && NumberEnd(s, b) == Some(e)
    ensures NumberEnd(s[a..e], b - a) == Some(e - a)
  {
    var c := SpanEnd(s, b, Digit);
    if e == c {
      IntegerEndSlice(s, a, b, c);
    } else {
      FractionEndSlice(s, a, b, c, e);
    }
  }

  lemma IntegerEndSlice(s: string, a: nat, b: nat, c: nat)
    requires a <= b < c <= |s| && c == SpanEnd(s, b, Digit)
    ensures NumberEnd(s[a..c], b - a) == Some(c - a)
  {
    SpanEndSlice(s, a, c, b - a, Digit);
  }

  lemma FractionEndSlice(s: string, a: nat, b: nat, c: nat, e: nat)
    requires a <= b < c < |s| && c == SpanEnd(s, b, Digit) && s[c] == '.'
    requires e == SpanEnd(s, c + 1, Digit) && e > c + 1
    ensures NumberEnd(s[a..e], b - a) == Some(e - a)
  {
    var t := s[a..e];
    SpanEndSlice(s, a, e, b - a, Digit);
    assert SpanEnd(t, b - a, Digit) == c - a;
    assert t[c - a] == s[c];
    SpanEndSlice(s, a, e, c - a + 1, Digit);
    assert SpanEnd(t, c - a + 1, Digit) == e - a;
  }

  /** A literal at the start of `s[a..]` is still there in the window `s[a..e]` when it fits. */
  lemma StartsWithWindow(s: string, a: nat, e: nat, lit: string)
    requires a + |lit| <= e <= |s| && StartsWith(s[a..], lit)
    ensures StartsWith(s[a..e][0..], lit)
  {
    assert s[a..e][0..][..|lit|] == s[a..][..|lit|];
  }

  /** The pieces of a star number's match, seen from inside the window it spans. */
  lemma StarWindow(s: string, a: nat, e: nat)
    requires StarNumberEnd(s, a) == Some(e)
    ensures a + |STAR| <= e <= |s|
    ensures StartsWith(s[a..e][0..], STAR)
    ensures SpanEnd(s[a..e], |STAR|, Space) == SpanEnd(s, a + |STAR|, Space) - a
    ensures NumberEnd(s[a..e], SpanEnd(s, a + |STAR|, Space) - a) == Some(e - a)
  {
    StartsWithWindow(s, a, e, STAR);
    SpanEndSlice(s, a, e, |STAR|, Space);
    NumberEndSlice(s, a, SpanEnd(s, a + |STAR|, Space), e);
  }

  /** Reading the star number again inside its own match gives the whole text. */
  lemma StarNumberEndSlice(s: string, a: nat, e: nat)
    requires StarNumberEnd(s, a) == Some(e)
    ensures a <= e <= |s| && IsStarNumber(s[a..e])
  {
    StarWindow(s, a, e);
    StarNumberOfPieces(s[a..e], SpanEnd(s, a + |STAR|, Space) - a);
  }

  lemma StarNumberOfPieces(t: string, b: nat)
    requires StartsWith(t[0..], STAR) && |STAR| <= b <= |t|
    requires SpanEnd(t, |STAR|, Space) == b && NumberEnd(t, b) == Some(|t|)
    ensures IsStarNumber(t)
  {
  }
}
