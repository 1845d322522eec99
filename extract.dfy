/**
 * Field extraction from one product card (`extract_clean_text` and
 * `extract_product_data` in utils/extract.py).
 *
 * The HTML is modelled away: a card is the text of its title element, the
 * text of its price container (each `None` when the element is absent) and
 * the `.string` of each of its paragraphs (`None` when a paragraph has no
 * single string child). A card whose reading raises is `MalformedCard`.
 */
module Extract {
  import opened Wrappers
  import opened Text
  import opened Patterns
  import opened Timestamps
  import opened Records

  datatype Card =
    | Card(titleText: Option<string>, priceText: Option<string>, paragraphs: seq<Option<string>>)
    | MalformedCard

  /** The `default` of `extract_clean_text` when the caller passes none. */
  const NOT_AVAILABLE: string := "N/A"

  /**
   * A fragment that `extract_clean_text` takes its answer from: its string
   * exists, is non-empty, contains the keyword and the pattern matches it.
   */
  predicate Qualifies(p: Option<string>, keyword: string, pattern: string -> Option<string>) {
    p.Some? && p.value != [] && Contains(p.value, keyword) && pattern(p.value).Some?
  }

  /**
   * `extract_clean_text(info_list, keyword, pattern, default)`: the stripped
   * capture group of the first qualifying fragment, or `default`. Any
   * other result is stripped: it has no whitespace at either end.
   */
  function ExtractCleanText(info: seq<Option<string>>, keyword: string,
                            pattern: string -> Option<string>, default: string): (r: string)
    ensures r != default && r != [] ==> !IsSpace(r[0]) && !IsSpace(r[|r| - 1])
  {
    if info == [] then default
    else if Qualifies(info[0], keyword, pattern) then Strip(pattern(info[0].value).value)
    else ExtractCleanText(info[1..], keyword, pattern, default)
  }

  /** Index of the first qualifying fragment, if any. */
  function FirstQualifying(info: seq<Option<string>>, keyword: string,
                           pattern: string -> Option<string>): (r: Option<nat>)
    ensures r.Some? ==> r.value < |info| && Qualifies(info[r.value], keyword, pattern)
    ensures r.Some? ==> forall j :: 0 <= j < r.value ==> !Qualifies(info[j], keyword, pattern)
    ensures r.None? ==> forall j :: 0 <= j < |info| ==> !Qualifies(info[j], keyword, pattern)
  {
    if info == [] then None
    else if Qualifies(info[0], keyword, pattern) then Some(0)
    else match FirstQualifying(info[1..], keyword, pattern)
      case None => None
      case Some(i) => Some(i + 1)
  }

  /**
   * The scan returns the stripped group of the first fragment, in list
   * order, that qualifies; a fragment that contains the keyword but does not
   * match is passed over and the scan goes on; with no qualifying fragment
   * the result is `default`.
   */
  lemma {:induction false} ExtractCleanTextResult(info: seq<Option<string>>, keyword: string,
                                                  pattern: string -> Option<string>, default: string)
    ensures ExtractCleanText(info, keyword, pattern, default) ==
      match FirstQualifying(info, keyword, pattern)
      case None => default
      case Some(i) => Strip(pattern(info[i].value).value)
  {
    if info != [] && !Qualifies(info[0], keyword, pattern) {
      ExtractCleanTextResult(info[1..], keyword, pattern, default);
    }
  }

  /** The first qualifying fragment decides the result, whatever follows it. */
  lemma ExtractCleanTextFirstMatch(info: seq<Option<string>>, keyword: string,
                                   pattern: string -> Option<string>, default: string, i: nat)
    requires i < |info| && Qualifies(info[i], keyword, pattern)
    requires forall j :: 0 <= j < i ==> !Qualifies(info[j], keyword, pattern)
    ensures ExtractCleanText(info, keyword, pattern, default) == Strip(pattern(info[i].value).value)
  {
    ExtractCleanTextResult(info, keyword, pattern, default);
  }

  /** With no qualifying fragment the result is `default` (`"N/A"` when none is passed). */
  lemma ExtractCleanTextDefault(info: seq<Option<string>>, keyword: string,
                                pattern: string -> Option<string>, default: string)
    requires forall j :: 0 <= j < |info| ==> !Qualifies(info[j], keyword, pattern)
    ensures ExtractCleanText(info, keyword, pattern, default) == default
  {
    ExtractCleanTextResult(info, keyword, pattern, default);
  }

  /** The fragments with no string or an empty one. */
  predicate Blank(p: Option<string>) {
    p.None? || p.value == []
  }

  function RemoveBlank(info: seq<Option<string>>): (r: seq<Option<string>>)
    ensures |r| <= |info|
    ensures forall j :: 0 <= j < |r| ==> !Blank(r[j])
  {
    if info == [] then []
    else if Blank(info[0]) then RemoveBlank(info[1..])
    else [info[0]] + RemoveBlank(info[1..])
  }

  /** Fragments whose string is `None` or empty never contribute, whatever the pattern. */
  lemma {:induction false} BlankFragmentsIgnored(info: seq<Option<string>>, keyword: string,
                                                 pattern: string -> Option<string>, default: string)
    ensures ExtractCleanText(RemoveBlank(info), keyword, pattern, default)
         == ExtractCleanText(info, keyword, pattern, default)
  {
    if info != [] {
      BlankFragmentsIgnored(info[1..], keyword, pattern, default);
      if !Blank(info[0]) {
        assert ([info[0]] + RemoveBlank(info[1..]))[1..] == RemoveBlank(info[1..]);
      }
    }
  }

  /** The rating group always begins with the star and ends with a digit. */
  lemma StarNumberStripped(g: string)
    requires IsStarNumber(g)
    ensures Strip(g) == g && |g| > 0 && g[0] == STAR[0]
  {
    StarFacts();
    assert StartsWith(g[0..], STAR);
    assert g[0..][..|STAR|] == STAR;
    assert g[0] == g[0..][0];
    StripNoOp(g);
  }

  function MatchRating(s: string): (r: Option<string>)
    ensures r.Some? ==> IsStarNumber(r.value)
  {
    Search(s, RatingFieldAt)
  }

  function MatchColors(s: string): (r: Option<string>)
    ensures r.Some? ==> r.value != [] && AllDigits(r.value)
  {
    Search(s, ColorsFieldAt)
  }

  function MatchSize(s: string): (r: Option<string>)
    ensures r.Some? ==> r.value != [] && AllWordChars(r.value)
  {
    Search(s, SizeFieldAt)
  }

  function MatchGender(s: string): (r: Option<string>)
    ensures r.Some? ==> r.value != [] && AllWordChars(r.value)
  {
    Search(s, GenderFieldAt)
  }

  /** What the rating field of a record can be. */
  predicate RatingText(r: string) {
    r == INVALID_RATING || IsStarNumber(r)
  }

  /** What the colours field of a record can be: the placeholder or the bare digit run. */
  predicate ColorsText(c: string) {
    c == NO_COLORS || (c != [] && AllDigits(c))
  }

  /** What the size and gender fields of a record can be. */
  predicate WordText(w: string) {
    w == UNKNOWN || (w != [] && AllWordChars(w))
  }

  lemma {:induction false} ExtractedRatingShape(info: seq<Option<string>>)
    ensures RatingText(ExtractCleanText(info, "Rating", MatchRating, INVALID_RATING))
  {
    ExtractCleanTextResult(info, "Rating", MatchRating, INVALID_RATING);
    var f := FirstQualifying(info, "Rating", MatchRating);
    if f.Some? {
      StarNumberStripped(MatchRating(info[f.value].value).value);
    }
  }

  lemma {:induction false} ExtractedColorsShape(info: seq<Option<string>>)
    ensures ColorsText(ExtractCleanText(info, "Colors", MatchColors, NO_COLORS))
  {
    ExtractCleanTextResult(info, "Colors", MatchColors, NO_COLORS);
    var f := FirstQualifying(info, "Colors", MatchColors);
    if f.Some? {
      StripNoOp(MatchColors(info[f.value].value).value);
    }
  }

  lemma {:induction false} ExtractedWordShape(info: seq<Option<string>>, keyword: string,
                                              pattern: string -> Option<string>)
    requires forall s :: pattern(s).Some? ==> pattern(s).value != [] && AllWordChars(pattern(s).value)
    ensures WordText(ExtractCleanText(info, keyword, pattern, UNKNOWN))
  {
    ExtractCleanTextResult(info, keyword, pattern, UNKNOWN);
    var f := FirstQualifying(info, keyword, pattern);
    if f.Some? {
      StripNoOp(pattern(info[f.value].value).value);
    }
  }

  /** Title: the trimmed title text when it is non-empty, else the placeholder. */
  function ExtractTitle(titleText: Option<string>): (t: string)
    ensures t != []
    ensures titleText.Some? && !AllSpaces(titleText.value) ==> t == Strip(titleText.value)
    ensures titleText.None? || AllSpaces(titleText.value) ==> t == UNKNOWN_TITLE
  {
    match titleText
    case None => UNKNOWN_TITLE
    case Some(text) =>
      StripSpec(text);
      if Strip(text) != [] then Strip(text) else UNKNOWN_TITLE
  }

  /**
   * Price: whenever the element exists its text with surrounding whitespace
   * cut off, which is empty (not the placeholder) for blank text; the
   * placeholder only when the element is missing.
   */
  function ExtractPrice(priceText: Option<string>): (p: string)
    ensures priceText.Some? ==> TrimmedOf(p, priceText.value)
    ensures priceText.Some? ==> (p == [] <==> AllSpaces(priceText.value))
    ensures priceText.None? ==> p == PRICE_NOT_AVAILABLE
  {
    match priceText
    case None => PRICE_NOT_AVAILABLE
    case Some(text) =>
      StripSpec(text);
      Strip(text)
  }

  /** Every field of a record extraction returns holds a real value or its placeholder. */
  predicate WellFormed(r: RawRecord) {
    r.title != [] && RatingText(r.rating) && ColorsText(r.colors) &&
    WordText(r.size) && WordText(r.gender) && r.timestamp.Some?
  }

  /**
   * `extract_product_data(card)`, with `now` standing for `datetime.now()`:
   * a record for every readable card, `None` for a malformed one.
   */
  function ExtractProductData(card: Card, now: DateTime): (r: Option<RawRecord>)
    ensures r.None? <==> card.MalformedCard?
    ensures r.Some? ==> r.value.timestamp == Some(now)
  {
    match card
    case MalformedCard => None
    case Card(titleText, priceText, paragraphs) =>
      Some(RawRecord(
        ExtractTitle(titleText),
        ExtractPrice(priceText),
        ExtractCleanText(paragraphs, "Rating", MatchRating, INVALID_RATING),
        ExtractCleanText(paragraphs, "Colors", MatchColors, NO_COLORS),
        ExtractCleanText(paragraphs, "Size", MatchSize, UNKNOWN),
        ExtractCleanText(paragraphs, "Gender", MatchGender, UNKNOWN),
        Some(now)))
  }

  /**
   * Every record extraction returns has a non-empty title, a rating that is
   * the star number or its placeholder, colours that are a digit run or its
   * placeholder, and a word or the placeholder for size and gender.
   */
  lemma ExtractProductDataWellFormed(card: Card, now: DateTime)
    requires card.Card?
    ensures WellFormed(ExtractProductData(card, now).value)
  {
    ExtractedRatingShape(card.paragraphs);
    ExtractedColorsShape(card.paragraphs);
    ExtractedWordShape(card.paragraphs, "Size", MatchSize);
    ExtractedWordShape(card.paragraphs, "Gender", MatchGender);
  }

  /** A card with no paragraphs gets every paragraph field's placeholder. */
  lemma NoParagraphsPlaceholders(titleText: Option<string>, priceText: Option<string>, now: DateTime)
    ensures var r := ExtractProductData(Card(titleText, priceText, []), now).value;
      r.rating == INVALID_RATING && r.colors == NO_COLORS && r.size == UNKNOWN && r.gender == UNKNOWN
  {
  }
}
