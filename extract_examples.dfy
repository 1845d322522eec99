/**
 * The extraction scenarios of tests/test_extract.py, stated about the model.
 */
module ExtractExamples {
  import opened Wrappers
  import opened Text
  import opened Patterns
  import opened Timestamps
  import opened Records
  import opened Extract

  /** `STAR x.y` for two digits. */
  function StarRating(x: char, y: char): string {
    STAR + " " + [x] + "." + [y]
  }

  /** `STAR x.y` has the shape of an extracted rating. */
  lemma StarRatingShape(x: char, y: char)
    requires IsDigit(x) && IsDigit(y)
    ensures IsStarNumber(StarRating(x, y)) && '.' in StarRating(x, y)
  {
    var g := StarRating(x, y);
    StarFacts();
    assert g[..1] == STAR;
    SpanEndAt(g, 1, 2, Space);
    SpanEndAt(g, 2, 3, Digit);
    SpanEndAt(g, 4, 5, Digit);
    assert NumberEnd(g, 2) == Some(5);
    assert g[3] == '.';
  }

  /** `Rating: STAR x.y` matches the rating pattern at its first position, capturing `STAR x.y`. */
  lemma RatingParagraphMatches(x: char, y: char)
    requires IsDigit(x) && IsDigit(y)
    ensures MatchRating("Rating: " + StarRating(x, y)) == Some(StarRating(x, y))
  {
    var s := "Rating: " + StarRating(x, y);
    StarFacts();
    assert StartsWith(s[0..], "Rating:");
    SpanEndAt(s, 7, 8, Space);
    assert s[8..][..|STAR|] == STAR;
    SpanEndAt(s, 9, 10, Space);
    SpanEndAt(s, 10, 11, Digit);
    SpanEndAt(s, 12, 13, Digit);
    assert NumberEnd(s, 10) == Some(13);
    assert StarNumberEnd(s, 8) == Some(13);
    assert s[8..13] == StarRating(x, y);
    SearchLeftmost(s, RatingFieldAt, 0);
  }

  /** A keyword whose first letter does not occur in the text is not contained in it. */
  lemma NotContained(s: string, keyword: string)
    requires keyword != [] && forall i :: 0 <= i < |s| ==> s[i] != keyword[0]
    ensures !Contains(s, keyword)
  {
    forall i | 0 <= i <= |s| ensures !StartsWith(s[i..], keyword) {
      if i < |s| && |keyword| <= |s[i..]| {
        assert s[i..][..|keyword|][0] == s[i];
      }
    }
  }

  /** A fragment without the keyword, or one the pattern does not match, is passed over. */
  lemma SkipFragment(info: seq<Option<string>>, keyword: string,
                     pattern: string -> Option<string>, default: string)
    requires info != [] && info[0].Some?
    requires !Contains(info[0].value, keyword) || pattern(info[0].value).None?
    ensures ExtractCleanText(info, keyword, pattern, default) == ExtractCleanText(info[1..], keyword, pattern, default)
  {
  }

  /** The first `n` fragments, none of which mentions the keyword, are passed over. */
  lemma {:induction false} SkipAbsent(info: seq<Option<string>>, n: nat, keyword: string,
                                      pattern: string -> Option<string>, default: string)
    requires n <= |info|
    requires forall j :: 0 <= j < n ==> info[j].Some? && !Contains(info[j].value, keyword)
    ensures ExtractCleanText(info, keyword, pattern, default) == ExtractCleanText(info[n..], keyword, pattern, default)
  {
    if n > 0 {
      SkipFragment(info, keyword, pattern, default);
      SkipAbsent(info[1..], n - 1, keyword, pattern, default);
      assert info[1..][n - 1..] == info[n..];
    }
  }

  /** A fragment that starts with the keyword and matches decides the result. */
  lemma TakeFragment(info: seq<Option<string>>, keyword: string,
                     pattern: string -> Option<string>, default: string, g: string)
    requires info != [] && info[0].Some? && info[0].value != []
    requires StartsWith(info[0].value, keyword) && pattern(info[0].value) == Some(g)
    ensures ExtractCleanText(info, keyword, pattern, default) == Strip(g)
  {
    assert info[0].value[0..] == info[0].value;
  }

  /** A rating group is its own `strip()`. */
  lemma StarRatingStripped(x: char, y: char)
    requires IsDigit(x) && IsDigit(y)
    ensures Strip(StarRating(x, y)) == StarRating(x, y)
  {
    StarFacts();
    StripNoOp(StarRating(x, y));
  }

  /** A list whose first fragment is `Rating: STAR x.y` yields `STAR x.y`, whatever follows. */
  lemma RatingFragmentFirst(x: char, y: char, rest: seq<Option<string>>, default: string)
    requires IsDigit(x) && IsDigit(y)
    ensures ExtractCleanText([Some("Rating: " + StarRating(x, y))] + rest, "Rating", MatchRating, default)
         == StarRating(x, y)
  {
    var p := "Rating: " + StarRating(x, y);
    var info := [Some(p)] + rest;
    RatingParagraphMatches(x, y);
    assert p[..|"Rating"|] == "Rating";
    assert info[0] == Some(p);
    TakeFragment(info, "Rating", MatchRating, default, StarRating(x, y));
    StarRatingStripped(x, y);
  }

  /** tests/test_extract.py:40-46: the rating fragment's group is returned. */
  lemma CleanTextFindsRating()
    ensures ExtractCleanText([Some("Rating: " + StarRating('4', '5')), Some("Colors: 3 Colors")],
                             "Rating", MatchRating, NOT_AVAILABLE)
         == StarRating('4', '5')
  {
    RatingFragmentFirst('4', '5', [Some("Colors: 3 Colors")], NOT_AVAILABLE);
    assert [Some("Rating: " + StarRating('4', '5'))] + [Some("Colors: 3 Colors")]
        == [Some("Rating: " + StarRating('4', '5')), Some("Colors: 3 Colors")];
  }

  /** tests/test_extract.py:48-54: no fragment mentions the keyword, so the result is `"N/A"`. */
  lemma CleanTextKeywordAbsent()
    ensures ExtractCleanText([Some("Colors: 3 Colors"), Some("Size: M")], "Rating", MatchRating, NOT_AVAILABLE)
         == NOT_AVAILABLE
  {
    NotContained("Colors: 3 Colors", "Rating");
    NotContained("Size: M", "Rating");
    ExtractCleanTextDefault([Some("Colors: 3 Colors"), Some("Size: M")], "Rating", MatchRating, NOT_AVAILABLE);
  }

  /** Without the `Rating:` label anywhere the rating pattern finds nothing. */
  lemma NoRatingLabel(s: string)
    requires forall k :: 0 <= k <= |s| ==> !StartsWith(s[k..], "Rating:")
    ensures MatchRating(s) == None
  {
    forall k | 0 <= k <= |s| ensures RatingFieldAt(s, k).None? {
      assert AfterLabel("Rating:", s, k).None?;
    }
    SearchNone(s, RatingFieldAt);
  }

  /** `Rating Text` mentions the keyword but has no `Rating:` label to match. */
  lemma RatingTextNoMatch()
    ensures MatchRating("Rating Text") == None
  {
    var s := "Rating Text";
    forall k | 0 <= k <= |s| ensures !StartsWith(s[k..], "Rating:") {
      if k == 0 {
        assert s[..7][6] == ' ';
      } else if k + 7 <= |s| {
        assert s[k..][..7][0] == s[k];
      }
    }
    NoRatingLabel(s);
  }

  /** tests/test_extract.py:56-62: the keyword occurs but the pattern does not match, so the result is `"N/A"`. */
  lemma CleanTextPatternFails()
    ensures ExtractCleanText([Some("Rating Text"), Some("Colors: 3 Colors")], "Rating", MatchRating, NOT_AVAILABLE)
         == NOT_AVAILABLE
  {
    NotContained("Colors: 3 Colors", "Rating");
    RatingTextNoMatch();
    var ps := [Some("Rating Text"), Some("Colors: 3 Colors")];
    SkipFragment(ps, "Rating", MatchRating, NOT_AVAILABLE);
    SkipFragment(ps[1..], "Rating", MatchRating, NOT_AVAILABLE);
    assert ps[1..][1..] == [];
  }

  /** tests/test_extract.py:64-71: with the keyword absent, the caller's default comes back, whatever the pattern. */
  lemma CleanTextCallerDefault(pattern: string -> Option<string>)
    ensures ExtractCleanText([Some("Some other info")], "NonExistent", pattern, "Not Found") == "Not Found"
  {
    NotContained("Some other info", "NonExistent");
    ExtractCleanTextDefault([Some("Some other info")], "NonExistent", pattern, "Not Found");
  }

  /** `Colors: 2 Colors` captures the digit run `2`. */
  lemma ColorsParagraphMatches()
    ensures MatchColors("Colors: 2 Colors") == Some("2")
  {
    var s := "Colors: 2 Colors";
    SpanEndAt(s, 8, 9, Digit);
    SpanEndAt(s, 9, 10, Space);
    assert StartsWith(s[10..], "Colors");
    forall k | 0 <= k < 8 ensures ColorsFieldAt(s, k).None? {
      assert !IsDigit(s[k]);
    }
    assert ColorsFieldAt(s, 8) == Some(s[8..9]);
    assert s[8..9] == "2";
    SearchLeftmost(s, ColorsFieldAt, 8);
  }

  /** `Size: L` captures `L`. */
  lemma SizeParagraphMatches()
    ensures MatchSize("Size: L") == Some("L")
  {
    var s := "Size: L";
    assert StartsWith(s[0..], "Size:");
    SpanEndAt(s, 5, 6, Space);
    SpanEndAt(s, 6, 7, Word);
    assert AfterLabel("Size:", s, 0) == Some(6);
    assert SizeFieldAt(s, 0) == Some(s[6..7]);
    assert s[6..7] == "L";
    SearchLeftmost(s, SizeFieldAt, 0);
  }

  /** `Gender: Female` captures `Female`. */
  lemma GenderParagraphMatches()
    ensures MatchGender("Gender: Female") == Some("Female")
  {
    var s := "Gender: Female";
    assert StartsWith(s[0..], "Gender:");
    SpanEndAt(s, 7, 8, Space);
    SpanEndAt(s, 8, 14, Word);
    assert AfterLabel("Gender:", s, 0) == Some(8);
    assert GenderFieldAt(s, 0) == Some(s[8..14]);
    assert s[8..14] == "Female";
    SearchLeftmost(s, GenderFieldAt, 0);
  }

  const FULL_CARD: Card := Card(Some("Test Product"), Some("$25.00"),
    [Some("Rating: " + StarRating('4', '8')), Some("Colors: 2 Colors"), Some("Size: L"), Some("Gender: Female")])

  lemma FullCardRating()
    ensures ExtractCleanText(FULL_CARD.paragraphs, "Rating", MatchRating, INVALID_RATING) == StarRating('4', '8')
  {
    var ps := FULL_CARD.paragraphs;
    RatingFragmentFirst('4', '8', ps[1..], INVALID_RATING);
    assert [ps[0]] + ps[1..] == ps;
  }

  lemma FullCardColors()
    ensures ExtractCleanText(FULL_CARD.paragraphs, "Colors", MatchColors, NO_COLORS) == "2"
  {
    var ps := FULL_CARD.paragraphs;
    NotContained(ps[0].value, "Colors");
    SkipFragment(ps, "Colors", MatchColors, NO_COLORS);
    ColorsParagraphMatches();
    TakeFragment(ps[1..], "Colors", MatchColors, NO_COLORS, "2");
    StripNoOp("2");
  }

  lemma FullCardSizeFound()
    ensures ExtractCleanText(FULL_CARD.paragraphs[2..], "Size", MatchSize, UNKNOWN) == "L"
  {
    SizeParagraphMatches();
    TakeFragment(FULL_CARD.paragraphs[2..], "Size", MatchSize, UNKNOWN, "L");
    StripNoOp("L");
  }

  lemma FullCardSize()
    ensures ExtractCleanText(FULL_CARD.paragraphs, "Size", MatchSize, UNKNOWN) == "L"
  {
    var ps := FULL_CARD.paragraphs;
    NotContained(ps[0].value, "Size");
    NotContained(ps[1].value, "Size");
    SkipAbsent(ps, 2, "Size", MatchSize, UNKNOWN);
    FullCardSizeFound();
  }

  lemma GenderFragment()
    ensures ExtractCleanText([Some("Gender: Female")], "Gender", MatchGender, UNKNOWN) == "Female"
  {
    GenderParagraphMatches();
    StripNoOp("Female");
    OnlyFragment("Gender: Female", "Gender", MatchGender, UNKNOWN, "Female");
  }

  /** A single fragment that starts with the keyword and matches yields its stripped group. */
  lemma OnlyFragment(p: string, keyword: string, pattern: string -> Option<string>, default: string, g: string)
    requires |keyword| <= |p| && p[..|keyword|] == keyword && p != []
    requires pattern(p) == Some(g) && Strip(g) == g
    ensures ExtractCleanText([Some(p)], keyword, pattern, default) == g
  {
    TakeFragment([Some(p)], keyword, pattern, default, g);
  }

  lemma FullCardGenderFound()
    ensures ExtractCleanText(FULL_CARD.paragraphs[3..], "Gender", MatchGender, UNKNOWN) == "Female"
  {
    assert FULL_CARD.paragraphs[3..] == [Some("Gender: Female")];
    GenderFragment();
  }

  lemma FullCardGender()
    ensures ExtractCleanText(FULL_CARD.paragraphs, "Gender", MatchGender, UNKNOWN) == "Female"
  {
    var ps := FULL_CARD.paragraphs;
    NotContained(ps[0].value, "Gender");
    NotContained(ps[1].value, "Gender");
    NotContained(ps[2].value, "Gender");
    SkipAbsent(ps, 3, "Gender", MatchGender, UNKNOWN);
    FullCardGenderFound();
  }

  lemma FullCardHead()
    ensures ExtractTitle(FULL_CARD.titleText) == "Test Product"
    ensures ExtractPrice(FULL_CARD.priceText) == "$25.00"
  {
    StripNoOp("Test Product");
    StripNoOp("$25.00");
  }

  /** tests/test_extract.py:73-96: every field of a complete card is read. */
  lemma ProductDataComplete(now: DateTime)
    ensures ExtractProductData(FULL_CARD, now) ==
      Some(RawRecord("Test Product", "$25.00", StarRating('4', '8'), "2", "L", "Female", Some(now)))
  {
    FullCardHead();
    FullCardRating();
    FullCardColors();
    FullCardSize();
    FullCardGender();
  }

  /** tests/test_extract.py:98-116: a card with only a title gets every placeholder. */
  lemma ProductDataMissingElements(now: DateTime)
    ensures ExtractProductData(Card(Some("Another Product"), None, []), now) ==
      Some(RawRecord("Another Product", PRICE_NOT_AVAILABLE, INVALID_RATING, NO_COLORS, UNKNOWN, UNKNOWN, Some(now)))
  {
    StripNoOp("Another Product");
    StripSpec("Another Product");
  }

  const NO_TITLE_CARD: Card := Card(Some(""), Some("$30.00"), [Some("Rating: " + StarRating('4', '0'))])

  lemma NoTitleCardFields()
    ensures ExtractTitle(NO_TITLE_CARD.titleText) == UNKNOWN_TITLE
    ensures ExtractPrice(NO_TITLE_CARD.priceText) == "$30.00"
  {
    StripNoOp("$30.00");
  }

  lemma NoTitleCardRating()
    ensures ExtractCleanText(NO_TITLE_CARD.paragraphs, "Rating", MatchRating, INVALID_RATING) == StarRating('4', '0')
  {
    RatingFragmentFirst('4', '0', [], INVALID_RATING);
    assert [Some("Rating: " + StarRating('4', '0'))] + [] == NO_TITLE_CARD.paragraphs;
  }

  /** tests/test_extract.py:118-134: an empty title becomes `"Unknown Title"`; price and rating are still read. */
  lemma ProductDataEmptyTitle(now: DateTime)
    ensures var r := ExtractProductData(NO_TITLE_CARD, now).value;
      r.title == UNKNOWN_TITLE && r.price == "$30.00" && r.rating == StarRating('4', '0')
  {
    NoTitleCardFields();
    NoTitleCardRating();
  }
}
