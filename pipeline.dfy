/**
 * How the normaliser treats what extraction produces: the rating and
 * colours texts a scraped record can hold, and the placeholders.
 */
module Pipeline {
  import opened Wrappers
  import opened Text
  import opened Patterns
  import opened Records
  import opened Numbers
  import opened Extract
  import opened Transform

  /** What the rating pattern of the normaliser finds always reads as a number. */
  lemma RatingValueFound(s: string)
    requires Search(s, StarDecimalAt).Some?
    ensures RatingValue(s).Some?
  {
    StarDecimalFound(s);
    DecimalTextValue(Search(s, StarDecimalAt).value);
  }

  /**
   * A rating extracted from a card (`STAR`, spaces, digits and an optional
   * fraction) becomes a number exactly when it has the fraction: `STAR 4`,
   * which extraction accepts, becomes a missing rating.
   */
  lemma ExtractedRatingValue(g: string)
    requires IsStarNumber(g)
    ensures RatingValue(g).Some? <==> '.' in g
  {
    StarFacts();
    var a := SpanEnd(g, |STAR|, Space);
    var c := SpanEnd(g, a, Digit);
    assert StartsWith(g[0..], STAR);
    assert g[0] == g[0..][..|STAR|][0];
    if c < |g| && g[c] == '.' && SpanEnd(g, c + 1, Digit) > c + 1 {
      assert DecimalEnd(g, a) == Some(|g|);
      assert StarDecimalAt(g, 0).Some?;
      SearchLeftmost(g, StarDecimalAt, 0);
      RatingValueFound(g);
    } else {
      assert c == |g|;
      assert DecimalEnd(g, a).None?;
      forall k | 0 <= k <= |g| ensures StarDecimalAt(g, k).None? {
        if 0 < k < |g| {
          assert IsSpace(g[k]) || IsDigit(g[k]);
          assert g[k..][..|STAR|][0] == g[k];
        }
      }
      SearchNone(g, StarDecimalAt);
      forall k | 0 <= k < |g| ensures g[k] != '.' {
        if k > 0 {
          assert IsSpace(g[k]) || IsDigit(g[k]);
        }
      }
    }
  }

  /**
   * Colours extracted from a card are the bare digit run, which counts as
   * its value, or the `No Colors` placeholder, which has no count.
   */
  lemma ExtractedColorsCount(c: string)
    requires ColorsText(c)
    ensures c == NO_COLORS ==> ColorsCount(c).None?
    ensures c != NO_COLORS ==> ColorsCount(c) == Some(DigitsValue(c))
  {
    if c == NO_COLORS {
      ColorsCountPlaceholder();
    } else {
      ColorsCountLeading(c, []);
      assert c + [] == c;
    }
  }

  /** A price whose first character cannot begin a number, once `$` and `,` are removed, is rejected. */
  lemma PriceRejectedByLead(p: string)
    requires p != [] && p[0] != '$' && p[0] != ','
    requires !IsSpace(p[0]) && !IsDigit(p[0]) && p[0] != '+' && p[0] != '-' && p[0] != '.'
    ensures ParseNumber(CleanPrice(p)) == None
  {
    CleanPriceLead(p);
    ParseNumberRejectsLead(CleanPrice(p));
  }

  /** The `Price Not Available` placeholder does not read as a number. */
  lemma PricePlaceholderRejected()
    ensures ParseNumber(CleanPrice(PRICE_NOT_AVAILABLE)) == None
  {
    PriceRejectedByLead(PRICE_NOT_AVAILABLE);
  }

  /** A row holding the price or the colours placeholder does not coerce. */
  lemma PlaceholderRowFails(r: RawRecord)
    requires r.price == PRICE_NOT_AVAILABLE || r.colors == NO_COLORS
    ensures CoerceRow(r).None?
  {
    if r.price == PRICE_NOT_AVAILABLE {
      PricePlaceholderRejected();
    } else {
      ColorsCountPlaceholder();
    }
  }

  /**
   * A scraped record survives coercion exactly when its price reads as a
   * number and it has colours; the price placeholder never survives.
   */
  lemma ScrapedRowCoercion(r: RawRecord)
    requires ColorsText(r.colors)
    ensures CoerceRow(r).Some? <==> ParseNumber(CleanPrice(r.price)).Some? && r.colors != NO_COLORS
    ensures r.price == PRICE_NOT_AVAILABLE ==> CoerceRow(r).None?
  {
    ExtractedColorsCount(r.colors);
    if r.price == PRICE_NOT_AVAILABLE {
      PlaceholderRowFails(r);
    }
  }

  /**
   * One row with a valid rating that fails to coerce empties the whole
   * output, wherever it stands.
   */
  lemma FailingRowEmptiesOutput(rows: seq<RawRecord>, i: nat)
    requires i < |rows| && rows[i].rating != INVALID_RATING && CoerceRow(rows[i]).None?
    ensures CleanAndTransform(rows) == []
  {
    KeepValidRatingsAppend(rows[..i], rows[i..]);
    KeepValidRatingsAppend([rows[i]], rows[i + 1..]);
    KeepValidRatingsSingle(rows[i]);
    assert rows[..i] + rows[i..] == rows;
    assert [rows[i]] + rows[i + 1..] == rows[i..];
    var kept := KeepValidRatings(rows);
    assert kept[|KeepValidRatings(rows[..i])|] == rows[i];
  }

  /** A scraped row with a valid rating and the price or colours placeholder empties the output. */
  lemma PlaceholderEmptiesOutput(rows: seq<RawRecord>, i: nat)
    requires i < |rows| && rows[i].rating != INVALID_RATING
    requires rows[i].price == PRICE_NOT_AVAILABLE || rows[i].colors == NO_COLORS
    ensures CleanAndTransform(rows) == []
  {
    PlaceholderRowFails(rows[i]);
    FailingRowEmptiesOutput(rows, i);
  }
}
