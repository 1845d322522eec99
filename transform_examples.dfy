/**
 * The normalisation scenarios of tests/test_transform.py, stated about the
 * model.
 */
module TransformExamples {
  import opened Wrappers
  import opened Text
  import opened Patterns
  import opened Timestamps
  import opened Records
  import opened Numbers
  import opened Transform
  import opened Pipeline
  import opened Extract
  import opened ExtractExamples

  /** Removing the dollar sign in front of text free of dollar signs and commas leaves that text. */
  lemma DollarStripped(u: string)
    requires forall i :: 0 <= i < |u| ==> u[i] != '$' && u[i] != ','
    ensures CleanPrice("$" + u) == u
  {
    CleanPriceAppend("$", u);
    assert CleanPrice("$") == [];
    CleanPriceNoOp(u);
    assert [] + u == u;
  }

  /** `a.f` has no dollar sign or comma, starts and ends with a digit, and is `$a.f` without its dollar sign. */
  lemma FractionText(a: string, f: string)
    requires a != [] && AllDigits(a) && f != [] && AllDigits(f)
    ensures var u := a + "." + f;
      && (forall i :: 0 <= i < |u| ==> u[i] != '$' && u[i] != ',')
      && IsDigit(u[0]) && IsDigit(u[|u| - 1])
      && "$" + a + "." + f == "$" + u
  {
    var u := a + "." + f;
    forall i | 0 <= i < |u| ensures u[i] != '$' && u[i] != ',' {
      if i < |a| {
        assert u[i] == a[i];
      } else if i > |a| {
        assert u[i] == f[i - |a| - 1];
      }
    }
    assert u[0] == a[0];
    assert u[|u| - 1] == f[|f| - 1];
  }

  /** `$a.f` reads, once the dollar sign is removed, as the decimal `a.f`. */
  lemma DollarAmount(a: string, f: string)
    requires a != [] && AllDigits(a) && f != [] && AllDigits(f)
    ensures ParseNumber(CleanPrice("$" + a + "." + f)) == Some(Decimal(DigitsValue(a) * Pow10(|f|) + DigitsValue(f), |f|))
  {
    var u := a + "." + f;
    FractionText(a, f);
    DollarStripped(u);
    ParseNonNegative(u);
    ParseUnsignedFraction(a, f);
  }

  /** A star rating with a fraction, in pieces: the star, `gap`, `whole.frac`. */
  datatype RatingParts = RatingParts(gap: string, whole: string, frac: string)

  predicate ValidParts(p: RatingParts) {
    AllSpaces(p.gap) && p.whole != [] && AllDigits(p.whole) && p.frac != [] && AllDigits(p.frac)
  }

  function PartsText(p: RatingParts): string {
    STAR + p.gap + p.whole + "." + p.frac
  }

  /** The number `whole.frac` spells. */
  function PartsValue(p: RatingParts): Decimal
    requires ValidParts(p)
  {
    Decimal(DigitsValue(p.whole) * Pow10(|p.frac|) + DigitsValue(p.frac), |p.frac|)
  }

  /**
   * A row every column of which converts: a price that reads as the decimal
   * `d`, a star rating spelled by `p`, a colours text whose first digit run
   * counts `n` and a timestamp pandas can hold.
   */
  predicate CoercibleRow(row: RawRecord, d: Decimal, p: RatingParts, n: nat) {
    && ParseNumber(CleanPrice(row.price)) == Some(d)
    && row.rating == PartsText(p)
    && ColorsCount(row.colors) == Some(n)
    && row.timestamp.Some? && ValidDateTime(row.timestamp.value) && InPandasRange(row.timestamp.value)
  }

  /**
   * Such a row survives the filter and coerces, with the price converted,
   * the rating's number, the colour count, the text columns unchanged and
   * the timestamp rendered in ISO form.
   */
  lemma CoercibleRowCoerces(row: RawRecord, d: Decimal, p: RatingParts, n: nat)
    requires ValidParts(p) && CoercibleRow(row, d, p, n)
    ensures row.rating != INVALID_RATING
    ensures var r := CoerceRow(row);
      && r.Some?
      && r.value.priceTenths == PriceTenths(d)
      && r.value.rating == Some(PartsValue(p))
      && r.value.colors == n
      && r.value.title == row.title && r.value.size == row.size && r.value.gender == row.gender
      && r.value.timestamp.Some? && r.value.timestamp.value[10] == 'T'
  {
    PartsRating(p);
  }

  /** The text of valid parts is not the placeholder and reads as the parts' number. */
  lemma PartsRating(p: RatingParts)
    requires ValidParts(p)
    ensures PartsText(p) != INVALID_RATING
    ensures RatingValue(PartsText(p)) == Some(PartsValue(p))
  {
    PartsNotPlaceholder(p);
    PartsRatingValue(p, PartsValue(p));
  }

  lemma PartsRatingValue(p: RatingParts, v: Decimal)
    requires ValidParts(p)
    requires v == Decimal(DigitsValue(p.whole) * Pow10(|p.frac|) + DigitsValue(p.frac), |p.frac|)
    ensures RatingValue(PartsText(p)) == Some(v)
  {
    RatingValueOf(p.gap, p.whole, p.frac);
  }

  lemma PartsNotPlaceholder(p: RatingParts)
    ensures PartsText(p) != INVALID_RATING
  {
    StarFacts();
    assert PartsText(p)[0] == STAR[0];
  }

  /** A whole-dollar amount `$a.00` reads as `a` with two decimals. */
  lemma WholeDollars(a: string)
    requires a != [] && AllDigits(a)
    ensures ParseNumber(CleanPrice("$" + a + ".00")) == Some(Decimal(DigitsValue(a) * 100, 2))
  {
    DollarAmount(a, "00");
    assert "$" + a + ".00" == "$" + a + "." + "00";
    Pow10Small();
    assert DigitsValue("00") == 0;
  }

  /** `$10.00` reads as 10.00 and becomes 160000 rupiah. */
  lemma TenDollars()
    ensures ParseNumber(CleanPrice("$10.00")) == Some(Decimal(1000, 2))
    ensures PriceTenths(Decimal(1000, 2)) == 1600000
  {
    WholeDollars("10");
    assert "$" + "10" + ".00" == "$10.00";
    assert DigitsValue("10") == 10;
    Pow10Small();
    PriceExact(Decimal(1000, 2));
  }

  /** `$20.00` reads as 20.00 and becomes 320000 rupiah. */
  lemma TwentyDollars()
    ensures ParseNumber(CleanPrice("$20.00")) == Some(Decimal(2000, 2))
    ensures PriceTenths(Decimal(2000, 2)) == 3200000
  {
    WholeDollars("20");
    assert "$" + "20" + ".00" == "$20.00";
    assert DigitsValue("20") == 20;
    Pow10Small();
    PriceExact(Decimal(2000, 2));
  }

  /**
   * tests/test_transform.py:10-29, for any table of coercible rows: every row
   * survives, in order, with numeric price, rating and colours, the size and
   * gender unchanged and an ISO timestamp.
   */
  lemma ValidRowsTransformed(rows: seq<RawRecord>, ds: seq<Decimal>, ps: seq<RatingParts>, ns: seq<nat>)
    requires |ds| == |rows| && |ps| == |rows| && |ns| == |rows|
    requires forall i :: 0 <= i < |rows| ==> ValidParts(ps[i]) && CoercibleRow(rows[i], ds[i], ps[i], ns[i])
    ensures var out := CleanAndTransform(rows);
      && |out| == |rows|
      && forall i :: 0 <= i < |rows| ==>
           && out[i].priceTenths == PriceTenths(ds[i]) && out[i].colors == ns[i]
           && out[i].rating == Some(PartsValue(ps[i]))
           && out[i].size == rows[i].size && out[i].gender == rows[i].gender
           && out[i].timestamp.Some? && out[i].timestamp.value[10] == 'T'
  {
    forall i | 0 <= i < |rows|
      ensures rows[i].rating != INVALID_RATING
      ensures var r := CoerceRow(rows[i]);
        && r.Some? && r.value.priceTenths == PriceTenths(ds[i]) && r.value.colors == ns[i]
        && r.value.rating == Some(PartsValue(ps[i]))
        && r.value.size == rows[i].size && r.value.gender == rows[i].gender
        && r.value.timestamp.Some? && r.value.timestamp.value[10] == 'T'
    {
      CoercibleRowCoerces(rows[i], ds[i], ps[i], ns[i]);
    }
    KeepValidRatingsAll(rows);
  }

  /** The two rows of tests/test_transform.py:10-29. */
  const ITEM_A: RawRecord := RawRecord("Item A", "$10.00", StarRating('4', '5'), "3 Colors", "M", "Male",
                                       Some(DateTime(2025, 5, 10, 10, 0, 0, 0)))
  const ITEM_B: RawRecord := RawRecord("Item B", "$20.00", StarRating('3', '9'), "5 Colors", "L", "Female",
                                       Some(DateTime(2025, 5, 10, 11, 0, 0, 0)))

  lemma ItemsPriced()
    ensures ParseNumber(CleanPrice(ITEM_A.price)) == Some(Decimal(1000, 2))
    ensures ParseNumber(CleanPrice(ITEM_B.price)) == Some(Decimal(2000, 2))
  {
    TenDollars();
    TwentyDollars();
  }

  const PARTS_A: RatingParts := RatingParts(" ", "4", "5")
  const PARTS_B: RatingParts := RatingParts(" ", "3", "9")

  /** The ratings read 4.5 and 3.9. */
  lemma ItemsRated()
    ensures ValidParts(PARTS_A) && ITEM_A.rating == PartsText(PARTS_A) && PartsValue(PARTS_A) == Decimal(45, 1)
    ensures ValidParts(PARTS_B) && ITEM_B.rating == PartsText(PARTS_B) && PartsValue(PARTS_B) == Decimal(39, 1)
  {
    assert DigitsValue("4") == 4 && DigitsValue("5") == 5;
    assert DigitsValue("3") == 3 && DigitsValue("9") == 9;
    Pow10Small();
  }

  lemma ColorLabels()
    ensures NatToString(3) + " Colors" == "3 Colors" && NatToString(5) + " Colors" == "5 Colors"
  {
    assert NatToString(3) == "3" && NatToString(5) == "5";
  }

  lemma ItemsCounted()
    ensures ColorsCount(ITEM_A.colors) == Some(3) && ColorsCount(ITEM_B.colors) == Some(5)
  {
    ColorsCountOfLabel(3);
    ColorsCountOfLabel(5);
    ColorLabels();
  }

  lemma ItemsTimed()
    ensures ITEM_A.timestamp.Some? && ValidDateTime(ITEM_A.timestamp.value) && InPandasRange(ITEM_A.timestamp.value)
    ensures ITEM_B.timestamp.Some? && ValidDateTime(ITEM_B.timestamp.value) && InPandasRange(ITEM_B.timestamp.value)
  {
  }

  /** Both rows of tests/test_transform.py:10-29 are coercible rows. */
  lemma ItemsCoercible()
    ensures CoercibleRow(ITEM_A, Decimal(1000, 2), PARTS_A, 3) && CoercibleRow(ITEM_B, Decimal(2000, 2), PARTS_B, 5)
  {
    ItemsPriced();
    ItemsRated();
    ItemsCounted();
    ItemsTimed();
  }

  lemma ItemsConverted()
    ensures PriceTenths(Decimal(1000, 2)) == 1600000 && PriceTenths(Decimal(2000, 2)) == 3200000
  {
    TenDollars();
    TwentyDollars();
  }

  /** tests/test_transform.py:31-45: the only row has the invalid-rating placeholder, so nothing is left. */
  lemma InvalidRatingDropped()
    ensures CleanAndTransform([RawRecord("Item A", "$10.00", INVALID_RATING, "3 Colors", "M", "Male",
                                         Some(DateTime(2025, 5, 10, 10, 0, 0, 0)))]) == []
  {
    KeepValidRatingsSingle(RawRecord("Item A", "$10.00", INVALID_RATING, "3 Colors", "M", "Male",
                                     Some(DateTime(2025, 5, 10, 10, 0, 0, 0))));
  }

  /** tests/test_transform.py:47-61: a price that is not a number empties the output. */
  lemma MalformedPriceEmptiesOutput()
    ensures CleanAndTransform([RawRecord("Item A", "INVALID", StarRating('4', '0'), "3 Colors", "M", "Male",
                                         Some(DateTime(2025, 5, 10, 10, 0, 0, 0)))]) == []
  {
    var row := RawRecord("Item A", "INVALID", StarRating('4', '0'), "3 Colors", "M", "Male",
                         Some(DateTime(2025, 5, 10, 10, 0, 0, 0)));
    CleanPriceLead("INVALID");
    ParseNumberRejectsLead(CleanPrice("INVALID"));
    StarFacts();
    assert row.rating[0] != INVALID_RATING[0];
    FailingRowEmptiesOutput([row], 0);
  }
}
