# Fashion-studio scraper: extraction and normalisation, in Dafny

This project models the two logical parts of a small ETL scraper for the
fashion-studio catalogue. It proves properties of both.

- **Extraction** (`utils/extract.py`):
  - `extract_clean_text` searches a card's paragraph strings for the first one that mentions a keyword and matches a field pattern. It returns the stripped capture group, or a default.
  - `extract_product_data` fills the seven-field product record: Title, Price, Rating, Colors, Size, Gender, Timestamp. Fixed placeholders (`"Unknown Title"`, `"Price Not Available"`, `"Invalid Rating"`, `"No Colors"`, `"Unknown"`) stand in for missing fields.
  - `scrape_fashion_products` walks pages `1..total_pages`. It stops at the first page that returns no content and skips pages that fail to parse or have no cards. It collects the records of the cards it can read and pauses once after every page with cards.
- **Normalisation** (`clean_and_transform` in `utils/transform.py`): drops rows whose rating is the `"Invalid Rating"` placeholder, then coerces each column:
  - the rating to a decimal;
  - the price to rupiah, at 16000 per dollar, rounded to one decimal;
  - the colours to an integer;
  - the timestamp to ISO text.

  If any coercion fails, the result is the empty table.

Modules, one per file:

| file | module | what it holds |
|---|---|---|
| `wrappers.dfy` | `Wrappers` | `Option` |
| `text.dfy` | `Text` | `str.strip()`, the `\s` `\d` `\w` classes, digit strings and their values, zero padding |
| `patterns.dfy` | `Patterns` | `re.search` as the leftmost anchored match; hand-coded recognisers for the six regular expressions of the two files |
| `timestamps.dfy` | `Timestamps` | capture times, the pandas range, `%Y-%m-%dT%H:%M:%S.%f` rendering and its parser |
| `records.dfy` | `Records` | the raw record and the placeholder texts |
| `extract.dfy` | `Extract` | cards, `extract_clean_text`, `extract_product_data` |
| `scrape.dfy` | `Scrape` | the page loop: its specification (`CrawlUpTo`) and the imperative method `ScrapeFashionProducts` |
| `numbers.dfy` | `Numbers` | exact decimals as Python's `float()` reads them; numpy's round-half-to-even |
| `transform.dfy` | `Transform` | `clean_and_transform` as filter, then per-row coercion, then all-or-nothing |
| `pipeline.dfy` | `Pipeline` | what normalisation does with the records extraction can produce |
| `extract_examples.dfy`, `scrape_examples.dfy`, `transform_examples.dfy` | `…Examples` | the scenarios of `tests/test_extract.py` and `tests/test_transform.py`, proved about the model |

Modelling choices:

- **HTML becomes plain data.**
  - A card is the text of its title element, the text of its price container and each paragraph's `.string`. Each is `None` when absent.
  - A card whose reading raises is `MalformedCard`.
  - A fetched page is `None` (no content), `ParseError` or `Cards(cards)`.
- **Outside inputs become parameters.** `datetime.now()` is a parameter (`now`, or a `Clock` indexed by page and card). `time.sleep(delay)` is recorded as a `Pause` in a log.
- **The default delay.** `delay` defaults to 2 seconds (`DEFAULT_DELAY`); `main.py` calls `scrape_fashion_products(total_pages=50)` and so pauses 2 seconds after each page with cards. `ScrapeWithDefaultDelay` is that call.
- **The page loop is proved against a specification.** `ScrapeFashionProducts` is a `while` loop whose result equals `CrawlUpTo`, a per-page function. The properties are proved about `CrawlUpTo`. They are stated for any card reader, and specialised to `ExtractProductData` where the well-formedness of records is concerned.
- **Numbers are exact.**
  - A price is held as an exact decimal and converted to an integer number of tenths of a rupiah. Rounding is numpy's half-to-even on the exact value.
  - A rating is an exact decimal.
- **The star glyph** in both rating patterns is the single character U+2B50 (`STAR`). The source files show it as `‚≠ê`, the same bytes decoded wrongly; the tests use the glyph itself.
- **Scanning continues past a non-matching fragment.** `extract_clean_text` (`utils/extract.py:28-32`) passes over a fragment that contains the keyword but does not match, and keeps scanning. The model does the same; `ExtractExamples.CleanTextPatternFails` shows the scan moving past such a fragment.

## Model

| member | source | states |
|---|---|---|
| Extract.ExtractCleanTextResult | utils/extract.py:26-33 | the result is the stripped group of the first fragment, in list order, that is non-empty, contains the keyword and matches; a keyword-bearing fragment that does not match is passed over; with none qualifying the result is `default` |
| Extract.FirstQualifying | utils/extract.py:28-31 | the index found qualifies and no earlier fragment does; `None` exactly when no fragment qualifies |
| Extract.ExtractCleanText | utils/extract.py:26-33 | a result other than `default` has no whitespace at either end |
| Extract.ExtractCleanTextFirstMatch | utils/extract.py:28-32 | the first qualifying fragment decides the result whatever follows it |
| Extract.ExtractCleanTextDefault | utils/extract.py:26-33 | with no qualifying fragment the result is `default` |
| Extract.RemoveBlank | utils/extract.py:29 | the fragments kept are never `None` or empty |
| Extract.BlankFragmentsIgnored | utils/extract.py:29 | removing the fragments whose string is `None` or empty never changes the result, whatever the pattern |
| Extract.MatchRating | utils/extract.py:50 | a rating capture is always `STAR`, spaces, digits and an optional `.digits`, nothing more |
| Extract.MatchColors | utils/extract.py:51 | a colours capture is a non-empty digit run |
| Extract.MatchSize | utils/extract.py:52 | a size capture is a non-empty run of word characters |
| Extract.MatchGender | utils/extract.py:53 | a gender capture is a non-empty run of word characters |
| Extract.StarNumberStripped | utils/extract.py:32 | a rating capture is its own `strip()` and starts with the star |
| Extract.ExtractedRatingShape | utils/extract.py:50 | the rating field is the star number or `"Invalid Rating"` |
| Extract.ExtractedColorsShape | utils/extract.py:51 | the colours field is the bare digit run or `"No Colors"` |
| Extract.ExtractedWordShape | utils/extract.py:52-53 | size and gender are a word or `"Unknown"` |
| Extract.ExtractTitle | utils/extract.py:40-41 | the trimmed title text when it is present and not blank, otherwise `"Unknown Title"`; never empty |
| Extract.ExtractPrice | utils/extract.py:44-45 | when the element exists, its text with a whitespace prefix and suffix cut off, leaving no whitespace at either end; this is empty exactly when the text is all whitespace, and is kept even then; `"Price Not Available"` when the element is absent |
| Extract.ExtractProductData | utils/extract.py:36-71 | `None` exactly for a card whose reading fails; otherwise a record stamped with the capture time |
| Extract.ExtractProductDataWellFormed | utils/extract.py:36-67 | every record returned has a non-empty title, each paragraph field a real value or its placeholder, and a timestamp |
| Extract.NoParagraphsPlaceholders | utils/extract.py:50-53 | a card without paragraphs gets `"Invalid Rating"`, `"No Colors"`, `"Unknown"`, `"Unknown"` |
| Patterns.SearchLeftmost | utils/extract.py:30 | `re.search` reports the match at the leftmost position where the pattern matches |
| Patterns.SearchNone | utils/extract.py:30-31 | `re.search` finds nothing exactly when no position matches |
| Patterns.Search | utils/extract.py:30 | a match at the first position is the one `re.search` reports |
| Patterns.RatingFieldAt | utils/extract.py:50 | what `Rating:\s*(STAR\s*\d+(?:\.\d+)?)` captures has the star-number shape |
| Patterns.StarNumberEndSlice | utils/extract.py:50 | the captured star number read again on its own spans exactly its whole text |
| Patterns.ColorsFieldAt | utils/extract.py:51 | `(\d+)\s*Colors` captures only the digit run |
| Patterns.LabelWordAt | utils/extract.py:52-53 | `Size:\s*(\w+)` and `Gender:\s*(\w+)` capture a non-empty word |
| Patterns.StarDecimalAt | utils/transform.py:11 | what `STAR\s*(\d+\.\d+)` captures is digits, a dot and digits |
| Patterns.DigitRunAt | utils/transform.py:20 | what `(\d+)` captures is a non-empty digit run |
| Text.StripSpec | utils/extract.py:41 | `strip()` is empty exactly for all-whitespace text; otherwise it is the infix left after cutting a whitespace prefix and a whitespace suffix, with no whitespace at either of its own ends |
| Text.Strip | utils/extract.py:41 | the stripped text has no whitespace at either end and is never longer than the text |
| Text.StripIdempotent | utils/extract.py:32 | `strip()` applied twice is `strip()` applied once |
| Text.NatToStringRoundTrip | utils/extract.py:81 | the decimal text of a page number reads back as that number |
| Text.NatToStringLeadingDigit | utils/extract.py:81 | `str(n)` begins with `0` only for zero |
| Text.NatToStringInjective | utils/extract.py:81 | distinct numbers print as distinct text |
| Scrape.PageUrl | utils/extract.py:78-81 | every page URL begins with the site root |
| Scrape.PageUrlRoundTrip | utils/extract.py:78-81 | page 1 alone is the site root; page n ≥ 2 is `page` followed by n, with no leading zero, under it; the number reads back from the URL |
| Scrape.PageUrlInjective | utils/extract.py:78-81 | distinct pages are fetched at distinct URLs |
| Scrape.HarvestCards | utils/extract.py:95-99 | a page yields at most one record per card |
| Scrape.HarvestAllRead | utils/extract.py:95-99 | cards the reader accepts yield one record each, at the same position, with that card's own capture time |
| Scrape.HarvestNoneRead | utils/extract.py:95-99 | cards the reader rejects contribute nothing |
| Scrape.HarvestProducts | utils/extract.py:95-99 | with `extract_product_data` as reader, the records are those of the readable cards, one each, in card order, each with its own card's capture time; a card is dropped exactly when it is malformed |
| Scrape.HarvestWellFormed | utils/extract.py:95-99 | every record harvested with `extract_product_data` is well formed |
| Scrape.CrawlUpTo | utils/extract.py:77-108 | the state of the loop after pages `1..n` |
| Scrape.StoppedStays | utils/extract.py:106-108 | once the loop has stopped, later pages change nothing |
| Scrape.StepUnstopped | utils/extract.py:83-105 | one iteration requests its page, stops exactly when no content came back, appends the page's records and pauses once when it had cards |
| Scrape.Step | utils/extract.py:83-105 | a stopped loop is left as it is; one iteration requests at most one page and pauses at most once, and never loses requests, pauses or records |
| Scrape.CrawlRequests | utils/extract.py:77-108 | pages are requested in order 1, 2, … at their URLs; every page requested but the last returned content; the loop stopped exactly when the last returned none; unstopped, all pages were requested |
| Scrape.UnstoppedRequestedAll | utils/extract.py:77-84 | a loop that has not stopped has requested every page so far |
| Scrape.CrawlOutput | utils/extract.py:86-105 | the data are the requested pages' records in page order and then card order; there is one pause of `delay` per requested page with cards |
| Scrape.PausesLast | utils/extract.py:102 | every pause lasts the `delay` the crawl was given |
| Scrape.CollectedWellFormed | utils/extract.py:95-99 | with `extract_product_data` as reader every collected record is well formed |
| Scrape.HarvestPage | utils/extract.py:95-99 | the card loop returns the records of the readable cards in card order |
| Scrape.ScrapeFashionProducts | utils/extract.py:74-110 | returns the data, requested URLs and pauses of `CrawlUpTo(total_pages)`; at most `total_pages` URLs are requested (none when it is not positive), and the i-th is the URL of page i |
| Scrape.ScrapeWithDefaultDelay | utils/extract.py:74-110 | a call that leaves `delay` at its default of 2 crawls as `ScrapeFashionProducts` with a 2-second delay, and every pause it makes lasts 2 seconds |
| Timestamps.FormatIsoRoundTrip | utils/transform.py:27 | a valid capture time renders as 26 characters with `T` at index 10, and parses back to the same time |
| Timestamps.FormatIso | utils/transform.py:27 | a valid capture time renders as 26 characters with `-` at index 4, `T` at index 10 and `.` at index 19 |
| Timestamps.NormalizeTimestamp | utils/transform.py:27 | a capture time pandas can hold becomes ISO text that contains `T` and reads back to it; any other becomes missing, and the row stays |
| Transform.KeepValidRatings | utils/transform.py:8 | no surviving row carries `"Invalid Rating"` |
| Transform.KeepValidRatingsAppend | utils/transform.py:8 | the filter works row by row, so surviving rows keep their relative order |
| Transform.KeepValidRatingsAll | utils/transform.py:8 | with no placeholder rating, every row survives |
| Transform.KeepValidRatingsSingle | utils/transform.py:8 | a row survives exactly when its rating is not `"Invalid Rating"` |
| Transform.CleanPrice | utils/transform.py:15 | the result has no `$` and no `,` and is no longer than the input |
| Transform.CleanPriceNoOp | utils/transform.py:15 | text without `$` or `,` is left as it is |
| Transform.CleanPriceAppend | utils/transform.py:15 | `$` and `,` are removed character by character |
| Transform.CleanPriceSingle | utils/transform.py:15 | a single `$` or `,` is removed; any other character is kept |
| Numbers.ParseUnsigned | utils/transform.py:16 | an accepted number is non-negative |
| Numbers.ParseUnsignedFraction | utils/transform.py:16 | `a.f` reads as the exact decimal with mantissa `a·10^|f| + f` and scale `|f|` |
| Numbers.ParseFraction | utils/transform.py:16 | `float("a.f")` for digit strings `a` and `f` is the exact decimal with mantissa `a·10^|f| + f` and scale `|f|` |
| Numbers.ParseRenderRoundTrip | utils/transform.py:16 | `float()` reads the decimal text of any exact decimal back to that decimal |
| Numbers.ParseNumberRejectsLead | utils/transform.py:16 | text whose first character cannot begin a number does not read as one |
| Numbers.ParseNumber | utils/transform.py:16 | text that reads as a number is not blank, has fewer decimals than its stripped length, and starts with `-` when the number is negative |
| Numbers.RoundHalfEven | utils/transform.py:17 | the rounded value is nearest: within half a unit, and the even one of two equally near |
| Numbers.RoundHalfEvenUnique | utils/transform.py:17 | no other integer satisfies both rounding properties |
| Numbers.RoundHalfEvenExact | utils/transform.py:17 | a whole quotient is its own rounding |
| Transform.PriceTenths | utils/transform.py:16-17 | the number of tenths of a rupiah is the nearest integer to price × 16000 × 10, the even one on a tie |
| Transform.PriceExact | utils/transform.py:16-17 | with at most three decimals the rupiah amount is exact and whole: tenths × 10^scale = mantissa × 16000 × 10 |
| Transform.ColorsCountSome | utils/transform.py:20 | colours have a count exactly when the text holds a digit |
| Transform.ColorsCountLeading | utils/transform.py:20 | text that starts with a digit run counts as that run's value |
| Transform.ColorsCountOfLabel | utils/transform.py:20 | `N Colors` counts as N |
| Transform.ColorsCountPlaceholder | utils/transform.py:20 | `No Colors` has no count |
| Transform.ColorsCount | utils/transform.py:20 | a count is the value of the digit run that starts at the first digit of the text |
| Transform.CoerceRow | utils/transform.py:11-27 | a row coerces exactly when its cleaned price reads as a number and its colours hold a digit; title, size and gender pass through; a present timestamp has `T` at index 10 |
| Transform.CoerceAll | utils/transform.py:11-31 | succeeds exactly when every row coerces, and then gives each row's coercion in order |
| Transform.CleanAndTransform | utils/transform.py:3-33 | the output is empty exactly when no row survives the filter or a surviving row fails to coerce; otherwise it has one row per surviving row, in order |
| Transform.InvalidRowIgnored | utils/transform.py:8-20 | a row with `"Invalid Rating"` is dropped before coercion, so whatever its price and colours it never affects the output |
| Transform.DecimalTextValue | utils/transform.py:11-12 | a captured `digits.digits` reads as a non-negative number with at least one decimal |
| Transform.RatingValue | utils/transform.py:11-12 | a rating read is non-negative and has at least one decimal |
| Transform.RatingValueOf | utils/transform.py:11-12 | `STAR`, whitespace and `a.f` reads as the exact decimal `a.f`: mantissa `a·10^|f| + f`, scale `|f|` |
| Pipeline.RatingValueFound | utils/transform.py:11-12 | when the rating pattern finds a group, the rating is a number |
| Pipeline.ExtractedRatingValue | utils/transform.py:11-12 | an extracted star number becomes a number exactly when it has a fractional part (`STAR 4` becomes missing) |
| Pipeline.ExtractedColorsCount | utils/transform.py:20 | extracted colours count as their digit value; `No Colors` has no count |
| Pipeline.PriceRejectedByLead | utils/transform.py:15-16 | a price whose cleaned first character cannot begin a number fails |
| Pipeline.PricePlaceholderRejected | utils/transform.py:16 | `Price Not Available` does not read as a number |
| Pipeline.PlaceholderRowFails | utils/transform.py:16-20 | a row with the price or colours placeholder does not coerce |
| Pipeline.ScrapedRowCoercion | utils/transform.py:16-20 | an extracted row coerces exactly when its price reads as a number and its colours are not the placeholder |
| Pipeline.FailingRowEmptiesOutput | utils/transform.py:29-31 | one surviving row that fails to coerce empties the whole output, wherever it stands |
| Pipeline.PlaceholderEmptiesOutput | utils/transform.py:16-31 | a surviving row with the price or colours placeholder empties the whole output |
| ExtractExamples.CleanTextFindsRating | tests/test_extract.py:40-46 | the rating fragment yields `⭐ 4.5` |
| ExtractExamples.StarRatingShape | utils/extract.py:50 | `⭐ x.y` for digits x and y has the shape the rating pattern captures, fraction included |
| ExtractExamples.CleanTextKeywordAbsent | tests/test_extract.py:48-54 | with no fragment mentioning the keyword the result is `N/A` |
| ExtractExamples.RatingTextNoMatch | tests/test_extract.py:58 | `Rating Text` mentions the keyword, but the rating pattern finds nothing in it |
| ExtractExamples.CleanTextPatternFails | tests/test_extract.py:56-62 | a fragment that mentions the keyword but does not match is passed over; the result is `N/A` |
| ExtractExamples.CleanTextCallerDefault | tests/test_extract.py:64-71 | the caller's default comes back, whatever the pattern |
| ExtractExamples.RatingFragmentFirst | utils/extract.py:28-32 | a first fragment `Rating: ⭐ x.y` yields `⭐ x.y`, whatever follows |
| ExtractExamples.SkipAbsent | utils/extract.py:28-29 | leading fragments that do not mention the keyword are passed over |
| ExtractExamples.ColorsParagraphMatches | tests/test_extract.py:82-93 | `Colors: 2 Colors` captures `2` |
| ExtractExamples.SizeParagraphMatches | tests/test_extract.py:83-94 | `Size: L` captures `L` |
| ExtractExamples.GenderParagraphMatches | tests/test_extract.py:84-95 | `Gender: Female` captures `Female` |
| ExtractExamples.ProductDataComplete | tests/test_extract.py:73-96 | a complete card gives `Test Product`, `$25.00`, `⭐ 4.8`, `2`, `L`, `Female` and the capture time |
| ExtractExamples.ProductDataMissingElements | tests/test_extract.py:98-116 | a card with only a title gets every placeholder |
| ExtractExamples.ProductDataEmptyTitle | tests/test_extract.py:118-134 | an empty title becomes `Unknown Title`; price `$30.00` and rating `⭐ 4.0` are still read |
| ScrapeExamples.SinglePageSuccess | tests/test_extract.py:136-155 | one page with one readable card: the root is requested once, one record is returned, one pause of 0.1 s is made |
| ScrapeExamples.FirstFetchFails | utils/extract.py:106-108 | when the root returns nothing only the root is requested, nothing is collected and nothing pauses |
| ScrapeExamples.BarePageSkipped | utils/extract.py:91-105 | a page that fails to parse or has no cards is skipped without a pause, and the next page is requested |
| TransformExamples.DollarAmount | utils/transform.py:15-16 | `$a.f` reads as the decimal `a.f` |
| TransformExamples.TenDollars | tests/test_transform.py:13 | `$10.00` reads as 10.00 and becomes 160000 rupiah |
| TransformExamples.TwentyDollars | tests/test_transform.py:13 | `$20.00` reads as 20.00 and becomes 320000 rupiah |
| TransformExamples.CoercibleRowCoerces | utils/transform.py:8-27 | a row whose price reads as a number, whose rating is `STAR`, whitespace and `whole.frac`, whose colours hold a digit and whose capture time pandas can hold survives the filter and coerces: the price converted, the rating the number `whole.frac`, the colour count the value of the first digit run, text columns unchanged |
| TransformExamples.ValidRowsTransformed | tests/test_transform.py:10-29 | rows of that kind all survive, in order, with the price converted, the rating the number its text spells, the colour count, size and gender unchanged, and an ISO timestamp containing `T` |
| TransformExamples.ItemsCoercible | tests/test_transform.py:11-19 | both rows of the test are such coercible rows, with prices 10.00 and 20.00 and colour counts 3 and 5 |
| TransformExamples.ItemsRated | tests/test_transform.py:13 | the test's ratings `⭐ 4.5` and `⭐ 3.9` are star ratings `whole.frac` worth 4.5 and 3.9 |
| TransformExamples.ItemsConverted | tests/test_transform.py:13 | their prices become 160000 and 320000 rupiah |
| TransformExamples.InvalidRatingDropped | tests/test_transform.py:31-45 | a table whose only row has `Invalid Rating` becomes empty |
| TransformExamples.MalformedPriceEmptiesOutput | tests/test_transform.py:47-61 | a row priced `INVALID` empties the output |

## Left out

- `fetching_content` (utils/extract.py:15-23): the HTTP request is left out. The fetch is a parameter that returns `None` for a failed request. An empty body is also `None`, because the loop tests the content for truth.
- BeautifulSoup parsing and CSS selection are left out; a card and a page are the plain data described above.
- The `try`/`except` around `extract_product_data` is left out: that function catches every error itself and returns `None`, so the outer handler (utils/extract.py:100-101) never fires.
- `print` logging throughout, and the `sleep` itself: a pause is recorded, not performed.
- `datetime.now()` is a parameter; `pd.to_datetime` parsing of arbitrary text is left out. A raw record holds a structured capture time, or none when it cannot be read.
- `Timestamps.InPandasRange` is checked at microsecond precision; pandas' exact nanosecond bounds are not modelled.
- Character classes hold their ASCII members only: whitespace is tab, line feed, vertical tab, form feed, carriage return, U+001C to U+001F and space. Python's `\s`, `\d`, `\w` and `str.strip()` also accept non-ASCII Unicode characters (for example U+00A0 as whitespace), which are left out.
- Python `float()` is modelled for plain decimals only (optional surrounding whitespace, optional sign, `D+`, `D+.D*`, `.D+`). Exponents, `inf`, `nan` and underscores are left out.
- Binary floating point is left out. Prices and ratings are exact decimals, and the price is rounded half-to-even on the exact value. The source rounds the binary float, which can differ in the last place.
- The `int` column type of Colors is an unbounded `nat`; the 64-bit limit is not modelled.
- `Scrape.CrawlUpTo` and the lemmas about it take any card reader; only the well-formedness lemmas and `ScrapeFashionProducts` fix it to `ExtractProductData`.
- TransformExamples.ValidRowsTransformed: states the test's outcome for every table of coercible rows (`TransformExamples.CoercibleRow`), not for the test's two literal rows end to end. `TransformExamples.ItemsCoercible` and `TransformExamples.ItemsRated` show separately that those two rows are coercible and that their ratings are worth 4.5 and 3.9.
- A table without the expected columns is not modelled, because a row here always has every field. Such a table is what the scraper builds when it collects nothing; the source then raises inside its `try` and returns an empty table, and the model also returns the empty table for no rows.
- Extract.ExtractCleanText: its own contract says only that a non-default result has no whitespace at its ends; `Extract.ExtractCleanTextResult` states the full result.
- Patterns.Search: its own contract covers a match at the first position only; `Patterns.SearchLeftmost` and `Patterns.SearchNone` state the general case.
- Scrape.Step: its own contract bounds how the logs grow; `Scrape.StepUnstopped` states what an iteration does.
- utils/load.py and main.py are not part of this model; `Scrape.ScrapeWithDefaultDelay` stands for the scraper call main.py makes.
