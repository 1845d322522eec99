/**
 * Harvesting scenarios: the single-page run of tests/test_extract.py and
 * the loop's early stop.
 */
module ScrapeExamples {
  import opened Wrappers
  import opened Records
  import opened Extract
  import opened Scrape

  /**
   * tests/test_extract.py:135-155: one page holding one card that the reader
   * turns into a record. The site root is requested once, the card is read
   * once, the run pauses once for 0.1 seconds and returns that one record.
   */
  lemma SinglePageSuccess(fetch: Fetcher, clock: Clock, extract: Extractor, c: Card, rec: RawRecord)
    requires fetch(BASE_URL) == Some(Cards([c]))
    requires extract(c, clock(1, 0)) == Some(rec)
    ensures CrawlUpTo(PageCount(1), Run(fetch, clock, extract, 0.1)) == Crawl([rec], [BASE_URL], [Pause(1, 0.1)], false)
  {
    assert [c][..0] == [];
    assert HarvestCards([c], 1, clock, extract) == [rec];
  }

  /**
   * When the site root returns no content the loop stops at once: only the
   * root was requested, nothing was collected and no pause was made,
   * however many pages were asked for.
   */
  lemma FirstFetchFails(totalPages: int, run: Run)
    requires totalPages >= 1 && run.fetch(BASE_URL) == None
    ensures CrawlUpTo(PageCount(totalPages), run) == Crawl([], [BASE_URL], [], true)
  {
    assert CrawlUpTo(1, run) == Crawl([], [BASE_URL], [], true);
    StoppedStays(1, PageCount(totalPages), run);
  }

  /**
   * A page that cannot be parsed, or that has no cards, is skipped: the loop
   * requests the next page, collects nothing for it and does not pause.
   */
  lemma BarePageSkipped(run: Run)
    requires run.fetch(BASE_URL) == Some(ParseError) || run.fetch(BASE_URL) == Some(Cards([]))
    ensures var c := CrawlUpTo(2, run);
      && c.requested == [BASE_URL, PageUrl(2)]
      && c.data == PageRecords(2, run)
      && c.pauses == (if PageHasCards(2, run.fetch) then [Pause(2, run.delay)] else [])
  {
    var c0 := CrawlUpTo(0, run);
    assert PageUrl(1) == BASE_URL;
    assert c0.requested + [BASE_URL] == [BASE_URL];
    var c1 := CrawlUpTo(1, run);
    assert c1 == Crawl([], [BASE_URL], [], false);
    StepUnstopped(c1, 2, run);
  }
}
