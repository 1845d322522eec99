/**
 * Page harvesting (`scrape_fashion_products` in utils/extract.py).
 *
 * The network and the HTML parser are parameters: `fetch` maps a URL to
 * `None` when no content came back (a failed request or an empty body) and
 * otherwise to the parsed page, which is either a parse error or the page's
 * product cards. `clock(page, k)` is the reading of `datetime.now()` taken
 * for card `k` of page `page`. Each `time.sleep(delay)` is logged as a
 * `Pause` instead of being performed.
 */
module Scrape {
  import opened Wrappers
  import opened Text
  import opened Timestamps
  import opened Records
  import opened Extract

  const BASE_URL: string := "https://fashion-studio.dicoding.dev/"

  /** The seconds `scrape_fashion_products` sleeps after a page when its caller passes no `delay`. */
  const DEFAULT_DELAY: real := 2.0

  datatype PageContent = ParseError | Cards(cards: seq<Card>)

  type Fetcher = string -> Option<PageContent>
  type Clock = (nat, nat) -> DateTime

  /**
   * A card reader: `extract_product_data`, which the scraper itself uses as
   * `ExtractProductData` and which the harvesting specification leaves open.
   */
  type Extractor = (Card, DateTime) -> Option<RawRecord>

  /** One `time.sleep(seconds)` after page `page`. */
  datatype Pause = Pause(page: nat, seconds: real)

  /** Page 1 is the site root; page `n >= 2` is `page<n>` under it. */
  function PageUrl(n: nat): (u: string)
    requires n >= 1
    ensures StartsWith(u, BASE_URL)
  {
    if n == 1 then BASE_URL else BASE_URL + "page" + NatToString(n)
  }

  /** Reads a page number back from a URL built by `PageUrl`. */
  function PageOfUrl(u: string): Option<nat> {
    var prefix := BASE_URL + "page";
    if u == BASE_URL then Some(1)
    else if StartsWith(u, prefix) && |u| > |prefix| && AllDigits(u[|prefix|..]) then
      Some(DigitsValue(u[|prefix|..]))
    else None
  }

  /**
   * Every page URL names its page: page 1 alone is the site root, any other
   * page is `page` followed by its number without leading zeros, and the URL
   * reads back to the number it was built from.
   */
  lemma PageUrlRoundTrip(n: nat)
    requires n >= 1
    ensures PageUrl(n) == BASE_URL <==> n == 1
    ensures n >= 2 ==> StartsWith(PageUrl(n), BASE_URL + "page") && PageUrl(n)[|BASE_URL| + 4] != '0'
    ensures PageOfUrl(PageUrl(n)) == Some(n)
  {
    if n >= 2 {
      var prefix := BASE_URL + "page";
      var u := PageUrl(n);
      assert u[|prefix|..] == NatToString(n);
      assert u[..|prefix|] == prefix;
      NatToStringRoundTrip(n);
      NatToStringLeadingDigit(n);
      assert u[|BASE_URL| + 4] == NatToString(n)[0];
    }
  }

  /** Distinct pages are fetched at distinct URLs. */
  lemma PageUrlInjective(m: nat, n: nat)
    requires m >= 1 && n >= 1 && PageUrl(m) == PageUrl(n)
    ensures m == n
  {
    PageUrlRoundTrip(m);
    PageUrlRoundTrip(n);
  }

  /**
   * The records the cards of page `page` yield, in card order: one per card
   * that `extract_product_data` reads, none for a malformed card.
   */
  function HarvestCards(cards: seq<Card>, page: nat, clock: Clock, extract: Extractor): (r: seq<RawRecord>)
    ensures |r| <= |cards|
  {
    if cards == [] then []
    else
      var k := |cards| - 1;
      HarvestCards(cards[..k], page, clock, extract) +
        match extract(cards[k], clock(page, k))
        case None => []
        case Some(rec) => [rec]
  }

  /** Cards the extractor reads yield one record each, at the same position and stamped with its own clock reading. */
  lemma {:induction false} HarvestAllRead(cards: seq<Card>, page: nat, clock: Clock, extract: Extractor)
    requires forall k :: 0 <= k < |cards| ==> extract(cards[k], clock(page, k)).Some?
    ensures |HarvestCards(cards, page, clock, extract)| == |cards|
    ensures forall k :: 0 <= k < |cards| ==>
      HarvestCards(cards, page, clock, extract)[k] == extract(cards[k], clock(page, k)).value
  {
    if cards != [] {
      var k := |cards| - 1;
      var front := cards[..k];
      HarvestAllRead(front, page, clock, extract);
      var r := HarvestCards(front, page, clock, extract) + [extract(cards[k], clock(page, k)).value];
      assert HarvestCards(cards, page, clock, extract) == r;
      forall j | 0 <= j < |cards|
        ensures r[j] == extract(cards[j], clock(page, j)).value
      {
        if j < k {
          assert cards[j] == front[j];
        }
      }
    }
  }

  /** Cards the extractor rejects contribute nothing. */
  lemma {:induction false} HarvestNoneRead(cards: seq<Card>, page: nat, clock: Clock, extract: Extractor)
    requires forall k :: 0 <= k < |cards| ==> extract(cards[k], clock(page, k)).None?
    ensures HarvestCards(cards, page, clock, extract) == []
  {
    if cards != [] {
      var k := |cards| - 1;
      var front := cards[..k];
      forall j | 0 <= j < k ensures extract(front[j], clock(page, j)).None? {
        assert front[j] == cards[j];
      }
      HarvestNoneRead(front, page, clock, extract);
    }
  }

  /** The positions of the readable (not malformed) cards, in increasing order. */
  function CardIndices(cards: seq<Card>): (r: seq<nat>)
    ensures forall j :: 0 <= j < |r| ==> r[j] < |cards| && cards[r[j]].Card?
    ensures forall j, j' :: 0 <= j < j' < |r| ==> r[j] < r[j']
    ensures forall k :: 0 <= k < |cards| && cards[k].Card? ==> k in r
  {
    if cards == [] then []
    else
      var k := |cards| - 1;
      PrefixCards(cards, k);
      CardIndices(cards[..k]) + (if cards[k].Card? then [k] else [])
  }

  lemma PrefixCards(cards: seq<Card>, k: nat)
    requires k <= |cards|
    ensures forall i :: 0 <= i < k ==> cards[..k][i] == cards[i]
  {
  }

  /**
   * With `extract_product_data` as the reader, a card is dropped exactly
   * when it is malformed: the records are those of the readable cards, one
   * each, in card order, each stamped with its own card's clock reading.
   */
  lemma HarvestProducts(cards: seq<Card>, page: nat, clock: Clock)
    ensures var h, ix := HarvestCards(cards, page, clock, ExtractProductData), CardIndices(cards);
      && |h| == |ix|
      && forall j :: 0 <= j < |ix| ==> h[j] == ExtractProductData(cards[ix[j]], clock(page, ix[j])).value
    ensures (forall k :: 0 <= k < |cards| ==> cards[k].Card?) ==>
      |HarvestCards(cards, page, clock, ExtractProductData)| == |cards|
    ensures (forall k :: 0 <= k < |cards| ==> cards[k].MalformedCard?) ==>
      HarvestCards(cards, page, clock, ExtractProductData) == []
  {
    HarvestReadable(cards, page, clock);
    if forall k :: 0 <= k < |cards| ==> cards[k].Card? {
      HarvestAllRead(cards, page, clock, ExtractProductData);
    }
    if forall k :: 0 <= k < |cards| ==> cards[k].MalformedCard? {
      HarvestNoneRead(cards, page, clock, ExtractProductData);
    }
  }

  lemma {:induction false} HarvestReadable(cards: seq<Card>, page: nat, clock: Clock)
    ensures var h, ix := HarvestCards(cards, page, clock, ExtractProductData), CardIndices(cards);
      && |h| == |ix|
      && forall j :: 0 <= j < |ix| ==> h[j] == ExtractProductData(cards[ix[j]], clock(page, ix[j])).value
  {
    if cards != [] {
      var k := |cards| - 1;
      var front := cards[..k];
      HarvestReadable(front, page, clock);
      PrefixCards(cards, k);
      var hf, ixf := HarvestCards(front, page, clock, ExtractProductData), CardIndices(front);
      var r := ExtractProductData(cards[k], clock(page, k));
      var h := hf + (if r.Some? then [r.value] else []);
      var ix := ixf + (if cards[k].Card? then [k] else []);
      assert HarvestCards(cards, page, clock, ExtractProductData) == h;
      assert CardIndices(cards) == ix;
      forall j | 0 <= j < |ix|
        ensures h[j] == ExtractProductData(cards[ix[j]], clock(page, ix[j])).value
      {
        if j < |ixf| {
          assert h[j] == hf[j] && ix[j] == ixf[j];
          assert front[ixf[j]] == cards[ixf[j]];
        }
      }
    }
  }

  /** Every record harvested with `extract_product_data` is well formed. */
  lemma {:induction false} HarvestWellFormed(cards: seq<Card>, page: nat, clock: Clock)
    ensures forall j :: 0 <= j < |HarvestCards(cards, page, clock, ExtractProductData)| ==>
      WellFormed(HarvestCards(cards, page, clock, ExtractProductData)[j])
  {
    if cards != [] {
      var k := |cards| - 1;
      HarvestWellFormed(cards[..k], page, clock);
      var a := HarvestCards(cards[..k], page, clock, ExtractProductData);
      var r := ExtractProductData(cards[k], clock(page, k));
      var b := if r.Some? then [r.value] else [];
      if r.Some? {
        ExtractProductDataWellFormed(cards[k], clock(page, k));
      }
      assert HarvestCards(cards, page, clock, ExtractProductData) == a + b;
      forall j | 0 <= j < |a + b| ensures WellFormed((a + b)[j]) {
        if j >= |a| {
          assert (a + b)[j] == b[j - |a|];
        }
      }
    }
  }

  /** The inputs of one run: the network, the clock, the card reader and the delay between pages. */
  datatype Run = Run(fetch: Fetcher, clock: Clock, extract: Extractor, delay: real)

  /** What the loop has done after some pages. */
  datatype Crawl = Crawl(data: seq<RawRecord>, requested: seq<string>, pauses: seq<Pause>, stopped: bool)

  /**
   * One iteration for page `n`: nothing once stopped; otherwise request the
   * page, stop when no content came back, skip a page that fails to parse or
   * has no cards, and else append its records and pause. A stopped loop
   * stays as it is; otherwise at most one request and one pause are added.
   */
  function Step(c: Crawl, n: nat, run: Run): (r: Crawl)
    requires n >= 1
    ensures c.stopped ==> r == c
    ensures |c.requested| <= |r.requested| <= |c.requested| + 1
    ensures |c.pauses| <= |r.pauses| <= |c.pauses| + 1 && |c.data| <= |r.data|
  {
    if c.stopped then c
    else
      var url := PageUrl(n);
      var requested := c.requested + [url];
      match run.fetch(url)
      case None => Crawl(c.data, requested, c.pauses, true)
      case Some(ParseError) => Crawl(c.data, requested, c.pauses, false)
      case Some(Cards(cards)) =>
        if cards == [] then Crawl(c.data, requested, c.pauses, false)
        else Crawl(c.data + HarvestCards(cards, n, run.clock, run.extract), requested,
                   c.pauses + [Pause(n, run.delay)], false)
  }

  /** The state after the iterations for pages `1..n`. */
  function CrawlUpTo(n: nat, run: Run): Crawl {
    if n == 0 then Crawl([], [], [], false)
    else Step(CrawlUpTo(n - 1, run), n, run)
  }

  /** Once stopped, later pages change nothing. */
  lemma {:induction false} StoppedStays(m: nat, n: nat, run: Run)
    requires m <= n && CrawlUpTo(m, run).stopped
    ensures CrawlUpTo(n, run) == CrawlUpTo(m, run)
    decreases n - m
  {
    if m < n {
      StoppedStays(m, n - 1, run);
    }
  }

  /** The number of pages in `range(1, total_pages + 1)`. */
  function PageCount(totalPages: int): nat {
    if totalPages > 0 then totalPages else 0
  }

  /** What page `n` yields when it is fetched. */
  function PageRecords(n: nat, run: Run): seq<RawRecord>
    requires n >= 1
  {
    match run.fetch(PageUrl(n))
    case Some(Cards(cards)) => HarvestCards(cards, n, run.clock, run.extract)
    case _ => []
  }

  /** Whether page `n` had cards, which is when the loop pauses after it. */
  predicate PageHasCards(n: nat, fetch: Fetcher)
    requires n >= 1
  {
    fetch(PageUrl(n)).Some? && fetch(PageUrl(n)).value.Cards? && fetch(PageUrl(n)).value.cards != []
  }

  /** The records of pages `1..m` concatenated in page order. */
  function Collected(m: nat, run: Run): seq<RawRecord> {
    if m == 0 then [] else Collected(m - 1, run) + PageRecords(m, run)
  }

  /** The pauses owed to pages `1..m`: one per page with cards, in page order. */
  function PausesFor(m: nat, run: Run): seq<Pause> {
    if m == 0 then []
    else PausesFor(m - 1, run) + (if PageHasCards(m, run.fetch) then [Pause(m, run.delay)] else [])
  }

  /** Every pause owed lasts the run's `delay`. */
  lemma {:induction false} PausesLast(m: nat, run: Run)
    ensures forall i :: 0 <= i < |PausesFor(m, run)| ==> PausesFor(m, run)[i].seconds == run.delay
  {
    if m > 0 {
      PausesLast(m - 1, run);
    }
  }

  /** A step that is not stopped requests page `n` and adds that page's records and pause. */
  lemma StepUnstopped(c: Crawl, n: nat, run: Run)
    requires n >= 1 && !c.stopped
    ensures var d := Step(c, n, run);
      && d.requested == c.requested + [PageUrl(n)]
      && (d.stopped <==> run.fetch(PageUrl(n)).None?)
      && d.data == c.data + PageRecords(n, run)
      && d.pauses == c.pauses + (if PageHasCards(n, run.fetch) then [Pause(n, run.delay)] else [])
  {
  }

  /**
   * After the iterations for pages `1..n` some `m <= n` pages were requested:
   * pages `1..m` in order at their URLs. Every one of them but the last
   * returned content; the loop has stopped exactly when the last one did not,
   * and it requested all `n` pages when it has not stopped.
   */
  lemma {:induction false} CrawlRequests(n: nat, run: Run)
    ensures var c := CrawlUpTo(n, run);
      var m := |c.requested|;
      && m <= n
      && (forall i :: 0 <= i < m ==> c.requested[i] == PageUrl(i + 1))
      && (forall i :: 1 <= i < m ==> run.fetch(PageUrl(i)).Some?)
      && (c.stopped <==> m > 0 && run.fetch(PageUrl(m)).None?)
      && (!c.stopped ==> m == n)
  {
    if n > 0 {
      CrawlRequests(n - 1, run);
      RequestsStep(CrawlUpTo(n - 1, run), n, run);
    }
  }

  /** One step keeps the request log of `CrawlRequests`, with `n - 1` pages done before it. */
  lemma RequestsStep(c: Crawl, n: nat, run: Run)
    requires n >= 1
    requires var m := |c.requested|;
      && m <= n - 1
      && (forall i :: 0 <= i < m ==> c.requested[i] == PageUrl(i + 1))
      && (forall i :: 1 <= i < m ==> run.fetch(PageUrl(i)).Some?)
      && (c.stopped <==> m > 0 && run.fetch(PageUrl(m)).None?)
      && (!c.stopped ==> m == n - 1)
    ensures var d := Step(c, n, run);
      var m := |d.requested|;
      && m <= n
      && (forall i :: 0 <= i < m ==> d.requested[i] == PageUrl(i + 1))
      && (forall i :: 1 <= i < m ==> run.fetch(PageUrl(i)).Some?)
      && (d.stopped <==> m > 0 && run.fetch(PageUrl(m)).None?)
      && (!d.stopped ==> m == n)
  {
    if !c.stopped {
      StepUnstopped(c, n, run);
    }
  }

  /** A loop that has not stopped has requested every page so far. */
  lemma {:induction false} UnstoppedRequestedAll(n: nat, run: Run)
    ensures !CrawlUpTo(n, run).stopped ==> |CrawlUpTo(n, run).requested| == n
  {
    if n > 0 {
      UnstoppedRequestedAll(n - 1, run);
      var c := CrawlUpTo(n - 1, run);
      if !c.stopped {
        StepUnstopped(c, n, run);
      }
    }
  }

  /**
   * The records are those of the requested pages, in page order and then
   * card order, and there is one pause of `delay` seconds per requested page
   * that had cards.
   */
  lemma {:induction false} CrawlOutput(n: nat, run: Run)
    ensures var c := CrawlUpTo(n, run);
      && c.data == Collected(|c.requested|, run)
      && c.pauses == PausesFor(|c.requested|, run)
  {
    if n > 0 {
      CrawlOutput(n - 1, run);
      UnstoppedRequestedAll(n - 1, run);
      var c := CrawlUpTo(n - 1, run);
      if !c.stopped {
        StepUnstopped(c, n, run);
      }
    }
  }

  /** With `extract_product_data` as the reader every collected record is well formed. */
  lemma {:induction false} CollectedWellFormed(m: nat, run: Run)
    requires run.extract == ExtractProductData
    ensures forall j :: 0 <= j < |Collected(m, run)| ==> WellFormed(Collected(m, run)[j])
  {
    if m > 0 {
      CollectedWellFormed(m - 1, run);
      var a, b := Collected(m - 1, run), PageRecords(m, run);
      var page := run.fetch(PageUrl(m));
      if page.Some? && page.value.Cards? {
        HarvestWellFormed(page.value.cards, m, run.clock);
      }
      forall j | 0 <= j < |a + b| ensures WellFormed((a + b)[j]) {
        if j >= |a| {
          assert (a + b)[j] == b[j - |a|];
        }
      }
    }
  }

  /** Harvesting one more card appends that card's record, if it has one. */
  lemma HarvestSnoc(cards: seq<Card>, k: nat, page: nat, clock: Clock, extract: Extractor)
    requires k < |cards|
    ensures HarvestCards(cards[..k + 1], page, clock, extract) ==
      HarvestCards(cards[..k], page, clock, extract) +
        (if extract(cards[k], clock(page, k)).Some? then [extract(cards[k], clock(page, k)).value] else [])
  {
    assert cards[..k + 1][..k] == cards[..k];
  }

  /** The records of one page's cards, read one card at a time. */
  method HarvestPage(cards: seq<Card>, page: nat, clock: Clock) returns (records: seq<RawRecord>)
    ensures records == HarvestCards(cards, page, clock, ExtractProductData)
  {
    records := [];
    var k := 0;
    while k < |cards|
      invariant 0 <= k <= |cards|
      invariant records == HarvestCards(cards[..k], page, clock, ExtractProductData)
    {
      HarvestSnoc(cards, k, page, clock, ExtractProductData);
      var product := ExtractProductData(cards[k], clock(page, k));
      if product.Some? {
        records := records + [product.value];
      }
      k := k + 1;
    }
    assert cards[..k] == cards;
  }

  /**
   * `scrape_fashion_products(total_pages, delay)`: returns the collected
   * records, with the URLs it requested and the pauses it made.
   */
  method ScrapeFashionProducts(totalPages: int, delay: real, fetch: Fetcher, clock: Clock)
    returns (data: seq<RawRecord>, requested: seq<string>, pauses: seq<Pause>)
    ensures var c := CrawlUpTo(PageCount(totalPages), Run(fetch, clock, ExtractProductData, delay));
      data == c.data && requested == c.requested && pauses == c.pauses
    ensures |requested| <= (if totalPages > 0 then totalPages else 0)
    ensures forall i :: 0 <= i < |requested| ==> requested[i] == PageUrl(i + 1)
  {
    ghost var run := Run(fetch, clock, ExtractProductData, delay);
    data, requested, pauses := [], [], [];
    var n := PageCount(totalPages);
    var page := 1;
    while page <= n
      invariant 1 <= page <= n + 1
      invariant var c := CrawlUpTo(page - 1, run);
        !c.stopped && data == c.data && requested == c.requested && pauses == c.pauses
      decreases n + 1 - page
    {
      ghost var c := CrawlUpTo(page - 1, run);
      StepUnstopped(c, page, run);
      var url := if page == 1 then BASE_URL else BASE_URL + "page" + NatToString(page);
      assert url == PageUrl(page);
      requested := requested + [url];
      var content := fetch(url);
      if content.None? {
        StoppedStays(page, n, run);
        CrawlRequests(n, run);
        return;
      }
      match content.value {
        case ParseError =>
        case Cards(cards) =>
          if cards != [] {
            var records := HarvestPage(cards, page, clock);
            data := data + records;
            pauses := pauses + [Pause(page, delay)];
          }
      }
      assert CrawlUpTo(page, run) == Step(c, page, run);
      page := page + 1;
    }
    CrawlRequests(n, run);
  }

  /**
   * `scrape_fashion_products(total_pages)` with `delay` left at its default,
   * as main.py calls it: the crawl of `ScrapeFashionProducts` with a delay of
   * two seconds, every pause of which lasts two seconds.
   */
  method ScrapeWithDefaultDelay(totalPages: int, fetch: Fetcher, clock: Clock)
    returns (data: seq<RawRecord>, requested: seq<string>, pauses: seq<Pause>)
    ensures var c := CrawlUpTo(PageCount(totalPages), Run(fetch, clock, ExtractProductData, DEFAULT_DELAY));
      data == c.data && requested == c.requested && pauses == c.pauses
    ensures forall i :: 0 <= i < |pauses| ==> pauses[i].seconds == DEFAULT_DELAY
  {
    data, requested, pauses := ScrapeFashionProducts(totalPages, DEFAULT_DELAY, fetch, clock);
    ghost var run := Run(fetch, clock, ExtractProductData, DEFAULT_DELAY);
    CrawlOutput(PageCount(totalPages), run);
    PausesLast(|requested|, run);
  }

}
