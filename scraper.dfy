/**
 * The `JobScraper` class of jobs.py (outdated/jobs.py is the same file): the LinkedIn and Indeed
 * page loops that append parsed cards to the `jobs_data` list, and the export of that list.
 *
 * A page is fetched through `fetch`, the HTTP session: `Raised` stands for an exception of
 * `session.get`, otherwise the status code and the page as the card queries see it.  A card is
 * what `card.find` answers for each query that matches something inside it.
 */
module Scraper {
  import opened Wrappers
  import opened PyText
  import opened Calendar
  import opened TextNormalizer
  import opened Params
  import opened JobRecords
  import opened ExportOrder

  // ---------------------------------------------------------------- pages and cards

  /** A BeautifulSoup query: a tag name and, when given, a class the tag must carry. */
  datatype Selector = Selector(tag: string, cls: Option<string>)

  /** A matched tag: its text and its attributes. */
  datatype Element = Element(text: string, attrs: map<string, string>)

  /** The first match inside a card of each query that matches anything there. */
  type Card = map<Selector, Element>

  /** The matches of each `find_all` query on a page, in document order. */
  type Page = map<Selector, seq<Card>>

  function FindAll(page: Page, sel: Selector): seq<Card>
  {
    if sel in page then page[sel] else []
  }

  datatype Request = Request(url: string, params: ParamMap)

  datatype Response = Raised | Response(status: int, page: Page)

  /** `session.get(url, params=...)` */
  type Fetch = Request -> Response

  /** The cards of a response with status 200; no cards otherwise. */
  function CardsOf(response: Response, sel: Selector): seq<Card>
  {
    if response.Response? && response.status == 200 then FindAll(response.page, sel) else []
  }

  /** `tag.text if tag else default` */
  function TextOr(card: Card, sel: Selector, default: string): string
  {
    if sel in card then card[sel].text else default
  }

  /** The current date in the form `format_date` is handed when a card has no date. */
  function TodayText(now: int): string
  {
    IsoDate(DateOfHour(now))
  }

  /** `date_posted` of a record: the date text run through `format_date`, as `YYYY-MM-DD`. */
  function PostedText(dateText: string, now: int, lib: TextLibrary): string
  {
    IsoDate(FormatDate(dateText, now, lib))
  }

  /** What `clean_text` can answer: the sentinel for an empty value, or a cleaned text. */
  predicate CleanOutput(t: string, lib: TextLibrary)
  {
    t == "N/A" || Cleaned(t, lib)
  }

  /** Title, company, location and salary went through `clean_text`. */
  predicate CleanedFields(r: JobRecord, lib: TextLibrary)
  {
    CleanOutput(r.title, lib) && CleanOutput(r.company, lib) && CleanOutput(r.location, lib) && CleanOutput(r.salary, lib)
  }

  /** The placeholder of a missing field, and of a missing salary. */
  const NotApplicable: string := "N/A"
  const NotSpecified: string := "Not specified"

  // ---------------------------------------------------------------- LinkedIn

  const LinkedInSearchUrl: string := "https://www.linkedin.com/jobs/search"

  /** LinkedIn lists 25 postings per page. */
  const LinkedInPageSize: int := 25

  const LinkedInCardSel := Selector("div", Some("job-search-card"))
  const LinkedInTitleSel := Selector("h3", Some("base-search-card__title"))
  const LinkedInCompanySel := Selector("h4", Some("base-search-card__subtitle"))
  const LinkedInLocationSel := Selector("span", Some("job-search-card__location"))
  const LinkedInTimeSel := Selector("time", None)
  const LinkedInLinkSel := Selector("a", Some("base-card__full-link"))
  const LinkedInSalarySel := Selector("span", Some("job-search-card__salary-info"))

  function LinkedInRequest(jobTitle: string, location: string, page: int): Request
  {
    Request(LinkedInSearchUrl, map[
      "keywords" := Text(jobTitle),
      "location" := Text(location),
      "start" := Number(page * LinkedInPageSize),
      "sortBy" := Text("DD")])
  }

  /**
   * One LinkedIn card as a record.  A `<time>` without `datetime` or a link without `href` is the
   * `KeyError` that makes the loop skip the card: `None`.
   */
  function ParseLinkedInCard(card: Card, now: int, lib: TextLibrary): (r: Option<JobRecord>)
    ensures r.None? <==>
      || (LinkedInTimeSel in card && "datetime" !in card[LinkedInTimeSel].attrs)
      || (LinkedInLinkSel in card && "href" !in card[LinkedInLinkSel].attrs)
    ensures r.Some? ==> r.value.platform == "LinkedIn" && CleanedFields(r.value, lib)
  {
    if LinkedInTimeSel in card && "datetime" !in card[LinkedInTimeSel].attrs then None
    else if LinkedInLinkSel in card && "href" !in card[LinkedInLinkSel].attrs then None
    else
      var dateText := if LinkedInTimeSel in card then card[LinkedInTimeSel].attrs["datetime"] else TodayText(now);
      Some(JobRecord(
        platform := "LinkedIn",
        title := CleanText(Some(TextOr(card, LinkedInTitleSel, NotApplicable)), lib),
        company := CleanText(Some(TextOr(card, LinkedInCompanySel, NotApplicable)), lib),
        location := CleanText(Some(TextOr(card, LinkedInLocationSel, NotApplicable)), lib),
        datePosted := PostedText(dateText, now, lib),
        link := if LinkedInLinkSel in card then card[LinkedInLinkSel].attrs["href"] else NotApplicable,
        salary := CleanText(Some(TextOr(card, LinkedInSalarySel, NotSpecified)), lib)))
  }

  // ---------------------------------------------------------------- Indeed

  const IndeedSearchUrl: string := "https://www.indeed.com/jobs"

  /** Indeed lists 10 postings per page. */
  const IndeedPageSize: int := 10

  const IndeedLinkPrefix: string := "https://www.indeed.com"

  const IndeedCardSel := Selector("div", Some("job_seen_beacon"))
  const IndeedAltCardSel := Selector("div", Some("tapItem"))
  const IndeedTitleSels := [Selector("h2", Some("jobTitle")), Selector("a", Some("jcs-JobTitle"))]
  const IndeedCompanySels := [Selector("span", Some("companyName")), Selector("div", Some("company_location"))]
  const IndeedLocationSels := [Selector("div", Some("companyLocation")), Selector("div", Some("company_location"))]
  const IndeedDateSels := [Selector("span", Some("date")), Selector("span", Some("date-posted"))]
  const IndeedAnchorSel := Selector("a", None)
  const IndeedSalarySel := Selector("div", Some("salary-snippet"))

  function IndeedRequest(jobTitle: string, location: string, page: int): Request
  {
    Request(IndeedSearchUrl, map[
      "q" := Text(jobTitle),
      "l" := Text(location),
      "sort" := Text("date"),
      "start" := Number(page * IndeedPageSize)])
  }

  /** `card.find(s1) or card.find(s2) or …`: the match of the first query that matches. */
  function FirstFound(card: Card, sels: seq<Selector>): Option<Element>
  {
    if sels == [] then None
    else if sels[0] in card then Some(card[sels[0]])
    else FirstFound(card, sels[1..])
  }

  function TextOfFirst(card: Card, sels: seq<Selector>, default: string): string
  {
    match FirstFound(card, sels)
    case Some(e) => e.text
    case None => default
  }

  /** The primary card query, or the alternative one when the primary finds no card. */
  function IndeedCards(page: Page): seq<Card>
  {
    var primary := FindAll(page, IndeedCardSel);
    if primary != [] then primary else FindAll(page, IndeedAltCardSel)
  }

  function IndeedCardsOf(response: Response): seq<Card>
  {
    if response.Response? && response.status == 200 then IndeedCards(response.page) else []
  }

  /**
   * One Indeed card as a record.  The link is the first anchor's `href` after the site prefix;
   * an anchor without `href` is the `KeyError` that skips the card.
   */
  function ParseIndeedCard(card: Card, now: int, lib: TextLibrary): (r: Option<JobRecord>)
    ensures r.None? <==> IndeedAnchorSel in card && "href" !in card[IndeedAnchorSel].attrs
    ensures r.Some? ==> r.value.platform == "Indeed" && CleanedFields(r.value, lib)
  {
    if IndeedAnchorSel in card && "href" !in card[IndeedAnchorSel].attrs then None
    else
      Some(JobRecord(
        platform := "Indeed",
        title := CleanText(Some(TextOfFirst(card, IndeedTitleSels, NotApplicable)), lib),
        company := CleanText(Some(TextOfFirst(card, IndeedCompanySels, NotApplicable)), lib),
        location := CleanText(Some(TextOfFirst(card, IndeedLocationSels, NotApplicable)), lib),
        datePosted := PostedText(TextOfFirst(card, IndeedDateSels, TodayText(now)), now, lib),
        link := if IndeedAnchorSel in card then IndeedLinkPrefix + card[IndeedAnchorSel].attrs["href"] else NotApplicable,
        salary := CleanText(Some(TextOr(card, IndeedSalarySel, NotSpecified)), lib)))
  }

  // ---------------------------------------------------------------- card outcomes

  /**
   * `a or b or …` answers nothing exactly when no query matches, and otherwise the match of a
   * query that matches while every query before it does not.
   */
  lemma {:induction false} FirstFoundIsFirst(card: Card, sels: seq<Selector>)
    ensures FirstFound(card, sels).None? <==> forall i :: 0 <= i < |sels| ==> sels[i] !in card
    ensures FirstFound(card, sels).Some? ==>
      exists i :: (0 <= i < |sels| && sels[i] in card && FirstFound(card, sels).value == card[sels[i]] &&
        forall j :: 0 <= j < i ==> sels[j] !in card)
  {
    if sels != [] && sels[0] !in card {
      var r := FirstFound(card, sels[1..]);
      FirstFoundIsFirst(card, sels[1..]);
      assert forall i :: 1 <= i < |sels| ==> sels[i] == sels[1..][i - 1];
      if r.Some? {
        var i :| 0 <= i < |sels[1..]| && sels[1..][i] in card && r.value == card[sels[1..][i]] &&
          forall j :: 0 <= j < i ==> sels[1..][j] !in card;
        assert forall j :: 1 <= j < i + 1 ==> sels[j] == sels[1..][j - 1];
        assert 0 <= i + 1 < |sels| && sels[i + 1] in card && r.value == card[sels[i + 1]];
      }
    }
  }

  /**
   * A LinkedIn record is dated by `format_date` of the `datetime` (today when there is no
   * `<time>`) and linked to the `href` (`N/A` when there is no link).
   */
  lemma LinkedInCardOutcome(card: Card, now: int, lib: TextLibrary)
    ensures var r := ParseLinkedInCard(card, now, lib);
      r.Some? ==>
          && r.value.datePosted == PostedText(
               if LinkedInTimeSel in card then card[LinkedInTimeSel].attrs["datetime"] else TodayText(now), now, lib)
          && r.value.link == (if LinkedInLinkSel in card then card[LinkedInLinkSel].attrs["href"] else NotApplicable)
  {
  }

  /**
   * An Indeed record is dated from the first date query that matches (today when none does) and
   * linked to the site prefix followed by the `href` (`N/A` when there is no anchor).
   */
  lemma IndeedCardOutcome(card: Card, now: int, lib: TextLibrary)
    ensures var r := ParseIndeedCard(card, now, lib);
      r.Some? ==>
          && r.value.datePosted == PostedText(TextOfFirst(card, IndeedDateSels, TodayText(now)), now, lib)
          && r.value.link == (if IndeedAnchorSel in card then IndeedLinkPrefix + card[IndeedAnchorSel].attrs["href"] else NotApplicable)
  {
  }

  // ---------------------------------------------------------------- accumulation

  /** A card parser: the record of a card, or `None` when parsing the card raises. */
  type Parser = Card -> Option<JobRecord>

  /** The cards a page loop reads for page `p`: none when the request fails. */
  type PageCards = int -> seq<Card>

  /** The card parses of a page, in card order. */
  function Parses(cards: seq<Card>, parse: Parser): seq<Option<JobRecord>>
  {
    seq(|cards|, i requires 0 <= i < |cards| => parse(cards[i]))
  }

  /** The successful parses, in order: failed cards are skipped. */
  function Kept(ps: seq<Option<JobRecord>>): seq<JobRecord>
  {
    if ps == [] then []
    else Kept(ps[..|ps| - 1]) + (if ps[|ps| - 1].Some? then [ps[|ps| - 1].value] else [])
  }

  /** What a page loop appends for pages `0 .. n - 1`. */
  function UpTo(cardsOf: PageCards, parse: Parser, n: nat): seq<JobRecord>
  {
    if n == 0 then [] else UpTo(cardsOf, parse, n - 1) + Kept(Parses(cardsOf(n - 1), parse))
  }

  function LinkedInPageCards(jobTitle: string, location: string, fetch: Fetch): PageCards
  {
    p => CardsOf(fetch(LinkedInRequest(jobTitle, location, p)), LinkedInCardSel)
  }

  function LinkedInParser(now: int, lib: TextLibrary): Parser
  {
    card => ParseLinkedInCard(card, now, lib)
  }

  function IndeedPageCards(jobTitle: string, location: string, fetch: Fetch): PageCards
  {
    p => IndeedCardsOf(fetch(IndeedRequest(jobTitle, location, p)))
  }

  function IndeedParser(now: int, lib: TextLibrary): Parser
  {
    card => ParseIndeedCard(card, now, lib)
  }

  /** `range(pages)` is empty for a negative page count. */
  function PageCount(pages: int): nat
  {
    if pages < 0 then 0 else pages
  }

  // ---------------------------------------------------------------- the scraper object

  datatype Sheet = Sheet(header: seq<string>, rows: seq<seq<string>>, widths: seq<int>)

  class JobScraper {
    /** Every record scraped by this object so far, across calls. */
    var jobsData: seq<JobRecord>

    constructor()
      ensures jobsData == []
    {
      jobsData := [];
    }

    /**
     * `scrape_linkedin`: appends the parsed cards of pages `0 .. pages - 1` (page `p` asks for
     * offset `25·p`) and returns everything collected so far.  The records already held are kept.
     */
    method ScrapeLinkedIn(jobTitle: string, location: string, pages: int, fetch: Fetch, now: int, lib: TextLibrary)
      returns (all: seq<JobRecord>)
      modifies this
      ensures jobsData == old(jobsData) + UpTo(LinkedInPageCards(jobTitle, location, fetch), LinkedInParser(now, lib), PageCount(pages))
      ensures all == jobsData
    {
      all := ScrapePages(LinkedInPageCards(jobTitle, location, fetch), LinkedInParser(now, lib), pages);
    }

    /**
     * `scrape_indeed`: the same accumulation over Indeed pages (page `p` asks for offset `10·p`),
     * reading the alternative card class when the primary one finds nothing.
     */
    method ScrapeIndeed(jobTitle: string, location: string, pages: int, fetch: Fetch, now: int, lib: TextLibrary)
      returns (all: seq<JobRecord>)
      modifies this
      ensures jobsData == old(jobsData) + UpTo(IndeedPageCards(jobTitle, location, fetch), IndeedParser(now, lib), PageCount(pages))
      ensures all == jobsData
    {
      all := ScrapePages(IndeedPageCards(jobTitle, location, fetch), IndeedParser(now, lib), pages);
    }

    /**
     * The page loop both scrapers run: for each page in `range(pages)`, the cards of the page
     * (none when the request failed) go through the card loop.
     */
    method ScrapePages(cardsOf: PageCards, parse: Parser, pages: int) returns (all: seq<JobRecord>)
      modifies this
      ensures jobsData == old(jobsData) + UpTo(cardsOf, parse, PageCount(pages))
      ensures all == jobsData
    {
      var page := 0;
      while page < pages
        invariant 0 <= page <= PageCount(pages)
        invariant jobsData == old(jobsData) + UpTo(cardsOf, parse, page)
      {
        var parses := Parses(cardsOf(page), parse);
        AppendParsed(parses);
        AppendAssociates(old(jobsData), UpTo(cardsOf, parse, page), Kept(parses));
        page := page + 1;
      }
      all := jobsData;
    }

    /** The card loop of one page: each successful parse is appended, a failed one is skipped. */
    method AppendParsed(parses: seq<Option<JobRecord>>)
      modifies this
      ensures jobsData == old(jobsData) + Kept(parses)
    {
      var i := 0;
      while i < |parses|
        invariant 0 <= i <= |parses|
        invariant jobsData == old(jobsData) + Kept(parses[..i])
      {
        var parsed := parses[i];
        if parsed.Some? {
          jobsData := jobsData + [parsed.value];
        }
        KeptSnoc(parses[..i], parsed);
        assert parses[..i + 1] == parses[..i] + [parsed];
        i := i + 1;
      }
      assert parses[..|parses|] == parses;
    }

    /**
     * `export_to_excel`: nothing when no job was scraped; otherwise the sheet of all records in
     * export order under the seven column headers, with auto-fitted widths.
     */
    method ExportToExcel() returns (sheet: Option<Sheet>)
      ensures sheet.None? <==> jobsData == []
      ensures sheet.Some? ==>
        && sheet.value.header == ColumnNames
        && |sheet.value.rows| == |jobsData|
        && (forall i :: 0 <= i < |jobsData| ==> sheet.value.rows[i] == RowCells(SortRows(jobsData)[i]))
        && FitsColumns(ColumnNames, sheet.value.rows, sheet.value.widths)
    {
      if jobsData == [] {
        return None;
      }
      var sorted := SortRows(jobsData);
      var rows := seq(|sorted|, i requires 0 <= i < |sorted| => RowCells(sorted[i]));
      var widths := ColumnWidths(ColumnNames, rows);
      sheet := Some(Sheet(ColumnNames, rows, widths));
    }
  }

  // ---------------------------------------------------------------- properties

  /** Page `p` asks LinkedIn for offset `25·p` and Indeed for offset `10·p`: consecutive pages tile the listing. */
  lemma PageOffsets(jobTitle: string, location: string, p: nat)
    ensures LinkedInRequest(jobTitle, location, p).params["start"] == Number(25 * p)
    ensures IndeedRequest(jobTitle, location, p).params["start"] == Number(10 * p)
  {
  }

  lemma {:induction false} KeptAppend(a: seq<Option<JobRecord>>, b: seq<Option<JobRecord>>)
    ensures Kept(a + b) == Kept(a) + Kept(b)
    decreases |b|
  {
    if b == [] {
      assert a + b == a;
    } else {
      assert (a + b)[..|a + b| - 1] == a + b[..|b| - 1];
      KeptAppend(a, b[..|b| - 1]);
    }
  }

  lemma AppendAssociates(a: seq<JobRecord>, b: seq<JobRecord>, c: seq<JobRecord>)
    ensures a + b + c == a + (b + c)
  {
  }

  lemma KeptSnoc(ps: seq<Option<JobRecord>>, p: Option<JobRecord>)
    ensures Kept(ps + [p]) == Kept(ps) + (if p.Some? then [p.value] else [])
  {
    assert (ps + [p])[..|ps|] == ps;
  }

  /** A kept record is a successful parse, and there are never more records than parses. */
  lemma {:induction false} KeptFromParses(ps: seq<Option<JobRecord>>)
    ensures |Kept(ps)| <= |ps|
    ensures forall r :: r in Kept(ps) ==> Some(r) in ps
  {
    if ps != [] {
      var init := ps[..|ps| - 1];
      KeptFromParses(init);
      assert ps == init + [ps[|ps| - 1]];
      forall r | r in Kept(ps)
        ensures Some(r) in ps
      {
        if r in Kept(init) {
          assert Some(r) in init;
        }
      }
    }
  }

  /**
   * Every record a page loop appends is the successful parse of a card of one of the requested
   * pages.
   */
  lemma {:induction false} RecordsFromCards(cardsOf: PageCards, parse: Parser, n: nat)
    ensures forall r :: r in UpTo(cardsOf, parse, n) ==>
      exists p, card :: (0 <= p < n && card in cardsOf(p) && parse(card) == Some(r))
  {
    if n > 0 {
      RecordsFromCards(cardsOf, parse, n - 1);
      var cards := cardsOf(n - 1);
      var ps := Parses(cards, parse);
      KeptFromParses(ps);
      forall r | r in UpTo(cardsOf, parse, n)
        ensures exists p, card :: (0 <= p < n && card in cardsOf(p) && parse(card) == Some(r))
      {
        if r !in UpTo(cardsOf, parse, n - 1) {
          assert Some(r) in ps;
          var i :| 0 <= i < |ps| && ps[i] == Some(r);
          assert cards[i] in cards;
        }
      }
    }
  }

  /** Pages without cards add nothing. */
  lemma {:induction false} EmptyPagesAddNothing(cardsOf: PageCards, parse: Parser, n: nat)
    requires forall p :: 0 <= p < n ==> cardsOf(p) == []
    ensures UpTo(cardsOf, parse, n) == []
  {
    if n > 0 {
      EmptyPagesAddNothing(cardsOf, parse, n - 1);
      assert Parses([], parse) == [];
    }
  }

  /**
   * Every record the LinkedIn loop appends is the successful parse of a card on a page that
   * answered with status 200, for one of the requested pages.
   */
  lemma LinkedInRecordsFromCards(jobTitle: string, location: string, n: nat, fetch: Fetch, now: int, lib: TextLibrary)
    ensures forall r :: r in UpTo(LinkedInPageCards(jobTitle, location, fetch), LinkedInParser(now, lib), n) ==>
      exists p, card :: (0 <= p < n && card in CardsOf(fetch(LinkedInRequest(jobTitle, location, p)), LinkedInCardSel) &&
        ParseLinkedInCard(card, now, lib) == Some(r))
  {
    RecordsFromCards(LinkedInPageCards(jobTitle, location, fetch), LinkedInParser(now, lib), n);
  }

  /** Every record the Indeed loop appends is the successful parse of a card of a requested page. */
  lemma IndeedRecordsFromCards(jobTitle: string, location: string, n: nat, fetch: Fetch, now: int, lib: TextLibrary)
    ensures forall r :: r in UpTo(IndeedPageCards(jobTitle, location, fetch), IndeedParser(now, lib), n) ==>
      exists p, card :: (0 <= p < n && card in IndeedCardsOf(fetch(IndeedRequest(jobTitle, location, p))) &&
        ParseIndeedCard(card, now, lib) == Some(r))
  {
    RecordsFromCards(IndeedPageCards(jobTitle, location, fetch), IndeedParser(now, lib), n);
  }

  /** LinkedIn pages that fail (an exception or a status other than 200) add nothing. */
  lemma LinkedInFailedPagesAddNothing(jobTitle: string, location: string, n: nat, fetch: Fetch, now: int, lib: TextLibrary)
    requires forall p :: 0 <= p < n ==>
      (fetch(LinkedInRequest(jobTitle, location, p)).Raised? || fetch(LinkedInRequest(jobTitle, location, p)).status != 200)
    ensures UpTo(LinkedInPageCards(jobTitle, location, fetch), LinkedInParser(now, lib), n) == []
  {
    EmptyPagesAddNothing(LinkedInPageCards(jobTitle, location, fetch), LinkedInParser(now, lib), n);
  }

  /** Indeed pages that fail add nothing either. */
  lemma IndeedFailedPagesAddNothing(jobTitle: string, location: string, n: nat, fetch: Fetch, now: int, lib: TextLibrary)
    requires forall p :: 0 <= p < n ==>
      (fetch(IndeedRequest(jobTitle, location, p)).Raised? || fetch(IndeedRequest(jobTitle, location, p)).status != 200)
    ensures UpTo(IndeedPageCards(jobTitle, location, fetch), IndeedParser(now, lib), n) == []
  {
    EmptyPagesAddNothing(IndeedPageCards(jobTitle, location, fetch), IndeedParser(now, lib), n);
  }

  /** A card with none of the optional parts gets the documented defaults. */
  lemma LinkedInCardDefaults(now: int, lib: TextLibrary)
    requires UnescapeKeepsPlainText(lib)
    requires forall k :: 0 <= k < |NotApplicable| ==> lib.isPrintable(NotApplicable[k])
    requires forall k :: 0 <= k < |NotSpecified| ==> lib.isPrintable(NotSpecified[k])
    ensures var r := ParseLinkedInCard(map[], now, lib);
      && r.Some?
      && r.value.title == NotApplicable && r.value.company == NotApplicable && r.value.location == NotApplicable
      && r.value.link == NotApplicable && r.value.salary == NotSpecified
      && r.value.datePosted == PostedText(TodayText(now), now, lib)
  {
    NotApplicableIsClean(lib);
    NotSpecifiedIsClean(lib);
  }

  lemma NotApplicableIsClean(lib: TextLibrary)
    requires UnescapeKeepsPlainText(lib)
    requires forall k :: 0 <= k < |NotApplicable| ==> lib.isPrintable(NotApplicable[k])
    ensures CleanText(Some(NotApplicable), lib) == NotApplicable
  {
    assert '&' !in NotApplicable;
    assert SingleSpaced(NotApplicable);
    CleanTextFixesCleanText(NotApplicable, lib);
  }

  lemma NotSpecifiedIsClean(lib: TextLibrary)
    requires UnescapeKeepsPlainText(lib)
    requires forall k :: 0 <= k < |NotSpecified| ==> lib.isPrintable(NotSpecified[k])
    ensures CleanText(Some(NotSpecified), lib) == NotSpecified
  {
    assert '&' !in NotSpecified;
    assert SingleSpaced(NotSpecified);
    CleanTextFixesCleanText(NotSpecified, lib);
  }

  /**
   * The exported sheet lists the postings newest first: of two exported records whose dates
   * `format_date` wrote while the clock read a representable day, the earlier row's date is never
   * the earlier date.
   */
  lemma ExportedNewestFirst(rows: seq<JobRecord>, i: int, j: int, ti: string, tj: string, now: int, lib: TextLibrary)
    requires StrptimeInRange(lib) && MinHour <= now < MaxHour
    requires 0 <= i < j < |rows|
    requires SortRows(rows)[i].datePosted == PostedText(ti, now, lib)
    requires SortRows(rows)[j].datePosted == PostedText(tj, now, lib)
    ensures !DateLess(FormatDate(ti, now, lib), FormatDate(tj, now, lib))
  {
    SortRowsCorrect(rows);
    FormatDateInRange(ti, now, lib);
    FormatDateInRange(tj, now, lib);
    NewestFirst(SortRows(rows), i, j, FormatDate(ti, now, lib), FormatDate(tj, now, lib));
  }
}
