/**
 * jobs-llm.py: its own `JobScraper` (LinkedIn only, behind the status guard `safe_request`) and
 * the `JobMatcher` that sets up the Ollama model and the resume parser.
 *
 * Two ways the file can run are modelled side by side.  As written, `_parse_linkedin_card` calls
 * `self.clean_text`, which this class does not define, and `JobMatcher` invokes `self.chain`,
 * which it never assigns; each raises `AttributeError` inside its own `try`.  The corrected
 * readings give the class the text helpers of jobs.py and assign the chain.
 */
module LlmScraper {
  import opened Wrappers
  import opened TextNormalizer
  import opened JobRecords
  import opened Scraper
  import opened ResumeParsing

  // ---------------------------------------------------------------- requests

  /** `safe_request`: the page of a response with status 200; `None` for any other status or a raised request. */
  function SafeRequest(response: Response): (r: Option<Page>)
    ensures r.Some? <==> response.Response? && response.status == 200
    ensures r.Some? ==> r.value == response.page
  {
    if response.Response? && response.status == 200 then Some(response.page) else None
  }

  /** The cards the page loop reads: those of the page `safe_request` lets through, none otherwise. */
  function GuardedCards(response: Response, sel: Selector): seq<Card>
  {
    match SafeRequest(response)
    case None => []
    case Some(page) => FindAll(page, sel)
  }

  /** The guard reads exactly the cards jobs.py reads after its own status test. */
  lemma GuardedCardsAgree(response: Response, sel: Selector)
    ensures GuardedCards(response, sel) == CardsOf(response, sel)
  {
  }

  function LlmPageCards(jobTitle: string, location: string, fetch: Fetch): PageCards
  {
    p => GuardedCards(fetch(LinkedInRequest(jobTitle, location, p)), LinkedInCardSel)
  }

  // ---------------------------------------------------------------- card parsing

  /** Which `_parse_linkedin_card` runs: the file as written, or one whose class has the text helpers. */
  datatype CardParsing = AsWritten | WithHelpers(now: int, lib: TextLibrary)

  /**
   * As written, building the record calls the missing `clean_text` before anything else can fail,
   * so the `except` returns `None` for every card.
   */
  function CardParser(parsing: CardParsing): Parser
  {
    match parsing
    case AsWritten => card => None
    case WithHelpers(now, lib) => LinkedInParser(now, lib)
  }

  class LlmJobScraper {
    var jobsData: seq<JobRecord>

    constructor()
      ensures jobsData == []
    {
      jobsData := [];
    }

    /**
     * `scrape_linkedin`: for each page, a failed request skips the page; each card that parses is
     * appended.  Returns everything collected so far.
     */
    method ScrapeLinkedIn(jobTitle: string, location: string, pages: int, fetch: Fetch, parsing: CardParsing)
      returns (all: seq<JobRecord>)
      modifies this
      ensures jobsData == old(jobsData) + UpTo(LlmPageCards(jobTitle, location, fetch), CardParser(parsing), PageCount(pages))
      ensures all == jobsData
    {
      all := ScrapePages(LlmPageCards(jobTitle, location, fetch), CardParser(parsing), pages);
    }

    /** The page loop of `scrape_linkedin`, over the cards each page yields. */
    method ScrapePages(cardsOf: PageCards, parse: Parser, pages: int) returns (all: seq<JobRecord>)
      modifies this
      ensures jobsData == old(jobsData) + UpTo(cardsOf, parse, PageCount(pages))
      ensures all == jobsData
    {
      var page := 0;
      while page < pages
        invariant 0 <= page <= PageCount(pages)
        invariant jobsData == old(jobsData) + UpTo(cardsOf, parse, page)
      {
        var cards := cardsOf(page);
        AppendCards(cards, parse);
        AppendAssociates(old(jobsData), UpTo(cardsOf, parse, page), Kept(Parses(cards, parse)));
        page := page + 1;
      }
      all := jobsData;
    }

    /** The card loop: each card whose parse is truthy is appended, in card order. */
    method AppendCards(cards: seq<Card>, parse: Parser)
      modifies this
      ensures jobsData == old(jobsData) + Kept(Parses(cards, parse))
    {
      var i := 0;
      while i < |cards|
        invariant 0 <= i <= |cards|
        invariant jobsData == old(jobsData) + Kept(Parses(cards[..i], parse))
      {
        var jobData := parse(cards[i]);
        if jobData.Some? {
          jobsData := jobsData + [jobData.value];
        }
        assert Parses(cards[..i + 1], parse) == Parses(cards[..i], parse) + [jobData];
        KeptSnoc(Parses(cards[..i], parse), jobData);
        i := i + 1;
      }
      assert cards[..|cards|] == cards;
    }
  }

  /** A parser that fails on every card keeps nothing. */
  lemma {:induction false} KeptOfFailures(ps: seq<Option<JobRecord>>)
    requires forall i :: 0 <= i < |ps| ==> ps[i].None?
    ensures Kept(ps) == []
  {
    if ps != [] {
      KeptOfFailures(ps[..|ps| - 1]);
    }
  }

  /** As written, the scraper never collects a job, whatever the pages hold. */
  lemma {:induction false} AsWrittenCollectsNothing(cardsOf: PageCards, n: nat)
    ensures UpTo(cardsOf, CardParser(AsWritten), n) == []
  {
    if n > 0 {
      AsWrittenCollectsNothing(cardsOf, n - 1);
      KeptOfFailures(Parses(cardsOf(n - 1), CardParser(AsWritten)));
    }
  }

  /** A LinkedIn page with a posting that jobs.py collects still yields nothing here as written. */
  lemma AsWrittenLosesPostings(jobTitle: string, location: string, fetch: Fetch, now: int, lib: TextLibrary)
    requires Scraper.UpTo(LinkedInPageCards(jobTitle, location, fetch), LinkedInParser(now, lib), 1) != []
    ensures UpTo(LlmPageCards(jobTitle, location, fetch), CardParser(AsWritten), 1)
         != UpTo(LinkedInPageCards(jobTitle, location, fetch), LinkedInParser(now, lib), 1)
  {
    AsWrittenCollectsNothing(LlmPageCards(jobTitle, location, fetch), 1);
  }

  /** With the helpers in place, the scraper collects exactly what the LinkedIn scraper of jobs.py collects. */
  lemma {:induction false} WithHelpersMatchesJobsScraper(jobTitle: string, location: string, fetch: Fetch, now: int, lib: TextLibrary, n: nat)
    ensures UpTo(LlmPageCards(jobTitle, location, fetch), CardParser(WithHelpers(now, lib)), n)
         == UpTo(LinkedInPageCards(jobTitle, location, fetch), LinkedInParser(now, lib), n)
  {
    if n > 0 {
      WithHelpersMatchesJobsScraper(jobTitle, location, fetch, now, lib, n - 1);
      GuardedCardsAgree(fetch(LinkedInRequest(jobTitle, location, n - 1)), LinkedInCardSel);
      assert LlmPageCards(jobTitle, location, fetch)(n - 1) == LinkedInPageCards(jobTitle, location, fetch)(n - 1);
    }
  }

  // ---------------------------------------------------------------- the matcher

  /** Whether `__init__` assigns `self.chain` before invoking it: as written it does not. */
  datatype ChainSetup = ChainNeverAssigned | ChainAssigned

  /**
   * Whether the matcher ends up with a working model: `OllamaLLM(...)` must load, the chain must
   * exist, and the test invocation must answer.
   */
  function LlmAvailable(setup: ChainSetup, modelLoads: bool, connects: bool): bool
  {
    modelLoads && setup == ChainAssigned && connects
  }

  /** As written, the LLM is never available, whatever Ollama does. */
  lemma NeverAvailableAsWritten(modelLoads: bool, connects: bool)
    ensures !LlmAvailable(ChainNeverAssigned, modelLoads, connects)
  {
  }

  class JobMatcher {
    var llmAvailable: bool
    var resumeParser: ResumeParser

    /**
     * `JobMatcher.__init__`: a parser with the MarkItDown converter is built once the model
     * loads; any failure after that replaces it by a parser without one.
     */
    constructor(setup: ChainSetup, modelLoads: bool, connects: bool)
      ensures llmAvailable == LlmAvailable(setup, modelLoads, connects)
      ensures resumeParser.hasConverter == llmAvailable
      ensures fresh(resumeParser)
    {
      if !modelLoads {
        llmAvailable := false;
        resumeParser := new ResumeParser(false);
      } else {
        var parser := new ResumeParser(true);
        if setup == ChainAssigned && connects {
          llmAvailable := true;
          resumeParser := parser;
        } else {
          llmAvailable := false;
          resumeParser := new ResumeParser(false);
        }
      }
    }
  }
}
