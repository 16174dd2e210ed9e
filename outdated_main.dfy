/**
 * outdated/main.py: the desktop search window that checks its form in a fixed order, calls
 * `scrape_jobs` with stripped search fields, and writes only the listed columns of the result.
 */
module OutdatedMain {
  import opened Wrappers
  import opened PyText
  import opened Params
  import opened Frames
  import AgenticApp

  const SearchTermMissing: string := "Please enter a search term"
  const LocationMissing: string := "Please enter a location"
  const NoSiteSelected: string := "Please select at least one job site"

  /** The columns written to the sheet, in this order, when the scrape has them. */
  const ColumnsToKeep: seq<string> :=
    ["site", "title", "company", "location", "date_posted", "salary_min", "salary_max",
     "salary_interval", "job_url", "description"]

  /** jobspy's filter on posting age: the last 24 hours. */
  const HoursOld: int := 24

  /** The message of the first check the form fails, in the order the window checks them. */
  function ValidationError(form: AgenticApp.SearchForm): Option<string>
  {
    if Strip(form.searchTerm) == "" then Some(SearchTermMissing)
    else if Strip(form.location) == "" then Some(LocationMissing)
    else if AgenticApp.SelectedSites(AgenticApp.Sites, form.checked) == [] then Some(NoSiteSelected)
    else None
  }

  /** The keyword arguments of `scrape_jobs` once `int(results_wanted)` has given `wanted`. */
  function ScrapeParams(form: AgenticApp.SearchForm, wanted: int): ParamMap
  {
    ScrapeArgs(AgenticApp.SelectedSites(AgenticApp.Sites, form.checked), Strip(form.searchTerm),
      Strip(form.location), wanted, form.country, form.jobType, form.remote)
  }

  /** The argument map built from the values the window has read off the form. */
  function ScrapeArgs(sites: seq<string>, term: string, location: string, wanted: int, country: string,
                      jobType: string, remote: bool): ParamMap
  {
    var base := map[
      "site_name" := Names(sites),
      "search_term" := Text(term),
      "location" := Text(location),
      "results_wanted" := Number(wanted),
      "hours_old" := Number(HoursOld),
      "country_indeed" := Text(country)];
    var typed := if jobType != "" then base["job_type" := Text(jobType)] else base;
    if remote then typed["is_remote" := Flag(true)] else typed
  }

  /** A form is refused exactly when a field is blank after stripping or no site is checked, and the first failing check names it. */
  lemma ValidationOrder(form: AgenticApp.SearchForm)
    ensures ValidationError(form).None? <==>
      !AllSpace(form.searchTerm) && !AllSpace(form.location) && (exists s :: s in AgenticApp.Sites && s in form.checked)
    ensures AllSpace(form.searchTerm) ==> ValidationError(form) == Some(SearchTermMissing)
    ensures !AllSpace(form.searchTerm) && AllSpace(form.location) ==> ValidationError(form) == Some(LocationMissing)
    ensures !AllSpace(form.searchTerm) && !AllSpace(form.location) && ValidationError(form).Some? ==>
      ValidationError(form) == Some(NoSiteSelected)
  {
    var selected := AgenticApp.SelectedSites(AgenticApp.Sites, form.checked);
    if selected != [] {
      assert selected[0] in AgenticApp.Sites && selected[0] in form.checked;
    }
  }

  /** What the window hands to `scrape_jobs`, key by key. */
  lemma ScrapeParamsContents(form: AgenticApp.SearchForm, wanted: int)
    ensures var p := ScrapeParams(form, wanted);
      && p["site_name"] == Names(AgenticApp.SelectedSites(AgenticApp.Sites, form.checked))
      && p["search_term"] == Text(Strip(form.searchTerm))
      && p["location"] == Text(Strip(form.location))
      && p["results_wanted"] == Number(wanted)
      && p["hours_old"] == Number(24)
      && p["country_indeed"] == Text(form.country)
      && ("job_type" in p <==> form.jobType != "")
      && ("job_type" in p ==> p["job_type"] == Text(form.jobType))
      && ("is_remote" in p <==> form.remote)
      && ("is_remote" in p ==> p["is_remote"] == Flag(true))
  {
    ScrapeArgsContents(AgenticApp.SelectedSites(AgenticApp.Sites, form.checked), Strip(form.searchTerm),
      Strip(form.location), wanted, form.country, form.jobType, form.remote);
  }

  lemma ScrapeArgsContents(sites: seq<string>, term: string, location: string, wanted: int, country: string,
                           jobType: string, remote: bool)
    ensures var p := ScrapeArgs(sites, term, location, wanted, country, jobType, remote);
      && p["site_name"] == Names(sites)
      && p["search_term"] == Text(term)
      && p["location"] == Text(location)
      && p["results_wanted"] == Number(wanted)
      && p["hours_old"] == Number(24)
      && p["country_indeed"] == Text(country)
      && ("job_type" in p <==> jobType != "")
      && ("job_type" in p ==> p["job_type"] == Text(jobType))
      && ("is_remote" in p <==> remote)
      && ("is_remote" in p ==> p["is_remote"] == Flag(true))
  {
  }

  /** Padding typed around the search term never reaches the scraper. */
  lemma ScrapeParamsIgnorePadding(form: AgenticApp.SearchForm, wanted: int, pad: string)
    requires AllSpace(pad)
    ensures ScrapeParams(form.(searchTerm := pad + form.searchTerm + pad), wanted)
         == ScrapeParams(form, wanted)
  {
    var sites := AgenticApp.SelectedSites(AgenticApp.Sites, form.checked);
    var location := Strip(form.location);
    StripPadding(pad, form.searchTerm);
    calc {
      ScrapeParams(form.(searchTerm := pad + form.searchTerm + pad), wanted);
      ScrapeArgs(sites, Strip(pad + form.searchTerm + pad), location, wanted, form.country, form.jobType, form.remote);
      ScrapeArgs(sites, Strip(form.searchTerm), location, wanted, form.country, form.jobType, form.remote);
      ScrapeParams(form, wanted);
    }
  }

  lemma StripPadding(pad: string, s: string)
    requires AllSpace(pad)
    ensures Strip(pad + s + pad) == Strip(s)
  {
    StripLeftSpaces(pad, s + pad);
    assert pad + s + pad == pad + (s + pad);
    StripRightSpaces(StripLeft(s), pad);
    StripLeftAppend(s, pad);
  }

  /** Stripping either side of whitespace alone leaves nothing. */
  lemma SpacesStripAway(pad: string)
    requires AllSpace(pad)
    ensures StripLeft(pad) == [] && StripRight(pad) == []
  {
  }

  /** Stripping the left of `s + pad` strips the left of `s` first, unless `s` is all whitespace. */
  lemma {:induction false} StripLeftAppend(s: string, pad: string)
    requires AllSpace(pad)
    ensures StripRight(StripLeft(s + pad)) == StripRight(StripLeft(s) + pad)
    decreases |s|
  {
    if s == [] {
      assert s + pad == pad;
      assert StripLeft(s) + pad == pad;
    } else if IsSpace(s[0]) {
      assert (s + pad)[0] == s[0];
      assert (s + pad)[1..] == s[1..] + pad;
      StripLeftAppend(s[1..], pad);
    } else {
      assert (s + pad)[0] == s[0];
    }
  }

  /**
   * The projection loop: a new, empty frame gets each listed column that the scrape has, in list
   * order, with the scrape's cells.
   */
  method KeepColumns(jobs: Frame, keep: seq<string>) returns (kept: Frame)
    requires Distinct(keep)
    ensures Shows(kept, jobs, Present(keep, jobs.columns))
    ensures kept.height == if kept.columns == [] then 0 else jobs.height
  {
    kept := Frame([], map[], 0);
    for i := 0 to |keep|
      invariant Shows(kept, jobs, Present(keep[..i], jobs.columns))
      invariant kept.height == if kept.columns == [] then 0 else jobs.height
    {
      var col := keep[i];
      PresentStep(keep, i, jobs.columns);
      if col in jobs.columns {
        ShowsExtended(kept, jobs, Present(keep[..i], jobs.columns), col);
        kept := Frame(kept.columns + [col], kept.values[col := Column(jobs, col)], jobs.height);
      }
    }
    assert keep[..|keep|] == keep;
  }

  /** One more entry of the keep list adds that entry when the scrape has it. */
  lemma PresentStep(keep: seq<string>, i: nat, cols: seq<string>)
    requires i < |keep|
    ensures Present(keep[..i + 1], cols) == Present(keep[..i], cols) + (if keep[i] in cols then [keep[i]] else [])
  {
    assert keep[..i + 1] == keep[..i] + [keep[i]];
    PresentAppend(keep[..i], [keep[i]], cols);
  }

  /** Copying one more column of the scrape into a projection extends it by that column. */
  lemma ShowsExtended(kept: Frame, jobs: Frame, cols: seq<string>, col: string)
    requires Shows(kept, jobs, cols)
    ensures Shows(Frame(kept.columns + [col], kept.values[col := Column(jobs, col)], jobs.height), jobs, cols + [col])
  {
  }

  lemma ColumnsToKeepDistinct()
    ensures Distinct(ColumnsToKeep)
  {
    forall i, j | 0 <= i < j < |ColumnsToKeep|
      ensures ColumnsToKeep[i] != ColumnsToKeep[j]
    {
      var a, b := ColumnsToKeep[i], ColumnsToKeep[j];
      if |a| == |b| {
        assert a[0] != b[0] || a[|a| - 1] != b[|b| - 1];
      }
    }
  }

  /**
   * `search_jobs`: the checks in order, then the parameters (`None` from `int(...)` is the
   * exception), the scrape, the empty case and the projection.
   */
  method SearchJobs(form: AgenticApp.SearchForm, scrape: ParamMap -> Option<Frame>) returns (outcome: Outcome)
    ensures ValidationError(form).Some? ==> outcome == Rejected(ValidationError(form).value)
    ensures ValidationError(form).None? && ParseInt(form.resultsWanted).None? ==> outcome == Failed
    ensures ValidationError(form).None? && ParseInt(form.resultsWanted).Some? ==>
      EndsAs(scrape(ScrapeParams(form, ParseInt(form.resultsWanted).value)), outcome)
  {
    if Strip(form.searchTerm) == "" {
      return Rejected(SearchTermMissing);
    }
    if Strip(form.location) == "" {
      return Rejected(LocationMissing);
    }
    var selectedSites := AgenticApp.SelectedSites(AgenticApp.Sites, form.checked);
    if selectedSites == [] {
      return Rejected(NoSiteSelected);
    }
    var wanted := ParseInt(form.resultsWanted);
    if wanted.None? {
      return Failed;
    }
    var jobs := scrape(ScrapeParams(form, wanted.value));
    if jobs.None? {
      return Failed;
    }
    if jobs.value.height == 0 {
      return NoJobs;
    }
    outcome := WriteKept(jobs.value);
  }

  /**
   * How a search ends once `scrape_jobs` has answered: the error handler when it raised, a
   * message when no rows came back, and otherwise the listed columns the scrape has.
   */
  ghost predicate EndsAs(result: Option<Frame>, outcome: Outcome)
  {
    match result
    case None => outcome == Failed
    case Some(jobs) =>
      if jobs.height == 0 then outcome == NoJobs
      else
        && outcome.Written?
        && Shows(outcome.frame, jobs, Present(ColumnsToKeep, jobs.columns))
        && outcome.frame.height == if outcome.frame.columns == [] then 0 else jobs.height
  }

  /** The rows are written with the listed columns only. */
  method WriteKept(jobs: Frame) returns (outcome: Outcome)
    requires jobs.height > 0
    ensures EndsAs(Some(jobs), outcome)
  {
    ColumnsToKeepDistinct();
    var kept := KeepColumns(jobs, ColumnsToKeep);
    outcome := Written(kept);
  }
}
