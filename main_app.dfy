/**
 * main.py: the search window whose `search_jobs` drops a fixed list of columns from the scrape
 * before writing it.  The validation and the construction of `params` are elided from that file,
 * so `params` is never bound and every search ends in the error handler; the corrected reading
 * builds `params` as the desktop window of outdated/main.py does.
 */
module MainApp {
  import opened Wrappers
  import opened PyText
  import opened Params
  import opened Frames
  import OutdatedMain
  import AgenticApp

  /** The columns removed before writing, when the scrape has them. */
  const ColumnsToDrop: seq<string> :=
    ["company_industry", "job_url_direct", "job_type", "is_remote", "job_level", "job_function",
     "emails", "company_url", "company_logo", "company_url_direct", "company_addresses",
     "company_num_employees", "company_revenue", "company_description"]

  /**
   * `frame.drop(columns=drop)`: `None` (pandas raises `KeyError`) when a listed column is not in the
   * frame; otherwise the other columns in their order, with their cells and every row.
   */
  function DropColumns(jobs: Frame, drop: seq<string>): (r: Option<Frame>)
    ensures r.None? <==> exists c :: c in drop && c !in jobs.columns
    ensures r.Some? ==> r.value.height == jobs.height
  {
    if forall c :: c in drop ==> c in jobs.columns then
      var cols := Remaining(jobs.columns, drop);
      Some(Frame(cols, map c | c in cols :: Column(jobs, c), jobs.height))
    else None
  }

  /**
   * The drop step as main.py writes it: the listed columns the frame has are dropped, which never
   * raises, and what is left is every unlisted column in its place, with its cells.
   */
  lemma DropListedColumns(jobs: Frame)
    ensures DropColumns(jobs, Present(ColumnsToDrop, jobs.columns)).Some?
    ensures var r := DropColumns(jobs, Present(ColumnsToDrop, jobs.columns)).value;
      Shows(r, jobs, Remaining(jobs.columns, ColumnsToDrop)) && r.height == jobs.height
  {
    DropPresentOnly(jobs.columns, ColumnsToDrop);
  }

  /** A scrape without any of the listed columns is written as it came. */
  lemma NothingListedNothingDropped(jobs: Frame)
    requires forall i :: 0 <= i < |jobs.columns| ==> jobs.columns[i] !in ColumnsToDrop
    ensures DropColumns(jobs, Present(ColumnsToDrop, jobs.columns)).value.columns == jobs.columns
  {
    DropListedColumns(jobs);
    RemainingUnlisted(jobs.columns, ColumnsToDrop);
  }

  /**
   * `search_jobs` from the scrape on.  `bound` is the `params` the method would pass: `None`, as
   * in main.py, makes the call raise `NameError`, which the handler catches.
   */
  method SearchJobs(bound: Option<ParamMap>, scrape: ParamMap -> Option<Frame>) returns (outcome: Outcome)
    ensures bound.None? ==> outcome == Failed
    ensures bound.Some? ==>
      match scrape(bound.value)
      case None => outcome == Failed
      case Some(jobs) =>
        if jobs.height == 0 then outcome == NoJobs else
          outcome.Written? && outcome.frame.height == jobs.height
          && Shows(outcome.frame, jobs, Remaining(jobs.columns, ColumnsToDrop))
  {
    if bound.None? {
      return Failed;
    }
    var jobs := scrape(bound.value);
    if jobs.None? {
      return Failed;
    }
    if jobs.value.height == 0 {
      return NoJobs;
    }
    var listed := Present(ColumnsToDrop, jobs.value.columns);
    var dropped := DropColumns(jobs.value, listed);
    DropListedColumns(jobs.value);
    match dropped
    case None =>
      assert false;
    case Some(frame) =>
      outcome := Written(frame);
  }

  /** As written, no search ever gets past the unbound `params`, whatever the scraper would return. */
  method SearchJobsAsWritten(scrape: ParamMap -> Option<Frame>) returns (outcome: Outcome)
    ensures outcome == Failed
  {
    outcome := SearchJobs(None, scrape);
  }

  /**
   * With the elided validation and `params` of the desktop window restored, a valid form reaches
   * the scrape and a non-empty result is written without the listed columns.
   */
  method CorrectedSearchJobs(form: AgenticApp.SearchForm, scrape: ParamMap -> Option<Frame>) returns (outcome: Outcome)
    ensures OutdatedMain.ValidationError(form).Some? ==>
      outcome == Rejected(OutdatedMain.ValidationError(form).value)
    ensures OutdatedMain.ValidationError(form).None? && ParseInt(form.resultsWanted).None? ==> outcome == Failed
    ensures OutdatedMain.ValidationError(form).None? && ParseInt(form.resultsWanted).Some? ==>
      var params := OutdatedMain.ScrapeParams(form, ParseInt(form.resultsWanted).value);
      match scrape(params)
      case None => outcome == Failed
      case Some(jobs) =>
        if jobs.height == 0 then outcome == NoJobs else
          outcome.Written? && outcome.frame.height == jobs.height
          && Shows(outcome.frame, jobs, Remaining(jobs.columns, ColumnsToDrop))
  {
    var error := OutdatedMain.ValidationError(form);
    if error.Some? {
      return Rejected(error.value);
    }
    var wanted := ParseInt(form.resultsWanted);
    if wanted.None? {
      return Failed;
    }
    outcome := SearchJobs(Some(OutdatedMain.ScrapeParams(form, wanted.value)), scrape);
  }
}
