/**
 * agentic-main.py: the `JobSearchApp` window that reads a resume, asks the local model to sort
 * every scraped job into "Not Apply", "Should Apply" or "Must Apply", and colours the rows of the
 * exported sheet by that category.
 *
 * The Tk widgets are a `SearchForm` value, `scrape_jobs` is the oracle `scrape` (a table of rows,
 * or `None` when it raises), and the model chain is the oracle `model` (its answer for a resume
 * and a description, or `None` when the invocation raises).
 */
module AgenticApp {
  import opened Wrappers
  import opened PyText
  import opened Params
  import opened ResumeParsing

  // ---------------------------------------------------------------- the form

  /** The job boards offered, in checkbox order. */
  const Sites: seq<string> := ["indeed", "linkedin", "zip_recruiter", "glassdoor", "google"]

  datatype SearchForm = SearchForm(
    checked: set<string>,
    searchTerm: string,
    location: string,
    jobType: string,
    resultsWanted: string,
    remote: bool,
    country: string)

  /** The checked sites, in the order the checkboxes were created. */
  function SelectedSites(sites: seq<string>, checked: set<string>): (r: seq<string>)
    ensures forall s :: s in r <==> s in sites && s in checked
    ensures |r| <= |sites|
  {
    if sites == [] then []
    else (if sites[0] in checked then [sites[0]] else []) + SelectedSites(sites[1..], checked)
  }

  /** Selecting keeps the order of the list: the sites of a first part come before those of the rest. */
  lemma {:induction false} SelectedSitesAppend(a: seq<string>, b: seq<string>, checked: set<string>)
    ensures SelectedSites(a + b, checked) == SelectedSites(a, checked) + SelectedSites(b, checked)
  {
    if a == [] {
      assert a + b == b;
    } else {
      var head := if a[0] in checked then [a[0]] else [];
      assert (a + b)[0] == a[0] && (a + b)[1..] == a[1..] + b;
      SelectedSitesAppend(a[1..], b, checked);
      calc {
        SelectedSites(a + b, checked);
        head + SelectedSites(a[1..] + b, checked);
        head + (SelectedSites(a[1..], checked) + SelectedSites(b, checked));
        (head + SelectedSites(a[1..], checked)) + SelectedSites(b, checked);
      }
    }
  }

  /** One board: listed exactly when checked. */
  lemma SelectedBoard(site: string, checked: set<string>)
    ensures SelectedSites([site], checked) == if site in checked then [site] else []
  {
    assert [site][1..] == [];
  }

  /** The `site` list of a search names the checked boards in checkbox order. */
  lemma SelectedBoards(checked: set<string>)
    ensures SelectedSites(Sites, checked) ==
      (if "indeed" in checked then ["indeed"] else []) +
      (if "linkedin" in checked then ["linkedin"] else []) +
      (if "zip_recruiter" in checked then ["zip_recruiter"] else []) +
      (if "glassdoor" in checked then ["glassdoor"] else []) +
      (if "google" in checked then ["google"] else [])
  {
    var s1, s2, s3, s4, s5 := ["indeed"], ["linkedin"], ["zip_recruiter"], ["glassdoor"], ["google"];
    assert Sites == (((s1 + s2) + s3) + s4) + s5;
    SelectedBoard("indeed", checked);
    SelectedBoard("linkedin", checked);
    SelectedBoard("zip_recruiter", checked);
    SelectedBoard("glassdoor", checked);
    SelectedBoard("google", checked);
    calc {
      SelectedSites(Sites, checked);
      { SelectedSitesAppend(((s1 + s2) + s3) + s4, s5, checked); }
      SelectedSites(((s1 + s2) + s3) + s4, checked) + SelectedSites(s5, checked);
      { SelectedSitesAppend((s1 + s2) + s3, s4, checked); }
      SelectedSites((s1 + s2) + s3, checked) + SelectedSites(s4, checked) + SelectedSites(s5, checked);
      { SelectedSitesAppend(s1 + s2, s3, checked); }
      SelectedSites(s1 + s2, checked) + SelectedSites(s3, checked) + SelectedSites(s4, checked)
        + SelectedSites(s5, checked);
      { SelectedSitesAppend(s1, s2, checked); }
      SelectedSites(s1, checked) + SelectedSites(s2, checked) + SelectedSites(s3, checked)
        + SelectedSites(s4, checked) + SelectedSites(s5, checked);
    }
  }

  /**
   * The keyword arguments of `scrape_jobs`; `None` when `int(results_wanted)` raises.  The search
   * term and location go through as typed.
   */
  function SearchParams(form: SearchForm): (r: Option<ParamMap>)
    ensures r.None? <==> ParseInt(form.resultsWanted).None?
    ensures r.Some? ==> r.value == ParamsWith(form, ParseInt(form.resultsWanted).value)
  {
    match ParseInt(form.resultsWanted)
    case None => None
    case Some(wanted) => Some(ParamsWith(form, wanted))
  }

  /** What the form hands to `scrape_jobs`, key by key: `job_type` and `remote` only when set. */
  function ParamsWith(form: SearchForm, wanted: int): (p: ParamMap)
    ensures "site" in p && "search_term" in p && "location" in p && "results_wanted" in p && "country" in p
    ensures && p["site"] == Names(SelectedSites(Sites, form.checked))
      && p["search_term"] == Text(form.searchTerm)
      && p["location"] == Text(form.location)
      && p["results_wanted"] == Number(wanted)
      && p["country"] == Text(form.country)
      && ("job_type" in p <==> form.jobType != "")
      && ("job_type" in p ==> p["job_type"] == Text(form.jobType))
      && ("remote" in p <==> form.remote)
      && ("remote" in p ==> p["remote"] == Flag(true))
  {
    var base := map[
      "site" := Names(SelectedSites(Sites, form.checked)),
      "search_term" := Text(form.searchTerm),
      "location" := Text(form.location),
      "results_wanted" := Number(wanted),
      "country" := Text(form.country)];
    var typed := if form.jobType != "" then base["job_type" := Text(form.jobType)] else base;
    if form.remote then typed["remote" := Flag(true)] else typed
  }

  // ---------------------------------------------------------------- the resume

  /** What PyPDF2 and python-docx read from the file at a path: page texts, paragraphs, table cells. */
  datatype Document = Document(pdfPages: seq<string>, paragraphs: seq<string>, tables: seq<seq<seq<string>>>)

  /** A table's text: every row's cells, each followed by a space, then a newline. */
  function TableText(rows: seq<seq<string>>): string
  {
    if rows == [] then "" else TableText(rows[..|rows| - 1]) + (Terminated(rows[|rows| - 1], " ") + "\n")
  }

  function TablesText(tables: seq<seq<seq<string>>>): string
  {
    if tables == [] then "" else TablesText(tables[..|tables| - 1]) + TableText(tables[|tables| - 1])
  }

  /** The text of a `.docx`: the paragraph lines, then the table rows. */
  function DocxText(doc: Document): string
  {
    Terminated(doc.paragraphs, "\n") + TablesText(doc.tables)
  }

  /** Every table row contributes exactly one line. */
  lemma {:induction false} TableTextLines(rows: seq<seq<string>>)
    ensures |TableText(rows)| == |rows| + SumOfRowLengths(rows)
  {
    if rows != [] {
      TableTextLines(rows[..|rows| - 1]);
      TerminatedLength(rows[|rows| - 1], " ");
    }
  }

  function SumOfRowLengths(rows: seq<seq<string>>): nat
  {
    if rows == [] then 0
    else SumOfRowLengths(rows[..|rows| - 1]) + |Concat(rows[|rows| - 1])| + |rows[|rows| - 1]|
  }

  // ---------------------------------------------------------------- the verdict

  const NoResumeLabel: string := "Not Apply (No Resume)"
  const AnalysisErrorLabel: string := "Analysis Error"

  /** The model chain: its answer for a resume and a job description, `None` when it raises. */
  type Model = (string, string) -> Option<string>

  /**
   * `analyze_job_fit`: without resume text the fixed "no resume" verdict; otherwise the model's
   * answer, stripped, or the error label when the model raises.
   */
  function FitLabel(resume: Option<string>, description: string, model: Model): string
  {
    if resume.None? || resume.value == "" then NoResumeLabel
    else match model(resume.value, description)
      case None => AnalysisErrorLabel
      case Some(answer) => Strip(answer)
  }

  /** The fill colour of each category the sheet colours. */
  function CategoryColour(category: string): Option<string>
  {
    if category == "Not Apply" then Some("FFB6C1")
    else if category == "Should Apply" then Some("FFFACD")
    else if category == "Must Apply" then Some("90EE90")
    else None
  }

  /** The verdict is the model's word exactly when there is resume text and the model answered. */
  lemma FitLabelSources(resume: Option<string>, description: string, model: Model)
    ensures resume.None? || resume.value == "" ==> FitLabel(resume, description, model) == NoResumeLabel
    ensures resume.Some? && resume.value != "" && model(resume.value, description).None? ==>
      FitLabel(resume, description, model) == AnalysisErrorLabel
    ensures resume.Some? && resume.value != "" && model(resume.value, description).Some? ==>
      FitLabel(resume, description, model) == Strip(model(resume.value, description).value)
  {
  }

  /**
   * Only a model answer can colour a row: neither fallback verdict is in the colour table, even
   * though the "no resume" one begins with "Not Apply".
   */
  lemma ColouredOnlyByModel(resume: Option<string>, description: string, model: Model)
    ensures CategoryColour(FitLabel(resume, description, model)).Some? ==>
      && resume.Some? && resume.value != ""
      && model(resume.value, description).Some?
      && Strip(model(resume.value, description).value) in {"Not Apply", "Should Apply", "Must Apply"}
  {
    assert NoResumeLabel != "Not Apply" by { assert |NoResumeLabel| != |"Not Apply"|; }
    assert NoResumeLabel != "Should Apply" by { assert NoResumeLabel[1] != "Should Apply"[1]; }
    assert NoResumeLabel != "Must Apply" by { assert NoResumeLabel[0] != "Must Apply"[0]; }
    assert AnalysisErrorLabel != "Not Apply" by { assert AnalysisErrorLabel[0] != "Not Apply"[0]; }
    assert AnalysisErrorLabel != "Should Apply" by { assert AnalysisErrorLabel[0] != "Should Apply"[0]; }
    assert AnalysisErrorLabel != "Must Apply" by { assert AnalysisErrorLabel[0] != "Must Apply"[0]; }
  }

  // ---------------------------------------------------------------- rows and the sheet

  /** A row of the scraped table: a cell for each column jobspy filled. */
  type JobRow = map<string, string>

  /** The columns of the exported table, `category` last. */
  const SheetColumns: seq<string> :=
    ["site", "title", "company", "location", "date_posted", "salary_min", "salary_max",
     "salary_interval", "job_url", "description", "category"]

  const CategoryColumn: nat := 10

  /** A job row with its verdict added as `category`. */
  function WithVerdict(job: JobRow, resume: Option<string>, model: Model): JobRow
    requires "description" in job
  {
    job["category" := FitLabel(resume, job["description"], model)]
  }

  /** The verdict row has the job's columns and `category`, holding the verdict; every other cell is kept. */
  lemma VerdictKeepsCells(job: JobRow, resume: Option<string>, model: Model)
    requires "description" in job
    ensures WithVerdict(job, resume, model).Keys == job.Keys + {"category"}
    ensures WithVerdict(job, resume, model)["category"] == FitLabel(resume, job["description"], model)
    ensures forall k :: k in job && k != "category" ==> WithVerdict(job, resume, model)[k] == job[k]
  {
  }

  /** The rows with their verdicts, one per job in order; `None` when a row has no description (the `KeyError`). */
  function CategorizedRows(jobs: seq<JobRow>, resume: Option<string>, model: Model): Option<seq<JobRow>>
  {
    if forall i :: 0 <= i < |jobs| ==> "description" in jobs[i] then
      Some(seq(|jobs|, i requires 0 <= i < |jobs| && "description" in jobs[i] => WithVerdict(jobs[i], resume, model)))
    else None
  }

  /**
   * The categorized table: it fails exactly when some job has no description; otherwise it has
   * one row per job, in order, each the job with its verdict added.
   */
  lemma CategorizedRowsKeepJobs(jobs: seq<JobRow>, resume: Option<string>, model: Model)
    ensures CategorizedRows(jobs, resume, model).Some? <==> forall i :: 0 <= i < |jobs| ==> "description" in jobs[i]
    ensures CategorizedRows(jobs, resume, model).Some? ==>
      && |CategorizedRows(jobs, resume, model).value| == |jobs|
      && forall i :: 0 <= i < |jobs| ==> CategorizedRows(jobs, resume, model).value[i] == WithVerdict(jobs[i], resume, model)
  {
  }

  /** An empty cell for a column the row does not fill. */
  function CellText(row: JobRow, column: string): string
  {
    if column in row then row[column] else ""
  }

  datatype Cell = Cell(value: string, fill: Option<string>)

  /** The written value at a sheet position: the header in row 0, row `r - 1` of the table below it. */
  function SheetValue(rows: seq<JobRow>, r: int, c: int): string
  {
    if !(0 <= c < |SheetColumns|) then ""
    else if r == 0 then SheetColumns[c]
    else if 1 <= r <= |rows| then CellText(rows[r - 1], SheetColumns[c])
    else ""
  }

  /** A cell with the row's fill applied, when the row has one. */
  function Filled(cell: Cell, colour: Option<string>): Cell
  {
    if colour.Some? then cell.(fill := colour) else cell
  }

  /** The sheet shows the table under its header, every data row filled with its category's colour. */
  ghost predicate ShowsRows(sheet: array2<Cell>, rows: seq<JobRow>)
    reads sheet
  {
    && sheet.Length0 == |rows| + 1
    && sheet.Length1 == |SheetColumns|
    && (forall r, c :: 0 <= r < sheet.Length0 && 0 <= c < sheet.Length1 ==>
          sheet[r, c].value == SheetValue(rows, r, c))
    && (forall c :: 0 <= c < sheet.Length1 ==> sheet[0, c].fill == None)
    && (forall r, c :: 1 <= r < sheet.Length0 && 0 <= c < sheet.Length1 ==>
          sheet[r, c].fill == CategoryColour(CellText(rows[r - 1], "category")))
  }

  /**
   * The colouring loop: for each data row below the header, a category in the colour table fills
   * every cell of the row with that colour; other rows are left as they are.
   */
  method ApplyCategoryColours(sheet: array2<Cell>, categoryCol: nat)
    requires sheet.Length0 >= 1 && categoryCol < sheet.Length1
    modifies sheet
    ensures forall r, c :: 0 <= r < sheet.Length0 && 0 <= c < sheet.Length1 ==>
      sheet[r, c] == (if r == 0 then old(sheet[r, c])
                      else Filled(old(sheet[r, c]), CategoryColour(old(sheet[r, categoryCol]).value)))
  {
    for row := 1 to sheet.Length0
      invariant forall r, c :: 0 <= r < sheet.Length0 && 0 <= c < sheet.Length1 ==>
        sheet[r, c] == (if 1 <= r < row then Filled(old(sheet[r, c]), CategoryColour(old(sheet[r, categoryCol]).value))
                        else old(sheet[r, c]))
    {
      var colour := CategoryColour(sheet[row, categoryCol].value);
      if colour.Some? {
        for col := 0 to sheet.Length1
          invariant forall r, c :: 0 <= r < sheet.Length0 && 0 <= c < sheet.Length1 ==>
            sheet[r, c] == (if 1 <= r < row || (r == row && c < col)
                            then Filled(old(sheet[r, c]), CategoryColour(old(sheet[r, categoryCol]).value))
                            else old(sheet[r, c]))
        {
          sheet[row, col] := sheet[row, col].(fill := colour);
        }
      }
    }
  }

  /** `to_excel` followed by the colouring loop. */
  method ExportSheet(rows: seq<JobRow>) returns (sheet: array2<Cell>)
    ensures fresh(sheet)
    ensures ShowsRows(sheet, rows)
  {
    sheet := new Cell[|rows| + 1, |SheetColumns|]((r, c) => Cell(SheetValue(rows, r, c), None));
    ApplyCategoryColours(sheet, CategoryColumn);
  }

  /** No resume, no colour: every data row of the sheet stays unfilled. */
  lemma NoResumeNoColour(jobs: seq<JobRow>, model: Model, rows: seq<JobRow>, sheet: array2<Cell>)
    requires CategorizedRows(jobs, None, model) == Some(rows)
    requires ShowsRows(sheet, rows)
    ensures forall r, c :: 0 <= r < sheet.Length0 && 0 <= c < sheet.Length1 ==> sheet[r, c].fill == None
  {
    forall r, c | 1 <= r < sheet.Length0 && 0 <= c < sheet.Length1
      ensures sheet[r, c].fill == None
    {
      assert CellText(rows[r - 1], "category") == NoResumeLabel;
      ColouredOnlyByModel(None, jobs[r - 1]["description"], model);
    }
  }

  // ---------------------------------------------------------------- the window

  datatype SearchOutcome = Failed | NoJobs | Exported(rows: seq<JobRow>, sheet: array2<Cell>)

  class JobSearchApp {
    /** The text of the last resume read, if any. */
    var resumeContent: Option<string>

    constructor()
      ensures resumeContent == None
    {
      resumeContent := None;
    }

    /** `parse_resume`: the suffix test is case-sensitive; any other file reads as `None`. */
    method ParseResume(path: string, doc: Document) returns (text: Option<string>)
      ensures text == ResumeText(path, doc)
    {
      if EndsWith(path, ".pdf") {
        var pages := AppendAll(doc.pdfPages);
        return Some(pages);
      } else if EndsWith(path, ".docx") {
        var body := AppendTerminated(doc.paragraphs, "\n");
        var tables := ReadTables(doc.tables);
        return Some(body + tables);
      }
      return None;
    }

    /** The table loops of `parse_resume`: cell by cell, a newline after each row. */
    method ReadTables(tables: seq<seq<seq<string>>>) returns (text: string)
      ensures text == TablesText(tables)
    {
      text := "";
      for t := 0 to |tables|
        invariant text == TablesText(tables[..t])
      {
        var rows := tables[t];
        ghost var beforeTable := text;
        for r := 0 to |rows|
          invariant text == beforeTable + TableText(rows[..r])
        {
          var cells := rows[r];
          ghost var beforeRow := text;
          for c := 0 to |cells|
            invariant text == beforeRow + Terminated(cells[..c], " ")
          {
            assert cells[..c + 1][..c] == cells[..c];
            Associates(beforeRow, Terminated(cells[..c], " "), cells[c] + " ");
            text := text + (cells[c] + " ");
          }
          assert cells[..|cells|] == cells;
          assert rows[..r + 1][..r] == rows[..r];
          Associates(beforeTable, TableText(rows[..r]), Terminated(cells, " "));
          Associates(beforeTable, TableText(rows[..r]) + Terminated(cells, " "), "\n");
          Associates(TableText(rows[..r]), Terminated(cells, " "), "\n");
          text := text + "\n";
        }
        assert rows[..|rows|] == rows;
        assert tables[..t + 1][..t] == tables[..t];
      }
      assert tables[..|tables|] == tables;
    }

    /** `upload_resume`: a chosen file replaces the resume text; cancelling the dialog keeps it. */
    method UploadResume(path: string, doc: Document)
      modifies this
      ensures path == "" ==> resumeContent == old(resumeContent)
      ensures path != "" ==> resumeContent == ResumeText(path, doc)
    {
      if path != "" {
        resumeContent := ParseResume(path, doc);
      }
    }

    method AnalyzeJobFit(description: string, model: Model) returns (verdict: string)
      ensures verdict == FitLabel(resumeContent, description, model)
    {
      if resumeContent.None? || resumeContent.value == "" {
        return NoResumeLabel;
      }
      var answer := model(resumeContent.value, description);
      if answer.None? {
        return AnalysisErrorLabel;
      }
      verdict := Strip(answer.value);
    }

    /** The analysis loop of `search_jobs`: each row in turn gets its verdict. */
    method Categorize(jobs: seq<JobRow>, model: Model) returns (rows: Option<seq<JobRow>>)
      ensures rows == CategorizedRows(jobs, resumeContent, model)
    {
      var done: seq<JobRow> := [];
      for i := 0 to |jobs|
        invariant forall j :: 0 <= j < i ==> "description" in jobs[j]
        invariant |done| == i
        invariant forall j :: 0 <= j < i ==>
          done[j] == jobs[j]["category" := FitLabel(resumeContent, jobs[j]["description"], model)]
      {
        if "description" !in jobs[i] {
          return None;
        }
        var category := AnalyzeJobFit(jobs[i]["description"], model);
        done := done + [jobs[i]["category" := category]];
      }
      assert forall j :: 0 <= j < |jobs| ==> "description" in jobs[j];
      assert done == CategorizedRows(jobs, resumeContent, model).value;
      return Some(done);
    }

    /**
     * `search_jobs`: the parameters, the scrape, the analysis of every row and the coloured
     * export.  Any exception on the way ends the search with an error message.
     */
    method SearchJobs(form: SearchForm, scrape: ParamMap -> Option<seq<JobRow>>, model: Model)
      returns (outcome: SearchOutcome)
      ensures SearchParams(form).None? ==> outcome == Failed
      ensures SearchParams(form).Some? ==>
        match scrape(SearchParams(form).value)
        case None => outcome == Failed
        case Some(jobs) =>
          if jobs == [] then outcome == NoJobs
          else match CategorizedRows(jobs, resumeContent, model)
            case None => outcome == Failed
            case Some(rows) => outcome.Exported? && outcome.rows == rows
                               && fresh(outcome.sheet) && ShowsRows(outcome.sheet, rows)
    {
      var params := SearchParams(form);
      if params.None? {
        return Failed;
      }
      var jobs := scrape(params.value);
      if jobs.None? {
        return Failed;
      }
      if |jobs.value| == 0 {
        return NoJobs;
      }
      var rows := Categorize(jobs.value, model);
      if rows.None? {
        return Failed;
      }
      var sheet := ExportSheet(rows.value);
      outcome := Exported(rows.value, sheet);
    }
  }

  lemma Associates(a: string, b: string, c: string)
    ensures a + b + c == a + (b + c)
  {
  }

  /** What `parse_resume` reads from a path, as a value. */
  function ResumeText(path: string, doc: Document): Option<string>
  {
    if EndsWith(path, ".pdf") then Some(Concat(doc.pdfPages))
    else if EndsWith(path, ".docx") then Some(DocxText(doc))
    else None
  }

  /** Unlike the resume parser of jobs-llm.py, an upper-case suffix is not recognised. */
  lemma UpperCaseSuffixUnread(doc: Document)
    ensures ResumeText("CV.PDF", doc) == None
  {
    assert !EndsWith("CV.PDF", ".pdf") by { assert "CV.PDF"[3..] != ".pdf"; }
    assert !EndsWith("CV.PDF", ".docx") by { assert "CV.PDF"[1..] != ".docx"; }
  }
}
