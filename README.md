# Job scraper: a Dafny model of its deterministic core

The repository is a set of small desktop tools for job hunting. These are the pieces this project models:

- **jobs.py** scrapes LinkedIn and Indeed search pages into one list of job records. It cleans each field with `clean_text` and turns the posting dates into `YYYY-MM-DD` with `format_date`. `export_to_excel` writes the list sorted newest first, with fitted column widths. outdated/jobs.py is a byte-for-byte copy of jobs.py, so one model serves both.
- **jobs-llm.py** is a second LinkedIn scraper that sits behind a `safe_request` status guard. It has a `JobMatcher` that sets up a local Ollama model, and a `ResumeParser` that reads PDF and DOCX resumes, through MarkItDown or directly.
- **agentic-main.py** is a Tk window. It reads a resume and scrapes with `jobspy`. It asks the model to label every job "Not Apply", "Should Apply" or "Must Apply". It then colours the rows of the exported sheet by that label.
- **outdated/main.py** and **main.py** are two earlier search windows:
  - outdated/main.py validates the form, builds the scrape parameters and keeps a fixed list of columns;
  - main.py drops a fixed list of columns instead.
- **visual-exp.py** parses "Month Year" dates and computes job durations in months for an experience timeline.

Outside the program, several things are replaced by explicit inputs:

| Outside thing | Input in the model |
|---|---|
| Clock | `now`: whole hours since 1970-01-01 00:00 |
| HTTP | `fetch`: a response with a status and a page, or a raised request |
| HTML | a card is a map from a tag query to its first match. A page is the list of cards each `find_all` query returns. |
| LLM | `model`: an answer, or `None` when it raises |
| PDF and DOCX readers | the file's pages, paragraphs and table cells |
| `jobspy.scrape_jobs` | `scrape`: a frame, or `None` when it raises |
| `html.unescape`, `str.isprintable`, `strptime` | the fields of a `TextLibrary` |

Mutable state is modelled in place, as the source does it:

- the scrapers' `jobs_data` is a `seq` field of a class, which the page loops extend;
- the agentic window's `resume_content` is a field;
- the exported sheet is an `array2` of cells that the colouring loop fills in place.

Modules:

- `Wrappers`: Option and Result.
- `PyText`: Python's `strip`, `split`/`join`, `lower`, `in`, `endswith`, `int`, and string order.
- `Calendar`: civil dates and `YYYY-MM-DD`.
- `TextNormalizer`: `clean_text` and `format_date`.
- `JobRecords`: the record and its cells.
- `ExportOrder`: the export sort and the column widths.
- `Scraper`: the jobs.py `JobScraper`.
- `ResumeParsing`: the jobs-llm.py `ResumeParser`.
- `LlmScraper`: the jobs-llm.py `JobScraper` and `JobMatcher`.
- `AgenticApp`: agentic-main.py.
- `Frames`: column projection.
- `OutdatedMain`: outdated/main.py.
- `MainApp`: main.py.
- `Experience`: visual-exp.py.

## Model

| member | source | states |
|---|---|---|
| TextNormalizer.CleanText | jobs.py:50-60 | `None` or `""` gives exactly `'N/A'`. Any other text comes back all printable, with plain spaces as its only whitespace, and neither starting nor ending with whitespace. |
| TextNormalizer.CleanWhitespaceOnly | jobs.py:52-60 | A non-empty all-whitespace value is not falsy in Python, so it comes back as `""`, not as `'N/A'`. |
| TextNormalizer.CleanTextFixesCleanText | jobs.py:55-60 | Text that is already single-spaced, printable and free of entities is returned unchanged. |
| TextNormalizer.CleanTextCanLeaveDoubleSpace | jobs.py:55-60 | Whitespace is collapsed before non-printables are removed. So `a <np> b` with a non-printable middle word becomes `a  b`, with two spaces. |
| TextNormalizer.DateBefore | jobs.py:70-98 | `now - N hours` as a date. An instant before year 1 (Python's `OverflowError`, caught by the handler) gives today. |
| TextNormalizer.AgoText | jobs.py:65-80 | For a number followed by a lower-case "… ago" suffix, the date is `now` minus the first digit run times the hours of the first unit found, in the order day, hour, week, month. |
| TextNormalizer.DaysAgo | jobs.py:70-71 | "N days ago" is the date N·24 hours before now. |
| TextNormalizer.HoursAgo | jobs.py:72-73 | "N hours ago" is the date N hours before now. |
| TextNormalizer.WeeksAgo | jobs.py:74-75 | "N weeks ago" is the date 7·N days before now. |
| TextNormalizer.MonthsAgo | jobs.py:76-77 | "N months ago" is exactly 30·N days before now. |
| TextNormalizer.AgoIgnoresAbsoluteFormats | jobs.py:68-80 | Once the stripped, lower-cased text contains "ago", the absolute-format parsers are never consulted. |
| TextNormalizer.AgoWithoutNumberIsToday | jobs.py:68-98 | An "ago" text with no digit hits the `IndexError` path and gives today's date. It never raises. |
| TextNormalizer.Today | jobs.py:83-84 | "today", in any letter case and padding, gives today's date. |
| TextNormalizer.Yesterday | jobs.py:85-86 | "yesterday" gives the date 24 hours before now. |
| TextNormalizer.FirstAbsoluteFormatWins | jobs.py:89-93 | The four formats are tried in order, and the first one that parses decides the date. |
| TextNormalizer.UnrecognisedIsToday | jobs.py:95-98 | Text matching no branch and no format falls back to today's date instead of raising. |
| TextNormalizer.FirstParseFirstSuccess | jobs.py:89-93 | The result of the format loop is the first format that parses. |
| TextNormalizer.FirstParseNone | jobs.py:89-95 | When no format parses, the format loop gives nothing. |
| TextNormalizer.FirstParse | jobs.py:89-95 | The format loop's date is what `strptime` gives for one of the formats. It gives nothing only when every format fails. |
| TextNormalizer.FormatDateSource | jobs.py:62-98 | `format_date` (the function `FormatDate`) always gives either the date some whole number of hours before now or a date `strptime` parsed with one of the four formats. |
| TextNormalizer.FormatDateInRange | jobs.py:62-98 | When `strptime` only yields dates `datetime` can hold (years 1-9999) and the clock reads a day from 0001-01-01 to 9999-12-31, `format_date` gives a date of years 1-9999 with a month of 1-12 and a day of 1-31. So its `YYYY-MM-DD` text has a four-digit year and compares as the date does. |
| TextNormalizer.DateBeforeInRange | jobs.py:70-98 | For a clock reading from 0001-01-01 to 9999-12-31, the date any whole number of hours before it is also in years 1-9999, with a month of 1-12 and a day of 1-31: an instant before year 1 falls back to today. |
| Calendar.IsoDateOrder | jobs.py:241 | For dates in years 1-9999, comparing the `YYYY-MM-DD` strings is comparing the dates, and equal strings mean equal dates. |
| Calendar.IsoDateInjective | jobs.py:80 | Two dates with the same `YYYY-MM-DD` text are the same date. |
| Calendar.FixedDigitsOrder | jobs.py:80 | Zero-padded numbers of one width compare as strings exactly as they compare as numbers. |
| Calendar.CivilFromDays | jobs.py:70-98 | The civil date of a day number has a month of 1-12 and a day of 1-31. Within the first 24 eras from 0000-03-01, its year is 0-9600. |
| Calendar.CivilYearInRange | jobs.py:70-98 | Every day number from 0001-01-01 to 9999-12-31 falls in years 1-9999. |
| Calendar.DateOfHourInRange | jobs.py:70-98 | Every hour from 0001-01-01 00:00 up to the end of 9999-12-31 falls on a date of years 1-9999, with a month of 1-12 and a day of 1-31. |
| EraArithmetic.DayOfEraFields | jobs.py:70-98 | Within one 400-year era, the year of the era is 0-399 and the day of that year is 0-365. |
| Scraper.PageOffsets | jobs.py:104-165 | Page p asks LinkedIn for `start = 25·p` and Indeed for `start = 10·p`. |
| Scraper.ParseLinkedInCard | jobs.py:129-144 | A card is skipped exactly when its `<time>` lacks `datetime` or its link lacks `href` (`KeyError`). Otherwise it is a LinkedIn record whose title, company, location and salary are each `N/A` or cleaned text: printable, single plain spaces, no edge whitespace. |
| Scraper.LinkedInCardOutcome | jobs.py:136-137 | A parsed card's date is `format_date` of the `datetime` (of today when there is no `<time>`), and its link is the `href` (`N/A` when there is no link). |
| Scraper.LinkedInCardDefaults | jobs.py:133-138 | A card with no optional parts gives title, company and location `N/A`, salary `Not specified` and link `N/A`. |
| Scraper.FirstFoundIsFirst | jobs.py:191-206 | `find(a) or find(b) or …` gives nothing exactly when no query matches. Otherwise it gives the match of a query that matches while every earlier one does not. |
| Scraper.ParseIndeedCard | jobs.py:188-220 | An Indeed card is skipped exactly when its anchor lacks `href`. Otherwise it is an Indeed record whose title, company, location and salary are each `N/A` or cleaned text. |
| Scraper.IndeedCardOutcome | jobs.py:191-216 | A parsed Indeed card is dated from the first date query that matches (today if none does), and its link is the Indeed prefix plus the `href`. |
| Scraper.JobScraper.constructor | jobs.py:15-37 | A new scraper has no records. |
| Scraper.JobScraper.ScrapeLinkedIn | jobs.py:100-152 | `jobs_data` becomes its old contents followed by the parsed cards of pages `0 .. pages-1`, in order. It returns the whole accumulated list. |
| Scraper.JobScraper.ScrapeIndeed | jobs.py:154-229 | The same accumulation for Indeed, reading the primary card query or, when that finds none, the `tapItem` one. |
| Scraper.JobScraper.ScrapePages | jobs.py:104-152 | The page loop appends `UpTo(cards, parse, pages)` to the old records and returns the whole list. A negative page count appends nothing. |
| Scraper.JobScraper.AppendParsed | jobs.py:129-144 | The card loop appends the successful parses in order and skips failed cards. |
| Scraper.KeptFromParses | jobs.py:129-144 | Every kept record is a successful parse, and there are never more records than cards. |
| Scraper.RecordsFromCards | jobs.py:104-152 | Every record a page loop adds is the parse of some card of a requested page. |
| Scraper.EmptyPagesAddNothing | jobs.py:125-128 | Pages without cards add no record. |
| Scraper.LinkedInRecordsFromCards | jobs.py:100-152 | Every LinkedIn record comes from a card on a requested page. |
| Scraper.IndeedRecordsFromCards | jobs.py:154-229 | Every Indeed record comes from a card on a requested page. |
| Scraper.LinkedInFailedPagesAddNothing | jobs.py:121-152 | Pages whose request raises or answers a status other than 200 add nothing, and earlier records are kept. |
| Scraper.IndeedFailedPagesAddNothing | jobs.py:177-229 | Pages that fail add nothing, and earlier records are kept. |
| Scraper.KeptAppend | jobs.py:129-144 | The records kept from two runs of cards are the records of each run, concatenated. |
| Scraper.ExportedNewestFirst | jobs.py:236-241 | For postings dated by `format_date`, an earlier row of the export is never older than a later one, for a clock reading from 0001-01-01 to 9999-12-31: every such date is in years 1-9999, so text order is date order. |
| Scraper.JobScraper.ExportToExcel | jobs.py:231-254 | Nothing is written exactly when there are no records. Otherwise the sheet has the seven headers, one row per record in export order, and each column's width is exactly min(longest cell or header + 2, 50). |
| ExportOrder.SortRows | jobs.py:241 | The export order has as many rows as there are records (order and permutation: SortRowsCorrect). |
| ExportOrder.SortRowsCorrect | jobs.py:241 | The export order is sorted by `date_posted` descending, then platform ascending. It is a permutation of the records, and records with equal keys keep their order. |
| ExportOrder.InsertSorted | jobs.py:241 | Inserting one record into a sorted list keeps it sorted and adds exactly that record. |
| ExportOrder.InsertWithKey | jobs.py:241 | Insertion puts a record after every record with the same key. |
| ExportOrder.NewestFirst | jobs.py:241 | In export order an earlier row is never older, and rows posted on the same day are in platform order. |
| ExportOrder.PrecedesTransitive | jobs.py:241 | The sort key order is transitive. |
| ExportOrder.PrecedesTotal | jobs.py:241 | Any two records are ordered one way or the other, or have equal keys. |
| ExportOrder.Longest | jobs.py:249-252 | `max(len of every cell, len(col))`: at least the header and every cell of the column, and equal to one of them. |
| ExportOrder.ColumnWidths | jobs.py:248-254 | Each column's width is exactly min(Longest + 2, 50). |
| ExportOrder.NarrowColumn | jobs.py:249-254 | A header `a` over the single cell `b` is fitted to width 3 = min(1 + 2, 50), and to nothing else. |
| ExportOrder.FittedColumn | jobs.py:249-254 | A fitted width is at most 50, leaves two characters beside the header and every cell unless capped, and is 50 or one of those lengths plus 2. |
| ResumeParsing.AppendAll | jobs-llm.py:290-293 | The page loop's text is the page texts concatenated in order, with no separator. |
| ResumeParsing.AppendTerminated | jobs-llm.py:313-316 | The paragraph loop's text is each paragraph followed by the separator, in order. |
| ResumeParsing.ParsePdf | jobs-llm.py:279-300 | A readable PDF gives its pages concatenated. An unreadable one is an error. |
| ResumeParsing.ParseDocx | jobs-llm.py:302-319 | A readable DOCX gives each paragraph plus `"\n"`. An unreadable one is an error. |
| ResumeParsing.ParseTraditional | jobs-llm.py:262-277 | The lower-cased extension `.pdf` goes to the PDF reader and `.docx` to the DOCX reader. Anything else is a `ValueError`, passed on to the caller. |
| ResumeParsing.TraditionalNeedsPdfOrDocx | jobs-llm.py:268-277 | Traditional parsing succeeds only for `.pdf` or `.docx`, and fails for every other extension. |
| ResumeParsing.UpperCasePdf | jobs-llm.py:268-269 | The extension test ignores letter case: `.PDF` is read as a PDF. |
| ResumeParsing.TerminatedLength | jobs-llm.py:313-316 | The DOCX text has the length of the paragraphs plus one separator per paragraph. |
| ResumeParsing.TerminatedEndsWithSeparator | jobs-llm.py:313-316 | A DOCX with paragraphs gives text ending in `"\n"`. |
| ResumeParsing.ConcatAppend | jobs-llm.py:290-293 | The concatenation of two runs of pages is the two texts concatenated. |
| ResumeParsing.ResumeParser.constructor | jobs-llm.py:215-224 | A MarkItDown converter exists exactly when an LLM client is given. |
| ResumeParsing.ResumeParser.ParseWithMarkItDown | jobs-llm.py:237-260 | The converter's text, or, when conversion raises, the traditional result for the same file. |
| ResumeParsing.ResumeParser.ParseResume | jobs-llm.py:226-235 | MarkItDown's text exactly when there is a converter, the lower-cased extension is one it handles, and conversion succeeds. Otherwise the traditional result. |
| LlmScraper.SafeRequest | jobs-llm.py:68-90 | The page is returned exactly when the status is 200. Any other status, or a raised request, gives `None`. |
| LlmScraper.GuardedCardsAgree | jobs-llm.py:107-116 | The guarded page loop reads the same cards as the status test of jobs.py. |
| LlmScraper.LlmJobScraper.constructor | jobs-llm.py:27-51 | A new scraper has no records. |
| LlmScraper.LlmJobScraper.ScrapeLinkedIn | jobs-llm.py:92-146 | Page p uses `start = 25·p`, and a `None` response skips the page. Only successful card parses are appended, and the whole accumulated list is returned. |
| LlmScraper.LlmJobScraper.ScrapePages | jobs-llm.py:98-146 | The page loop appends the kept parses of pages `0 .. pages-1` to the old records. |
| LlmScraper.LlmJobScraper.AppendCards | jobs-llm.py:124-135 | The card loop appends each non-`None` parse, in order. |
| LlmScraper.AsWrittenCollectsNothing | jobs-llm.py:148-164 | The as-written case of `CardParser`. As written, every card parse raises `AttributeError` and returns `None`, so no page run ever adds a record. |
| LlmScraper.AsWrittenLosesPostings | jobs-llm.py:152 | Wherever jobs.py would collect a posting, this scraper as written collects nothing. |
| LlmScraper.WithHelpersMatchesJobsScraper | jobs-llm.py:92-164 | The corrected case of `CardParser`. With the text helpers of jobs.py present, the scraper collects exactly what the jobs.py LinkedIn loop collects. |
| LlmScraper.KeptOfFailures | jobs-llm.py:131-135 | A page whose cards all fail adds nothing. |
| LlmScraper.NeverAvailableAsWritten | jobs-llm.py:196-205 | Because `self.chain` is never assigned, the model is never available, whatever Ollama does. |
| LlmScraper.JobMatcher.constructor | jobs-llm.py:166-205 | `llm_available` holds exactly when the model loads, the chain is assigned and the test call answers. The resume parser has a converter exactly then. |
| AgenticApp.SelectedSites | agentic-main.py:29-35 | A site is selected exactly when it is one of the sites and checked, and there are no more selected sites than sites. |
| AgenticApp.SelectedSitesAppend | agentic-main.py:34-35 | Selecting from two runs of sites selects from each and concatenates, so selection keeps the order of the site list. |
| AgenticApp.SelectedBoard | agentic-main.py:159 | A single site is selected exactly when it is checked. |
| AgenticApp.SelectedBoards | agentic-main.py:159 | The selected sites are indeed, linkedin, zip_recruiter, glassdoor, google in that order, each present exactly when checked: `site_vars` was filled in the order of the site list at agentic-main.py:29, and the comprehension reads it in insertion order. |
| AgenticApp.SearchParams | agentic-main.py:155-162 | The form yields parameters exactly when the results-wanted text is an integer (otherwise `int()` raises), and then they are the parameter map of that number. |
| AgenticApp.ParamsWith | agentic-main.py:158-169 | The parameter map always has site (the checked sites), search term, location, results wanted and country. `job_type` is present exactly when non-empty, and `remote` exactly when checked. |
| AgenticApp.TableTextLines | agentic-main.py:112-116 | The table text has each cell plus one space, and one newline per row: its length is the row count plus the cells' lengths. |
| AgenticApp.FitLabelSources | agentic-main.py:120-153 | The contract of the fit label (`FitLabel`). No resume text gives "Not Apply (No Resume)" without asking the model. A model exception gives "Analysis Error". Otherwise the result is the model's answer, stripped. |
| AgenticApp.ColouredOnlyByModel | agentic-main.py:120-153 | A verdict with a colour always comes from a model answer. Neither fallback verdict is in the colour table. |
| AgenticApp.VerdictKeepsCells | agentic-main.py:186-191 | A row with its verdict has the job's columns plus `category`, holding the fit label, and every other cell unchanged. |
| AgenticApp.CategorizedRowsKeepJobs | agentic-main.py:186-191 | The contract of `CategorizedRows`. The categorised table has one row per job, in order, each the job with its verdict added. It fails exactly when a job has no description. |
| AgenticApp.ApplyCategoryColours | agentic-main.py:206-221 | Each data row whose category is in the three-entry table gets that colour in every column. The header row, and rows with any other label, are unchanged. |
| AgenticApp.ExportSheet | agentic-main.py:197-221 | The exported sheet shows the header, the rows' cells, and each row filled with its category's colour, if it has one. |
| AgenticApp.NoResumeNoColour | agentic-main.py:122-123 | Without a resume, no cell of the sheet is filled. |
| AgenticApp.UpperCaseSuffixUnread | agentic-main.py:98-118 | The suffix test is case-sensitive, so `CV.PDF` is not read. |
| AgenticApp.JobSearchApp.constructor | agentic-main.py:15-21 | The window starts without resume text. |
| AgenticApp.JobSearchApp.ParseResume | agentic-main.py:96-118 | `.pdf` gives the pages concatenated. `.docx` gives each paragraph plus `"\n"`, then each table row's cells, each followed by a space, and then a newline. Any other suffix gives `None`. |
| AgenticApp.JobSearchApp.ReadTables | agentic-main.py:112-116 | The nested table loops build exactly the table text. |
| AgenticApp.JobSearchApp.UploadResume | agentic-main.py:87-94 | A cancelled dialog keeps the stored resume. A chosen file replaces it with that file's text. |
| AgenticApp.JobSearchApp.AnalyzeJobFit | agentic-main.py:120-153 | The verdict is the fit label of the stored resume. |
| AgenticApp.JobSearchApp.Categorize | agentic-main.py:186-191 | The per-job loop builds exactly the categorised table. |
| AgenticApp.JobSearchApp.SearchJobs | agentic-main.py:155-235 | A bad form or a failed scrape ends in the error handler. An empty result ends before export. Otherwise every job is categorised and the coloured sheet is exported. |
| OutdatedMain.ValidationOrder | outdated/main.py:89-101 | The contract of `ValidationError`. The form passes exactly when the term and location are not blank and a site is checked. The blank-term message wins over the blank-location message, which wins over the no-site message. |
| OutdatedMain.ScrapeParamsContents | outdated/main.py:106-120 | The contract of `ScrapeParams`. Search term and location are stripped, `hours_old` is 24, and the sites are the checked ones in order. `job_type` is present exactly when non-empty, and `is_remote` exactly when checked. |
| OutdatedMain.ScrapeParamsIgnorePadding | outdated/main.py:108 | Padding the search term with whitespace does not change the parameters. |
| OutdatedMain.KeepColumns | outdated/main.py:130-147 | The output columns are exactly the keep-list entries the scrape has, in keep-list order, with their cells unchanged. |
| OutdatedMain.ColumnsToKeepDistinct | outdated/main.py:130-136 | The keep list has no repeated column. |
| OutdatedMain.SearchJobs | outdated/main.py:83-176 | Validation comes before any scrape. An empty result writes nothing. A non-empty result is written with the kept columns and all its rows (no rows when none of the kept columns is present). Any exception ends in the handler. |
| OutdatedMain.WriteKept | outdated/main.py:129-147 | A non-empty scrape is written as its projection onto the keep list. |
| Frames.Present | outdated/main.py:139-145 | A column is kept exactly when it is on the keep list and in the frame, and no more columns are kept than listed. |
| Frames.Remaining | main.py:111 | A column remains exactly when it is in the frame and not on the drop list, and no more columns remain than there were. |
| Frames.PresentAppend | outdated/main.py:139-145 | Projecting onto a longer keep list extends the projection in keep-list order. |
| Frames.RemainingUnlisted | main.py:111 | Dropping columns that are not there changes nothing. |
| Frames.DropPresentOnly | main.py:93-111 | Dropping only the listed columns the frame has leaves the same columns as dropping the whole list would. |
| MainApp.DropColumns | main.py:111 | `drop` raises `KeyError` exactly when a listed column is missing, and keeps every row. |
| MainApp.DropListedColumns | main.py:93-111 | The drop step never raises. It removes exactly the listed columns that are present, and keeps every other column in its place, with its cells. |
| MainApp.NothingListedNothingDropped | main.py:93-111 | A scrape without any listed column is written as it came. |
| MainApp.SearchJobs | main.py:81-127 | Unbound `params` ends in the handler. Otherwise the search follows the scrape, the empty check and the drop. |
| MainApp.SearchJobsAsWritten | main.py:83-86 | As written, every search ends in the error handler. |
| MainApp.CorrectedSearchJobs | main.py:81-127 | With validation and `params` restored, a valid form reaches the scrape, and a non-empty result is written without the listed columns. |
| Experience.ParseMonthYear | visual-exp.py:8-13 | A parsed date has a month of 1-12 and a year of 1-9999. |
| Experience.AcceptsMonthYear | visual-exp.py:8-13 | A full month name in any letter case, whitespace, and four digits parse to that month and year. |
| Experience.ParseIgnoresPadding | visual-exp.py:11 | Surrounding whitespace is stripped before parsing. |
| Experience.AbbreviationRejected | visual-exp.py:11-13 | A three-letter month abbreviation other than "May" is rejected. |
| Experience.UnparsedIsZero | visual-exp.py:15-18 | A date that does not parse gives a duration of 0. |
| Experience.Duration | visual-exp.py:15-19 | With both dates, the duration is the difference of their month numbers (12·year + month). The day is ignored. A missing date gives 0. |
| Experience.DurationAntisymmetric | visual-exp.py:15-19 | duration(a, b) = −duration(b, a). |
| Experience.DurationsAdd | visual-exp.py:19 | Durations of consecutive spans add up. |
| Experience.DurationSign | visual-exp.py:19 | There is no clamping: the duration is negative exactly when the end precedes the start, and zero exactly when they are the same month. |
| Experience.ExperienceTimeline | visual-exp.py:65-80 | One company, start date and duration per experience, in input order. |
| Experience.Timeline | visual-exp.py:73-79 | The loop builds the three lists entry by entry. |
| PyText.DecimalRoundTrip | jobs.py:69 | Reading back the decimal digits of n gives n. |
| PyText.SplitJoinSingleSpaced | jobs.py:57 | `' '.join(s.split())` leaves single-spaced text unchanged. |
| PyText.StripKeepsCharacters | jobs.py:60 | Every character of a stripped text is a character of the original. |
| PyText.StripIsSlice | jobs.py:60 | A stripped text is one contiguous slice of the original. |
| PyText.StrLessConcat | jobs.py:241 | String order on equal-length prefixes decides first. |

## Left out

- HTTP sessions, retries and headers, timeouts, `time.sleep` and random delays, and logging are not modelled. A request is the abstract `fetch`.
- BeautifulSoup is not modelled. A card is a map from a tag query to its first match, and a page is the cards each query finds.
- `html.unescape`, `str.isprintable` and `strptime` are the uninterpreted fields of `TextLibrary`. Whitespace is Python's full `str.isspace` set. Digits are narrowed to the ASCII digits, and `lower()` to the ASCII letters.
- The clock is the parameter `now`, in whole hours. `datetime.now()` and the dates before year 1 are modelled only as far as `DateBefore` says.
- The jobs.py `main()` input loop and the `create_ui`/`process_search` Gradio code of jobs-llm.py are UI, and are not modelled.
- Ollama, LangChain and the MarkItDown converter are oracles: a converter answer, or `None` when it raises. The temporary file is not modelled.
- A file object that MarkItDown has already consumed is not modelled. The traditional fallback reads the same pages.
- PyPDF2 and python-docx are not modelled. A file is its pages, paragraphs and table cells, or unreadable.
- In agentic-main.py's `parse_resume`, a file that fails to open is not modelled. Both resume readers there are given the document's contents.
- `jobspy.scrape_jobs` is the oracle `scrape`.
- pandas, `to_excel`, file names and timestamps are not modelled. A frame is a list of columns with their cells, and a sheet is a grid.
- `pd.concat` of several job frames in agentic-main.py is not modelled. The sheet has the fixed 11 columns of the categorised rows.
- `pd.to_datetime` and `strftime` of `date_posted` in outdated/main.py are not modelled: OutdatedMain.SearchJobs passes the cells through unchanged.
- `int()` accepting underscores and non-ASCII digits is not modelled. `ParseInt` strips surrounding whitespace as `int()` does, then accepts an optional sign and ASCII decimal digits only.
- The prompt text sent to the model is not modelled. Only the model's answer, or its failure, matters to the labels.
- Tk and Gradio widgets, `messagebox` and `log_progress` are not modelled. The form is a `SearchForm` value.
- `extract_skills_categories`, the skills plot, and all matplotlib and seaborn plotting in visual-exp.py are not modelled.
- Experience entries without a `company`, `start_date` or `end_date` key are not modelled. Each entry is a record with all three.
- `concurrent.futures` is imported but unused in jobs-llm.py, so there is no concurrency to model.

## Findings

| source | as written | input that shows it | evidently intended | confidence | as-written member | corrected member |
|---|---|---|---|---|---|---|
| jobs-llm.py:152 | `_parse_linkedin_card` calls `self.clean_text`, which this `JobScraper` does not define, so every card raises `AttributeError` inside the `try` and is dropped | any LinkedIn page with a job card | the text helpers of jobs.py, so that cards become records | not executed | LlmScraper.AsWrittenCollectsNothing | LlmScraper.WithHelpersMatchesJobsScraper |
| jobs-llm.py:197 | `self.chain.invoke` runs before `self.chain` is ever assigned, so the connection test always fails and the LLM is never available | any start-up, with Ollama running | build the prompt chain before testing it | not executed | LlmScraper.NeverAvailableAsWritten | LlmScraper.JobMatcher.constructor |
| main.py:86 | `scrape_jobs(**params)` with `params` never bound, so every search raises `NameError` and ends in the handler | any search | validate and build `params` as outdated/main.py does | not executed | MainApp.SearchJobsAsWritten | MainApp.CorrectedSearchJobs |
