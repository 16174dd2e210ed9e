/**
 * One scraped posting, as the scrapers of jobs.py (and outdated/jobs.py, jobs-llm.py) store it in
 * `jobs_data`: a dictionary with seven text fields, which `pd.DataFrame` turns into one row whose
 * columns follow the keys' insertion order.
 */
module JobRecords {
  datatype JobRecord = JobRecord(
    platform: string,
    title: string,
    company: string,
    location: string,
    datePosted: string,
    link: string,
    salary: string)

  /** The frame's columns, in the order the record dictionaries are written. */
  const ColumnNames: seq<string> := ["platform", "title", "company", "location", "date_posted", "link", "salary"]

  /** The cells of one row, column by column. */
  function RowCells(r: JobRecord): (cells: seq<string>)
    ensures |cells| == |ColumnNames|
    ensures cells[0] == r.platform && cells[4] == r.datePosted
  {
    [r.platform, r.title, r.company, r.location, r.datePosted, r.link, r.salary]
  }
}
