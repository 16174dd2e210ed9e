/**
 * visual-exp.py: the month-and-year dates of a resume's experience entries and the length of each
 * entry in months, as `create_experience_timeline` lays them out before plotting.
 */
module Experience {
  import opened Wrappers
  import opened PyText
  import opened Calendar

  /** What `strptime(..., '%B %Y')` yields: a month of a year (the day is always the first). */
  datatype MonthYear = MonthYear(year: int, month: int)

  /** The full month names `%B` accepts, compared without regard to letter case. */
  const MonthNames: seq<string> :=
    ["january", "february", "march", "april", "may", "june", "july", "august",
     "september", "october", "november", "december"]

  /** The position of `x` in `xs`. */
  function IndexOf(xs: seq<string>, x: string): (i: nat)
    requires x in xs
    ensures i < |xs| && xs[i] == x
    ensures forall j :: 0 <= j < i ==> xs[j] != x
  {
    if xs[0] == x then 0 else 1 + IndexOf(xs[1..], x)
  }

  /**
   * `parse_date`: after stripping, a full month name (any letter case), a run of whitespace and
   * exactly four ASCII digits naming a year from 1 on; `None` for anything else.
   */
  function ParseMonthYear(s: string): (r: Option<MonthYear>)
    ensures r.Some? ==> 1 <= r.value.month <= 12 && 1 <= r.value.year <= 9999
  {
    var t := Strip(s);
    var k := WordLength(t);
    MonthInRange(t[..k]);
    YearInRange(t[k..]);
    match (MonthOf(t[..k]), YearOf(t[k..]))
    case (Some(month), Some(year)) => Some(MonthYear(year, month))
    case _ => None
  }

  /** `%B`: the number of a full month name in any letter case. */
  function MonthOf(word: string): Option<int>
  {
    if Lower(word) in MonthNames then Some(IndexOf(MonthNames, Lower(word)) + 1) else None
  }

  /** `\s+%Y`: at least one whitespace character, then exactly four digits naming a year from 1 on. */
  function YearOf(rest: string): Option<int>
  {
    var digits := StripLeft(rest);
    if |digits| < |rest| && |digits| == 4 && AllDigits(digits) && DecimalValue(digits) >= 1
    then Some(DecimalValue(digits))
    else None
  }

  /**
   * `calculate_duration`: whole months from start to end, the difference of their month numbers
   * (the day plays no part); 0 when either date is missing.
   */
  function Duration(start: Option<MonthYear>, end: Option<MonthYear>): (months: int)
    ensures start.None? || end.None? ==> months == 0
    ensures start.Some? && end.Some? ==> months == MonthNumber(end.value) - MonthNumber(start.value)
  {
    if start.None? || end.None? then 0
    else (end.value.year - start.value.year) * 12 + (end.value.month - start.value.month)
  }

  // ---------------------------------------------------------------- parsing

  lemma {:induction false} DecimalBelow(ds: string)
    requires AllDigits(ds)
    ensures DecimalValue(ds) < Pow10(|ds|)
  {
    if ds != [] {
      DecimalBelow(ds[..|ds| - 1]);
    }
  }

  lemma MonthInRange(word: string)
    ensures MonthOf(word).Some? ==> 1 <= MonthOf(word).value <= 12
  {
  }

  lemma YearInRange(rest: string)
    ensures YearOf(rest).Some? ==> 1 <= YearOf(rest).value <= 9999
  {
    if YearOf(rest).Some? {
      DecimalBelow(StripLeft(rest));
      assert Pow10(4) == 10000;
    }
  }

  lemma MonthNamesAreWords()
    ensures forall i :: 0 <= i < |MonthNames| ==> MonthNames[i] != [] && NoSpace(MonthNames[i])
  {
    forall i | 0 <= i < |MonthNames|
      ensures MonthNames[i] != [] && NoSpace(MonthNames[i])
    {
      var w := MonthNames[i];
      assert forall k :: 0 <= k < |w| ==> 'a' <= w[k] <= 'z';
    }
  }

  /** Lower-casing never turns a non-space into a space. */
  lemma LowerKeepsSpaces(w: string)
    requires NoSpace(Lower(w))
    ensures NoSpace(w)
  {
    forall k | 0 <= k < |w|
      ensures !IsSpace(w[k])
    {
      assert Lower(w)[k] == LowerChar(w[k]);
    }
  }

  /** The year part: whitespace and then four digits. */
  lemma YearAfterGap(gap: string, digits: string)
    requires gap != [] && AllSpace(gap)
    requires |digits| == 4 && AllDigits(digits) && DecimalValue(digits) >= 1
    ensures YearOf(gap + digits) == Some(DecimalValue(digits))
  {
    StripLeftSpaces(gap, digits);
    assert !IsSpace(digits[0]);
    assert StripLeft(digits) == digits;
  }

  /** A month name cut off at the first whitespace. */
  lemma FirstWordIsName(name: string, rest: string)
    requires Lower(name) in MonthNames && rest != [] && IsSpace(rest[0])
    ensures var t := name + rest; WordLength(t) == |name| && t[..|name|] == name && t[|name|..] == rest
    ensures name != [] && !IsSpace(name[0])
  {
    MonthNamesAreWords();
    LowerKeepsSpaces(name);
    WordLengthOfWord(name, rest);
    assert (name + rest)[..|name|] == name;
  }

  /** A stripped text whose first word is a month name splits into the name and the rest. */
  lemma ParseAtFirstWord(name: string, rest: string)
    requires Lower(name) in MonthNames && rest != [] && IsSpace(rest[0])
    requires Strip(name + rest) == name + rest
    ensures ParseMonthYear(name + rest) ==
      match YearOf(rest)
      case Some(year) => Some(MonthYear(year, IndexOf(MonthNames, Lower(name)) + 1))
      case None => None
  {
    FirstWordIsName(name, rest);
  }

  lemma UnpaddedMonthYear(name: string, gap: string, digits: string)
    requires name != [] && !IsSpace(name[0]) && |digits| == 4 && AllDigits(digits)
    ensures Strip(name + (gap + digits)) == name + (gap + digits)
  {
    var t := name + (gap + digits);
    assert t[0] == name[0];
    assert t[|t| - 1] == digits[3];
    assert IsDigit(digits[3]);
    StripUnpadded(t);
  }

  /**
   * Every month name in any letter case, followed by whitespace and a four-digit year from 1 on,
   * is read as that month of that year.
   */
  lemma AcceptsMonthYear(name: string, gap: string, digits: string)
    requires Lower(name) in MonthNames
    requires gap != [] && AllSpace(gap)
    requires |digits| == 4 && AllDigits(digits) && DecimalValue(digits) >= 1
    ensures ParseMonthYear(name + gap + digits)
         == Some(MonthYear(DecimalValue(digits), IndexOf(MonthNames, Lower(name)) + 1))
  {
    assert name + gap + digits == name + (gap + digits);
    FirstWordIsName(name, gap + digits);
    UnpaddedMonthYear(name, gap, digits);
    ParseAtFirstWord(name, gap + digits);
    YearAfterGap(gap, digits);
  }

  lemma StripIdempotent(s: string)
    ensures Strip(Strip(s)) == Strip(s)
  {
    if Strip(s) != [] {
      StripUnpadded(Strip(s));
    }
  }

  /** Surrounding whitespace is stripped before parsing. */
  lemma ParseIgnoresPadding(s: string)
    ensures ParseMonthYear(Strip(s)) == ParseMonthYear(s)
  {
    StripIdempotent(s);
  }

  /** Abbreviated month names are not accepted: "May" is the only three-letter name. */
  lemma AbbreviationRejected(word: string)
    requires |word| == 3 && Lower(word) != "may"
    ensures MonthOf(word) == None
  {
    assert |Lower(word)| == 3;
  
  }

  // ---------------------------------------------------------------- durations

  /** The month count from year 0 of a date: the reference the duration is measured on. */
  function MonthNumber(d: MonthYear): int
  {
    12 * d.year + d.month
  }

  /** Swapping the dates negates the duration, a missing date included. */
  lemma DurationAntisymmetric(a: Option<MonthYear>, b: Option<MonthYear>)
    ensures Duration(a, b) == -Duration(b, a)
  {
  }

  /** Durations add up along a chain of dates. */
  lemma DurationsAdd(a: MonthYear, b: MonthYear, c: MonthYear)
    ensures Duration(Some(a), Some(b)) + Duration(Some(b), Some(c)) == Duration(Some(a), Some(c))
  {
  }

  /** The duration is negative exactly when the end month comes before the start month; nothing clamps it. */
  lemma DurationSign(start: MonthYear, end: MonthYear)
    requires 1 <= start.month <= 12 && 1 <= end.month <= 12
    ensures Duration(Some(start), Some(end)) < 0 <==>
      end.year < start.year || (end.year == start.year && end.month < start.month)
    ensures Duration(Some(start), Some(end)) == 0 <==> end == start
  {
  }

  /** An entry whose start or end does not parse counts zero months. */
  lemma UnparsedIsZero(start: string, end: string)
    requires ParseMonthYear(start).None? || ParseMonthYear(end).None?
    ensures Duration(ParseMonthYear(start), ParseMonthYear(end)) == 0
  {
  }

  // ---------------------------------------------------------------- the timeline

  datatype ExperienceEntry = ExperienceEntry(company: string, startDate: string, endDate: string)

  /** `create_experience_timeline`: one company, duration and start per entry, in order. */
  method ExperienceTimeline(experiences: seq<ExperienceEntry>)
    returns (companies: seq<string>, durations: seq<int>, startDates: seq<Option<MonthYear>>)
    ensures |companies| == |durations| == |startDates| == |experiences|
    ensures forall i :: 0 <= i < |experiences| ==>
      && companies[i] == experiences[i].company
      && startDates[i] == ParseMonthYear(experiences[i].startDate)
      && durations[i] == Duration(ParseMonthYear(experiences[i].startDate), ParseMonthYear(experiences[i].endDate))
  {
    companies, durations, startDates := Timeline(experiences, ParseMonthYear);
  }

  /** The loop of the timeline, over whatever date reader it is given. */
  method Timeline(experiences: seq<ExperienceEntry>, parse: string -> Option<MonthYear>)
    returns (companies: seq<string>, durations: seq<int>, startDates: seq<Option<MonthYear>>)
    ensures |companies| == |durations| == |startDates| == |experiences|
    ensures forall i :: 0 <= i < |experiences| ==>
      && companies[i] == experiences[i].company
      && startDates[i] == parse(experiences[i].startDate)
      && durations[i] == Duration(parse(experiences[i].startDate), parse(experiences[i].endDate))
  {
    companies, durations, startDates := [], [], [];
    for i := 0 to |experiences|
      invariant |companies| == |durations| == |startDates| == i
      invariant forall j :: 0 <= j < i ==>
        && companies[j] == experiences[j].company
        && startDates[j] == parse(experiences[j].startDate)
        && durations[j] == Duration(parse(experiences[j].startDate), parse(experiences[j].endDate))
    {
      var exp := experiences[i];
      companies := companies + [exp.company];
      var start := parse(exp.startDate);
      var end := parse(exp.endDate);
      durations := durations + [Duration(start, end)];
      startDates := startDates + [start];
    }
  }
}
