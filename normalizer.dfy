/**
 * `JobScraper.clean_text` and `JobScraper.format_date` of jobs.py (and of its copy
 * outdated/jobs.py): the text normaliser applied to every scraped field, and the
 * relative/absolute date classifier applied to every posting date.
 */
module TextNormalizer {
  import opened Wrappers
  import opened PyText
  import opened Calendar

  /**
   * The library routines the normaliser calls and this model does not re-implement:
   * `html.unescape`, `str.isprintable`, and `datetime.strptime(text, format)` (with `None`
   * for its `ValueError`).
   */
  datatype TextLibrary = TextLibrary(
    unescape: string -> string,
    isPrintable: char -> bool,
    strptime: (string, string) -> Option<Date>)

  /** What `html.unescape` does to a string with no `&` in it: nothing. */
  ghost predicate UnescapeKeepsPlainText(lib: TextLibrary)
  {
    forall s :: '&' !in s ==> lib.unescape(s) == s
  }

  // ---------------------------------------------------------------- clean_text

  /** The shape of a cleaned value: all printable, plain spaces only, no whitespace at either end. */
  predicate Cleaned(r: string, lib: TextLibrary)
  {
    && (forall k :: 0 <= k < |r| ==> lib.isPrintable(r[k]))
    && PlainSpaces(r)
    && (r == [] || (!IsSpace(r[0]) && !IsSpace(r[|r| - 1])))
  }

  /**
   * `clean_text`: a missing or empty value becomes the sentinel `'N/A'`; otherwise the text is
   * unescaped, its whitespace runs collapsed to one space, its non-printable characters dropped
   * and the result stripped.  The result is all printable, holds no whitespace but plain spaces
   * and neither starts nor ends with whitespace.
   */
  function CleanText(text: Option<string>, lib: TextLibrary): (r: string)
    ensures text == None || text == Some("") ==> r == "N/A"
    ensures text != None && text != Some("") ==> Cleaned(r, lib)
  {
    if text == None || text == Some("") then "N/A"
    else
      var words := Words(lib.unescape(text.value));
      var collapsed := JoinSpaced(words);
      JoinSpacedShape(words);
      CleanCollapsed(collapsed, lib.isPrintable);
      Strip(Filter(collapsed, lib.isPrintable))
  }

  /** Filtering and stripping text whose only whitespace is plain spaces. */
  lemma CleanCollapsed(c: string, keep: char -> bool)
    requires PlainSpaces(c)
    ensures var r := Strip(Filter(c, keep));
      (forall k :: 0 <= k < |r| ==> keep(r[k])) && PlainSpaces(r)
  {
    var f := Filter(c, keep);
    FilterKeepsProperty(c, keep, ch => IsSpace(ch) ==> ch == ' ');
    StripIsSlice(f);
  }

  /** A value made only of whitespace is not "falsy" in Python: it comes back empty, not as `'N/A'`. */
  lemma CleanWhitespaceOnly(s: string, lib: TextLibrary)
    requires s != "" && AllSpace(s)
    requires UnescapeKeepsPlainText(lib)
    ensures CleanText(Some(s), lib) == ""
  {
    assert !IsSpace('&');
    assert '&' !in s;
  }

  /**
   * Text that is already clean comes back unchanged: non-empty, single-spaced, all printable
   * and left alone by `html.unescape`.  The scrapers' defaults 'N/A' and 'Not specified' are such
   * texts.
   */
  lemma CleanTextFixesCleanText(s: string, lib: TextLibrary)
    requires s != [] && SingleSpaced(s) && lib.unescape(s) == s
    requires forall k :: 0 <= k < |s| ==> lib.isPrintable(s[k])
    ensures CleanText(Some(s), lib) == s
  {
    SplitJoinSingleSpaced(s);
    FilterAllKept(s, lib.isPrintable);
    StripUnpadded(s);
  }

  lemma WordsOfThree(a: string, c: char, b: string)
    requires a != [] && NoSpace(a) && b != [] && NoSpace(b) && !IsSpace(c)
    ensures Words(a + (" " + ([c] + (" " + b)))) == [a, [c], b]
  {
    WordsOfWord(b, "");
    assert b + "" == b;
    WordsAfterSpace(b);
    WordsOfWord([c], " " + b);
    WordsAfterSpace([c] + (" " + b));
    WordsOfWord(a, " " + ([c] + (" " + b)));
  }

  /** Kept characters in front pass through the filter unchanged. */
  lemma FilterKeptPrefix(p: string, t: string, keep: char -> bool)
    requires forall k :: 0 <= k < |p| ==> keep(p[k])
    ensures Filter(p + t, keep) == p + Filter(t, keep)
  {
    FilterAllKept(p, keep);
    FilterAppend(p, t, keep);
  }

  lemma FilterDropsFirst(c: char, t: string, keep: char -> bool)
    requires !keep(c)
    ensures Filter([c] + t, keep) == Filter(t, keep)
  {
    assert ([c] + t)[0] == c && ([c] + t)[1..] == t;
  }

  lemma FilterOfThree(a: string, c: char, b: string, keep: char -> bool)
    requires !keep(c) && keep(' ')
    requires forall k :: 0 <= k < |a| ==> keep(a[k])
    requires forall k :: 0 <= k < |b| ==> keep(b[k])
    ensures Filter(a + (" " + ([c] + (" " + b))), keep) == a + (" " + (" " + b))
  {
    var t1 := " " + b;
    FilterAllKept(t1, keep);
    FilterDropsFirst(c, t1, keep);
    FilterKeptPrefix(" ", [c] + t1, keep);
    FilterKeptPrefix(a, " " + ([c] + t1), keep);
  }

  /**
   * Whitespace is collapsed before non-printables are dropped: a non-printable character standing
   * alone between two words disappears and leaves the two spaces around it.
   */
  lemma CleanTextCanLeaveDoubleSpace(a: string, c: char, b: string, lib: TextLibrary)
    requires a != [] && NoSpace(a) && b != [] && NoSpace(b) && !IsSpace(c)
    requires lib.unescape(a + (" " + ([c] + (" " + b)))) == a + (" " + ([c] + (" " + b)))
    requires !lib.isPrintable(c) && lib.isPrintable(' ')
    requires forall k :: 0 <= k < |a| ==> lib.isPrintable(a[k])
    requires forall k :: 0 <= k < |b| ==> lib.isPrintable(b[k])
    ensures CleanText(Some(a + (" " + ([c] + (" " + b)))), lib) == a + (" " + (" " + b))
  {
    WordsOfThree(a, c, b);
    JoinOfThree(a, c, b);
    FilterOfThree(a, c, b, lib.isPrintable);
    TwoSpacesUnpadded(a, b);
  }

  lemma TwoSpacesUnpadded(a: string, b: string)
    requires a != [] && NoSpace(a) && b != [] && NoSpace(b)
    ensures Strip(a + (" " + (" " + b))) == a + (" " + (" " + b))
  {
    var r := a + (" " + (" " + b));
    assert r[0] == a[0] && r[|r| - 1] == b[|b| - 1];
    StripUnpadded(r);
  }

  lemma JoinOfThree(a: string, c: char, b: string)
    ensures JoinSpaced([a, [c], b]) == a + (" " + ([c] + (" " + b)))
  {
    assert [a, [c], b][1..] == [[c], b];
    assert [[c], b][1..] == [b];
    assert JoinSpaced([[c], b]) == [c] + (" " + b);
  }

  // ---------------------------------------------------------------- format_date

  /**
   * `datetime.now() - timedelta(hours=back)` as a date.  An instant before `datetime.min`
   * raises `OverflowError`, which `format_date` catches by answering with today's date.
   */
  function DateBefore(now: int, back: int): (d: Date)
    ensures now - back >= MinHour ==> d == DateOfHour(now - back)
    ensures now - back < MinHour ==> d == DateOfHour(now)
  {
    if now - back < MinHour then DateOfHour(now) else DateOfHour(now - back)
  }

  /**
   * Hours per unit for an "… ago" text, by the first of 'day', 'hour', 'week', 'month' it
   * contains ('month' is 30 days); 0 when it names none of them.
   */
  function AgoUnitHours(s: string): nat
  {
    if Contains(s, "day") then 24
    else if Contains(s, "hour") then 1
    else if Contains(s, "week") then 7 * 24
    else if Contains(s, "month") then 30 * 24
    else 0
  }

  /** The absolute formats `format_date` tries, in order. */
  const AbsoluteFormats: seq<string> := ["%Y-%m-%d", "%b %d, %Y", "%d %b %Y", "%Y/%m/%d"]

  /**
   * What `datetime.strptime` guarantees of every date it returns: a year of 1 to 9999, a month
   * of 1 to 12 and a day of 1 to 31.
   */
  ghost predicate StrptimeInRange(lib: TextLibrary)
  {
    forall s, f :: lib.strptime(s, f).Some? ==> DatetimeRange(lib.strptime(s, f).value)
  }

  /**
   * The date from the first of `formats` that parses `s`: a date some format gave, and nothing
   * only when every format fails.
   */
  function FirstParse(s: string, formats: seq<string>, lib: TextLibrary): (r: Option<Date>)
    ensures r.Some? ==> exists i :: 0 <= i < |formats| && lib.strptime(s, formats[i]) == r
    ensures r.None? ==> forall i :: 0 <= i < |formats| ==> lib.strptime(s, formats[i]).None?
  {
    if formats == [] then None
    else match lib.strptime(s, formats[0])
      case Some(d) => Some(d)
      case None => FirstParse(s, formats[1..], lib)
  }

  /**
   * `format_date(date_str)` with the clock reading `now` (whole local hours since
   * 1970-01-01 00:00): the date the text denotes, never an error.
   */
  function FormatDate(dateStr: string, now: int, lib: TextLibrary): Date
  {
    var s := Strip(Lower(dateStr));
    if Contains(s, "ago") then
      match FirstDigitRun(s)
      case None => DateOfHour(now)
      case Some(ds) => DateBefore(now, AgoUnitHours(s) * DecimalValue(ds))
    else if Contains(s, "today") then DateOfHour(now)
    else if Contains(s, "yesterday") then DateBefore(now, 24)
    else match FirstParse(s, AbsoluteFormats, lib)
      case Some(d) => d
      case None => DateOfHour(now)
  }

  // ---------------------------------------------------------------- facts about format_date

  /**
   * While the clock reads a day between 0001-01-01 and 9999-12-31 and `strptime` behaves, every
   * date `format_date` answers is one `datetime` can hold, and renders as a ten-character
   * `'%Y-%m-%d'` text.
   */
  lemma FormatDateInRange(dateStr: string, now: int, lib: TextLibrary)
    requires StrptimeInRange(lib) && MinHour <= now < MaxHour
    ensures DatetimeRange(FormatDate(dateStr, now, lib)) && IsoRange(FormatDate(dateStr, now, lib))
  {
    var d := FormatDate(dateStr, now, lib);
    var back := FormatDateSource(dateStr, now, lib);
    DateBeforeInRange(now, back);
    AbsoluteDateInRange(Strip(Lower(dateStr)), lib);
  }

  /**
   * Where the date `format_date` answers comes from: some number of hours before the clock
   * reading (none for "today" and for a text it cannot read), or an absolute format.
   */
  lemma FormatDateSource(dateStr: string, now: int, lib: TextLibrary) returns (back: nat)
    ensures var d := FormatDate(dateStr, now, lib);
      d == DateBefore(now, back) || FirstParse(Strip(Lower(dateStr)), AbsoluteFormats, lib) == Some(d)
  {
    var s := Strip(Lower(dateStr));
    var d := FormatDate(dateStr, now, lib);
    back := 0;
    assert DateBefore(now, 0) == DateOfHour(now);
    if Contains(s, "ago") {
      match FirstDigitRun(s)
      case None =>
        assert d == DateOfHour(now);
      case Some(ds) =>
        HoursBack(AgoUnitHours(s), DecimalValue(ds));
        back := AgoUnitHours(s) * DecimalValue(ds);
        assert d == DateBefore(now, back);
    } else if Contains(s, "today") {
      assert d == DateOfHour(now);
    } else if Contains(s, "yesterday") {
      back := 24;
      assert d == DateBefore(now, 24);
    } else {
      match FirstParse(s, AbsoluteFormats, lib)
      case Some(p) =>
        assert d == p;
      case None =>
        assert d == DateOfHour(now);
    }
  }

  /** A count of units of whole hours is a whole number of hours. */
  lemma HoursBack(unit: nat, count: nat)
    ensures unit * count >= 0
  {
  }

  /** A date one of the absolute formats parses comes from `strptime`, so it is in range. */
  lemma AbsoluteDateInRange(s: string, lib: TextLibrary)
    requires StrptimeInRange(lib)
    ensures FirstParse(s, AbsoluteFormats, lib).Some? ==> DatetimeRange(FirstParse(s, AbsoluteFormats, lib).value)
  {
    if FirstParse(s, AbsoluteFormats, lib).Some? {
      var i :| 0 <= i < |AbsoluteFormats| && lib.strptime(s, AbsoluteFormats[i]) == FirstParse(s, AbsoluteFormats, lib);
      assert lib.strptime(s, AbsoluteFormats[i]).Some?;
    }
  }

  /** Going back from a clock reading in years 1-9999 stays in years 1-9999 (or falls back to the reading). */
  lemma DateBeforeInRange(now: int, back: nat)
    requires MinHour <= now < MaxHour
    ensures DatetimeRange(DateBefore(now, back)) && IsoRange(DateBefore(now, back))
  {
    DateOfHourInRange(now);
    if now - back >= MinHour {
      DateOfHourInRange(now - back);
    }
  }

  lemma LowerAppend(a: string, b: string)
    ensures Lower(a + b) == Lower(a) + Lower(b)
  {
  }

  lemma LowerDigits(ds: string)
    requires AllDigits(ds)
    ensures Lower(ds) == ds
  {
  }

  lemma {:induction false} MatchesAtShift(p: string, s: string, t: string, i: nat, j: nat)
    ensures MatchesAt(p + s, t, |p| + i, j) <==> MatchesAt(s, t, i, j)
    decreases |t| - j
  {
    if j < |t| {
      MatchesAtShift(p, s, t, i, j + 1);
      if i + j < |s| {
        assert (p + s)[|p| + i + j] == s[i + j];
      }
    }
  }

  lemma {:induction false} ContainsFromShift(p: string, s: string, t: string, i: nat)
    ensures ContainsFrom(p + s, t, |p| + i) <==> ContainsFrom(s, t, i)
    decreases |s| - i
  {
    MatchesAtShift(p, s, t, i, 0);
    if i + |t| <= |s| {
      ContainsFromShift(p, s, t, i + 1);
    }
  }

  /** A word that starts with a letter is never found inside a run of digits in front of the text. */
  lemma {:induction false} ContainsAfterDigits(ds: string, s: string, t: string, i: nat)
    requires AllDigits(ds) && i <= |ds|
    requires t != [] && !IsDigit(t[0])
    ensures ContainsFrom(ds + s, t, i) <==> Contains(s, t)
    decreases |ds| - i
  {
    if i < |ds| {
      assert !MatchesAt(ds + s, t, i, 0) by {
        assert (ds + s)[i] == ds[i];
      }
      ContainsAfterDigits(ds, s, t, i + 1);
    } else {
      ContainsFromShift(ds, s, t, 0);
    }
  }

  lemma {:induction false} DigitRunOfDigitsFirst(ds: string, s: string)
    requires AllDigits(ds)
    requires s != [] && !IsDigit(s[0])
    ensures DigitRunLength(ds + s) == |ds|
  {
    if ds != [] {
      assert (ds + s)[1..] == ds[1..] + s;
      DigitRunOfDigitsFirst(ds[1..], s);
    }
  }

  /** A lower-case relative-date suffix: it starts with a non-digit, ends in a non-space and says "ago". */
  predicate AgoSuffix(suffix: string)
  {
    && suffix != [] && !IsDigit(suffix[0]) && !IsSpace(suffix[|suffix| - 1])
    && Lower(suffix) == suffix && Contains(suffix, "ago")
  }

  /** A number followed by such a suffix is already lower case and stripped. */
  lemma AgoTextNormal(ds: string, suffix: string)
    requires ds != [] && AllDigits(ds) && AgoSuffix(suffix)
    ensures Strip(Lower(ds + suffix)) == ds + suffix
  {
    var s := ds + suffix;
    LowerAppend(ds, suffix);
    LowerDigits(ds);
    assert StripLeft(s) == s by { assert !IsSpace(s[0]); }
    assert StripRight(s) == s by { assert s[|s| - 1] == suffix[|suffix| - 1]; }
  }

  /** The unit words are looked for in the suffix only, and the number is the first digit run. */
  lemma AgoTextParts(ds: string, suffix: string)
    requires ds != [] && AllDigits(ds) && AgoSuffix(suffix)
    ensures Contains(ds + suffix, "ago")
    ensures AgoUnitHours(ds + suffix) == AgoUnitHours(suffix)
    ensures FirstDigitRun(ds + suffix) == Some(ds)
  {
    var s := ds + suffix;
    ContainsAfterDigits(ds, suffix, "ago", 0);
    ContainsAfterDigits(ds, suffix, "day", 0);
    ContainsAfterDigits(ds, suffix, "hour", 0);
    ContainsAfterDigits(ds, suffix, "week", 0);
    ContainsAfterDigits(ds, suffix, "month", 0);
    DigitRunOfDigitsFirst(ds, suffix);
    assert IsDigit(s[0]);
    assert s[..|ds|] == ds;
  }

  /**
   * The relative-date rule for a text `N` + `suffix`: with `suffix` lower case, starting with a
   * non-digit, ending in a non-space and containing "ago", the date is `N` units before now.
   */
  lemma AgoText(ds: string, suffix: string, now: int, lib: TextLibrary)
    requires ds != [] && AllDigits(ds) && AgoSuffix(suffix)
    ensures FormatDate(ds + suffix, now, lib) == DateBefore(now, AgoUnitHours(suffix) * DecimalValue(ds))
  {
    AgoTextNormal(ds, suffix);
    AgoTextParts(ds, suffix);
  }

  lemma DaysSuffix()
    ensures AgoSuffix(" days ago") && AgoUnitHours(" days ago") == 24
  {
    var s := " days ago";
    assert Lower(s) == s;
    SliceContained(s, "ago", 6, 0);
    SliceContained(s, "day", 1, 0);
  }

  lemma HoursSuffix()
    ensures AgoSuffix(" hours ago") && AgoUnitHours(" hours ago") == 1
  {
    var s := " hours ago";
    assert Lower(s) == s;
    SliceContained(s, "ago", 7, 0);
    HoursUnit();
  }

  lemma HoursUnit()
    ensures AgoUnitHours(" hours ago") == 1
  {
    var s := " hours ago";
    MissingCharNotContained(s, "day", 0, 0);
    SliceContained(s, "hour", 1, 0);
  }

  lemma WeeksSuffix()
    ensures AgoSuffix(" weeks ago") && AgoUnitHours(" weeks ago") == 7 * 24
  {
    var s := " weeks ago";
    assert Lower(s) == s;
    SliceContained(s, "ago", 7, 0);
    WeeksUnit();
  }

  lemma WeeksUnit()
    ensures AgoUnitHours(" weeks ago") == 7 * 24
  {
    var s := " weeks ago";
    MissingCharNotContained(s, "day", 0, 0);
    MissingCharNotContained(s, "hour", 0, 0);
    SliceContained(s, "week", 1, 0);
  }

  lemma MonthsSuffix()
    ensures AgoSuffix(" months ago") && AgoUnitHours(" months ago") == 30 * 24
  {
    var s := " months ago";
    assert Lower(s) == s;
    SliceContained(s, "ago", 8, 0);
    MonthsUnit();
  }

  lemma MonthsUnit()
    ensures AgoUnitHours(" months ago") == 30 * 24
  {
    var s := " months ago";
    MissingCharNotContained(s, "day", 0, 0);
    MissingCharNotContained(s, "hour", 2, 0);
    MissingCharNotContained(s, "week", 0, 0);
    assert s[1..6] == "month";
    SliceContained(s, "month", 1, 0);
  }

  /** "N days ago" is the date N days before now (as long as that is not before year 1). */
  lemma DaysAgo(n: nat, now: int, lib: TextLibrary)
    ensures FormatDate(DecimalString(n) + " days ago", now, lib) == DateBefore(now, 24 * n)
  {
    DaysSuffix();
    DecimalRoundTrip(n);
    AgoText(DecimalString(n), " days ago", now, lib);
  }

  /** "N hours ago" is the date of the instant N hours before now. */
  lemma HoursAgo(n: nat, now: int, lib: TextLibrary)
    ensures FormatDate(DecimalString(n) + " hours ago", now, lib) == DateBefore(now, n)
  {
    HoursSuffix();
    DecimalRoundTrip(n);
    AgoText(DecimalString(n), " hours ago", now, lib);
  }

  /** "N weeks ago" is the date 7·N days before now. */
  lemma WeeksAgo(n: nat, now: int, lib: TextLibrary)
    ensures FormatDate(DecimalString(n) + " weeks ago", now, lib) == DateBefore(now, 7 * 24 * n)
  {
    WeeksSuffix();
    DecimalRoundTrip(n);
    AgoText(DecimalString(n), " weeks ago", now, lib);
  }

  /** "N months ago" is the date exactly 30·N days before now. */
  lemma MonthsAgo(n: nat, now: int, lib: TextLibrary)
    ensures FormatDate(DecimalString(n) + " months ago", now, lib) == DateBefore(now, 30 * 24 * n)
  {
    MonthsSuffix();
    DecimalRoundTrip(n);
    AgoText(DecimalString(n), " months ago", now, lib);
  }

  /** Once the text contains "ago", the absolute formats are never consulted. */
  lemma AgoIgnoresAbsoluteFormats(dateStr: string, now: int, lib: TextLibrary, lib': TextLibrary)
    requires Contains(Strip(Lower(dateStr)), "ago")
    requires lib.unescape == lib'.unescape && lib.isPrintable == lib'.isPrintable
    ensures FormatDate(dateStr, now, lib) == FormatDate(dateStr, now, lib')
  {
  }

  /** An "ago" text without any digit is the `IndexError` path: today's date. */
  lemma AgoWithoutNumberIsToday(dateStr: string, now: int, lib: TextLibrary)
    requires Contains(Strip(Lower(dateStr)), "ago")
    requires forall k :: 0 <= k < |dateStr| ==> !IsDigit(dateStr[k])
    ensures FormatDate(dateStr, now, lib) == DateOfHour(now)
  {
    var s := Strip(Lower(dateStr));
    assert forall k :: 0 <= k < |Lower(dateStr)| ==> !IsDigit(Lower(dateStr)[k]);
    StripKeepsCharacters(Lower(dateStr));
  }

  lemma {:induction false} FirstParseNone(s: string, formats: seq<string>, lib: TextLibrary)
    requires forall i :: 0 <= i < |formats| ==> lib.strptime(s, formats[i]) == None
    ensures FirstParse(s, formats, lib) == None
  {
    if formats != [] {
      FirstParseNone(s, formats[1..], lib);
    }
  }

  lemma {:induction false} FirstParseFirstSuccess(s: string, formats: seq<string>, lib: TextLibrary, i: nat)
    requires i < |formats| && lib.strptime(s, formats[i]).Some?
    requires forall j :: 0 <= j < i ==> lib.strptime(s, formats[j]) == None
    ensures FirstParse(s, formats, lib) == lib.strptime(s, formats[i])
  {
    if i > 0 {
      FirstParseFirstSuccess(s, formats[1..], lib, i - 1);
    }
  }

  /** A text that is neither relative, nor "today"/"yesterday", nor in any known format: today's date. */
  lemma UnrecognisedIsToday(dateStr: string, now: int, lib: TextLibrary)
    requires var s := Strip(Lower(dateStr));
      && !Contains(s, "ago") && !Contains(s, "today") && !Contains(s, "yesterday")
      && forall f :: f in AbsoluteFormats ==> lib.strptime(s, f) == None
    ensures FormatDate(dateStr, now, lib) == DateOfHour(now)
  {
    FirstParseNone(Strip(Lower(dateStr)), AbsoluteFormats, lib);
  }

  /** The absolute formats are tried in order and the first one that parses decides. */
  lemma FirstAbsoluteFormatWins(dateStr: string, now: int, lib: TextLibrary, i: nat)
    requires var s := Strip(Lower(dateStr));
      && !Contains(s, "ago") && !Contains(s, "today") && !Contains(s, "yesterday")
      && i < |AbsoluteFormats| && lib.strptime(s, AbsoluteFormats[i]).Some?
      && forall j :: 0 <= j < i ==> lib.strptime(s, AbsoluteFormats[j]) == None
    ensures FormatDate(dateStr, now, lib) == lib.strptime(Strip(Lower(dateStr)), AbsoluteFormats[i]).value
  {
    FirstParseFirstSuccess(Strip(Lower(dateStr)), AbsoluteFormats, lib, i);
  }

  lemma TodayWords()
    ensures !Contains("today", "ago") && Contains("today", "today")
  {
  }

  lemma YesterdayWords()
    ensures !Contains("yesterday", "ago") && !Contains("yesterday", "today") && Contains("yesterday", "yesterday")
  {
  }

  /** "today", in any letter case and padding, names today's date. */
  lemma Today(dateStr: string, now: int, lib: TextLibrary)
    requires Strip(Lower(dateStr)) == "today"
    ensures FormatDate(dateStr, now, lib) == DateOfHour(now)
  {
    TodayWords();
  }

  /** "yesterday", in any letter case and padding, names the day of the instant 24 hours ago. */
  lemma Yesterday(dateStr: string, now: int, lib: TextLibrary)
    requires Strip(Lower(dateStr)) == "yesterday"
    ensures FormatDate(dateStr, now, lib) == DateBefore(now, 24)
  {
    YesterdayWords();
  }
}
