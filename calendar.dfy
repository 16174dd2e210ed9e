/**
 * The integer arithmetic behind the day-number conversion of `Calendar`: where a day of a
 * 400-year era (counted from 1 March of year 0 of the era) falls.
 */
module EraArithmetic {
  /**
   * The year of a 400-year era (from 1 March) and the day of that year (from 1 March) that a day
   * of the era falls on: at most 399 years in, and at most 365 days into the year.
   */
  lemma DayOfEraFields(doe: int)
    requires 0 <= doe < 146097
    ensures var yoe := (doe - doe / 1460 + doe / 36524 - doe / 146096) / 365;
      && 0 <= yoe <= 399
      && 0 <= doe - (365 * yoe + yoe / 4 - yoe / 100) <= 365
  {
    var leaps, century, eraEnd := doe / 1460, doe / 36524, doe / 146096;
    var n := doe - leaps + century - eraEnd;
    var yoe := n / 365;
    YearOfEraRange(doe, century);
    NestedDivision(n);
    LeapCount(doe, n);
    if eraEnd == 1 {
      assert doe == 146096;
    } else {
      assert yoe / 100 == century;
      assert n == 365 * yoe + n % 365;
    }
  }

  /** The year of the era lies in the century (of 36524 days) the day falls in. */
  lemma YearOfEraRange(doe: int, century: int)
    requires 0 <= doe < 146097 && doe / 36524 == century
    ensures var yoe := (doe - doe / 1460 + century - doe / 146096) / 365;
      0 <= yoe <= 399 && (yoe / 100 == century || (century == 4 && yoe == 399))
  {
  }

  /** Counting whole years and then whole four-year cycles is counting four-year cycles. */
  lemma NestedDivision(n: int)
    requires 0 <= n
    ensures n / 365 / 4 == n / 1460
  {
  }

  /** Removing the leap days of an era moves the day back by at most one four-year cycle. */
  lemma LeapCount(doe: int, n: int)
    requires 0 <= doe < 146097 && n == doe - doe / 1460 + doe / 36524 - doe / 146096
    ensures doe / 1460 - 1 <= n / 1460 <= doe / 1460
  {
  }
}

/**
 * Calendar dates as the scrapers write them: `datetime` instants reduced to a day, and the
 * `'%Y-%m-%d'` text that `strftime` renders and that the export sorts as plain strings.
 */
module Calendar {
  import opened PyText
  import opened EraArithmetic

  datatype Date = Date(year: int, month: int, day: int)

  /** Chronological order of calendar dates. */
  predicate DateLess(a: Date, b: Date)
  {
    || a.year < b.year
    || (a.year == b.year && a.month < b.month)
    || (a.year == b.year && a.month == b.month && a.day < b.day)
  }

  /**
   * The proleptic Gregorian date of a day number counted from 1970-01-01
   * (H. Hinnant's `civil_from_days`).  `/` and `%` by a positive constant are floor
   * division and modulus, as the algorithm needs.
   */
  function CivilFromDays(days: int): (d: Date)
    ensures 1 <= d.month <= 12 && 1 <= d.day <= 31
    ensures 0 <= days + 719468 < 24 * 146097 ==> 0 <= d.year <= 9600
  {
    var z := days + 719468;
    var era := z / 146097;
    var doe := z % 146097;
    var yoe := (doe - doe / 1460 + doe / 36524 - doe / 146096) / 365;
    var doy := doe - (365 * yoe + yoe / 4 - yoe / 100);
    DayOfEraFields(doe);
    var mp := (5 * doy + 2) / 153;
    var d := doy - (153 * mp + 2) / 5 + 1;
    var m := if mp < 10 then mp + 3 else mp - 9;
    Date(if m <= 2 then yoe + era * 400 + 1 else yoe + era * 400, m, d)
  }

  /** The calendar date of a local instant given as whole hours since 1970-01-01 00:00. */
  function DateOfHour(hour: int): Date
  {
    CivilFromDays(hour / 24)
  }

  /** `datetime.min` (0001-01-01 00:00) in hours since 1970-01-01 00:00. */
  const MinHour: int := -719162 * 24

  /** The first hour of 10000-01-01, just past `datetime.max`; a clock reads earlier than that. */
  const MaxHour: int := 2932897 * 24

  /** The dates a `datetime` can hold: years 1-9999, with a month and a day of the month. */
  predicate DatetimeRange(d: Date)
  {
    1 <= d.year <= 9999 && 1 <= d.month <= 12 && 1 <= d.day <= 31
  }

  /**
   * The day numbers from 0001-01-01 up to 9999-12-31 fall in years 1-9999: the first 306 days
   * of era 0 (from 0000-03-01) are year 0, and the last 60 days of era 24 are year 10000.
   */
  lemma CivilYearInRange(days: int)
    requires -719162 <= days < 2932897
    ensures 1 <= CivilFromDays(days).year <= 9999
  {
    var z := days + 719468;
    var era := z / 146097;
    var doe := z % 146097;
    var yoe := (doe - doe / 1460 + doe / 36524 - doe / 146096) / 365;
    var doy := doe - (365 * yoe + yoe / 4 - yoe / 100);
    DayOfEraFields(doe);
    var mp := (5 * doy + 2) / 153;
    assert 0 <= era <= 24;
    if era == 0 && yoe == 0 {
      assert doe == z && doy == doe && 306 <= doy;
      assert 10 <= mp;
    }
    if era == 24 && yoe == 399 {
      assert doe < 146037 && doy < 306;
      assert mp < 10;
    }
  }

  /** Every instant from `datetime.min` on, before 10000-01-01, falls on a date `datetime` can hold. */
  lemma DateOfHourInRange(hour: int)
    requires MinHour <= hour < MaxHour
    ensures DatetimeRange(DateOfHour(hour)) && IsoRange(DateOfHour(hour))
  {
    CivilYearInRange(hour / 24);
  }

  function Pow10(w: nat): nat
  {
    if w == 0 then 1 else 10 * Pow10(w - 1)
  }

  /** `n` written with exactly `w` decimal digits, zero-padded on the left. */
  function FixedDigits(n: int, w: nat): (ds: string)
    ensures |ds| == w && AllDigits(ds)
    decreases w
  {
    if w == 0 then "" else FixedDigits(n / 10, w - 1) + [DigitChar(n % 10)]
  }

  /** `date.strftime('%Y-%m-%d')` */
  function IsoDate(d: Date): string
  {
    FixedDigits(d.year, 4) + ("-" + (FixedDigits(d.month, 2) + ("-" + FixedDigits(d.day, 2))))
  }

  /** The field ranges that fit the zero-padded widths of `IsoDate`. */
  predicate IsoRange(d: Date)
  {
    0 <= d.year < 10000 && 0 <= d.month < 100 && 0 <= d.day < 100
  }

  lemma StrLessSingle(x: char, y: char)
    ensures StrLess([x], [y]) <==> x < y
  {
    assert [x][1..] == [] && [y][1..] == [];
  }

  /** Zero-padded numbers of one width compare as strings exactly as they compare as numbers. */
  lemma {:induction false} FixedDigitsOrder(n: int, m: int, w: nat)
    requires 0 <= n < Pow10(w) && 0 <= m < Pow10(w)
    ensures StrLess(FixedDigits(n, w), FixedDigits(m, w)) <==> n < m
    ensures FixedDigits(n, w) == FixedDigits(m, w) <==> n == m
  {
    if w > 0 {
      var hn, hm := FixedDigits(n / 10, w - 1), FixedDigits(m / 10, w - 1);
      var cn, cm := DigitChar(n % 10), DigitChar(m % 10);
      FixedDigitsOrder(n / 10, m / 10, w - 1);
      StrLessConcat(hn, [cn], hm, [cm]);
      StrLessSingle(cn, cm);
      assert FixedDigits(n, w) == FixedDigits(m, w) ==> hn == hm && cn == cm by {
        if FixedDigits(n, w) == FixedDigits(m, w) {
          assert hn == FixedDigits(n, w)[..w - 1] && hm == FixedDigits(m, w)[..w - 1];
          assert cn == FixedDigits(n, w)[w - 1] && cm == FixedDigits(m, w)[w - 1];
        }
      }
      assert n == 10 * (n / 10) + n % 10 && m == 10 * (m / 10) + m % 10;
    }
  }

  lemma StrLessDash(x: string, y: string)
    ensures StrLess("-" + x, "-" + y) <==> StrLess(x, y)
  {
    StrLessConcat("-", x, "-", y);
    StrLessIrreflexive("-");
  }

  /** The `YYYY-MM-DD` text is assembled from its three padded fields. */
  lemma IsoDateFields(a: Date, b: Date)
    requires IsoRange(a) && IsoRange(b)
    ensures IsoDate(a) == IsoDate(b) ==>
      && FixedDigits(a.year, 4) == FixedDigits(b.year, 4)
      && FixedDigits(a.month, 2) == FixedDigits(b.month, 2)
      && FixedDigits(a.day, 2) == FixedDigits(b.day, 2)
  {
    if IsoDate(a) == IsoDate(b) {
      assert FixedDigits(a.year, 4) == IsoDate(a)[..4] && FixedDigits(b.year, 4) == IsoDate(b)[..4];
      assert FixedDigits(a.month, 2) == IsoDate(a)[5..7] && FixedDigits(b.month, 2) == IsoDate(b)[5..7];
      assert FixedDigits(a.day, 2) == IsoDate(a)[8..] && FixedDigits(b.day, 2) == IsoDate(b)[8..];
    }
  }

  /** Distinct dates in range have distinct `YYYY-MM-DD` texts. */
  lemma IsoDateInjective(a: Date, b: Date)
    requires IsoRange(a) && IsoRange(b)
    ensures IsoDate(a) == IsoDate(b) <==> a == b
  {
    assert Pow10(4) == 10000 && Pow10(2) == 100;
    FixedDigitsOrder(a.year, b.year, 4);
    FixedDigitsOrder(a.month, b.month, 2);
    FixedDigitsOrder(a.day, b.day, 2);
    IsoDateFields(a, b);
  }

  /**
   * Why sorting the `date_posted` text sorts by date: for dates whose fields fit the padded
   * widths, the string order of `YYYY-MM-DD` is the chronological order.
   */
  lemma IsoDateOrder(a: Date, b: Date)
    requires IsoRange(a) && IsoRange(b)
    ensures StrLess(IsoDate(a), IsoDate(b)) <==> DateLess(a, b)
    ensures IsoDate(a) == IsoDate(b) <==> a == b
  {
    assert Pow10(4) == 10000 && Pow10(2) == 100;
    var ya, yb := FixedDigits(a.year, 4), FixedDigits(b.year, 4);
    var ma, mb := FixedDigits(a.month, 2), FixedDigits(b.month, 2);
    var da, db := FixedDigits(a.day, 2), FixedDigits(b.day, 2);
    FixedDigitsOrder(a.year, b.year, 4);
    FixedDigitsOrder(a.month, b.month, 2);
    FixedDigitsOrder(a.day, b.day, 2);
    StrLessConcat(ya, "-" + (ma + ("-" + da)), yb, "-" + (mb + ("-" + db)));
    StrLessDash(ma + ("-" + da), mb + ("-" + db));
    StrLessConcat(ma, "-" + da, mb, "-" + db);
    StrLessDash(da, db);
    IsoDateInjective(a, b);
  }
}
