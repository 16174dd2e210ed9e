/**
 * The spreadsheet rules of `export_to_excel` in jobs.py (and outdated/jobs.py): rows ordered by
 * `date_posted` descending then `platform` ascending, and each column's width taken from its
 * longest cell, capped at 50.
 */
module ExportOrder {
  import opened PyText
  import opened Calendar
  import opened JobRecords

  // ---------------------------------------------------------------- ordering

  /**
   * `a` belongs strictly before `b` in `sort_values(['date_posted', 'platform'],
   * ascending=[False, True])`: a later date text, or the same date text and a smaller platform.
   */
  predicate Precedes(a: JobRecord, b: JobRecord)
  {
    StrLess(b.datePosted, a.datePosted) || (a.datePosted == b.datePosted && StrLess(a.platform, b.platform))
  }

  predicate SameKey(a: JobRecord, b: JobRecord)
  {
    a.datePosted == b.datePosted && a.platform == b.platform
  }

  /** No row is preceded by a row that comes after it. */
  predicate Sorted(s: seq<JobRecord>)
  {
    forall i, j :: 0 <= i < j < |s| ==> !Precedes(s[j], s[i])
  }

  lemma PrecedesIrreflexive(a: JobRecord)
    ensures !Precedes(a, a)
  {
    StrLessIrreflexive(a.datePosted);
    StrLessIrreflexive(a.platform);
  }

  lemma PrecedesTransitive(a: JobRecord, b: JobRecord, c: JobRecord)
    requires Precedes(a, b) && Precedes(b, c)
    ensures Precedes(a, c)
  {
    if StrLess(b.datePosted, a.datePosted) && StrLess(c.datePosted, b.datePosted) {
      StrLessTransitive(c.datePosted, b.datePosted, a.datePosted);
    } else if a.datePosted == b.datePosted == c.datePosted {
      StrLessTransitive(a.platform, b.platform, c.platform);
    }
  }

  /** Two rows neither of which precedes the other have the same key. */
  lemma PrecedesTotal(a: JobRecord, b: JobRecord)
    ensures Precedes(a, b) || Precedes(b, a) || SameKey(a, b)
  {
    StrLessTotal(a.datePosted, b.datePosted);
    StrLessTotal(a.platform, b.platform);
  }

  lemma PrecedesSameKey(a: JobRecord, b: JobRecord, c: JobRecord)
    requires SameKey(a, b)
    ensures Precedes(a, c) == Precedes(b, c) && Precedes(c, a) == Precedes(c, b)
  {
  }

  /** `x` placed before the first row it precedes: after every row with its own key. */
  function Insert(x: JobRecord, s: seq<JobRecord>): (r: seq<JobRecord>)
    ensures |r| == |s| + 1
  {
    if s == [] then [x]
    else if Precedes(x, s[0]) then [x] + s
    else [s[0]] + Insert(x, s[1..])
  }

  /** The stable multi-key sort, as an insertion of each row in turn. */
  function SortRows(rows: seq<JobRecord>): (sorted: seq<JobRecord>)
    ensures |sorted| == |rows|
  {
    if rows == [] then []
    else Insert(rows[|rows| - 1], SortRows(rows[..|rows| - 1]))
  }

  /** The rows of `s` whose key is `k`, in order. */
  function WithKey(s: seq<JobRecord>, k: JobRecord): seq<JobRecord>
  {
    if s == [] then []
    else WithKey(s[..|s| - 1], k) + (if SameKey(s[|s| - 1], k) then [s[|s| - 1]] else [])
  }

  lemma {:induction false} WithKeyAppend(a: seq<JobRecord>, b: seq<JobRecord>, k: JobRecord)
    ensures WithKey(a + b, k) == WithKey(a, k) + WithKey(b, k)
    decreases |b|
  {
    if b == [] {
      assert a + b == a;
    } else {
      assert (a + b)[..|a + b| - 1] == a + b[..|b| - 1];
      WithKeyAppend(a, b[..|b| - 1], k);
    }
  }

  lemma {:induction false} InsertSorted(x: JobRecord, s: seq<JobRecord>)
    requires Sorted(s)
    ensures Sorted(Insert(x, s))
    ensures multiset(Insert(x, s)) == multiset(s) + multiset{x}
  {
    if s == [] {
    } else if Precedes(x, s[0]) {
      InsertAtHead(x, s);
    } else {
      var rest := Insert(x, s[1..]);
      InsertSorted(x, s[1..]);
      assert s == [s[0]] + s[1..];
      HeadStaysFirst(x, s, rest);
      ConsSorted(s[0], rest);
      assert Insert(x, s) == [s[0]] + rest;
    }
  }

  lemma ConsSorted(h: JobRecord, rest: seq<JobRecord>)
    requires Sorted(rest)
    requires forall j :: 0 <= j < |rest| ==> !Precedes(rest[j], h)
    ensures Sorted([h] + rest)
  {
    forall i, j | 0 <= i < j < |rest| + 1
      ensures !Precedes(([h] + rest)[j], ([h] + rest)[i])
    {
      assert ([h] + rest)[j] == rest[j - 1];
    }
  }

  /** A row that precedes the head of a sorted sequence may go in front of it. */
  lemma InsertAtHead(x: JobRecord, s: seq<JobRecord>)
    requires Sorted(s) && s != [] && Precedes(x, s[0])
    ensures Sorted([x] + s)
  {
    PrecedesIrreflexive(x);
    forall j | 0 < j < |s| + 1
      ensures !Precedes(([x] + s)[j], x)
    {
      var y := s[j - 1];
      if j > 1 && Precedes(y, x) {
        PrecedesTransitive(y, x, s[0]);
      }
      if Precedes(y, x) && j == 1 {
        PrecedesTransitive(x, y, x);
        PrecedesIrreflexive(x);
      }
    }
  }

  /** No row of the tail, nor a row that does not precede the head, comes before the head. */
  lemma HeadStaysFirst(x: JobRecord, s: seq<JobRecord>, rest: seq<JobRecord>)
    requires Sorted(s) && s != [] && !Precedes(x, s[0])
    requires multiset(rest) == multiset(s[1..]) + multiset{x}
    ensures forall j :: 0 <= j < |rest| ==> !Precedes(rest[j], s[0])
  {
    forall j | 0 <= j < |rest|
      ensures !Precedes(rest[j], s[0])
    {
      assert rest[j] in multiset(rest);
      if rest[j] == x {
        PrecedesTotal(x, s[0]);
        if SameKey(x, s[0]) {
          PrecedesIrreflexive(s[0]);
        }
      } else {
        assert rest[j] in multiset(s[1..]);
        var m :| 0 <= m < |s[1..]| && s[1..][m] == rest[j];
        assert s[m + 1] == rest[j];
      }
    }
  }


  /** Inserting `x` after the rows of its own key keeps the order within every key. */
  lemma {:induction false} InsertWithKey(x: JobRecord, s: seq<JobRecord>, k: JobRecord)
    requires Sorted(s)
    ensures WithKey(Insert(x, s), k) == WithKey(s, k) + (if SameKey(x, k) then [x] else [])
  {
    if s == [] {
      assert Insert(x, s) == [] + [x];
    } else if Precedes(x, s[0]) {
      if SameKey(x, k) {
        forall i | 0 <= i < |s|
          ensures !SameKey(s[i], k)
        {
          if i > 0 {
            PrecedesTotal(s[0], s[i]);
            if Precedes(s[0], s[i]) {
              PrecedesTransitive(x, s[0], s[i]);
            }
          }
          if SameKey(s[i], x) {
            PrecedesSameKey(s[i], x, s[0]);
            if i == 0 {
              PrecedesIrreflexive(s[0]);
            }
          }
        }
        NoKey(s, k);
        WithKeyAppend([], [x], k);
        WithKeyAppend([x], s, k);
        assert [] + [x] == [x];
      } else {
        WithKeyAppend([x], s, k);
        WithKeyAppend([], [x], k);
        assert [] + [x] == [x];
      }
    } else {
      InsertWithKey(x, s[1..], k);
      WithKeyAppend([s[0]], Insert(x, s[1..]), k);
      WithKeyAppend([s[0]], s[1..], k);
      assert [s[0]] + s[1..] == s;
    }
  }

  lemma {:induction false} NoKey(s: seq<JobRecord>, k: JobRecord)
    requires forall i :: 0 <= i < |s| ==> !SameKey(s[i], k)
    ensures WithKey(s, k) == []
  {
    if s != [] {
      NoKey(s[..|s| - 1], k);
    }
  }

  /** The export order is sorted, holds exactly the scraped rows, and keeps ties in scrape order. */
  lemma {:induction false} SortRowsCorrect(rows: seq<JobRecord>)
    ensures Sorted(SortRows(rows))
    ensures multiset(SortRows(rows)) == multiset(rows)
    ensures forall k :: WithKey(SortRows(rows), k) == WithKey(rows, k)
  {
    if rows != [] {
      var init, last := rows[..|rows| - 1], rows[|rows| - 1];
      SortRowsCorrect(init);
      InsertSorted(last, SortRows(init));
      assert rows == init + [last];
      forall k
        ensures WithKey(SortRows(rows), k) == WithKey(rows, k)
      {
        InsertWithKey(last, SortRows(init), k);
      }
    }
  }

  /**
   * Sorting the `YYYY-MM-DD` text sorts by date: in a sorted export, a row is never dated before a
   * row below it, and among rows of one date the platforms do not decrease.
   */
  lemma NewestFirst(s: seq<JobRecord>, i: int, j: int, a: Date, b: Date)
    requires Sorted(s) && 0 <= i < j < |s|
    requires IsoRange(a) && IsoRange(b) && s[i].datePosted == IsoDate(a) && s[j].datePosted == IsoDate(b)
    ensures !DateLess(a, b)
    ensures a == b ==> !StrLess(s[j].platform, s[i].platform)
  {
    IsoDateOrder(a, b);
    assert !Precedes(s[j], s[i]);
  }

  // ---------------------------------------------------------------- column widths

  /** `min(n, 50)`, the cap on an auto-fitted column. */
  const MaxWidth: int := 50

  /**
   * `max_length` of column `c`: the length of the longest of its header and its cells.
   */
  function Longest(header: seq<string>, rows: seq<seq<string>>, c: int): (n: nat)
    requires 0 <= c < |header|
    requires forall i :: 0 <= i < |rows| ==> |rows[i]| == |header|
    ensures |header[c]| <= n && forall i :: 0 <= i < |rows| ==> |rows[i][c]| <= n
    ensures n == |header[c]| || exists i :: 0 <= i < |rows| && n == |rows[i][c]|
  {
    if rows == [] then |header[c]|
    else
      var before := Longest(header, rows[..|rows| - 1], c);
      var last := |rows[|rows| - 1][c]|;
      if last > before then last else before
  }

  /** The auto-fit rule: column `c` is `min(max_length + 2, 50)` wide. */
  predicate FitsColumns(header: seq<string>, rows: seq<seq<string>>, widths: seq<int>)
    requires forall i :: 0 <= i < |rows| ==> |rows[i]| == |header|
  {
    && |widths| == |header|
    && forall c :: 0 <= c < |header| ==>
      widths[c] == (if Longest(header, rows, c) + 2 < MaxWidth then Longest(header, rows, c) + 2 else MaxWidth)
  }

  /**
   * What auto-fitting gives a column: at most 50 wide, wide enough for the header and every cell
   * with two characters to spare unless capped, and no wider than the longest of them needs.
   */
  lemma FittedColumn(header: seq<string>, rows: seq<seq<string>>, widths: seq<int>, c: int)
    requires forall i :: 0 <= i < |rows| ==> |rows[i]| == |header|
    requires FitsColumns(header, rows, widths) && 0 <= c < |header|
    ensures widths[c] <= MaxWidth
    ensures |header[c]| + 2 <= widths[c] || widths[c] == MaxWidth
    ensures forall i :: 0 <= i < |rows| ==> |rows[i][c]| + 2 <= widths[c] || widths[c] == MaxWidth
    ensures widths[c] == MaxWidth || widths[c] == |header[c]| + 2 ||
      exists i :: 0 <= i < |rows| && widths[c] == |rows[i][c]| + 2
  {
    var n := Longest(header, rows, c);
    if n != |header[c]| {
      var i :| 0 <= i < |rows| && n == |rows[i][c]|;
    }
  }

  /** A one-letter header over one one-letter cell is fitted to 3, not to the cap. */
  lemma NarrowColumn(widths: seq<int>)
    requires FitsColumns(["a"], [["b"]], widths)
    ensures widths == [3]
  {
    assert Longest(["a"], [["b"]], 0) == 1 by {
      assert [["b"]][..0] == [];
    }
  }

  /** The width loop: one pass per column over the header and the column's cells. */
  method ColumnWidths(header: seq<string>, rows: seq<seq<string>>) returns (widths: seq<int>)
    requires forall i :: 0 <= i < |rows| ==> |rows[i]| == |header|
    ensures FitsColumns(header, rows, widths)
  {
    widths := [];
    for c := 0 to |header|
      invariant |widths| == c
      invariant forall c' :: 0 <= c' < c ==>
        widths[c'] == (if Longest(header, rows, c') + 2 < MaxWidth then Longest(header, rows, c') + 2 else MaxWidth)
    {
      var longest := |header[c]|;
      for i := 0 to |rows|
        invariant longest == Longest(header, rows[..i], c)
      {
        assert rows[..i + 1][..i] == rows[..i];
        if |rows[i][c]| > longest {
          longest := |rows[i][c]|;
        }
      }
      assert rows[..|rows|] == rows;
      var width := if longest + 2 < MaxWidth then longest + 2 else MaxWidth;
      widths := widths + [width];
    }
  }
}
