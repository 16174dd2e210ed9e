/**
 * The tables the desktop search windows handle: a frame of named columns as `scrape_jobs`
 * returns it, the two ways the windows narrow its columns, and how a search ends.
 */
module Frames {
  /** Named columns in display order, each column's cells, and the number of rows. */
  datatype Frame = Frame(columns: seq<string>, values: map<string, seq<string>>, height: nat)

  /** How a click on "Search Jobs" ends: a message box, the error handler, no rows, or a written file. */
  datatype Outcome = Rejected(message: string) | Failed | NoJobs | Written(frame: Frame)

  /** `frame[c]`: the cells of column `c`. */
  function Column(f: Frame, c: string): seq<string>
  {
    if c in f.values then f.values[c] else []
  }

  /** `kept` has exactly the columns `cols`, in that order, each with the cells it has in `jobs`. */
  ghost predicate Shows(kept: Frame, jobs: Frame, cols: seq<string>)
  {
    && kept.columns == cols
    && (forall c :: c in kept.values <==> c in cols)
    && (forall c :: c in kept.values ==> kept.values[c] == Column(jobs, c))
  }

  predicate Distinct<T(==,!new)>(xs: seq<T>)
  {
    forall i, j :: 0 <= i < j < |xs| ==> xs[i] != xs[j]
  }

  /** The entries of `keep` that are columns in `cols`, in the order of `keep`. */
  function Present<T(==,!new)>(keep: seq<T>, cols: seq<T>): (r: seq<T>)
    ensures forall c :: c in r <==> c in keep && c in cols
    ensures |r| <= |keep|
  {
    if keep == [] then []
    else Present(keep[..|keep| - 1], cols) + (if keep[|keep| - 1] in cols then [keep[|keep| - 1]] else [])
  }

  /** The columns of `cols` not listed in `drop`, in the order of `cols`. */
  function Remaining<T(==,!new)>(cols: seq<T>, drop: seq<T>): (r: seq<T>)
    ensures forall c :: c in r <==> c in cols && c !in drop
    ensures |r| <= |cols|
  {
    if cols == [] then []
    else Remaining(cols[..|cols| - 1], drop) + (if cols[|cols| - 1] !in drop then [cols[|cols| - 1]] else [])
  }

  /** The keep-list projection keeps the keep-list's order: it works entry by entry. */
  lemma {:induction false} PresentAppend<T(!new)>(a: seq<T>, b: seq<T>, cols: seq<T>)
    ensures Present(a + b, cols) == Present(a, cols) + Present(b, cols)
    decreases |b|
  {
    if b == [] {
      assert a + b == a;
    } else {
      assert (a + b)[..|a + b| - 1] == a + b[..|b| - 1];
      PresentAppend(a, b[..|b| - 1], cols);
    }
  }

  /** A keep-list without repeats gives columns without repeats. */
  lemma {:induction false} PresentDistinct<T(!new)>(keep: seq<T>, cols: seq<T>)
    requires Distinct(keep)
    ensures Distinct(Present(keep, cols))
  {
    if keep != [] {
      var init := keep[..|keep| - 1];
      assert Distinct(init);
      PresentDistinct(init, cols);
      assert keep[|keep| - 1] !in init;
    }
  }

  /** The drop-list projection keeps the frame's order: it works column by column. */
  lemma {:induction false} RemainingAppend<T(!new)>(a: seq<T>, b: seq<T>, drop: seq<T>)
    ensures Remaining(a + b, drop) == Remaining(a, drop) + Remaining(b, drop)
    decreases |b|
  {
    if b == [] {
      assert a + b == a;
    } else {
      assert (a + b)[..|a + b| - 1] == a + b[..|b| - 1];
      RemainingAppend(a, b[..|b| - 1], drop);
    }
  }

  /** With no listed column present, every column stays, in place. */
  lemma {:induction false} RemainingUnlisted<T(!new)>(cols: seq<T>, drop: seq<T>)
    requires forall i :: 0 <= i < |cols| ==> cols[i] !in drop
    ensures Remaining(cols, drop) == cols
  {
    if cols != [] {
      var init := cols[..|cols| - 1];
      assert forall i :: 0 <= i < |init| ==> init[i] == cols[i];
      RemainingUnlisted(init, drop);
      var last := cols[|cols| - 1];
      assert last !in drop;
      assert Remaining(cols, drop) == Remaining(init, drop) + [last];
      assert cols == init + [last];
    }
  }

  /**
   * Dropping only the listed columns that are present removes the same columns as dropping the
   * whole list: listed columns the frame lacks are ignored.
   */
  lemma {:induction false} DropPresentOnly<T(!new)>(cols: seq<T>, drop: seq<T>)
    ensures Remaining(cols, Present(drop, cols)) == Remaining(cols, drop)
  {
    if cols != [] {
      var init := cols[..|cols| - 1];
      RemainingPrefixIndependent(init, cols, drop);
      DropPresentOnly(init, drop);
    }
  }

  /** Dropping from a prefix depends only on which listed names the prefix itself holds. */
  lemma {:induction false} RemainingPrefixIndependent<T(!new)>(init: seq<T>, cols: seq<T>, drop: seq<T>)
    requires forall c :: c in init ==> c in cols
    ensures Remaining(init, Present(drop, cols)) == Remaining(init, Present(drop, init))
  {
    if init != [] {
      RemainingPrefixIndependent(init[..|init| - 1], cols, drop);
      RemainingPrefixIndependent(init[..|init| - 1], init, drop);
    }
  }
}
