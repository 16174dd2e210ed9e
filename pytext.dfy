/**
 * The Python `str` operations the scraper scripts rely on, stated over Dafny strings
 * (a Dafny `char` is a Unicode scalar value, as a Python code point is).
 */
module PyText {
  import opened Wrappers

  /** `str.isspace()`: the characters that `str.split()` and `str.strip()` treat as whitespace. */
  predicate IsSpace(c: char)
  {
    || ('\U{0009}' <= c <= '\U{000D}')
    || ('\U{001C}' <= c <= '\U{001F}')
    || c == ' ' || c == '\U{0085}' || c == '\U{00A0}' || c == '\U{1680}'
    || ('\U{2000}' <= c <= '\U{200A}')
    || c == '\U{2028}' || c == '\U{2029}' || c == '\U{202F}' || c == '\U{205F}' || c == '\U{3000}'
  }

  predicate IsDigit(c: char)
  {
    '0' <= c <= '9'
  }

  predicate NoSpace(w: string)
  {
    forall k :: 0 <= k < |w| ==> !IsSpace(w[k])
  }

  predicate AllSpace(s: string)
  {
    forall k :: 0 <= k < |s| ==> IsSpace(s[k])
  }

  /** The only whitespace in `s` is the plain space. */
  predicate PlainSpaces(s: string)
  {
    forall k :: 0 <= k < |s| && IsSpace(s[k]) ==> s[k] == ' '
  }

  predicate AllDigits(s: string)
  {
    forall k :: 0 <= k < |s| ==> IsDigit(s[k])
  }

  // ---------------------------------------------------------------- strip

  function StripLeft(s: string): (r: string)
    ensures |r| <= |s| && r == s[|s| - |r|..]
    ensures forall k :: 0 <= k < |s| - |r| ==> IsSpace(s[k])
    ensures r == [] || !IsSpace(r[0])
    decreases |s|
  {
    if s != [] && IsSpace(s[0]) then StripLeft(s[1..]) else s
  }

  function StripRight(s: string): (r: string)
    ensures |r| <= |s| && r == s[..|r|]
    ensures forall k :: |r| <= k < |s| ==> IsSpace(s[k])
    ensures r == [] || !IsSpace(r[|r| - 1])
    decreases |s|
  {
    if s != [] && IsSpace(s[|s| - 1]) then StripRight(s[..|s| - 1]) else s
  }

  /** `str.strip()`: the longest middle part of `s` that neither starts nor ends with whitespace. */
  function Strip(s: string): (r: string)
    ensures r == [] || (!IsSpace(r[0]) && !IsSpace(r[|r| - 1]))
    ensures r == [] <==> AllSpace(s)
  {
    StripRight(StripLeft(s))
  }

  /** Leading whitespace is all `lstrip` removes before the rest. */
  lemma {:induction false} StripLeftSpaces(pad: string, rest: string)
    requires AllSpace(pad)
    ensures StripLeft(pad + rest) == StripLeft(rest)
    decreases |pad|
  {
    if pad != [] {
      assert (pad + rest)[0] == pad[0];
      assert (pad + rest)[1..] == pad[1..] + rest;
      StripLeftSpaces(pad[1..], rest);
    } else {
      assert pad + rest == rest;
    }
  }

  /** Trailing whitespace is all `rstrip` removes after the rest. */
  lemma {:induction false} StripRightSpaces(s: string, pad: string)
    requires AllSpace(pad)
    ensures StripRight(s + pad) == StripRight(s)
    decreases |pad|
  {
    if pad != [] {
      var t := s + pad;
      assert t[|t| - 1] == pad[|pad| - 1];
      assert t[..|t| - 1] == s + pad[..|pad| - 1];
      StripRightSpaces(s, pad[..|pad| - 1]);
    } else {
      assert s + pad == s;
    }
  }

  /** Stripping only removes characters: every character left was in the text. */
  lemma StripKeepsCharacters(s: string)
    ensures forall k :: 0 <= k < |Strip(s)| ==> Strip(s)[k] in s
  {
    var l := StripLeft(s);
    var r := Strip(s);
    assert r == StripRight(l);
    forall k | 0 <= k < |r|
      ensures r[k] in s
    {
      assert r[k] == l[k] == s[|s| - |l| + k];
    }
  }

  lemma StripUnpadded(s: string)
    requires s != [] && !IsSpace(s[0]) && !IsSpace(s[|s| - 1])
    ensures Strip(s) == s
  {
  }

  /** `str.strip()` returns a contiguous piece of its argument. */
  lemma {:induction false} StripIsSlice(s: string)
    ensures var d := |s| - |StripLeft(s)|;
      d + |Strip(s)| <= |s| && Strip(s) == s[d..d + |Strip(s)|]
  {
    var l := StripLeft(s);
    assert Strip(s) == StripRight(l);
    PrefixOfSuffix(s, l, Strip(s));
  }

  /** A prefix of a suffix is a slice. */
  lemma PrefixOfSuffix<T>(s: seq<T>, l: seq<T>, r: seq<T>)
    requires |l| <= |s| && l == s[|s| - |l|..]
    requires |r| <= |l| && r == l[..|r|]
    ensures r == s[|s| - |l|..|s| - |l| + |r|]
  {
  }

  // ---------------------------------------------------------------- split and join

  function WordLength(s: string): (n: nat)
    ensures n <= |s|
    ensures NoSpace(s[..n])
    ensures n < |s| ==> IsSpace(s[n])
  {
    if s == [] || IsSpace(s[0]) then 0 else 1 + WordLength(s[1..])
  }

  /** `str.split()` with no argument: the maximal runs of non-whitespace characters, in order. */
  function Words(s: string): (ws: seq<string>)
    ensures forall i :: 0 <= i < |ws| ==> ws[i] != [] && NoSpace(ws[i])
    ensures ws == [] <==> AllSpace(s)
    decreases |s|
  {
    if s == [] then []
    else if IsSpace(s[0]) then Words(s[1..])
    else
      var n := WordLength(s);
      [s[..n]] + Words(s[n..])
  }

  lemma WordsAfterSpace(rest: string)
    ensures Words(" " + rest) == Words(rest)
  {
    assert (" " + rest)[1..] == rest;
  }

  lemma {:induction false} WordLengthOfWord(w: string, rest: string)
    requires NoSpace(w) && (rest == [] || IsSpace(rest[0]))
    ensures WordLength(w + rest) == |w|
  {
    if w != [] {
      assert (w + rest)[1..] == w[1..] + rest;
      WordLengthOfWord(w[1..], rest);
    }
  }

  /** A maximal run of non-whitespace at the front is the first word. */
  lemma WordsOfWord(w: string, rest: string)
    requires w != [] && NoSpace(w) && (rest == [] || IsSpace(rest[0]))
    ensures Words(w + rest) == [w] + Words(rest)
  {
    WordLengthOfWord(w, rest);
    assert (w + rest)[..|w|] == w;
    assert (w + rest)[|w|..] == rest;
  }

  /** `' '.join(ws)` */
  function JoinSpaced(ws: seq<string>): string
  {
    if ws == [] then "" else if |ws| == 1 then ws[0] else ws[0] + " " + JoinSpaced(ws[1..])
  }

  /** Text in the shape `' '.join(s.split())` gives: words separated by single plain spaces. */
  predicate SingleSpaced(s: string)
  {
    && PlainSpaces(s)
    && (s == [] || (!IsSpace(s[0]) && !IsSpace(s[|s| - 1])))
    && forall k :: 0 <= k < |s| - 1 ==> !(s[k] == ' ' && s[k + 1] == ' ')
  }

  lemma JoinSpacedCons(w: string, ws: seq<string>)
    requires ws != []
    ensures JoinSpaced([w] + ws) == w + " " + JoinSpaced(ws)
  {
    assert ([w] + ws)[1..] == ws;
  }

  /** Single-spaced text with more than one word: its first word, one space, and single-spaced text. */
  lemma SingleSpacedSplit(s: string)
    requires SingleSpaced(s) && s != [] && WordLength(s) < |s|
    ensures var n := WordLength(s);
      && 0 < n
      && s == s[..n] + " " + s[n + 1..]
      && s[n + 1..] != [] && SingleSpaced(s[n + 1..])
      && Words(s) == [s[..n]] + Words(s[n + 1..])
  {
    var n := WordLength(s);
    WordsHead(s);
    WordsSkipSpace(s[n..]);
    assert s[n..][1..] == s[n + 1..];
    assert n + 1 < |s| by {
      assert !IsSpace(s[|s| - 1]);
    }
    NoDoubleSpace(s, n);
    SingleSpacedSuffix(s, n + 1);
    SplitAt(s, n);
  }

  lemma SplitAt<T>(s: seq<T>, n: nat)
    requires n < |s|
    ensures s == s[..n] + [s[n]] + s[n + 1..]
  {
  }

  lemma WordsHead(s: string)
    requires s != [] && !IsSpace(s[0])
    ensures Words(s) == [s[..WordLength(s)]] + Words(s[WordLength(s)..])
  {
  }

  lemma WordsSkipSpace(t: string)
    requires t != [] && IsSpace(t[0])
    ensures Words(t) == Words(t[1..])
  {
  }

  lemma NoDoubleSpace(s: string, n: nat)
    requires SingleSpaced(s) && n + 1 < |s| && IsSpace(s[n])
    ensures s[n] == ' ' && !IsSpace(s[n + 1])
  {
    assert !(s[n] == ' ' && s[n + 1] == ' ');
  }

  lemma SingleSpacedSuffix(s: string, m: nat)
    requires SingleSpaced(s) && m < |s| && !IsSpace(s[m])
    ensures SingleSpaced(s[m..])
  {
    var t := s[m..];
    assert forall k :: 0 <= k < |t| ==> t[k] == s[m + k];
  }

  /** Splitting single-spaced text and joining it back gives the text itself. */
  lemma {:induction false} SplitJoinSingleSpaced(s: string)
    requires SingleSpaced(s)
    ensures JoinSpaced(Words(s)) == s
    decreases |s|
  {
    if s != [] {
      var n := WordLength(s);
      if n == |s| {
        assert Words(s) == [s[..n]] + Words(s[n..]);
        assert s[n..] == [] && s[..n] == s;
      } else {
        SingleSpacedSplit(s);
        var rest := s[n + 1..];
        SplitJoinSingleSpaced(rest);
        JoinSpacedCons(s[..n], Words(rest));
      }
    }
  }

  /** Joining whitespace-free, non-empty words: the only whitespace left is the single separating spaces. */
  lemma {:induction false} JoinSpacedShape(ws: seq<string>)
    requires forall i :: 0 <= i < |ws| ==> ws[i] != [] && NoSpace(ws[i])
    ensures var j := JoinSpaced(ws);
      && PlainSpaces(j)
      && (j == [] || (!IsSpace(j[0]) && !IsSpace(j[|j| - 1])))
      && (j == [] <==> ws == [])
  {
    if |ws| > 1 {
      JoinSpacedShape(ws[1..]);
      var rest := JoinSpaced(ws[1..]);
      var j := ws[0] + " " + rest;
      assert JoinSpaced(ws) == j;
      forall k | 0 <= k < |j|
        ensures IsSpace(j[k]) ==> j[k] == ' '
      {
        if k < |ws[0]| {
          assert j[k] == ws[0][k];
        } else if k > |ws[0]| {
          assert j[k] == rest[k - |ws[0]| - 1];
        }
      }
      assert j[|j| - 1] == rest[|rest| - 1];
    }
  }

  // ---------------------------------------------------------------- filter

  /** `''.join(c for c in s if keep(c))` */
  function Filter(s: string, keep: char -> bool): (r: string)
    ensures forall k :: 0 <= k < |r| ==> keep(r[k])
    ensures |r| <= |s|
  {
    if s == [] then []
    else
      (if keep(s[0]) then [s[0]] else []) + Filter(s[1..], keep)
  }

  lemma {:induction false} FilterAppend(s: string, t: string, keep: char -> bool)
    ensures Filter(s + t, keep) == Filter(s, keep) + Filter(t, keep)
  {
    if s == [] {
      assert s + t == t;
    } else {
      assert (s + t)[0] == s[0] && (s + t)[1..] == s[1..] + t;
      FilterAppend(s[1..], t, keep);
    }
  }

  lemma {:induction false} FilterAllKept(s: string, keep: char -> bool)
    requires forall k :: 0 <= k < |s| ==> keep(s[k])
    ensures Filter(s, keep) == s
  {
    if s != [] {
      FilterAllKept(s[1..], keep);
    }
  }

  /** Whatever holds of every character of `s` holds of every character kept. */
  lemma {:induction false} FilterKeepsProperty(s: string, keep: char -> bool, p: char -> bool)
    requires forall k :: 0 <= k < |s| ==> p(s[k])
    ensures forall k :: 0 <= k < |Filter(s, keep)| ==> p(Filter(s, keep)[k])
  {
    if s != [] {
      FilterKeepsProperty(s[1..], keep, p);
    }
  }

  // ---------------------------------------------------------------- case

  /** `str.lower()` restricted to ASCII letters (other characters are left as they are). */
  function LowerChar(c: char): char
  {
    if 'A' <= c <= 'Z' then (c as int + 32) as char else c
  }

  function Lower(s: string): string
  {
    seq(|s|, k requires 0 <= k < |s| => LowerChar(s[k]))
  }

  // ---------------------------------------------------------------- substring tests

  /** `t` occurs in `s` at offset `i`, compared from position `j` of `t` on. */
  predicate MatchesAt(s: string, t: string, i: nat, j: nat)
    decreases |t| - j
  {
    j >= |t| || (i + j < |s| && s[i + j] == t[j] && MatchesAt(s, t, i, j + 1))
  }

  predicate ContainsFrom(s: string, t: string, i: nat)
    decreases |s| - i
  {
    i + |t| <= |s| && (MatchesAt(s, t, i, 0) || ContainsFrom(s, t, i + 1))
  }

  /** Python's `t in s` for strings. */
  predicate Contains(s: string, t: string)
  {
    ContainsFrom(s, t, 0)
  }

  /** A text lacking the `k`-th character of `t` holds no match of `t`. */
  lemma {:induction false} MissingCharNoMatch(s: string, t: string, i: nat, j: nat, k: nat)
    requires j <= k < |t| && t[k] !in s
    ensures !MatchesAt(s, t, i, j)
    decreases k - j
  {
    if j < k {
      MissingCharNoMatch(s, t, i, j + 1, k);
    }
  }

  lemma {:induction false} MissingCharNotContained(s: string, t: string, k: nat, i: nat)
    requires k < |t| && t[k] !in s
    ensures !ContainsFrom(s, t, i)
    decreases |s| - i
  {
    if i + |t| <= |s| {
      MissingCharNoMatch(s, t, i, 0, k);
      MissingCharNotContained(s, t, k, i + 1);
    }
  }

  /** The slice `s[i..i + |t|]` being `t` matches `t` at `i` from position `j` on. */
  lemma {:induction false} SliceMatches(s: string, t: string, i: nat, j: nat)
    requires i + |t| <= |s| && s[i..i + |t|] == t && j <= |t|
    ensures MatchesAt(s, t, i, j)
    decreases |t| - j
  {
    if j < |t| {
      assert s[i + j] == s[i..i + |t|][j];
      SliceMatches(s, t, i, j + 1);
    }
  }

  /** An occurrence at `i` is found by the scan from any earlier offset. */
  lemma {:induction false} SliceContained(s: string, t: string, i: nat, from: nat)
    requires from <= i && i + |t| <= |s| && s[i..i + |t|] == t
    ensures ContainsFrom(s, t, from)
    decreases i - from
  {
    if from == i {
      SliceMatches(s, t, i, 0);
    } else {
      SliceContained(s, t, i, from + 1);
    }
  }

  /** `s.endswith(suffix)` */
  predicate EndsWith(s: string, suffix: string)
  {
    |suffix| <= |s| && s[|s| - |suffix|..] == suffix
  }

  // ---------------------------------------------------------------- digits

  function DigitRunLength(s: string): (n: nat)
    ensures n <= |s| && AllDigits(s[..n])
    ensures n < |s| ==> !IsDigit(s[n])
  {
    if s == [] || !IsDigit(s[0]) then 0 else 1 + DigitRunLength(s[1..])
  }

  /** `re.findall(r'\d+', s)[0]` over ASCII digits; `None` where the list is empty (the `IndexError` case). */
  function FirstDigitRun(s: string): (r: Option<string>)
    ensures r.Some? ==> r.value != [] && AllDigits(r.value)
    ensures r.None? <==> forall k :: 0 <= k < |s| ==> !IsDigit(s[k])
  {
    if s == [] then None
    else if IsDigit(s[0]) then Some(s[..DigitRunLength(s)])
    else
      var r := FirstDigitRun(s[1..]);
      assert forall k :: 1 <= k < |s| ==> s[k] == s[1..][k - 1];
      r
  }

  function DigitValue(c: char): nat
    requires IsDigit(c)
  {
    c as int - '0' as int
  }

  function DigitChar(d: nat): char
    requires d < 10
  {
    ('0' as int + d) as char
  }

  /** `int(ds)` for a string of ASCII digits. */
  function DecimalValue(ds: string): nat
    requires AllDigits(ds)
  {
    if ds == [] then 0 else 10 * DecimalValue(ds[..|ds| - 1]) + DigitValue(ds[|ds| - 1])
  }

  /** `str(n)` for a natural number. */
  function DecimalString(n: nat): (ds: string)
    ensures ds != [] && AllDigits(ds)
  {
    if n < 10 then [DigitChar(n)] else DecimalString(n / 10) + [DigitChar(n % 10)]
  }

  lemma {:induction false} DecimalRoundTrip(n: nat)
    ensures DecimalValue(DecimalString(n)) == n
  {
    if n >= 10 {
      var ds := DecimalString(n);
      assert ds[..|ds| - 1] == DecimalString(n / 10);
      DecimalRoundTrip(n / 10);
    }
  }

  /**
   * `int(s)` as the search forms call it: surrounding whitespace, an optional sign and at
   * least one ASCII digit; anything else is the `ValueError` case, `None`.
   */
  function ParseInt(s: string): Option<int>
  {
    var t := Strip(s);
    if t != [] && (t[0] == '+' || t[0] == '-') then
      var ds := t[1..];
      if ds != [] && AllDigits(ds) then
        var v: int := DecimalValue(ds);
        Some(if t[0] == '-' then -v else v)
      else None
    else if t != [] && AllDigits(t) then Some(DecimalValue(t))
    else None
  }

  lemma ParseIntOfDecimal(n: nat)
    ensures ParseInt(DecimalString(n)) == Some(n)
  {
    var ds := DecimalString(n);
    assert StripLeft(ds) == ds;
    assert StripRight(ds) == ds;
    DecimalRoundTrip(n);
  }

  // ---------------------------------------------------------------- ordering

  /** Python's `a < b` on strings: lexicographic by code point, a proper prefix first. */
  predicate StrLess(a: string, b: string)
  {
    if a == [] then b != []
    else if b == [] then false
    else a[0] < b[0] || (a[0] == b[0] && StrLess(a[1..], b[1..]))
  }

  lemma {:induction false} StrLessIrreflexive(a: string)
    ensures !StrLess(a, a)
  {
    if a != [] {
      StrLessIrreflexive(a[1..]);
    }
  }

  lemma {:induction false} StrLessTransitive(a: string, b: string, c: string)
    requires StrLess(a, b) && StrLess(b, c)
    ensures StrLess(a, c)
  {
    if a != [] && b != [] && c != [] && a[0] == b[0] == c[0] {
      StrLessTransitive(a[1..], b[1..], c[1..]);
    }
  }

  lemma {:induction false} StrLessTotal(a: string, b: string)
    ensures a == b || StrLess(a, b) || StrLess(b, a)
  {
    if a != [] && b != [] && a[0] == b[0] {
      StrLessTotal(a[1..], b[1..]);
      if a[1..] == b[1..] {
        assert a == [a[0]] + a[1..] && b == [b[0]] + b[1..];
      }
    }
  }

  lemma {:induction false} StrLessAsymmetric(a: string, b: string)
    requires StrLess(a, b)
    ensures !StrLess(b, a)
  {
    if a != [] && b != [] && a[0] == b[0] {
      StrLessAsymmetric(a[1..], b[1..]);
    }
  }

  /** Comparing two concatenations whose first parts have equal length: the first parts decide unless equal. */
  lemma {:induction false} StrLessConcat(a1: string, b1: string, a2: string, b2: string)
    requires |a1| == |a2|
    ensures StrLess(a1 + b1, a2 + b2) <==> StrLess(a1, a2) || (a1 == a2 && StrLess(b1, b2))
  {
    if a1 == [] {
      assert a1 + b1 == b1 && a2 + b2 == b2;
    } else {
      assert (a1 + b1)[1..] == a1[1..] + b1 && (a2 + b2)[1..] == a2[1..] + b2;
      StrLessConcat(a1[1..], b1, a2[1..], b2);
      if a1[0] == a2[0] && a1[1..] == a2[1..] {
        assert a1 == [a1[0]] + a1[1..] && a2 == [a2[0]] + a2[1..];
      }
    }
  }
}
