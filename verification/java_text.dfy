/**
  The handful of `java.lang.String` operations the plugin generator relies on,
  over `seq<char>`: ASCII case folding (`toUpperCase`, `equalsIgnoreCase`),
  `contains`, `startsWith`/`endsWith`, IntelliJ's `StringUtil.trimStart`, and
  `split` with a one-character separator, including Java's rule that trailing
  empty pieces are dropped.
 */
module JavaText {

  // ---------------------------------------------------------------------------
  // Case folding (ASCII letters only)
  // ---------------------------------------------------------------------------

  function UpperChar(c: char): char
  {
    if 'a' <= c <= 'z' then (c as int - 32) as char else c
  }

  function ToUpper(s: string): string
  {
    seq(|s|, i requires 0 <= i < |s| => UpperChar(s[i]))
  }

  /** Character-wise comparison after upper-casing, as `String.equalsIgnoreCase`. */
  predicate EqualsIgnoreCase(a: string, b: string)
  {
    |a| == |b| && forall i | 0 <= i < |a| :: UpperChar(a[i]) == UpperChar(b[i])
  }

  // ---------------------------------------------------------------------------
  // Searching
  // ---------------------------------------------------------------------------

  /** `pat` occurs in `s` starting at index `i`. */
  predicate IsAt(s: string, pat: string, i: int)
  {
    0 <= i && i + |pat| <= |s| && s[i..i + |pat|] == pat
  }

  predicate Contains(s: string, pat: string)
  {
    exists i | 0 <= i <= |s| :: IsAt(s, pat, i)
  }

  predicate StartsWith(s: string, prefix: string)
  {
    |prefix| <= |s| && s[..|prefix|] == prefix
  }

  predicate EndsWith(s: string, suffix: string)
  {
    |suffix| <= |s| && s[|s| - |suffix|..] == suffix
  }

  /** `StringUtil.trimStart`: removes one leading occurrence of `prefix`. */
  function TrimStart(s: string, prefix: string): (r: string)
    ensures StartsWith(s, prefix) ==> s == prefix + r
    ensures !StartsWith(s, prefix) ==> r == s
  {
    if StartsWith(s, prefix) then s[|prefix|..] else s
  }

  /** Number of occurrences of `c` in `s`. */
  function Count(s: string, c: char): nat
  {
    if |s| == 0 then 0
    else Count(s[..|s| - 1], c) + (if s[|s| - 1] == c then 1 else 0)
  }

  /** `n` copies of `c`. */
  function Repeat(c: char, n: nat): (r: string)
    ensures |r| == n
    ensures forall i | 0 <= i < n :: r[i] == c
  {
    seq(n, _ => c)
  }

  /** `n` empty strings. */
  function Empties(n: nat): (r: seq<string>)
    ensures |r| == n
    ensures forall i | 0 <= i < n :: r[i] == ""
  {
    seq(n, _ => "")
  }

  // ---------------------------------------------------------------------------
  // Splitting on one character
  // ---------------------------------------------------------------------------

  /** Extends the pieces of a text by one more character. */
  function Step(parts: seq<string>, c: char, sep: char): (r: seq<string>)
    requires |parts| >= 1
    ensures |r| >= 1
  {
    if c == sep then parts + [""]
    else parts[..|parts| - 1] + [parts[|parts| - 1] + [c]]
  }

  /**
    Every piece between occurrences of `sep`, empty pieces included; there is
    always one piece more than there are separators.
   */
  function SplitRaw(s: string, sep: char): (parts: seq<string>)
    ensures |parts| == Count(s, sep) + 1
    ensures forall i | 0 <= i < |parts| :: sep !in parts[i]
    decreases |s|
  {
    if |s| == 0 then [""]
    else Step(SplitRaw(s[..|s| - 1], sep), s[|s| - 1], sep)
  }

  /** The pieces of `p` then `q`, where the last piece of `p` and the first of `q` touch. */
  function Merge(p: seq<string>, q: seq<string>): (r: seq<string>)
    requires |p| >= 1 && |q| >= 1
    ensures |r| == |p| + |q| - 1
  {
    p[..|p| - 1] + [p[|p| - 1] + q[0]] + q[1..]
  }

  /** Drops empty strings from the end of `parts`. */
  function DropTrailingEmpty(parts: seq<string>): (r: seq<string>)
    ensures |r| <= |parts| && r == parts[..|r|]
    ensures forall i | |r| <= i < |parts| :: parts[i] == ""
    ensures |r| > 0 ==> r[|r| - 1] != ""
  {
    if |parts| == 0 then []
    else if parts[|parts| - 1] == "" then DropTrailingEmpty(parts[..|parts| - 1])
    else parts
  }

  /**
    `String.split` with a pattern matching exactly the character `sep`: the text
    itself when `sep` does not occur, otherwise the pieces between separators
    with trailing empty pieces removed (so the result may be empty).
   */
  function JavaSplit(s: string, sep: char): (parts: seq<string>)
  {
    if sep !in s then [s] else DropTrailingEmpty(SplitRaw(s, sep))
  }

  /** Joins pieces with `sep` between neighbours. */
  function Join(parts: seq<string>, sep: char): string
    requires |parts| >= 1
  {
    if |parts| == 1 then parts[0]
    else Join(parts[..|parts| - 1], sep) + [sep] + parts[|parts| - 1]
  }

  /** Removes every trailing `c`. */
  function StripTrailing(s: string, c: char): (r: string)
    ensures |r| <= |s| && s == r + Repeat(c, |s| - |r|)
    ensures |r| > 0 ==> r[|r| - 1] != c
  {
    if |s| > 0 && s[|s| - 1] == c then
      var r := StripTrailing(s[..|s| - 1], c);
      assert s == s[..|s| - 1] + [c];
      assert Repeat(c, |s| - |r|) == Repeat(c, |s| - 1 - |r|) + [c];
      r
    else
      assert s == s + Repeat(c, 0);
      s
  }

  /**
    The text after the last `c` of `s` (all of `s` when there is none): a
    `c`-free suffix of `s` preceded by `c` or by nothing.
   */
  function AfterLast(s: string, c: char): (r: string)
    ensures c !in r
    ensures |r| <= |s| && s[|s| - |r|..] == r
    ensures |r| < |s| ==> s[|s| - |r| - 1] == c
  {
    if |s| == 0 || s[|s| - 1] == c then ""
    else AfterLast(s[..|s| - 1], c) + [s[|s| - 1]]
  }

  // ---------------------------------------------------------------------------
  // Lemmas about splitting and joining
  // ---------------------------------------------------------------------------

  lemma StepMerge(p: seq<string>, q: seq<string>, c: char, sep: char)
    requires |p| >= 1 && |q| >= 1
    ensures Step(Merge(p, q), c, sep) == Merge(p, Step(q, c, sep))
  {
    if c != sep && |q| == 1 {
      assert (p[|p| - 1] + q[0]) + [c] == p[|p| - 1] + (q[0] + [c]);
    }
  }

  /** Splitting a concatenation merges the pieces of the two halves. */
  lemma {:induction false} SplitRawConcat(x: string, y: string, sep: char)
    ensures SplitRaw(x + y, sep) == Merge(SplitRaw(x, sep), SplitRaw(y, sep))
    decreases |y|
  {
    if |y| == 0 {
      assert x + y == x;
      var p := SplitRaw(x, sep);
      assert p[|p| - 1] + "" == p[|p| - 1];
      assert Merge(p, [""]) == p;
    } else {
      var y' := y[..|y| - 1];
      var d := y[|y| - 1];
      assert (x + y)[..|x + y| - 1] == x + y';
      assert (x + y)[|x + y| - 1] == d;
      SplitRawConcat(x, y', sep);
      StepMerge(SplitRaw(x, sep), SplitRaw(y', sep), d, sep);
    }
  }

  lemma {:induction false} SplitRawNoSep(a: string, sep: char)
    requires sep !in a
    ensures SplitRaw(a, sep) == [a]
    decreases |a|
  {
    if |a| > 0 {
      assert sep !in a[..|a| - 1];
      SplitRawNoSep(a[..|a| - 1], sep);
      assert a[..|a| - 1] + [a[|a| - 1]] == a;
    }
  }

  lemma {:induction false} SplitRawRepeat(sep: char, n: nat)
    ensures SplitRaw(Repeat(sep, n), sep) == Empties(n + 1)
  {
    if n > 0 {
      assert Repeat(sep, n)[..n - 1] == Repeat(sep, n - 1);
      SplitRawRepeat(sep, n - 1);
    }
  }

  /** A text then a separator then a separator-free piece splits into the text's pieces and that piece. */
  lemma SplitRawAppendPiece(a: string, b: string, sep: char)
    requires sep !in b
    ensures SplitRaw(a + [sep] + b, sep) == SplitRaw(a, sep) + [b]
  {
    assert (a + [sep])[..|a|] == a;
    var p := SplitRaw(a, sep);
    assert SplitRaw(a + [sep], sep) == p + [""];
    SplitRawConcat(a + [sep], b, sep);
    SplitRawNoSep(b, sep);
    assert "" + b == b;
    assert Merge(p + [""], [b]) == p + [b];
  }

  lemma {:induction false} DropTrailingAppendEmpties(parts: seq<string>, k: nat)
    requires |parts| >= 1 && parts[|parts| - 1] != ""
    ensures DropTrailingEmpty(parts + Empties(k)) == parts
  {
    if k > 0 {
      assert (parts + Empties(k))[..|parts| + k - 1] == parts + Empties(k - 1);
      DropTrailingAppendEmpties(parts, k - 1);
    }
  }

  /** The last piece of a split is the text after the last separator. */
  lemma {:induction false} SplitRawLast(s: string, sep: char)
    ensures SplitRaw(s, sep)[|SplitRaw(s, sep)| - 1] == AfterLast(s, sep)
    decreases |s|
  {
    if |s| > 0 {
      SplitRawLast(s[..|s| - 1], sep);
    }
  }

  /** `split` yields exactly two pieces `a`, `b` for `a|b` followed by any run of separators. */
  lemma JavaSplitTwo(a: string, b: string, m: nat, sep: char)
    requires sep !in a && sep !in b && b != ""
    ensures JavaSplit(a + [sep] + b + Repeat(sep, m), sep) == [a, b]
  {
    var t := a + [sep] + b + Repeat(sep, m);
    assert t[|a|] == sep;
    SplitRawNoSep(a, sep);
    SplitRawAppendPiece(a, b, sep);
    SplitRawConcat(a + [sep] + b, Repeat(sep, m), sep);
    SplitRawRepeat(sep, m);
    assert b + "" == b;
    assert Merge([a, b], Empties(m + 1)) == [a, b] + Empties(m);
    assert SplitRaw(t, sep) == [a, b] + Empties(m);
    DropTrailingAppendEmpties([a, b], m);
  }

  /**
    When `s` holds the separator and some other character, `split` is non-empty
    and its last piece is the non-empty text after the last separator once
    trailing separators are removed.
   */
  lemma JavaSplitLast(s: string, sep: char, j: nat)
    requires sep in s && j < |s| && s[j] != sep
    ensures var parts := JavaSplit(s, sep);
      && |parts| >= 1
      && parts[|parts| - 1] == AfterLast(StripTrailing(s, sep), sep)
      && parts[|parts| - 1] != ""
  {
    var st := StripTrailing(s, sep);
    var k := |s| - |st|;
    assert forall p | |st| <= p < |s| :: s[p] == sep;
    assert |st| > j;
    SplitRawAppendSeps(st, k, sep);
    var p := SplitRaw(st, sep);
    SplitRawLast(st, sep);
    DropTrailingAppendEmpties(p, k);
  }

  /**
    The number of pieces `split` returns: one when the separator is absent;
    otherwise none when the text is only separators, and else one more than
    the separators left once trailing separators are removed.
   */
  lemma JavaSplitCount(s: string, sep: char)
    ensures var st := StripTrailing(s, sep);
      |JavaSplit(s, sep)| == if sep !in s then 1 else if st == "" then 0 else Count(st, sep) + 1
  {
    if sep in s {
      if StripTrailing(s, sep) == "" {
        JavaSplitOnlySeparators(s, sep);
      } else {
        JavaSplitDropsTrailing(s, sep);
      }
    }
  }

  /** A text made only of separators splits into nothing. */
  lemma JavaSplitOnlySeparators(s: string, sep: char)
    requires sep in s && StripTrailing(s, sep) == ""
    ensures JavaSplit(s, sep) == []
  {
    assert s == Repeat(sep, |s|);
    SplitRawRepeat(sep, |s|);
    DropAllEmpties(|s| + 1);
  }

  /** Otherwise `split` gives the pieces of the text without its trailing separators. */
  lemma JavaSplitDropsTrailing(s: string, sep: char)
    requires sep in s && StripTrailing(s, sep) != ""
    ensures JavaSplit(s, sep) == SplitRaw(StripTrailing(s, sep), sep)
  {
    var st := StripTrailing(s, sep);
    SplitRawAppendSeps(st, |s| - |st|, sep);
    SplitRawLast(st, sep);
    assert AfterLast(st, sep) != "" by {
      assert st[|st| - 1] != sep;
    }
    DropTrailingAppendEmpties(SplitRaw(st, sep), |s| - |st|);
  }

  lemma {:induction false} DropAllEmpties(n: nat)
    ensures DropTrailingEmpty(Empties(n)) == []
  {
    if n > 0 {
      assert Empties(n)[..n - 1] == Empties(n - 1);
      DropAllEmpties(n - 1);
    }
  }

  /** Trailing separators add one empty piece each. */
  lemma SplitRawAppendSeps(st: string, k: nat, sep: char)
    ensures SplitRaw(st + Repeat(sep, k), sep) == SplitRaw(st, sep) + Empties(k)
  {
    SplitRawConcat(st, Repeat(sep, k), sep);
    SplitRawRepeat(sep, k);
    var p := SplitRaw(st, sep);
    assert p[|p| - 1] + "" == p[|p| - 1];
    assert Merge(p, Empties(k + 1)) == p + Empties(k);
  }

  // ---------------------------------------------------------------------------
  // Lemmas about searching and counting
  // ---------------------------------------------------------------------------

  /** An occurrence of a separator-free pattern lies wholly on one side of a separator. */
  lemma ContainsAcross(a: string, b: string, c: char, pat: string)
    requires c !in pat
    ensures Contains(a + [c] + b, pat) <==> Contains(a, pat) || Contains(b, pat)
  {
    var t := a + [c] + b;
    if Contains(t, pat) {
      var i :| 0 <= i <= |t| && IsAt(t, pat, i);
      OccurrenceInSide(a, b, c, pat, i);
    }
    if Contains(a, pat) {
      var i :| 0 <= i <= |a| && IsAt(a, pat, i);
      OccurrenceInLeft(a, b, c, pat, i);
    }
    if Contains(b, pat) {
      var i :| 0 <= i <= |b| && IsAt(b, pat, i);
      OccurrenceInRight(a, b, c, pat, i);
    }
  }

  /** An occurrence that cannot cover the joining character lies in one side. */
  lemma OccurrenceInSide(a: string, b: string, c: char, pat: string, i: nat)
    requires c !in pat && IsAt(a + [c] + b, pat, i)
    ensures (i + |pat| <= |a| && IsAt(a, pat, i)) || (i > |a| && IsAt(b, pat, i - |a| - 1))
  {
    var t := a + [c] + b;
    assert forall q | i <= q < i + |pat| :: t[q] == pat[q - i];
    if i + |pat| <= |a| {
      assert forall q | i <= q < i + |pat| :: a[q] == t[q];
      assert a[i..i + |pat|] == pat;
    } else {
      assert t[|a|] == c;
      assert i > |a|;
      var j := i - |a| - 1;
      assert forall q | j <= q < j + |pat| :: b[q] == t[q + |a| + 1];
      assert b[j..j + |pat|] == pat;
    }
  }

  /** An occurrence in the left side is one in the whole. */
  lemma OccurrenceInLeft(a: string, b: string, c: char, pat: string, i: nat)
    requires IsAt(a, pat, i)
    ensures IsAt(a + [c] + b, pat, i)
  {
    var t := a + [c] + b;
    assert forall q | i <= q < i + |pat| :: t[q] == a[q];
    assert t[i..i + |pat|] == pat;
  }

  /** An occurrence in the right side is one in the whole, shifted past the left side and the joining character. */
  lemma OccurrenceInRight(a: string, b: string, c: char, pat: string, i: nat)
    requires IsAt(b, pat, i)
    ensures IsAt(a + [c] + b, pat, i + |a| + 1)
  {
    var t := a + [c] + b;
    var j := i + |a| + 1;
    assert forall q | i <= q < i + |pat| :: t[q + |a| + 1] == b[q];
    assert t[j..j + |pat|] == pat;
  }

  /** A text lacking the first character of a pattern does not contain it. */
  lemma AbsentHeadNotContained(s: string, pat: string)
    requires |pat| >= 1 && pat[0] !in s
    ensures !Contains(s, pat)
  {
    forall i | 0 <= i <= |s|
      ensures !IsAt(s, pat, i)
    {
      if i + |pat| <= |s| {
        assert s[i..i + |pat|][0] == s[i];
      }
    }
  }

  lemma {:induction false} CountConcat(x: string, y: string, c: char)
    ensures Count(x + y, c) == Count(x, c) + Count(y, c)
    decreases |y|
  {
    if |y| == 0 {
      assert x + y == x;
    } else {
      assert (x + y)[..|x + y| - 1] == x + y[..|y| - 1];
      CountConcat(x, y[..|y| - 1], c);
    }
  }

  lemma {:induction false} CountAbsent(s: string, c: char)
    requires c !in s
    ensures Count(s, c) == 0
    decreases |s|
  {
    if |s| > 0 {
      assert c !in s[..|s| - 1];
      CountAbsent(s[..|s| - 1], c);
    }
  }
}
