/**
 The anchors of Python's `re` module under `re.MULTILINE`, for patterns that
 are a literal string between the anchors. `^` matches at the start of the
 text and right after every '\n'; `$` matches at the end of the text and right
 before every '\n'. Only '\n' ends a line for these anchors ('\r' does not).

 The validator's three searches are `^lit$` and `^lit` for a literal `lit`
 without '\n'. This module states both at the level of character offsets, as
 the regex engine sees them, and proves that they are the per-line checks
 "some line equals lit" and "some line starts with lit" over `Split`.
 */
module Multiline {
  import opened Text

  /** `^` matches at offset `i` of `s`. */
  predicate LineStart(s: string, i: int) {
    0 <= i <= |s| && (i == 0 || s[i - 1] == '\n')
  }

  /** `$` matches at offset `i` of `s`. */
  predicate LineFinish(s: string, i: int) {
    0 <= i <= |s| && (i == |s| || s[i] == '\n')
  }

  /** `re.search('^' + re.escape(p), s, re.M)` finds a match. */
  predicate SearchLinePrefix(s: string, p: string) {
    exists i :: 0 <= i <= |s| && LineStart(s, i) && p <= s[i..]
  }

  /** `re.search('^' + re.escape(p) + '$', s, re.M)` finds a match. */
  predicate SearchWholeLine(s: string, p: string) {
    exists i :: 0 <= i <= |s| && LineStart(s, i) && p <= s[i..] && LineFinish(s, i + |p|)
  }

  /** Some element of `lines` starts with `p`. */
  predicate SomeLineStartsWith(lines: seq<string>, p: string) {
    exists k :: 0 <= k < |lines| && p <= lines[k]
  }

  /** A literal without '\n' that is a prefix of `s` is a prefix of the first
      line of `s`. */
  lemma PrefixWithinFirstLine(s: string, p: string)
    requires '\n' !in p && p <= s
    ensures |p| <= LineEnd(s) && p <= s[..LineEnd(s)]
  {
    var n := LineEnd(s);
    assert |p| <= n;
    assert p <= s[..n];
  }

  /** Offsets of `s` past its first '\n' (at `n`) are the offsets of the rest
      `s[n + 1..]`, shifted down by `n + 1`: `^`, a literal and `$` match at
      one exactly when they match at the other. */
  lemma ShiftPastFirstLine(s: string, n: int, i: int, p: string)
    requires 0 <= n < |s| && s[n] == '\n'
    requires n < i <= |s|
    ensures LineStart(s, i) <==> LineStart(s[n + 1..], i - (n + 1))
    ensures p <= s[i..] <==> p <= s[n + 1..][i - (n + 1)..]
    ensures LineFinish(s, i + |p|) <==> LineFinish(s[n + 1..], i - (n + 1) + |p|)
  {
    var t := s[n + 1..];
    var j := i - (n + 1);
    assert s[i..] == t[j..];
    if j > 0 {
      assert s[i - 1] == t[j - 1];
    }
    if j + |p| < |t| {
      assert s[i + |p|] == t[j + |p|];
    }
  }

  /** Inside the first line of `s`, `^` matches only at offset 0. */
  lemma NoLineStartInFirstLine(s: string, i: int)
    requires 0 < i <= LineEnd(s)
    ensures !LineStart(s, i)
  {
    assert s[i - 1] == s[..LineEnd(s)][i - 1];
  }

  /** `^p` matches somewhere in `s` exactly when some line of `s` starts with `p`. */
  lemma SearchLinePrefixByLines(s: string, p: string)
    requires '\n' !in p
    ensures SearchLinePrefix(s, p) <==> SomeLineStartsWith(Split(s), p)
  {
    if SearchLinePrefix(s, p) {
      var i: int :| 0 <= i <= |s| && LineStart(s, i) && p <= s[i..];
      PrefixMatchIsLine(s, p, i);
    }
    if SomeLineStartsWith(Split(s), p) {
      LinePrefixIsMatch(s, p);
    }
  }

  /** A match of `^p` at offset `i` lies on a line that starts with `p`. */
  lemma {:induction false} PrefixMatchIsLine(s: string, p: string, i: int)
    requires '\n' !in p
    requires LineStart(s, i) && p <= s[i..]
    ensures SomeLineStartsWith(Split(s), p)
    decreases |s|
  {
    var n := LineEnd(s);
    var lines := Split(s);
    if i == 0 {
      PrefixWithinFirstLine(s, p);
      assert lines[0] == s[..n];
    } else {
      if i <= n { NoLineStartInFirstLine(s, i); }
      var t := s[n + 1..];
      var rest := Split(t);
      assert lines == [s[..n]] + rest;
      ShiftPastFirstLine(s, n, i, p);
      PrefixMatchIsLine(t, p, i - (n + 1));
      var k :| 0 <= k < |rest| && p <= rest[k];
      assert lines[k + 1] == rest[k];
    }
  }

  /** A line that starts with `p` gives a match of `^p`. */
  lemma {:induction false} LinePrefixIsMatch(s: string, p: string)
    requires SomeLineStartsWith(Split(s), p)
    ensures SearchLinePrefix(s, p)
    decreases |s|
  {
    var n := LineEnd(s);
    var lines := Split(s);
    var k :| 0 <= k < |lines| && p <= lines[k];
    if k == 0 {
      assert lines[0] == s[..n];
      assert LineStart(s, 0) && p <= s[0..];
    } else {
      var t := s[n + 1..];
      var rest := Split(t);
      assert lines == [s[..n]] + rest;
      assert rest[k - 1] == lines[k];
      LinePrefixIsMatch(t, p);
      var j: int :| 0 <= j <= |t| && LineStart(t, j) && p <= t[j..];
      ShiftPastFirstLine(s, n, j + n + 1, p);
    }
  }

  /** `^p$` matches somewhere in `s` exactly when some line of `s` is `p`. */
  lemma SearchWholeLineByLines(s: string, p: string)
    requires '\n' !in p
    ensures SearchWholeLine(s, p) <==> p in Split(s)
  {
    if SearchWholeLine(s, p) {
      var i: int :| 0 <= i <= |s| && LineStart(s, i) && p <= s[i..] && LineFinish(s, i + |p|);
      LineMatchIsLine(s, p, i);
    }
    if p in Split(s) {
      LineIsMatch(s, p);
    }
  }

  /** A match of `^p$` at offset `i` is a whole line equal to `p`. */
  lemma {:induction false} LineMatchIsLine(s: string, p: string, i: int)
    requires '\n' !in p
    requires LineStart(s, i) && p <= s[i..] && LineFinish(s, i + |p|)
    ensures p in Split(s)
    decreases |s|
  {
    var n := LineEnd(s);
    var lines := Split(s);
    if i == 0 {
      PrefixWithinFirstLine(s, p);
      assert lines[0] == s[..n] == p;
    } else {
      if i <= n { NoLineStartInFirstLine(s, i); }
      var t := s[n + 1..];
      var rest := Split(t);
      assert lines == [s[..n]] + rest;
      ShiftPastFirstLine(s, n, i, p);
      LineMatchIsLine(t, p, i - (n + 1));
    }
  }

  /** A line equal to `p` gives a match of `^p$`. */
  lemma {:induction false} LineIsMatch(s: string, p: string)
    requires p in Split(s)
    ensures SearchWholeLine(s, p)
    decreases |s|
  {
    var n := LineEnd(s);
    var lines := Split(s);
    if p == lines[0] {
      assert lines[0] == s[..n];
      assert LineStart(s, 0) && p <= s[0..] && LineFinish(s, |p|);
    } else {
      var t := s[n + 1..];
      var rest := Split(t);
      assert lines == [s[..n]] + rest;
      assert p in rest;
      LineIsMatch(t, p);
      var j: int :| 0 <= j <= |t| && LineStart(t, j) && p <= t[j..] && LineFinish(t, j + |p|);
      ShiftPastFirstLine(s, n, j + n + 1, p);
    }
  }
}
