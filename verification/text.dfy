/**
 The string operations the diff validator relies on, stated for `string`
 (`seq<char>`): whitespace as Python's `str.isspace` sees it, `str.strip()`,
 splitting on and joining with '\n', and substring containment (`t in s`).
 */
module Text {

  /** True for exactly the characters Python's `str.isspace()` accepts, which
      are the characters `str.strip()` removes when called without arguments. */
  predicate IsSpace(c: char) {
    var n := c as int;
    || (0x09 <= n <= 0x0D)
    || (0x1C <= n <= 0x20)
    || n == 0x85
    || n == 0xA0
    || n == 0x1680
    || (0x2000 <= n <= 0x200A)
    || n == 0x2028
    || n == 0x2029
    || n == 0x202F
    || n == 0x205F
    || n == 0x3000
  }

  predicate AllSpace(s: string) {
    forall k :: 0 <= k < |s| ==> IsSpace(s[k])
  }

  /** Number of whitespace characters at the front of `s`. */
  function LeadingSpaces(s: string): (n: nat)
    ensures n <= |s|
    ensures AllSpace(s[..n])
    ensures n < |s| ==> !IsSpace(s[n])
  {
    if |s| == 0 || !IsSpace(s[0]) then 0
    else
      var m := LeadingSpaces(s[1..]);
      assert s[1..][..m] == s[1..m + 1];
      1 + m
  }

  /** Number of whitespace characters at the back of `s`. */
  function TrailingSpaces(s: string): (n: nat)
    ensures n <= |s|
    ensures AllSpace(s[|s| - n..])
    ensures n < |s| ==> !IsSpace(s[|s| - 1 - n])
  {
    if |s| == 0 || !IsSpace(s[|s| - 1]) then 0
    else
      var m := TrailingSpaces(s[..|s| - 1]);
      assert s[..|s| - 1][|s| - 1 - m..] == s[|s| - 1 - m..|s| - 1];
      1 + m
  }

  /** `r` is `s` with its leading and trailing whitespace removed, the kept
      part starting at offset `i` of `s`. */
  ghost predicate StrippedAt(s: string, r: string, i: int) {
    && 0 <= i
    && i + |r| <= |s|
    && s[i..i + |r|] == r
    && AllSpace(s[..i])
    && AllSpace(s[i + |r|..])
    && (r != [] ==> !IsSpace(r[0]) && !IsSpace(r[|r| - 1]))
  }

  /** Python's `s.strip()`. */
  function Strip(s: string): (r: string)
    ensures exists i :: StrippedAt(s, r, i)
    ensures r == [] <==> AllSpace(s)
    ensures |r| <= |s|
  {
    var a := LeadingSpaces(s);
    var t := s[a..];
    var b := TrailingSpaces(t);
    var r := t[..|t| - b];
    assert s[a..a + |r|] == r;
    assert s[a + |r|..] == t[|t| - b..];
    assert StrippedAt(s, r, a);
    assert r == [] ==> AllSpace(s) by {
      if r == [] {
        forall k | 0 <= k < |s| ensures IsSpace(s[k]) {
          assert s[k] == s[..a][k];
        }
      }
    }
    r
  }

  /** Whatever is left after stripping is determined by `s` alone: any two
      candidates that satisfy `StrippedAt` are the same string. */
  lemma {:induction false} StrippedUnique(s: string, r1: string, i1: int, r2: string, i2: int)
    requires StrippedAt(s, r1, i1) && StrippedAt(s, r2, i2)
    ensures r1 == r2
  {
    if r1 == [] || r2 == [] {
      // An empty strip means every character of s is whitespace.
      if r1 == [] {
        AllSpaceFromEmptyStrip(s, i1);
      } else {
        AllSpaceFromEmptyStrip(s, i2);
      }
    } else {
      // Both start at the first and end at the last non-space character.
      assert s[i1] == r1[0] && s[i2] == r2[0];
      var e1, e2 := i1 + |r1|, i2 + |r2|;
      assert s[e1 - 1] == r1[|r1| - 1] && s[e2 - 1] == r2[|r2| - 1];
      assert i1 == i2 && e1 == e2;
    }
  }

  lemma AllSpaceFromEmptyStrip(s: string, i: int)
    requires StrippedAt(s, [], i)
    ensures AllSpace(s)
  {
    forall k | 0 <= k < |s| ensures IsSpace(s[k]) {
      if k < i {
        assert s[k] == s[..i][k];
      } else {
        assert s[k] == s[i..][k - i];
      }
    }
  }

  /** Any candidate that satisfies `StrippedAt` is the strip. */
  lemma StripOfStrippedAt(s: string, r: string, i: int)
    requires StrippedAt(s, r, i)
    ensures Strip(s) == r
  {
    var k :| StrippedAt(s, Strip(s), k);
    StrippedUnique(s, r, i, Strip(s), k);
  }

  /** Stripping is idempotent. */
  lemma StripIdempotent(s: string)
    ensures Strip(Strip(s)) == Strip(s)
  {
    var r := Strip(s);
    assert r[..0] == [] && r[|r|..] == [];
    StripOfStrippedAt(r, r, 0);
  }

  /** Whitespace added around a string is removed again by `Strip`. */
  lemma StripPadding(w1: string, s: string, w2: string)
    requires AllSpace(w1) && AllSpace(w2)
    ensures Strip(w1 + s + w2) == Strip(s)
  {
    var r := Strip(s);
    var i :| StrippedAt(s, r, i);
    PaddedStrippedAt(w1, s, w2, r, i);
    StripOfStrippedAt(w1 + s + w2, r, |w1| + i);
  }

  /** A stripped part of `s` stays one of `w1 + s + w2` under whitespace padding. */
  lemma PaddedStrippedAt(w1: string, s: string, w2: string, r: string, i: int)
    requires AllSpace(w1) && AllSpace(w2)
    requires StrippedAt(s, r, i)
    ensures StrippedAt(w1 + s + w2, r, |w1| + i)
  {
    var p := w1 + s + w2;
    var j := |w1| + i;
    assert p[j..j + |r|] == s[i..i + |r|];
    assert p[..j] == w1 + s[..i];
    assert p[j + |r|..] == s[i + |r|..] + w2;
    AllSpaceConcat(w1, s[..i]);
    AllSpaceConcat(s[i + |r|..], w2);
  }

  lemma AllSpaceConcat(a: string, b: string)
    requires AllSpace(a) && AllSpace(b)
    ensures AllSpace(a + b)
  {
    forall k | 0 <= k < |a + b| ensures IsSpace((a + b)[k]) {
      if k >= |a| {
        assert (a + b)[k] == b[k - |a|];
      }
    }
  }

  /** A string that begins and ends with non-space characters is its own strip. */
  lemma StripSolid(s: string)
    requires s != [] && !IsSpace(s[0]) && !IsSpace(s[|s| - 1])
    ensures Strip(s) == s
  {
    assert s[..0] == [] && s[|s|..] == [];
    StripOfStrippedAt(s, s, 0);
  }

  /** Python's `t in s` for strings: `t` occurs in `s` at some offset. */
  predicate Contains(s: string, t: string) {
    exists i :: 0 <= i <= |s| && t <= s[i..]
  }

  /** A token that neither begins nor ends with whitespace occurs in `s` exactly
      when it occurs in `Strip(s)`: stripping only ever removes whitespace. */
  lemma ContainsStrip(s: string, t: string)
    requires t != [] && !IsSpace(t[0]) && !IsSpace(t[|t| - 1])
    ensures Contains(Strip(s), t) <==> Contains(s, t)
  {
    var r := Strip(s);
    var a :| StrippedAt(s, r, a);
    StrippedContains(s, r, a, t);
    ContainsStripped(s, r, a, t);
  }

  lemma StrippedContains(s: string, r: string, a: int, t: string)
    requires StrippedAt(s, r, a)
    ensures Contains(r, t) ==> Contains(s, t)
  {
    if Contains(r, t) {
      var i :| 0 <= i <= |r| && t <= r[i..];
      ContainsFromInfix(s, a, r, i, t);
    }
  }

  lemma ContainsStripped(s: string, r: string, a: int, t: string)
    requires StrippedAt(s, r, a)
    requires t != [] && !IsSpace(t[0]) && !IsSpace(t[|t| - 1])
    ensures Contains(s, t) ==> Contains(r, t)
  {
    if Contains(s, t) {
      var i :| 0 <= i <= |s| && t <= s[i..];
      OccurrenceInsideStrip(s, r, a, i, t);
    }
  }

  /** A string lacking one of the characters of `t` does not contain `t`. */
  lemma MissingCharNotContained(s: string, t: string, k: int)
    requires 0 <= k < |t| && t[k] !in s
    ensures !Contains(s, t)
  {
  }

  /** An occurrence of `t` in the infix `r` of `s` starting at `a` is an
      occurrence in `s`. */
  lemma ContainsFromInfix(s: string, a: int, r: string, i: int, t: string)
    requires 0 <= a && a + |r| <= |s| && s[a..a + |r|] == r
    requires 0 <= i <= |r| && t <= r[i..]
    ensures Contains(s, t)
  {
    var j := i + |t|;
    assert r[i..j] == t;
    assert s[a + i..a + j] == r[i..j];
    assert t <= s[a + i..];
  }

  /** An occurrence of a token with non-space ends lies within the stripped part. */
  lemma OccurrenceInsideStrip(s: string, r: string, a: int, i: int, t: string)
    requires StrippedAt(s, r, a)
    requires t != [] && !IsSpace(t[0]) && !IsSpace(t[|t| - 1])
    requires 0 <= i <= |s| && t <= s[i..]
    ensures Contains(r, t)
  {
    var j := i + |t|;
    assert s[i] == t[0] && s[j - 1] == t[|t| - 1];
    assert a <= i && j <= a + |r|;
    forall k | 0 <= k < |t| ensures r[i - a + k] == t[k] {
      assert r[i - a + k] == s[a..a + |r|][i - a + k];
      assert t[k] == s[i..][k];
    }
    assert t <= r[i - a..];
  }

  /** Offset of the first '\n' in `s`, or `|s|` when there is none. */
  function LineEnd(s: string): (n: nat)
    ensures n <= |s|
    ensures '\n' !in s[..n]
    ensures n < |s| ==> s[n] == '\n'
  {
    if |s| == 0 || s[0] == '\n' then 0
    else
      var m := LineEnd(s[1..]);
      assert s[..m + 1] == [s[0]] + s[1..][..m];
      1 + m
  }

  /** `"\n".join(lines)`. */
  function Join(lines: seq<string>): string {
    if |lines| == 0 then ""
    else if |lines| == 1 then lines[0]
    else lines[0] + "\n" + Join(lines[1..])
  }

  predicate NoNewlines(lines: seq<string>) {
    forall k :: 0 <= k < |lines| ==> '\n' !in lines[k]
  }

  /** `s.split("\n")`: the pieces of `s` between its '\n' characters. */
  function Split(s: string): (lines: seq<string>)
    ensures |lines| >= 1
    ensures NoNewlines(lines)
    decreases |s|
  {
    var n := LineEnd(s);
    if n == |s| then [s] else [s[..n]] + Split(s[n + 1..])
  }

  /** The first '\n' of `s` is at `n` when `s[..n]` has none and `s[n]` is one. */
  lemma LineEndUnique(s: string, n: int)
    requires 0 <= n <= |s| && '\n' !in s[..n] && (n < |s| ==> s[n] == '\n')
    ensures LineEnd(s) == n
  {
  }

  /** A text with no '\n' is a single line. */
  lemma SplitSingle(s: string)
    requires '\n' !in s
    ensures Split(s) == [s]
  {
    assert LineEnd(s) == |s|;
  }

  /** A first line followed by '\n' is split off the rest. */
  lemma SplitFirst(a: string, b: string)
    requires '\n' !in a
    ensures Split(a + "\n" + b) == [a] + Split(b)
  {
    var s := a + "\n" + b;
    assert s[..|a|] == a;
    LineEndUnique(s, |a|);
    assert s[|a| + 1..] == b;
  }

  /** `Join` of a first line and at least one more. */
  lemma JoinCons(a: string, rest: seq<string>)
    requires |rest| >= 1
    ensures Join([a] + rest) == a + "\n" + Join(rest)
  {
    assert ([a] + rest)[1..] == rest;
  }

  /** Joining the pieces again gives back the text. */
  lemma {:induction false} JoinSplit(s: string)
    ensures Join(Split(s)) == s
    decreases |s|
  {
    var n := LineEnd(s);
    if n < |s| {
      var t := s[n + 1..];
      JoinSplit(t);
      assert Split(s) == [s[..n]] + Split(t);
      JoinCons(s[..n], Split(t));
      CutAtNewline(s, n);
    }
  }

  /** A text is the part before a '\n', the '\n' and the part after it. */
  lemma CutAtNewline(s: string, n: int)
    requires 0 <= n < |s| && s[n] == '\n'
    ensures s == s[..n] + "\n" + s[n + 1..]
  {
    var c := s[..n] + "\n" + s[n + 1..];
    assert |c| == |s|;
    forall k | 0 <= k < |s| ensures c[k] == s[k] {
      if k > n {
        assert c[k] == s[n + 1..][k - n - 1];
      }
    }
  }

  /** Splitting a join of newline-free pieces gives back the pieces. */
  lemma {:induction false} SplitJoin(lines: seq<string>)
    requires |lines| >= 1 && NoNewlines(lines)
    ensures Split(Join(lines)) == lines
  {
    if |lines| == 1 {
      assert '\n' !in lines[0];
      SplitSingle(lines[0]);
    } else {
      var rest := lines[1..];
      assert '\n' !in lines[0];
      assert NoNewlines(rest);
      SplitFirst(lines[0], Join(rest));
      SplitJoin(rest);
      assert lines == [lines[0]] + rest;
    }
  }

  /** The text of joined lines begins with the first line's first character. */
  lemma JoinFirstChar(lines: seq<string>)
    requires |lines| >= 1 && lines[0] != []
    ensures Join(lines) != [] && Join(lines)[0] == lines[0][0]
  {
  }

  /** The text of joined lines ends with the last line's last character. */
  lemma {:induction false} JoinLastChar(lines: seq<string>)
    requires |lines| >= 1 && lines[|lines| - 1] != []
    ensures var j := Join(lines); var l := lines[|lines| - 1]; j != [] && j[|j| - 1] == l[|l| - 1]
  {
    if |lines| > 1 {
      JoinLastChar(lines[1..]);
    }
  }

  /** A character other than '\n' that no line has does not occur in the join. */
  lemma {:induction false} JoinAvoids(lines: seq<string>, c: char)
    requires c != '\n'
    requires forall k :: 0 <= k < |lines| ==> c !in lines[k]
    ensures c !in Join(lines)
  {
    if |lines| > 1 {
      JoinAvoids(lines[1..], c);
    }
  }

  /** A line that starts with `t` puts `t` into the join. */
  lemma {:induction false} ContainsLinePrefix(lines: seq<string>, k: int, t: string)
    requires 0 <= k < |lines| && t <= lines[k]
    ensures Contains(Join(lines), t)
  {
    var j := Join(lines);
    if k == 0 {
      assert t <= j[0..];
    } else {
      ContainsLinePrefix(lines[1..], k - 1, t);
      var i :| 0 <= i <= |Join(lines[1..])| && t <= Join(lines[1..])[i..];
      var off := |lines[0]| + 1;
      assert j == lines[0] + "\n" + Join(lines[1..]);
      assert j[off + i..] == Join(lines[1..])[i..];
      assert t <= j[off + i..];
    }
  }
}
