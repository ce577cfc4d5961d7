/**
 * The JavaScript string built-ins the parser relies on: `indexOf`, `split` on a
 * single character, `split(/ +/)`, `replace(/-/g, '_')`, `trimRight`, and the
 * character classes `\s` and "line terminator" of JavaScript regular expressions.
 * Characters are Unicode scalar values; every delimiter involved lies in the
 * Basic Multilingual Plane, so positions in UTF-16 code units and in characters
 * pick out the same pieces.
 */
module JsString {
  import opened Wrappers

  /** The JavaScript line terminators: the characters `.` in a regular expression does not match. */
  predicate IsLineTerminator(c: char) {
    c == '\n' || c == '\r' || c == '\U{2028}' || c == '\U{2029}'
  }

  predicate NoLineTerminators(s: string) {
    forall i :: 0 <= i < |s| ==> !IsLineTerminator(s[i])
  }

  /**
   * The class `\s` of JavaScript regular expressions (WhiteSpace and LineTerminator
   * of ECMAScript); `trimRight` removes exactly the same characters.
   */
  predicate IsWhitespace(c: char) {
    IsLineTerminator(c) || c == '\t' || c == '\U{B}' || c == '\U{C}' || c == ' ' ||
    c == '\U{A0}' || c == '\U{1680}' || ('\U{2000}' <= c <= '\U{200A}') ||
    c == '\U{202F}' || c == '\U{205F}' || c == '\U{3000}' || c == '\U{FEFF}'
  }

  predicate IsSpace(c: char) { c == ' ' }

  predicate NotSpace(c: char) { c != ' ' }

  /** Length of the longest prefix of `s` whose characters all satisfy `inRun`. */
  function LeadingRun(s: string, inRun: char -> bool): (n: nat)
    ensures n <= |s|
    ensures forall i :: 0 <= i < n ==> inRun(s[i])
    ensures n < |s| ==> !inRun(s[n])
  {
    RunFrom(s, inRun, 0)
  }

  /** The end of the run of characters satisfying `inRun` that starts at `i`. */
  function RunFrom(s: string, inRun: char -> bool, i: nat): (n: nat)
    requires i <= |s|
    ensures i <= n <= |s|
    ensures forall j :: i <= j < n ==> inRun(s[j])
    ensures n < |s| ==> !inRun(s[n])
    decreases |s| - i
  {
    if i == |s| || !inRun(s[i]) then i else RunFrom(s, inRun, i + 1)
  }

  /** The run is determined by its end: any `k` with the run's two properties is its length. */
  lemma LeadingRunIs(s: string, inRun: char -> bool, k: nat)
    requires k <= |s|
    requires forall i :: 0 <= i < k ==> inRun(s[i])
    requires k < |s| ==> !inRun(s[k])
    ensures LeadingRun(s, inRun) == k
  {
  }

  /** The first position at or after `i` that holds `c`. */
  function IndexFrom(s: string, c: char, i: nat): (r: Option<nat>)
    requires i <= |s|
    ensures r.None? ==> forall j :: i <= j < |s| ==> s[j] != c
    ensures r.Some? ==> i <= r.value < |s| && s[r.value] == c && forall j :: i <= j < r.value ==> s[j] != c
    decreases |s| - i
  {
    if i == |s| then None else if s[i] == c then Some(i) else IndexFrom(s, c, i + 1)
  }

  /** `s.indexOf(c)`, with `None` for -1. */
  function IndexOf(s: string, c: char): (r: Option<nat>)
    ensures r.None? <==> c !in s
    ensures r.Some? ==> r.value < |s| && s[r.value] == c && c !in s[..r.value]
  {
    var r := IndexFrom(s, c, 0);
    assert r.Some? ==> forall j :: 0 <= j < r.value ==> s[..r.value][j] == s[j];
    r
  }

  /** A string cut at a leading character and two later positions is the concatenation of its pieces. */
  lemma CutThree(s: string, i: nat, j: nat)
    requires 1 <= i <= j <= |s|
    ensures s == [s[0]] + s[1..i] + s[i..j] + s[j..]
  {
    assert s == s[..1] + s[1..i] + s[i..j] + s[j..];
  }

  /** The first occurrence is determined by its position: `c` there and nowhere before. */
  lemma IndexOfIs(s: string, c: char, k: nat)
    requires k < |s| && s[k] == c
    requires forall j :: 0 <= j < k ==> s[j] != c
    ensures IndexOf(s, c) == Some(k)
  {
    var r := IndexOf(s, c);
    assert c in s by {
      assert s[k] == c;
    }
  }

  /** `s.split(d)` for a one-character separator `d`: the pieces between successive `d`s. */
  function Split(s: string, d: char): (parts: seq<string>)
    ensures |parts| >= 1
    ensures forall i :: 0 <= i < |parts| ==> d !in parts[i]
    ensures d !in s ==> parts == [s]
    ensures d in s ==> |parts| >= 2
    decreases |s|
  {
    match IndexOf(s, d)
    case None => [s]
    case Some(i) => [s[..i]] + Split(s[i + 1..], d)
  }

  /** `parts.join(d)`: the inverse of `Split`. */
  function Join(parts: seq<string>, d: char): string
    requires |parts| >= 1
  {
    if |parts| == 1 then parts[0] else parts[0] + [d] + Join(parts[1..], d)
  }

  /** Splitting loses nothing: joining the pieces gives back the string. */
  lemma {:induction false} SplitJoin(s: string, d: char)
    ensures Join(Split(s, d), d) == s
    decreases |s|
  {
    match IndexOf(s, d)
    case None =>
    case Some(i) =>
      SplitJoin(s[i + 1..], d);
      assert s == s[..i] + [d] + s[i + 1..];
  }

  /** Joining pieces that hold no separator and splitting again gives back the pieces. */
  lemma {:induction false} JoinSplit(parts: seq<string>, d: char)
    requires |parts| >= 1
    requires forall i :: 0 <= i < |parts| ==> d !in parts[i]
    ensures Split(Join(parts, d), d) == parts
  {
    if |parts| > 1 {
      var rest := Join(parts[1..], d);
      JoinSplit(parts[1..], d);
      SplitAfter(parts[0] + [d] + rest, d, parts[0], rest);
    }
  }

  /** When `s` is `pre`, a separator, and `rest`, and `pre` holds no separator, the first piece is `pre`. */
  lemma SplitAfter(s: string, d: char, pre: string, rest: string)
    requires s == pre + [d] + rest
    requires d !in pre
    ensures Split(s, d) == [pre] + Split(rest, d)
  {
    assert s[|pre|] == d;
    assert s[..|pre|] == pre;
    assert IndexOf(s, d) == Some(|pre|);
    assert s[..|pre|] == pre;
    assert s[|pre| + 1..] == rest;
  }

  /** The first piece of `s` is the text before its first separator. */
  lemma SplitFirst(s: string, d: char, pre: string, post: string)
    requires s == pre + post
    requires d !in pre
    requires post == [] || post[0] == d
    ensures Split(s, d)[0] == pre
  {
    if post == [] {
      assert s == pre;
    } else {
      SplitAfter(s, d, pre, post[1..]);
    }
  }

  /**
   * `s.split(/ +/)`: the pieces between maximal runs of spaces. A run at the very
   * start or end of `s` produces an empty first or last piece.
   */
  function SplitOnSpaceRuns(s: string): (parts: seq<string>)
    ensures |parts| >= 1
    decreases |s|
  {
    match IndexOf(s, ' ')
    case None => [s]
    case Some(n) =>
      var rest := s[n..];
      var m := n + LeadingRun(rest, IsSpace);
      [s[..n]] + SplitOnSpaceRuns(s[m..])
  }

  /** No piece holds a space. */
  lemma {:induction false} SpaceRunsHaveNoSpaces(s: string)
    ensures forall i :: 0 <= i < |SplitOnSpaceRuns(s)| ==> ' ' !in SplitOnSpaceRuns(s)[i]
    decreases |s|
  {
    match IndexOf(s, ' ')
    case None =>
    case Some(n) =>
      var m := n + LeadingRun(s[n..], IsSpace);
      SpaceRunsStep(s, n);
      SpaceRunsHaveNoSpaces(s[m..]);
  }

  /** The text after a space run, where the next piece starts: empty or not a space. */
  lemma SpaceRunEnd(s: string, n: nat)
    requires IndexOf(s, ' ') == Some(n)
    ensures var m := n + LeadingRun(s[n..], IsSpace);
      n < m <= |s| && (m < |s| ==> s[m] != ' ') && (forall i :: n <= i < m ==> s[i] == ' ')
  {
    var rest := s[n..];
    var k := LeadingRun(rest, IsSpace);
    assert k >= 1 by {
      assert rest[0] == ' ';
    }
    assert forall i :: n <= i < n + k ==> s[i] == ' ' by {
      forall i | n <= i < n + k ensures s[i] == ' ' {
        assert s[i] == rest[i - n];
      }
    }
    assert n + k < |s| ==> s[n + k] != ' ' by {
      if n + k < |s| {
        assert s[n + k] == rest[k];
      }
    }
  }

  /** The first piece is the text before the first space; the rest are the pieces after its space run. */
  lemma SpaceRunsStep(s: string, n: nat)
    requires IndexOf(s, ' ') == Some(n)
    ensures SplitOnSpaceRuns(s) == [s[..n]] + SplitOnSpaceRuns(s[n + LeadingRun(s[n..], IsSpace)..])
  {
  }

  /** The first piece is empty only when `s` is empty or starts with a space. */
  lemma SpaceRunsFirst(s: string)
    requires s != [] && s[0] != ' '
    ensures SplitOnSpaceRuns(s)[0] != []
  {
    match IndexOf(s, ' ')
    case None =>
    case Some(n) =>
      assert s[..n][0] == s[0];
  }

  /** Only the first and the last piece can be empty. */
  lemma {:induction false} SpaceRunsInterior(s: string)
    ensures forall i :: 0 < i < |SplitOnSpaceRuns(s)| - 1 ==> SplitOnSpaceRuns(s)[i] != []
    decreases |s|
  {
    match IndexOf(s, ' ')
    case None =>
    case Some(n) =>
      var m := n + LeadingRun(s[n..], IsSpace);
      var parts, tail := SplitOnSpaceRuns(s), SplitOnSpaceRuns(s[m..]);
      assert |tail| > 1 ==> tail[0] != [] by {
        if |tail| > 1 {
          SpaceRunEnd(s, n);
          assert m < |s|;
          assert s[m..][0] == s[m];
          SpaceRunsFirst(s[m..]);
        }
      }
      SpaceRunsInterior(s[m..]);
      assert parts == [s[..n]] + tail by {
        SpaceRunsStep(s, n);
      }
      forall i | 0 < i < |parts| - 1 ensures parts[i] != [] {
        assert parts[i] == tail[i - 1];
      }
  }

  /** The last element of a non-empty sequence. */
  function Last<T>(p: seq<T>): T
    requires |p| >= 1
  {
    p[|p| - 1]
  }

  /** Putting an element in front leaves the last element as it was. */
  lemma LastOfCons<T>(first: T, rest: seq<T>)
    requires |rest| >= 1
    ensures Last([first] + rest) == Last(rest)
  {
    assert ([first] + rest)[|rest|] == rest[|rest| - 1];
  }

  /** The last piece is empty exactly when `s` ends with a space. */
  lemma {:induction false} SpaceRunsLast(s: string)
    requires s != []
    ensures Last(SplitOnSpaceRuns(s)) == [] <==> Last(s) == ' '
    decreases |s|
  {
    match IndexOf(s, ' ')
    case None =>
    case Some(n) =>
      var m := n + LeadingRun(s[n..], IsSpace);
      var rest := s[m..];
      assert Last(SplitOnSpaceRuns(s)) == Last(SplitOnSpaceRuns(rest)) by {
        SpaceRunsStep(s, n);
        LastOfCons(s[..n], SplitOnSpaceRuns(rest));
      }
      SpaceRunEnd(s, n);
      if m < |s| {
        SpaceRunsLast(rest);
        assert Last(rest) == Last(s);
      } else {
        assert rest == [];
      }
  }

  /** No two spaces are adjacent in `s`. */
  predicate SingleSpaced(s: string) {
    forall i, j :: 0 <= i < |s| && 0 <= j < |s| && j == i + 1 ==> !(s[i] == ' ' && s[j] == ' ')
  }

  /** Where no two spaces are adjacent, the pieces joined by single spaces give back `s`. */
  lemma SpaceRunsJoin(s: string)
    requires SingleSpaced(s)
    ensures Join(SplitOnSpaceRuns(s), ' ') == s
  {
    SpaceRunsJoinCollapsed(s);
    CollapseSingleSpaced(s);
  }

  /** Collapsing changes nothing where no two spaces are adjacent. */
  lemma {:induction false} CollapseSingleSpaced(s: string)
    requires SingleSpaced(s)
    ensures CollapseSpaces(s) == s
    decreases |s|
  {
    if |s| > 1 {
      var tail := s[1..];
      assert !(s[0] == ' ' && s[1] == ' ');
      assert SingleSpaced(tail) by {
        forall i, j | 0 <= i < |tail| && 0 <= j < |tail| && j == i + 1
          ensures !(tail[i] == ' ' && tail[j] == ' ')
        {
          assert tail[i] == s[i + 1] && tail[j] == s[j + 1];
        }
      }
      CollapseSingleSpaced(tail);
      assert s == [s[0]] + tail;
    }
  }

  /** Joining a first piece onto more pieces puts one separator between them. */
  lemma JoinCons(first: string, parts: seq<string>, d: char)
    requires |parts| >= 1
    ensures Join([first] + parts, d) == first + [d] + Join(parts, d)
  {
    assert ([first] + parts)[1..] == parts;
  }

  /** `s` with every maximal run of spaces shortened to a single space. */
  function CollapseSpaces(s: string): string
    decreases |s|
  {
    if |s| <= 1 then s
    else if s[0] == ' ' && s[1] == ' ' then CollapseSpaces(s[1..])
    else [s[0]] + CollapseSpaces(s[1..])
  }

  /** Text without spaces passes through unchanged in front of whatever follows. */
  lemma {:induction false} CollapseNoSpacePrefix(pre: string, t: string)
    requires ' ' !in pre
    ensures CollapseSpaces(pre + t) == pre + CollapseSpaces(t)
    decreases |pre|
  {
    if pre != [] {
      var u := pre + t;
      assert u[1..] == pre[1..] + t;
      assert u[0] == pre[0];
      assert pre[0] in pre;
      if |u| == 1 {
        assert t == [] && u == pre && pre + [] == pre;
      } else {
        CollapseNoSpacePrefix(pre[1..], t);
        var c := CollapseSpaces(t);
        assert CollapseSpaces(u) == [pre[0]] + (pre[1..] + c);
        assert [pre[0]] + (pre[1..] + c) == pre + c by {
          assert pre == [pre[0]] + pre[1..];
        }
      }
    } else {
      assert pre + t == t && pre + CollapseSpaces(t) == CollapseSpaces(t);
    }
  }

  /** A leading run of `k` spaces collapses to one space. */
  lemma {:induction false} CollapseRun(u: string, k: nat)
    requires 1 <= k <= |u|
    requires forall i :: 0 <= i < k ==> u[i] == ' '
    requires k < |u| ==> u[k] != ' '
    ensures CollapseSpaces(u) == " " + CollapseSpaces(u[k..])
    decreases k
  {
    if k == 1 {
      if |u| == 1 {
        assert u == [u[0]] && u[1..] == [];
      } else {
        assert u[1] != ' ';
      }
    } else {
      assert u[0] == ' ' && u[1] == ' ';
      CollapseRun(u[1..], k - 1);
      assert u[1..][k - 1..] == u[k..];
    }
  }

  /** Splitting on runs of spaces and joining with one space collapses each run to one space. */
  lemma {:induction false} SpaceRunsJoinCollapsed(s: string)
    ensures Join(SplitOnSpaceRuns(s), ' ') == CollapseSpaces(s)
    decreases |s|
  {
    match IndexOf(s, ' ')
    case None =>
      assert s + [] == s;
      CollapseNoSpacePrefix(s, []);
    case Some(n) =>
      var m := n + LeadingRun(s[n..], IsSpace);
      SpaceRunsStep(s, n);
      var tail := s[m..];
      SpaceRunsJoinCollapsed(tail);
      JoinCons(s[..n], SplitOnSpaceRuns(tail), ' ');
      CollapseAtFirstRun(s, n);
  }

  /** Collapsing keeps the text before the first space run and turns that run into one space. */
  lemma CollapseAtFirstRun(s: string, n: nat)
    requires IndexOf(s, ' ') == Some(n)
    ensures CollapseSpaces(s) == s[..n] + " " + CollapseSpaces(s[n + LeadingRun(s[n..], IsSpace)..])
  {
    var k := LeadingRun(s[n..], IsSpace);
    var pre, u := s[..n], s[n..];
    assert CollapseSpaces(pre + u) == pre + " " + CollapseSpaces(u[k..]) by {
      SpaceRunEnd(s, n);
      assert k >= 1;
      CollapseStep(pre, u, k);
    }
    assert pre + u == s;
    assert u[k..] == s[n + k..];
  }

  /** Text without spaces, then a run of `k` spaces: the text stays, the run becomes one space. */
  lemma CollapseStep(pre: string, u: string, k: nat)
    requires ' ' !in pre
    requires 1 <= k <= |u|
    requires forall i :: 0 <= i < k ==> u[i] == ' '
    requires k < |u| ==> u[k] != ' '
    ensures CollapseSpaces(pre + u) == pre + " " + CollapseSpaces(u[k..])
  {
    var rest := CollapseSpaces(u[k..]);
    CollapseRun(u, k);
    CollapseNoSpacePrefix(pre, u);
    assert pre + (" " + rest) == pre + " " + rest;
  }

  /** `s.replace(/x/g, y)` for single characters `x` and `y`. */
  function ReplaceAll(s: string, x: char, y: char): (r: string)
    ensures |r| == |s|
    ensures x != y ==> x !in r
    ensures forall i :: 0 <= i < |s| && s[i] != x ==> r[i] == s[i]
    ensures forall i :: 0 <= i < |s| && s[i] == x ==> r[i] == y
  {
    seq(|s|, i requires 0 <= i < |s| => if s[i] == x then y else s[i])
  }

  /** `s.trimRight()`: `s` without its maximal run of trailing whitespace. */
  function TrimRight(s: string): (r: string)
    ensures |r| <= |s| && r == s[..|r|]
    ensures r == [] || !IsWhitespace(r[|r| - 1])
    ensures forall i :: |r| <= i < |s| ==> IsWhitespace(s[i])
    decreases |s|
  {
    if s != [] && IsWhitespace(s[|s| - 1]) then TrimRight(s[..|s| - 1]) else s
  }

  /** Trimming a string that already ends in a non-whitespace character changes nothing. */
  lemma TrimRightIdempotent(s: string)
    ensures TrimRight(TrimRight(s)) == TrimRight(s)
  {
  }
}
