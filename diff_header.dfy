/**
 * The file name of one diff block, read from its `diff --git` header line
 * with the pattern `^diff --git "?a/(.+)"? "?b/(.+)"?$`: the first line of
 * the block that matches gives the old path (group 1) and the new path
 * (group 2); the new path is the answer unless it is `/dev/null`, and a
 * block with no matching line has the empty name.
 */
module DiffHeader {

  import opened Options
  import opened Strings

  const GIT_PREFIX: string := "diff --git "
  const DEV_NULL: string := "/dev/null"

  /**
   * What follows group 1: `"? "?b/(.+)"?$`. On success, the text of group 2,
   * which (the group being greedy) runs to the end of the line.
   */
  function MatchTail(t: string): Option<string>
  {
    var i := SpaceAt(t);
    if i < |t| && t[i] == ' ' then
      var j := BAt(t, i);
      if j + 2 < |t| && t[j] == 'b' && t[j + 1] == '/' then Some(t[j + 2..]) else None
    else None
  }

  /** Group 2 is a non-empty suffix of what follows group 1. */
  lemma TailIsSuffix(t: string)
    requires MatchTail(t).Some?
    ensures |MatchTail(t).value| > 0 && EndsWith(t, MatchTail(t).value)
  {
  }

  /** Where the space of the tail must be: past an optional closing quote. */
  function SpaceAt(t: string): (i: nat)
    ensures i <= 1
  {
    if |t| > 0 && t[0] == '"' then 1 else 0
  }

  /** Where the `b/` of the tail must be: past the space and an optional opening quote. */
  function BAt(t: string, i: nat): (j: nat)
    ensures j == i + 1 || j == i + 2
  {
    if i + 1 < |t| && t[i + 1] == '"' then i + 2 else i + 1
  }

  /**
   * Backtracking over the greedy group 1 `(.+)` of `body`: the longest
   * non-empty prefix, of length at most `p`, after which the tail matches.
   */
  function SplitGroups(body: string, p: nat): Option<(string, string)>
    requires p <= |body|
    decreases p
  {
    if p == 0 then None
    else match MatchTail(body[p..])
      case Some(g2) => Some((body[..p], g2))
      case None => SplitGroups(body, p - 1)
  }

  /** No split strictly after `lo` and at most `hi` leaves a tail that matches. */
  predicate NoTailBetween(body: string, lo: nat, hi: nat)
    requires hi <= |body|
  {
    forall q :: lo < q <= hi ==> MatchTail(body[q..]).None?
  }

  /**
   * The search finds the longest split with a matching tail, and fails
   * only when no split has one.
   */
  lemma {:induction false} SplitGroupsIsLongest(body: string, p: nat)
    requires p <= |body|
    ensures var r := SplitGroups(body, p);
      && (r.Some? ==>
        && 1 <= |r.value.0| <= p
        && r.value.0 == body[..|r.value.0|]
        && MatchTail(body[|r.value.0|..]) == Some(r.value.1)
        && NoTailBetween(body, |r.value.0|, p))
      && (r.None? ==> NoTailBetween(body, 0, p))
    decreases p
  {
    if p > 0 && MatchTail(body[p..]).None? {
      SplitGroupsIsLongest(body, p - 1);
      var r := SplitGroups(body, p - 1);
      NoTailExtend(body, if r.Some? then |r.value.0| else 0, p);
    }
  }

  lemma NoTailExtend(body: string, lo: nat, hi: nat)
    requires lo < hi <= |body|
    requires NoTailBetween(body, lo, hi - 1) && MatchTail(body[hi..]).None?
    ensures NoTailBetween(body, lo, hi)
  {
  }

  /** The two groups of the header pattern, if `line` matches it. */
  function MatchHeaderLine(line: string): Option<(string, string)>
  {
    if !StartsWith(line, GIT_PREFIX) then None
    else
      var rest := line[|GIT_PREFIX|..];
      var r1 := if |rest| > 0 && rest[0] == '"' then rest[1..] else rest;
      if StartsWith(r1, "a/") then SplitGroups(r1[2..], |r1| - 2) else None
  }

  /** The groups of the first line that matches. */
  function FirstHeader(lines: seq<string>): Option<(string, string)>
  {
    if |lines| == 0 then None
    else if MatchHeaderLine(lines[0]).Some? then MatchHeaderLine(lines[0])
    else FirstHeader(lines[1..])
  }

  /** The search over lines fails only when no line matches, and its answer is some line's match. */
  lemma {:induction false} FirstHeaderFinds(lines: seq<string>)
    ensures FirstHeader(lines).None? <==> forall i :: 0 <= i < |lines| ==> MatchHeaderLine(lines[i]).None?
    ensures FirstHeader(lines).Some? ==> exists i :: 0 <= i < |lines| && MatchHeaderLine(lines[i]) == FirstHeader(lines)
    decreases |lines|
  {
    if |lines| > 0 && MatchHeaderLine(lines[0]).None? {
      FirstHeaderFinds(lines[1..]);
      assert forall i :: 1 <= i < |lines| ==> lines[i] == lines[1..][i - 1];
      if FirstHeader(lines).Some? {
        var j :| 0 <= j < |lines[1..]| && MatchHeaderLine(lines[1..][j]) == FirstHeader(lines);
        assert MatchHeaderLine(lines[j + 1]) == FirstHeader(lines);
      }
    }
  }

  /** The file name of a diff block (an unparseable header gives ''). */
  function HeaderFilename(diffLines: string): (r: string)
  {
    if diffLines == "" then ""
    else
      match FirstHeader(SplitLines(diffLines))
      case None => ""
      case Some((oldName, newName)) => if newName == DEV_NULL then oldName else newName
  }

  /** The unquoted header line git writes for a change of `oldName` into `newName`. */
  function HeaderLine(oldName: string, newName: string): string
  {
    GIT_PREFIX + ("a/" + (oldName + " b/" + newName))
  }

  lemma {:induction false} ContainsLater(s: string, j: nat, sub: string)
    requires j <= |s| && StartsWith(s[j..], sub)
    ensures Contains(s, sub)
    decreases j
  {
    if j > 0 {
      assert s[1..][j - 1..] == s[j..];
      ContainsLater(s[1..], j - 1, sub);
    } else {
      assert s[0..] == s;
    }
  }

  lemma StartsWithChars(s: string, sub: string)
    requires |sub| <= |s| && forall c :: 0 <= c < |sub| ==> s[c] == sub[c]
    ensures StartsWith(s, sub)
  {
    assert s[..|sub|] == sub;
  }

  /** The text a tail match starts with, from its space on. */
  function TailMarker(t: string): string
  {
    if BAt(t, SpaceAt(t)) == SpaceAt(t) + 2 then " \"b/" else " b/"
  }

  lemma TailHasMarker(t: string)
    requires MatchTail(t).Some?
    ensures StartsWith(t[SpaceAt(t)..], TailMarker(t))
  {
    var i := SpaceAt(t);
    var u := t[i..];
    var sub := TailMarker(t);
    forall c | 0 <= c < |sub|
      ensures u[c] == sub[c]
    {
      assert u[c] == t[i + c];
    }
    StartsWithChars(u, sub);
  }

  /** No tail match can start inside a path that contains neither ` b/` nor ` "b/`. */
  lemma NoTailInside(newName: string, k: nat)
    requires k <= |newName|
    requires !Contains(newName, " b/") && !Contains(newName, " \"b/")
    ensures MatchTail(newName[k..]).None?
  {
    var t := newName[k..];
    if MatchTail(t).Some? {
      var i := SpaceAt(t);
      TailHasMarker(t);
      assert newName[k + i..] == t[i..];
      ContainsLater(newName, k + i, TailMarker(t));
      assert false;
    }
  }

  /** A tail match opens with a quote or a space. */
  lemma TailOpening(t: string)
    requires MatchTail(t).Some?
    ensures |t| > 0 && (t[0] == '"' || t[0] == ' ')
  {
    var i := SpaceAt(t);
    assert i < |t| && t[i] == ' ';
  }

  /** In `oldName + " b/" + newName`, no tail match starts after the last ` b/`. */
  lemma NoLaterTail(oldName: string, newName: string, q: nat)
    requires !Contains(newName, " b/") && !Contains(newName, " \"b/")
    requires |oldName| < q <= |oldName| + 3 + |newName|
    ensures MatchTail((oldName + " b/" + newName)[q..]).None?
  {
    var body := oldName + " b/" + newName;
    var p0 := |oldName|;
    if q <= p0 + 2 {
      assert body[q] == (if q == p0 + 1 then 'b' else '/');
      if MatchTail(body[q..]).Some? {
        TailOpening(body[q..]);
      }
    } else {
      assert body[q..] == newName[q - p0 - 3..];
      NoTailInside(newName, q - p0 - 3);
    }
  }

  lemma TailAfterOldName(oldName: string, newName: string)
    requires |newName| > 0
    ensures MatchTail((oldName + " b/" + newName)[|oldName|..]) == Some(newName)
  {
    var t := (oldName + " b/" + newName)[|oldName|..];
    assert t == " b/" + newName;
    assert t[0] == ' ' && t[1] == 'b' && t[2] == '/';
    assert SpaceAt(t) == 0;
    assert BAt(t, 0) == 1;
    assert t[3..] == newName;
  }

  /**
   * The search over group 1 settles on the longest split whose tail matches:
   * counting down from `p`, the first split whose tail matches is `p0`.
   */
  lemma {:induction false} LongestSplitWins(body: string, p: nat, p0: nat, g: string)
    requires 1 <= p0 <= p <= |body|
    requires MatchTail(body[p0..]) == Some(g)
    requires forall q :: p0 < q <= p ==> MatchTail(body[q..]).None?
    ensures SplitGroups(body, p) == Some((body[..p0], g))
    decreases p
  {
    if p > p0 {
      assert MatchTail(body[p..]).None?;
      LongestSplitWins(body, p - 1, p0, g);
    }
  }

  /** An unquoted header line comes down to the search over its text after `a/`. */
  lemma HeaderLineBody(oldName: string, newName: string)
    ensures var body := oldName + " b/" + newName;
            MatchHeaderLine(HeaderLine(oldName, newName)) == SplitGroups(body, |body|)
  {
    var body := oldName + " b/" + newName;
    var rest := "a/" + body;
    var line := HeaderLine(oldName, newName);
    PrefixedLine(GIT_PREFIX, rest);
    PrefixedLine("a/", body);
    assert StartsWith(line, GIT_PREFIX);
    assert line[|GIT_PREFIX|..] == rest;
    assert rest[0] != '"';
    assert StartsWith(rest, "a/");
    assert rest[2..] == body;
    HeaderOfRest(line, rest);
  }

  lemma HeaderOfRest(line: string, rest: string)
    requires StartsWith(line, GIT_PREFIX) && line[|GIT_PREFIX|..] == rest
    requires |rest| > 0 && rest[0] != '"' && StartsWith(rest, "a/")
    ensures MatchHeaderLine(line) == SplitGroups(rest[2..], |rest| - 2)
  {
  }

  lemma PrefixedLine(prefix: string, rest: string)
    ensures (prefix + rest)[..|prefix|] == prefix && (prefix + rest)[|prefix|..] == rest
  {
  }

  /**
   * Group 1 is greedy, so an unquoted header splits at its last ` b/`: when
   * the new path holds no other ` b/` (nor ` "b/`), the groups are exactly the
   * old and the new path, whatever the old path contains.
   */
  lemma UnquotedHeaderGroups(oldName: string, newName: string)
    requires |oldName| > 0 && |newName| > 0
    requires !Contains(newName, " b/") && !Contains(newName, " \"b/")
    ensures MatchHeaderLine(HeaderLine(oldName, newName)) == Some((oldName, newName))
  {
    HeaderLineBody(oldName, newName);
    SplitAtLastB(oldName, newName);
  }

  lemma SplitAtLastB(oldName: string, newName: string)
    requires |oldName| > 0 && |newName| > 0
    requires !Contains(newName, " b/") && !Contains(newName, " \"b/")
    ensures var body := oldName + " b/" + newName;
            SplitGroups(body, |body|) == Some((oldName, newName))
  {
    var body := oldName + " b/" + newName;
    TailAfterOldName(oldName, newName);
    forall q | |oldName| < q <= |body|
      ensures MatchTail(body[q..]).None?
    {
      NoLaterTail(oldName, newName, q);
    }
    LongestSplitWins(body, |body|, |oldName|, newName);
    assert body[..|oldName|] == oldName;
  }

  lemma {:induction false} FirstPieceOfSplit(h: string, rest: string)
    requires '\n' !in h
    requires rest == "" || rest[0] == '\n'
    ensures SplitOn(h + rest, '\n')[0] == h
    decreases |h|
  {
    if |h| > 0 {
      assert (h + rest)[1..] == h[1..] + rest;
      FirstPieceOfSplit(h[1..], rest);
      assert h == [h[0]] + h[1..];
    } else {
      assert h + rest == rest;
    }
  }

  /**
   * The name of a block that opens with a well-formed unquoted header: the
   * new path, or the old one when the new path is `/dev/null`.
   */
  lemma FilenameOfBlock(oldName: string, newName: string, rest: string)
    requires |oldName| > 0 && |newName| > 0
    requires '\n' !in oldName && '\n' !in newName
    requires !Contains(newName, " b/") && !Contains(newName, " \"b/")
    requires rest == "" || rest[0] == '\n'
    ensures HeaderFilename(HeaderLine(oldName, newName) + rest)
         == if newName == DEV_NULL then oldName else newName
  {
    var h := HeaderLine(oldName, newName);
    NoNewlineIn(oldName, " b/");
    NoNewlineIn(oldName + " b/", newName);
    NoNewlineIn("a/", oldName + " b/" + newName);
    NoNewlineIn(GIT_PREFIX, "a/" + (oldName + " b/" + newName));
    FirstLineOfBlock(h, rest);
    UnquotedHeaderGroups(oldName, newName);
    var lines := SplitLines(h + rest);
    assert FirstHeader(lines) == MatchHeaderLine(h);
  }

  lemma NoNewlineIn(a: string, b: string)
    requires '\n' !in a && '\n' !in b
    ensures '\n' !in a + b
  {
  }

  lemma FirstLineOfBlock(h: string, rest: string)
    requires |h| > 0 && '\n' !in h
    requires rest == "" || rest[0] == '\n'
    ensures h + rest != "" && |SplitLines(h + rest)| > 0 && SplitLines(h + rest)[0] == h
  {
    FirstPieceOfSplit(h, rest);
    var pieces := SplitOn(h + rest, '\n');
    assert pieces[0] == h;
  }

  /** A block in which no line matches the header pattern is named ''. */
  lemma UnmatchedHeaderIsEmpty(diffLines: string)
    requires forall i :: 0 <= i < |SplitLines(diffLines)| ==> MatchHeaderLine(SplitLines(diffLines)[i]).None?
    ensures HeaderFilename(diffLines) == ""
  {
    FirstHeaderFinds(SplitLines(diffLines));
  }
}
