/**
 * The per-file half of the log parser: which changed lines of one diff
 * count, whether each is documentation or code, and the ten counters
 * (`analyze_changes`) together with the doc-file and comment tests they
 * rest on.
 */
module DiffClassifier {

  import opened Options
  import opened Strings
  import Glob

  /** The two settings the parser is built with. */
  datatype Config = Config(docsPatterns: seq<string>, commentsAreDocs: bool)

  /**
   * One line of a parsed unified diff: its line number in the old file, its
   * line number in the new file (either may be absent) and its text.
   */
  datatype Change = Change(oldLine: Option<int>, newLine: Option<int>, content: string)

  datatype DiffStats = DiffStats(
    linesAdded: nat, linesRemoved: nat, linesChanged: nat,
    linesOfDocs: nat, linesOfCode: nat,
    charsAdded: nat, charsRemoved: nat, charsChanged: nat,
    charsOfDocs: nat, charsOfCode: nat,
    isDocfile: bool)

  const COMMENT_PREFIXES: seq<string> := ["#", "//", "/*", "* ", "*/", "'''", "\"\"\""]
  const COMMENT_SUFFIXES: seq<string> := ["*/", "'''", "\"\"\""]

  predicate StartsWithAny(s: string, prefixes: seq<string>)
  {
    |prefixes| > 0 && (StartsWith(s, prefixes[0]) || StartsWithAny(s, prefixes[1..]))
  }

  predicate EndsWithAny(s: string, suffixes: seq<string>)
  {
    |suffixes| > 0 && (EndsWith(s, suffixes[0]) || EndsWithAny(s, suffixes[1..]))
  }

  /** `s.startswith(tuple)`: some prefix of the tuple opens `s`. */
  lemma {:induction false} StartsWithAnyMeans(s: string, prefixes: seq<string>)
    ensures StartsWithAny(s, prefixes) <==> exists i :: 0 <= i < |prefixes| && StartsWith(s, prefixes[i])
    decreases |prefixes|
  {
    if |prefixes| > 0 {
      StartsWithAnyMeans(s, prefixes[1..]);
      assert forall i :: 1 <= i < |prefixes| ==> prefixes[i] == prefixes[1..][i - 1];
      if StartsWithAny(s, prefixes[1..]) && !StartsWith(s, prefixes[0]) {
        var j :| 0 <= j < |prefixes[1..]| && StartsWith(s, prefixes[1..][j]);
        assert StartsWith(s, prefixes[j + 1]);
      }
    }
  }

  /** `s.endswith(tuple)`: some suffix of the tuple closes `s`. */
  lemma {:induction false} EndsWithAnyMeans(s: string, suffixes: seq<string>)
    ensures EndsWithAny(s, suffixes) <==> exists i :: 0 <= i < |suffixes| && EndsWith(s, suffixes[i])
    decreases |suffixes|
  {
    if |suffixes| > 0 {
      EndsWithAnyMeans(s, suffixes[1..]);
      assert forall i :: 1 <= i < |suffixes| ==> suffixes[i] == suffixes[1..][i - 1];
      if EndsWithAny(s, suffixes[1..]) && !EndsWith(s, suffixes[0]) {
        var j :| 0 <= j < |suffixes[1..]| && EndsWith(s, suffixes[1..][j]);
        assert EndsWith(s, suffixes[j + 1]);
      }
    }
  }

  /** A line looks like a comment when, trimmed, it opens or closes like one. */
  predicate IsComment(c: Change)
  {
    var t := Strip(c.content);
    StartsWithAny(t, COMMENT_PREFIXES) || EndsWithAny(t, COMMENT_SUFFIXES)
  }

  /** Indentation and trailing blanks never change whether a line is a comment. */
  lemma CommentIgnoresPadding(c: Change, ws1: string, ws2: string)
    requires AllSpace(ws1) && AllSpace(ws2)
    ensures IsComment(c.(content := ws1 + c.content + ws2)) == IsComment(c)
  {
    StripIgnoresPadding(ws1, c.content, ws2);
  }

  predicate MatchesAny(filename: string, patterns: seq<string>)
  {
    |patterns| > 0 && (Glob.Matches(filename, patterns[0]) || MatchesAny(filename, patterns[1..]))
  }

  /** Whether a file is documentation: its (non-empty) name matches one of the doc globs. */
  predicate IsDocFile(cfg: Config, filename: string)
  {
    if filename == "" then false else MatchesAny(filename, cfg.docsPatterns)
  }

  /** A file is documentation exactly when its name is non-empty and some doc glob matches it. */
  lemma {:induction false} IsDocFileMeans(cfg: Config, filename: string)
    ensures IsDocFile(cfg, filename) <==>
      filename != "" && exists i :: 0 <= i < |cfg.docsPatterns| && Glob.Matches(filename, cfg.docsPatterns[i])
  {
    MatchesAnyMeans(filename, cfg.docsPatterns);
  }

  lemma {:induction false} MatchesAnyMeans(filename: string, patterns: seq<string>)
    ensures MatchesAny(filename, patterns) <==> exists i :: 0 <= i < |patterns| && Glob.Matches(filename, patterns[i])
    decreases |patterns|
  {
    if |patterns| > 0 {
      MatchesAnyMeans(filename, patterns[1..]);
      assert forall i :: 1 <= i < |patterns| ==> patterns[i] == patterns[1..][i - 1];
      if MatchesAny(filename, patterns[1..]) && !Glob.Matches(filename, patterns[0]) {
        var j :| 0 <= j < |patterns[1..]| && Glob.Matches(filename, patterns[1..][j]);
        assert Glob.Matches(filename, patterns[j + 1]);
      }
    }
  }

  /** The empty name (an unparseable header) is never documentation, not even when `*` would match it. */
  lemma EmptyNameIsNotDoc(cfg: Config)
    ensures !IsDocFile(cfg, "")
    ensures "*" in cfg.docsPatterns ==> MatchesAny("", cfg.docsPatterns)
  {
    if "*" in cfg.docsPatterns {
      var i :| 0 <= i < |cfg.docsPatterns| && cfg.docsPatterns[i] == "*";
      Glob.StarMatchesAll("");
      MatchesAnyMeans("", cfg.docsPatterns);
    }
  }

  /** A change counts when exactly one of its two line numbers is absent. */
  predicate IsCounted(c: Change)
    ensures IsCounted(c) <==> (c.oldLine.None? != c.newLine.None?)
  {
    (c.oldLine.None? || c.newLine.None?) && !(c.oldLine == c.newLine)
  }

  predicate IsAdded(c: Change)
  {
    IsCounted(c) && c.oldLine.None?
  }

  predicate IsRemoved(c: Change)
  {
    IsCounted(c) && !c.oldLine.None? && c.newLine.None?
  }

  /** Whether a counted line is filed under docs. */
  predicate IsDocLine(cfg: Config, isDocFile: bool, c: Change)
  {
    isDocFile || (cfg.commentsAreDocs && IsComment(c))
  }

  function DocsTest(cfg: Config, isDocFile: bool): Change -> bool
  {
    c => IsCounted(c) && IsDocLine(cfg, isDocFile, c)
  }

  function CodeTest(cfg: Config, isDocFile: bool): Change -> bool
  {
    c => IsCounted(c) && !IsDocLine(cfg, isDocFile, c)
  }

  /** How many changes pass `p`. */
  function Count(cs: seq<Change>, p: Change -> bool): nat
  {
    if |cs| == 0 then 0
    else Count(cs[..|cs| - 1], p) + (if p(cs[|cs| - 1]) then 1 else 0)
  }

  /** How many characters the changes that pass `p` carry. */
  function Chars(cs: seq<Change>, p: Change -> bool): nat
  {
    if |cs| == 0 then 0
    else Chars(cs[..|cs| - 1], p) + (if p(cs[|cs| - 1]) then |cs[|cs| - 1].content| else 0)
  }

  /** Counting one more change. */
  lemma CountStep(cs: seq<Change>, i: nat, p: Change -> bool)
    requires i < |cs|
    ensures Count(cs[..i + 1], p) == Count(cs[..i], p) + (if p(cs[i]) then 1 else 0)
    ensures Chars(cs[..i + 1], p) == Chars(cs[..i], p) + (if p(cs[i]) then |cs[i].content| else 0)
  {
    assert cs[..i + 1][..i] == cs[..i];
  }

  /** Counting over a partition of `p` into `q` and `r` adds up. */
  lemma {:induction false} CountSplit(cs: seq<Change>, p: Change -> bool, q: Change -> bool, r: Change -> bool)
    requires forall c :: p(c) <==> (q(c) || r(c))
    requires forall c :: !(q(c) && r(c))
    ensures Count(cs, p) == Count(cs, q) + Count(cs, r)
    ensures Chars(cs, p) == Chars(cs, q) + Chars(cs, r)
    decreases |cs|
  {
    if |cs| > 0 {
      CountSplit(cs[..|cs| - 1], p, q, r);
    }
  }

  lemma {:induction false} CountNothing(cs: seq<Change>, p: Change -> bool)
    requires forall c :: !p(c)
    ensures Count(cs, p) == 0 && Chars(cs, p) == 0
    decreases |cs|
  {
    if |cs| > 0 {
      CountNothing(cs[..|cs| - 1], p);
    }
  }

  lemma {:induction false} CountAtMost(cs: seq<Change>, p: Change -> bool)
    ensures Count(cs, p) <= |cs|
    decreases |cs|
  {
    if |cs| > 0 {
      CountAtMost(cs[..|cs| - 1], p);
    }
  }

  /** The counters' invariants: both "changed" totals split into docs/code and into added/removed. */
  predicate Consistent(s: DiffStats)
  {
    && s.linesOfDocs + s.linesOfCode == s.linesChanged
    && s.linesAdded + s.linesRemoved == s.linesChanged
    && s.charsOfDocs + s.charsOfCode == s.charsChanged
    && s.charsAdded + s.charsRemoved == s.charsChanged
  }

  lemma CountFacts(cfg: Config, isDoc: bool, cs: seq<Change>)
    ensures Count(cs, IsCounted) == Count(cs, IsAdded) + Count(cs, IsRemoved)
    ensures Chars(cs, IsCounted) == Chars(cs, IsAdded) + Chars(cs, IsRemoved)
    ensures Count(cs, IsCounted) == Count(cs, DocsTest(cfg, isDoc)) + Count(cs, CodeTest(cfg, isDoc))
    ensures Chars(cs, IsCounted) == Chars(cs, DocsTest(cfg, isDoc)) + Chars(cs, CodeTest(cfg, isDoc))
    ensures Count(cs, IsCounted) <= |cs|
    ensures isDoc ==> Count(cs, CodeTest(cfg, isDoc)) == 0 && Chars(cs, CodeTest(cfg, isDoc)) == 0
    ensures !isDoc && !cfg.commentsAreDocs ==>
              Count(cs, DocsTest(cfg, isDoc)) == 0 && Chars(cs, DocsTest(cfg, isDoc)) == 0
  {
    CountSplit(cs, IsCounted, IsAdded, IsRemoved);
    CountSplit(cs, IsCounted, DocsTest(cfg, isDoc), CodeTest(cfg, isDoc));
    CountAtMost(cs, IsCounted);
    if isDoc {
      CountNothing(cs, CodeTest(cfg, isDoc));
    }
    if !isDoc && !cfg.commentsAreDocs {
      CountNothing(cs, DocsTest(cfg, isDoc));
    }
  }

  /**
   * What `analyze_changes` reports for `cs` in file `filename`: each counter
   * is the number (or the characters) of the changes of its kind.
   */
  function Tally(cfg: Config, filename: string, cs: seq<Change>): (s: DiffStats)
    ensures Consistent(s)
    ensures s.isDocfile == IsDocFile(cfg, filename)
    ensures s.linesChanged <= |cs|
    ensures s.isDocfile ==> s.linesOfCode == 0 && s.charsOfCode == 0
    ensures !s.isDocfile && !cfg.commentsAreDocs ==> s.linesOfDocs == 0 && s.charsOfDocs == 0
  {
    var isDoc := IsDocFile(cfg, filename);
    CountFacts(cfg, isDoc, cs);
    DiffStats(
      Count(cs, IsAdded), Count(cs, IsRemoved), Count(cs, IsCounted),
      Count(cs, DocsTest(cfg, isDoc)), Count(cs, CodeTest(cfg, isDoc)),
      Chars(cs, IsAdded), Chars(cs, IsRemoved), Chars(cs, IsCounted),
      Chars(cs, DocsTest(cfg, isDoc)), Chars(cs, CodeTest(cfg, isDoc)),
      isDoc)
  }

  /** A context line (both numbers) or a line with neither number changes no counter. */
  lemma UncountedChangeIsIgnored(cfg: Config, filename: string, cs: seq<Change>, c: Change)
    requires !IsCounted(c)
    ensures Tally(cfg, filename, cs + [c]) == Tally(cfg, filename, cs)
  {
    assert (cs + [c])[..|cs|] == cs;
  }

  /** An added line raises the added and changed counters by one line and its characters. */
  lemma AddedChangeIsCounted(cfg: Config, filename: string, cs: seq<Change>, c: Change)
    requires c.oldLine.None? && c.newLine.Some?
    ensures var before, after := Tally(cfg, filename, cs), Tally(cfg, filename, cs + [c]);
            && after.linesAdded == before.linesAdded + 1
            && after.linesRemoved == before.linesRemoved
            && after.linesChanged == before.linesChanged + 1
            && after.charsAdded == before.charsAdded + |c.content|
            && after.charsChanged == before.charsChanged + |c.content|
  {
    assert (cs + [c])[..|cs|] == cs;
  }

  /** A removed line raises the removed and changed counters by one line and its characters. */
  lemma RemovedChangeIsCounted(cfg: Config, filename: string, cs: seq<Change>, c: Change)
    requires c.oldLine.Some? && c.newLine.None?
    ensures var before, after := Tally(cfg, filename, cs), Tally(cfg, filename, cs + [c]);
            && after.linesRemoved == before.linesRemoved + 1
            && after.linesAdded == before.linesAdded
            && after.linesChanged == before.linesChanged + 1
            && after.charsRemoved == before.charsRemoved + |c.content|
            && after.charsChanged == before.charsChanged + |c.content|
  {
    assert (cs + [c])[..|cs|] == cs;
  }

  /** `changes or []`: the diff library gives nothing for a block without hunks. */
  function ChangesOrEmpty(changes: Option<seq<Change>>): seq<Change>
  {
    if changes.Some? then changes.value else []
  }

  /** `analyze_changes`: one pass over the changes updating ten counters. */
  method AnalyzeChanges(cfg: Config, filename: string, changes: Option<seq<Change>>) returns (stats: DiffStats)
    ensures stats == Tally(cfg, filename, ChangesOrEmpty(changes))
  {
    var linesAdded, linesRemoved, linesChanged, linesOfDocs, linesOfCode := 0, 0, 0, 0, 0;
    var charsAdded, charsRemoved, charsChanged, charsOfDocs, charsOfCode := 0, 0, 0, 0, 0;
    var isDocFile := IsDocFile(cfg, filename);
    var cs := ChangesOrEmpty(changes);
    var i := 0;
    while i < |cs|
      invariant 0 <= i <= |cs|
      invariant linesAdded == Count(cs[..i], IsAdded) && charsAdded == Chars(cs[..i], IsAdded)
      invariant linesRemoved == Count(cs[..i], IsRemoved) && charsRemoved == Chars(cs[..i], IsRemoved)
      invariant linesChanged == Count(cs[..i], IsCounted) && charsChanged == Chars(cs[..i], IsCounted)
      invariant linesOfDocs == Count(cs[..i], DocsTest(cfg, isDocFile))
      invariant charsOfDocs == Chars(cs[..i], DocsTest(cfg, isDocFile))
      invariant linesOfCode == Count(cs[..i], CodeTest(cfg, isDocFile))
      invariant charsOfCode == Chars(cs[..i], CodeTest(cfg, isDocFile))
    {
      var change := cs[i];
      CountStep(cs, i, IsAdded);
      CountStep(cs, i, IsRemoved);
      CountStep(cs, i, IsCounted);
      CountStep(cs, i, DocsTest(cfg, isDocFile));
      CountStep(cs, i, CodeTest(cfg, isDocFile));
      assert DocsTest(cfg, isDocFile)(change) == (IsCounted(change) && IsDocLine(cfg, isDocFile, change));
      assert CodeTest(cfg, isDocFile)(change) == (IsCounted(change) && !IsDocLine(cfg, isDocFile, change));
      if IsCounted(change) {
        linesChanged := linesChanged + 1;
        charsChanged := charsChanged + |change.content|;
        if change.oldLine.None? {
          linesAdded := linesAdded + 1;
          charsAdded := charsAdded + |change.content|;
        } else if change.newLine.None? {
          linesRemoved := linesRemoved + 1;
          charsRemoved := charsRemoved + |change.content|;
        }
        if IsDocLine(cfg, isDocFile, change) {
          linesOfDocs := linesOfDocs + 1;
          charsOfDocs := charsOfDocs + |change.content|;
        } else {
          linesOfCode := linesOfCode + 1;
          charsOfCode := charsOfCode + |change.content|;
        }
      }
      i := i + 1;
    }
    assert cs[..|cs|] == cs;
    stats := DiffStats(
      linesAdded, linesRemoved, linesChanged, linesOfDocs, linesOfCode,
      charsAdded, charsRemoved, charsChanged, charsOfDocs, charsOfCode,
      isDocFile);
  }
}
