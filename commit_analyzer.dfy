/**
 * `CommitAnalyzer.analyze_commits` of `codewerdz/git/metrics/commit_analyzer.py`:
 * each parsed commit becomes a one-commit sample, which is folded into the
 * total bucket and into the yearly, monthly, weekly and daily bucket its
 * commit date falls in; the buckets are then finalised and pruned to the
 * requested metric names.
 *
 * Parsing a date belongs to the `iso8601` library, so the model takes it as
 * a `Calendar` parameter that says what the program reads off a date string.
 */
module CommitAnalyzer {
  import opened Options
  import opened Strings
  import opened DiffClassifier
  import opened GitLogParser
  import opened MetricsTemplates
  import opened MetricsAccumulate
  import opened MetricsFinalize

  // ---------------------------------------------------------------- rolling up a commit

  /** The characters a commit changes, of which code and of which documentation. */
  datatype Totals = Totals(changed: nat, code: nat, docs: nat)

  /** The sums over the diffs of a commit, in order. */
  function CharTotals(diffs: seq<Diff>): Totals
  {
    if |diffs| == 0 then Totals(0, 0, 0)
    else
      var t := CharTotals(diffs[..|diffs| - 1]);
      var s := diffs[|diffs| - 1].stats;
      Totals(t.changed + s.charsChanged, t.code + s.charsOfCode, t.docs + s.charsOfDocs)
  }

  /** The roll-up loop over `commit['diffs']`. */
  method RollupChars(diffs: seq<Diff>) returns (t: Totals)
    ensures t == CharTotals(diffs)
  {
    var changed: nat, code: nat, docs: nat := 0, 0, 0;
    for i := 0 to |diffs|
      invariant Totals(changed, code, docs) == CharTotals(diffs[..i])
    {
      assert diffs[..i + 1][..i] == diffs[..i];
      var stats := diffs[i].stats;
      changed := changed + stats.charsChanged;
      code := code + stats.charsOfCode;
      docs := docs + stats.charsOfDocs;
    }
    assert diffs[..|diffs|] == diffs;
    t := Totals(changed, code, docs);
  }

  /** Diffs whose own counters add up give a commit whose code and documentation characters add up to its changed characters. */
  lemma {:induction false} TotalsConsistent(diffs: seq<Diff>)
    requires forall i :: 0 <= i < |diffs| ==> Consistent(diffs[i].stats)
    ensures CharTotals(diffs).code + CharTotals(diffs).docs == CharTotals(diffs).changed
  {
    if |diffs| > 0 {
      TotalsConsistent(diffs[..|diffs| - 1]);
    }
  }

  /** The same statement for a parsed commit, whose diffs all come from the classifier. */
  lemma ParsedTotalsConsistent(cfg: Config, patch: Patcher, blobs: seq<string>)
    ensures var t := CharTotals(DiffsOf(cfg, patch, blobs));
            t.code + t.docs == t.changed
  {
    DiffsOfConsistent(cfg, patch, blobs);
    TotalsConsistent(DiffsOf(cfg, patch, blobs));
  }

  lemma {:induction false} DiffsOfConsistent(cfg: Config, patch: Patcher, blobs: seq<string>)
    ensures forall i :: 0 <= i < |DiffsOf(cfg, patch, blobs)| ==> Consistent(DiffsOf(cfg, patch, blobs)[i].stats)
    ensures |DiffsOf(cfg, patch, blobs)| == |blobs|
  {
    if |blobs| > 0 {
      DiffsOfConsistent(cfg, patch, blobs[..|blobs| - 1]);
    }
  }

  /** `x / float(y)` when `y > 0`, and `fallback` otherwise. */
  function Ratio(x: nat, y: nat, fallback: real): (r: real)
    ensures y > 0 ==> r * (y as real) == x as real
    ensures y == 0 ==> r == fallback
  {
    if y > 0 then (x as real) / (y as real) else fallback
  }

  /** A spread that has seen one value. */
  function Once(x: real): (s: Spread)
    ensures s.avg == x && s.max == x && s.min == x
  {
    Spread(x, x, x)
  }

  /**
   * The sample `commit_metrics` for a commit with totals `t`: one commit,
   * counted as code and as documentation when it changes any characters of
   * each kind, as only one of them when it changes none of the other; its
   * three ratios are single values, the densities 0.0 and the
   * documentation-to-code ratio 1.0 when there is nothing to divide by.
   */
  function SampleOf(t: Totals): (s: Metrics)
    ensures s.commitCount == 1
    ensures (s.codeCount == 1 <==> t.code > 0) && (s.codeCount == 0 <==> t.code == 0)
    ensures (s.docsCount == 1 <==> t.docs > 0) && (s.docsCount == 0 <==> t.docs == 0)
    ensures (s.onlyCodeCount == 1 <==> t.code > 0 && t.docs == 0) && s.onlyCodeCount <= 1
    ensures (s.onlyDocsCount == 1 <==> t.docs > 0 && t.code == 0) && s.onlyDocsCount <= 1
    ensures s.onlyCodeCount + s.onlyDocsCount <= 1
    ensures s.charsChangedCount == t.changed && s.codeCharsCount == t.code && s.docsCharsCount == t.docs
    ensures t.changed > 0 ==> s.docsDensity.avg * (t.changed as real) == t.docs as real
    ensures t.changed > 0 ==> s.codeDensity.avg * (t.changed as real) == t.code as real
    ensures t.changed == 0 ==> s.docsDensity.avg == 0.0 && s.codeDensity.avg == 0.0
    ensures t.code > 0 ==> s.docsToCode.avg * (t.code as real) == t.docs as real
    ensures t.code == 0 ==> s.docsToCode.avg == 1.0
    ensures s.docsDensity == Once(s.docsDensity.avg) && s.codeDensity == Once(s.codeDensity.avg)
    ensures s.docsToCode == Once(s.docsToCode.avg)
  {
    Metrics(
      1, t.changed,
      if t.code > 0 then 1 else 0,
      if t.docs > 0 then 1 else 0,
      if t.code > 0 && t.docs == 0 then 1 else 0,
      if t.docs > 0 && t.code == 0 then 1 else 0,
      t.code, t.docs,
      Once(Ratio(t.docs, t.changed, 0.0)),
      Once(Ratio(t.code, t.changed, 0.0)),
      Once(Ratio(t.docs, t.code, 1.0)))
  }

  /** When code and documentation add up to the change, the two densities lie in [0, 1] and, for a non-empty change, add up to 1. */
  lemma DensitiesSplitTheChange(t: Totals)
    requires t.code + t.docs == t.changed
    ensures var s := SampleOf(t);
            && 0.0 <= s.docsDensity.avg <= 1.0 && 0.0 <= s.codeDensity.avg <= 1.0
            && (t.changed > 0 ==> s.docsDensity.avg + s.codeDensity.avg == 1.0)
  {
    var s := SampleOf(t);
    if t.changed > 0 {
      var n := t.changed as real;
      var d, c := s.docsDensity.avg, s.codeDensity.avg;
      assert d * n + c * n == n;
      assert (d + c) * n == d * n + c * n;
      assert d == (t.docs as real) / n && c == (t.code as real) / n;
    }
  }

  // ---------------------------------------------------------------- contributor keys

  /** `str()` of an optional field: Python prints a missing one as `None`. */
  function Show(o: Option<string>): string
  {
    match o
    case None => "None"
    case Some(s) => s
  }

  /** `"{} <{}>".format(commit['author'], commit['email'])`. */
  function ContributorKey(author: Option<string>, email: Option<string>): (k: string)
    ensures |k| == |Show(author)| + |Show(email)| + 3
    ensures k[..|Show(author)|] == Show(author) && k[|Show(author)|..|Show(author)| + 2] == " <"
    ensures k[|Show(author)| + 2..|k| - 1] == Show(email) && k[|k| - 1] == '>'
  {
    Show(author) + " <" + Show(email) + ">"
  }

  /** An author or address without `<` can be read back from the key: different such contributors get different keys. */
  lemma ContributorKeyInjective(a1: Option<string>, e1: Option<string>, a2: Option<string>, e2: Option<string>)
    requires '<' !in Show(a1) && '<' !in Show(a2)
    requires ContributorKey(a1, e1) == ContributorKey(a2, e2)
    ensures Show(a1) == Show(a2) && Show(e1) == Show(e2)
  {
    var s1, s2 := Show(a1), Show(a2);
    var k := ContributorKey(a1, e1);
    if |s1| < |s2| {
      OpeningBracket(s1, Show(e1), s2, Show(e2));
    } else if |s2| < |s1| {
      OpeningBracket(s2, Show(e2), s1, Show(e1));
    }
    assert s1 == k[..|s1|] && s2 == k[..|s2|];
  }

  /** Keys of authors of different lengths differ when the longer author holds no `<`: the shorter one's ` <` would fall inside the longer. */
  lemma OpeningBracket(s1: string, m1: string, s2: string, m2: string)
    requires '<' !in s2 && |s1| < |s2|
    ensures s1 + " <" + m1 + ">" != s2 + " <" + m2 + ">"
  {
    var k := s2 + " <" + m2 + ">";
    assert (s1 + " <" + m1 + ">")[|s1| + 1] == '<';
    if |s1| + 1 < |s2| {
      assert k[|s1| + 1] == s2[|s1| + 1];
    } else {
      assert k[|s2|] == ' ';
    }
  }

  /** A commit without an author shares its key with an author literally named `None`. */
  lemma MissingAuthorIsNone(email: Option<string>)
    ensures ContributorKey(None, email) == ContributorKey(Some("None"), email)
  {
  }

  // ---------------------------------------------------------------- calendar labels

  /**
   * What the program reads off a commit date: its month, its day of the
   * year, and the whole days from the first of January in UTC to the
   * instant, which is negative for an instant east of UTC that is still
   * in the previous year there.
   */
  datatype CalendarDate = CalendarDate(month: nat, dayOfYear: nat, daysSinceNewYear: int)

  /** `iso8601.parse_date` on a git date string, as the three readings above. */
  type Calendar = string -> CalendarDate

  /** `commit_date_iso[:4]`. */
  function YearOf(iso: string): (y: string)
    ensures |y| == if |iso| < 4 then |iso| else 4
    ensures y == iso[..|y|]
  {
    if |iso| < 4 then iso else iso[..4]
  }

  /** `week_of_year`: whole weeks since the first of January, plus one, with Python's floor division. */
  function WeekOfYear(daysSinceNewYear: int): (w: int)
    ensures 7 * (w - 1) <= daysSinceNewYear < 7 * w
  {
    daysSinceNewYear / 7 + 1
  }

  /** Days 0 to 6 are week 1, and no day of a year is past week 53; the last hours before UTC midnight give week 0. */
  lemma WeekBounds(daysSinceNewYear: int)
    ensures 0 <= daysSinceNewYear <= 365 ==> 1 <= WeekOfYear(daysSinceNewYear) <= 53
    ensures 0 <= daysSinceNewYear < 7 ==> WeekOfYear(daysSinceNewYear) == 1
    ensures daysSinceNewYear == -1 ==> WeekOfYear(daysSinceNewYear) == 0
  {
  }

  /** The `{:0>2}` format of a week number, which keeps its minus sign if it has one. */
  function WeekField(w: int): (r: string)
    ensures w >= 0 ==> r == ZeroPad(w, 2)
    ensures w < 0 ==> r == "-" + NatToString(-w)
  {
    if w >= 0 then ZeroPad(w, 2) else "-" + NatToString(-w)
  }

  function MonthLabel(year: string, month: nat): string
  {
    year + "-month" + ZeroPad(month, 2)
  }

  function WeekLabel(year: string, week: int): string
  {
    year + "-week" + WeekField(week)
  }

  function DayLabel(year: string, day: nat): string
  {
    year + "-day" + ZeroPad(day, 3)
  }

  /** The label of the bucket of precision `p` a commit dated `iso` falls in. */
  function Label(p: Precision, cal: Calendar, iso: string): string
  {
    var year := YearOf(iso);
    match p
    case Total => ""
    case Yearly => year
    case Monthly => MonthLabel(year, cal(iso).month)
    case Weekly => WeekLabel(year, WeekOfYear(cal(iso).daysSinceNewYear))
    case Daily => DayLabel(year, cal(iso).dayOfYear)
  }

  lemma SplitLabel(y1: string, r1: string, y2: string, r2: string)
    requires |y1| == |y2| && y1 + r1 == y2 + r2
    ensures y1 == y2 && r1 == r2
  {
    assert y1 == (y1 + r1)[..|y1|];
    assert r1 == (y1 + r1)[|y1|..];
  }

  /** Monthly labels of years of one length tell apart both the year and the month. */
  lemma MonthLabelInjective(y1: string, m1: nat, y2: string, m2: nat)
    requires |y1| == |y2| && MonthLabel(y1, m1) == MonthLabel(y2, m2)
    ensures y1 == y2 && m1 == m2
  {
    assert MonthLabel(y1, m1) == (y1 + "-month") + ZeroPad(m1, 2);
    assert MonthLabel(y2, m2) == (y2 + "-month") + ZeroPad(m2, 2);
    SplitLabel(y1 + "-month", ZeroPad(m1, 2), y2 + "-month", ZeroPad(m2, 2));
    SplitLabel(y1, "-month", y2, "-month");
    ZeroPadInjective(m1, m2, 2);
  }

  /** Daily labels of years of one length tell apart both the year and the day. */
  lemma DayLabelInjective(y1: string, d1: nat, y2: string, d2: nat)
    requires |y1| == |y2| && DayLabel(y1, d1) == DayLabel(y2, d2)
    ensures y1 == y2 && d1 == d2
  {
    assert DayLabel(y1, d1) == (y1 + "-day") + ZeroPad(d1, 3);
    assert DayLabel(y2, d2) == (y2 + "-day") + ZeroPad(d2, 3);
    SplitLabel(y1 + "-day", ZeroPad(d1, 3), y2 + "-day", ZeroPad(d2, 3));
    SplitLabel(y1, "-day", y2, "-day");
    ZeroPadInjective(d1, d2, 3);
  }

  /** Weekly labels of years of one length tell apart both the year and a week from 0 up. */
  lemma WeekLabelInjective(y1: string, w1: nat, y2: string, w2: nat)
    requires |y1| == |y2| && WeekLabel(y1, w1) == WeekLabel(y2, w2)
    ensures y1 == y2 && w1 == w2
  {
    assert WeekLabel(y1, w1) == (y1 + "-week") + ZeroPad(w1, 2);
    assert WeekLabel(y2, w2) == (y2 + "-week") + ZeroPad(w2, 2);
    SplitLabel(y1 + "-week", ZeroPad(w1, 2), y2 + "-week", ZeroPad(w2, 2));
    SplitLabel(y1, "-week", y2, "-week");
    ZeroPadInjective(w1, w2, 2);
  }

  lemma PadExamples()
    ensures ZeroPad(3, 2) == "03" && ZeroPad(10, 2) == "10" && ZeroPad(64, 3) == "064"
  {
    assert NatToString(3) == "3" && NatToString(10) == "10";
    assert NatToString(64) == NatToString(6) + [Digit(4)] == "64";
  }

  /** A commit of 5 March 2021: month 3, day 64, week 10. */
  lemma LabelExample(cal: Calendar)
    requires cal("2021-03-05 10:00:00 +0000") == CalendarDate(3, 64, 63)
    ensures Label(Yearly, cal, "2021-03-05 10:00:00 +0000") == "2021"
    ensures Label(Monthly, cal, "2021-03-05 10:00:00 +0000") == "2021-month03"
    ensures Label(Weekly, cal, "2021-03-05 10:00:00 +0000") == "2021-week10"
    ensures Label(Daily, cal, "2021-03-05 10:00:00 +0000") == "2021-day064"
  {
    var iso := "2021-03-05 10:00:00 +0000";
    assert iso[..4] == "2021" by {
      assert iso[0] == '2' && iso[1] == '0' && iso[2] == '2' && iso[3] == '1';
    }
    PadExamples();
    assert WeekOfYear(63) == 10;
  }

  // ---------------------------------------------------------------- the commit stream

  /** Every commit carries a commit date, which the year label reads unconditionally. */
  predicate Dated(commits: seq<Commit>)
  {
    forall i :: 0 <= i < |commits| ==> commits[i].commitDateIso.Some?
  }

  /** A commit as the bucket fold sees it. */
  function EntryOf(c: Commit): Entry
  {
    Entry(SampleOf(CharTotals(c.diffs)), ContributorKey(c.author, c.email))
  }

  function Entries(commits: seq<Commit>): (es: seq<Entry>)
    ensures |es| == |commits| && forall i :: 0 <= i < |commits| ==> es[i] == EntryOf(commits[i])
  {
    if |commits| == 0 then [] else Entries(commits[..|commits| - 1]) + [EntryOf(commits[|commits| - 1])]
  }

  /** Each commit with the label of its bucket at precision `p`. */
  function LabelledBy(p: Precision, cal: Calendar, commits: seq<Commit>): (ls: seq<Labelled>)
    requires Dated(commits)
    ensures |ls| == |commits|
  {
    if |commits| == 0 then []
    else
      var c := commits[|commits| - 1];
      LabelledBy(p, cal, commits[..|commits| - 1]) + [Labelled(Label(p, cal, c.commitDateIso.value), EntryOf(c))]
  }

  lemma EntriesAreCommits(commits: seq<Commit>)
    ensures UnitSamples(Samples(Entries(commits)))
  {
  }

  /** Every labelled entry is the sample of one commit. */
  predicate UnitEntries(ls: seq<Labelled>)
  {
    forall i :: 0 <= i < |ls| ==> ls[i].entry.sample.commitCount == 1
  }

  lemma {:induction false} LabelledUnit(p: Precision, cal: Calendar, commits: seq<Commit>)
    requires Dated(commits)
    ensures UnitEntries(LabelledBy(p, cal, commits))
  {
    if |commits| > 0 {
      var init := commits[..|commits| - 1];
      LabelledUnit(p, cal, init);
      var ls := LabelledBy(p, cal, commits);
      var c := commits[|commits| - 1];
      assert ls == LabelledBy(p, cal, init) + [Labelled(Label(p, cal, c.commitDateIso.value), EntryOf(c))];
    }
  }

  lemma {:induction false} WithLabelUnit(ls: seq<Labelled>, l: string)
    requires UnitEntries(ls)
    ensures UnitSamples(Samples(WithLabel(ls, l)))
  {
    if |ls| > 0 {
      var init := ls[..|ls| - 1];
      assert UnitEntries(init) by {
        assert forall i :: 0 <= i < |init| ==> init[i] == ls[i];
      }
      WithLabelUnit(init, l);
      UnitSamplesAppend(Samples(WithLabel(init, l)), Samples(WithLabel(ls, l)));
    }
  }

  /** The samples of one bucket each count one commit. */
  lemma BucketsAreCommits(p: Precision, cal: Calendar, commits: seq<Commit>, l: string)
    requires Dated(commits)
    ensures UnitSamples(Samples(WithLabel(LabelledBy(p, cal, commits), l)))
  {
    LabelledUnit(p, cal, commits);
    WithLabelUnit(LabelledBy(p, cal, commits), l);
  }

  lemma UnitSamplesAppend(before: seq<Metrics>, after: seq<Metrics>)
    requires UnitSamples(before)
    requires after == before || (|after| == |before| + 1 && after[..|before|] == before && after[|before|].commitCount == 1)
    ensures UnitSamples(after)
  {
    if after != before {
      assert forall i :: 0 <= i < |before| ==> after[i] == before[i];
    }
  }

  // ---------------------------------------------------------------- finishing buckets

  /** `d` is what finalising and pruning the bucket `acc` can leave, whatever order the contributors are visited in. */
  ghost predicate Finished(acc: RepoMetrics, names: set<Key>, d: map<Key, Value>)
  {
    exists fin :: Finalized(acc, fin) && Walkable(RepoDict(fin)) && d == Prune(RepoDict(fin), names)
  }

  /** Every bucket in `accs` is one of `buckets`, finished. */
  ghost predicate FinishedAmong(buckets: map<string, RepoMetrics>, names: set<Key>, accs: map<string, map<Key, Value>>)
  {
    forall l :: l in accs ==> l in buckets && Finished(buckets[l], names, accs[l])
  }

  /** Every bucket of a keyed precision finished, and no other key. */
  ghost predicate AllFinished(buckets: map<string, RepoMetrics>, names: set<Key>, accs: map<string, map<Key, Value>>)
  {
    accs.Keys == buckets.Keys && FinishedAmong(buckets, names, accs)
  }

  lemma FinishedAmongAdd(buckets: map<string, RepoMetrics>, names: set<Key>, accs: map<string, map<Key, Value>>,
                         l: string, d: map<Key, Value>)
    requires FinishedAmong(buckets, names, accs)
    requires l in buckets && Finished(buckets[l], names, d)
    ensures FinishedAmong(buckets, names, accs[l := d])
  {
    var after := accs[l := d];
    forall l' | l' in after
      ensures l' in buckets && Finished(buckets[l'], names, after[l'])
    {
      if l' != l {
        assert after[l'] == accs[l'];
      }
    }
  }

  /** `accumulate_contributor_metrics` and `filter_metrics` on one bucket. */
  method FinishBucket(acc: RepoMetrics, names: set<Key>) returns (d: map<Key, Value>)
    ensures Finished(acc, names, d)
  {
    var fin := AccumulateContributorMetrics(acc);
    PruneBucket(fin, names);
    d := FilterMetrics(RepoDict(fin), names);
  }

  /** The finishing loop over the buckets of one keyed precision. */
  method FinishBuckets(buckets: map<string, RepoMetrics>, names: set<Key>) returns (accs: map<string, map<Key, Value>>)
    ensures AllFinished(buckets, names, accs)
  {
    accs := map[];
    var todo := buckets.Keys;
    while todo != {}
      invariant todo !! accs.Keys && todo + accs.Keys == buckets.Keys
      invariant FinishedAmong(buckets, names, accs)
      decreases todo
    {
      var l :| l in todo;
      var d := FinishBucket(buckets[l], names);
      FinishedAmongAdd(buckets, names, accs, l, d);
      accs := accs[l := d];
      todo := todo - {l};
    }
  }

  /** A finished bucket holds exactly the requested keys. */
  lemma FinishedKeys(acc: RepoMetrics, names: set<Key>, d: map<Key, Value>)
    requires Finished(acc, names, d)
    ensures d.Keys == names
  {
    var fin :| Finalized(acc, fin) && Walkable(RepoDict(fin)) && d == Prune(RepoDict(fin), names);
    PruneBucket(fin, names);
  }

  /** A finished bucket reports the commit count it was folded to and its number of contributors. */
  lemma FinishedCounts(acc: RepoMetrics, names: set<Key>, d: map<Key, Value>)
    requires FreshSummary(acc) && Finished(acc, names, d)
    ensures CommitCount in names ==> CommitCount in d && d[CommitCount] == Flat(Count(acc.m.commitCount))
    ensures ContributorCount in names ==> ContributorCount in d && d[ContributorCount] == Flat(Count(|acc.stats|))
  {
    var fin :| Finalized(acc, fin) && Walkable(RepoDict(fin)) && d == Prune(RepoDict(fin), names);
    FinalizedFacts(acc, fin);
    PruneKeepsRequested(RepoDict(fin), names);
    AllKeysInTemplate(CommitCount);
    AllKeysInTemplate(ContributorCount);
  }

  /** The commit count each contributor dictionary of a report holds. */
  function ReportedCommitCounts(stats: map<string, map<Key, Field>>): (r: map<string, nat>)
    ensures forall c :: c in r ==> c in stats && CommitCount in stats[c] && stats[c][CommitCount] == Count(r[c])
  {
    map c | c in stats && CommitCount in stats[c] && stats[c][CommitCount].Count? && stats[c][CommitCount].n >= 0
          :: stats[c][CommitCount].n
  }

  /** A finished bucket reports every contributor with the commit count it was folded to. */
  lemma FinishedContributorCounts(acc: RepoMetrics, names: set<Key>, d: map<Key, Value>)
    requires FreshSummary(acc) && Finished(acc, names, d)
    requires ContributorStats in names && CommitCount in names
    ensures ContributorStats in d && d[ContributorStats].Stats?
    ensures ReportedCommitCounts(d[ContributorStats].stats) == CommitCounts(acc.stats)
  {
    var fin :| Finalized(acc, fin) && Walkable(RepoDict(fin)) && d == Prune(RepoDict(fin), names);
    FinalizedFacts(acc, fin);
    PrunedStats(fin, names);
    PrunedCommitCounts(fin.stats, names);
  }

  function StatsDicts(stats: map<string, Metrics>): map<string, map<Key, Field>>
  {
    map c | c in stats :: ContributorDict(stats[c])
  }

  lemma PrunedStats(r: RepoMetrics, names: set<Key>)
    requires ContributorStats in names
    ensures Walkable(RepoDict(r))
    ensures var d := Prune(RepoDict(r), names);
            ContributorStats in d && d[ContributorStats] == Stats(PruneEach(StatsDicts(r.stats), names))
  {
    PruneBucket(r, names);
    AllKeysInTemplate(ContributorStats);
    assert RepoDict(r)[ContributorStats] == Stats(StatsDicts(r.stats));
  }

  lemma PrunedCommitCounts(stats: map<string, Metrics>, names: set<Key>)
    requires CommitCount in names
    ensures ReportedCommitCounts(PruneEach(StatsDicts(stats), names)) == CommitCounts(stats)
  {
    var pruned := PruneEach(StatsDicts(stats), names);
    forall c | c in pruned
      ensures CommitCount in pruned[c] && pruned[c][CommitCount] == Count(stats[c].commitCount)
    {
      assert pruned[c] == Requested(ContributorDict(stats[c]), names);
      PrunedCommitCount(stats[c], names);
    }
    ReportedPointwise(pruned, stats);
  }

  lemma ReportedPointwise(dicts: map<string, map<Key, Field>>, stats: map<string, Metrics>)
    requires dicts.Keys == stats.Keys
    requires forall c :: c in dicts ==> CommitCount in dicts[c] && dicts[c][CommitCount] == Count(stats[c].commitCount)
    ensures ReportedCommitCounts(dicts) == CommitCounts(stats)
  {
    var reported, counts := ReportedCommitCounts(dicts), CommitCounts(stats);
    assert forall c :: c in stats ==> c in reported;
    assert reported.Keys == counts.Keys;
  }

  lemma PrunedCommitCount(m: Metrics, names: set<Key>)
    requires CommitCount in names
    ensures var d := Requested(ContributorDict(m), names);
            CommitCount in d && d[CommitCount] == Count(m.commitCount)
  {
    assert CommitCount in CONTRIBUTOR_KEYS;
  }

  /**
   * A finished bucket reports each contributor list as the contributors of
   * that kind, each once, and its count as their number.
   */
  lemma FinishedList(acc: RepoMetrics, names: set<Key>, d: map<Key, Value>, kind: ListKind)
    requires FreshSummary(acc) && Finished(acc, names, d)
    ensures ListKey(kind) in names ==>
              && ListKey(kind) in d && d[ListKey(kind)].Flat? && d[ListKey(kind)].f.Names?
              && Enumerates(d[ListKey(kind)].f.names, Qualified(acc.stats, acc.stats.Keys, kind))
    ensures ListCountKey(kind) in names ==>
              && ListCountKey(kind) in d
              && d[ListCountKey(kind)] == Flat(Count(|Qualified(acc.stats, acc.stats.Keys, kind)|))
  {
    var fin :| Finalized(acc, fin) && Walkable(RepoDict(fin)) && d == Prune(RepoDict(fin), names);
    FinalizedFacts(acc, fin);
    PruneKeepsRequested(RepoDict(fin), names);
    ReportedList(fin, kind);
    AllKeysInTemplate(ListKey(kind));
    AllKeysInTemplate(ListCountKey(kind));
  }

  // ---------------------------------------------------------------- analyze_commits

  /** Every precision is one of the five the template holds. */
  lemma AllPrecisionsRequestable(precisions: set<Precision>)
    ensures precisions <= PRECISIONS
  {
    forall p | p in precisions
      ensures p in PRECISIONS
    {
      match p
      case Total =>
      case Yearly =>
      case Monthly =>
      case Weekly =>
      case Daily =>
    }
  }

  /** The body of the commit loop up to the bucket updates: roll up the diffs, build the sample, name the contributor. */
  method CommitEntry(commit: Commit) returns (entry: Entry)
    ensures entry == EntryOf(commit)
  {
    var t := RollupChars(commit.diffs);
    var sample := SampleOf(t);
    var contributor := ContributorKey(commit.author, commit.email);
    entry := Entry(sample, contributor);
  }

  /** The accumulators of every precision as the commit loop leaves them. */
  datatype Folded = Folded(
    total: RepoMetrics,
    years: map<string, RepoMetrics>, months: map<string, RepoMetrics>,
    weeks: map<string, RepoMetrics>, days: map<string, RepoMetrics>)

  /** The bucket map of a keyed precision. */
  function BucketsOf(f: Folded, p: Precision): map<string, RepoMetrics>
  {
    match p
    case Yearly => f.years
    case Monthly => f.months
    case Weekly => f.weeks
    case Daily => f.days
    case Total => map[]
  }

  /** The accumulator of precision `p` is the fold of `commits`. */
  ghost predicate FoldedAt(f: Folded, p: Precision, commits: seq<Commit>, cal: Calendar)
    requires Dated(commits)
  {
    if p == Total then f.total == FoldRepo(EMPTY_REPO_METRICS, Entries(commits))
    else BucketsOf(f, p) == FoldBuckets(map[], LabelledBy(p, cal, commits))
  }

  /** What one turn of the commit loop does to the accumulators: the commit's entry goes into every kept one, under its label. */
  function Step(f: Folded, c: Commit, cal: Calendar, kept: set<Precision>): Folded
    requires c.commitDateIso.Some?
  {
    var e := EntryOf(c);
    var iso := c.commitDateIso.value;
    Folded(
      if Total in kept then AccumulateRepo(f.total, e.sample, e.who) else f.total,
      if Yearly in kept then Bucketed(f.years, Label(Yearly, cal, iso), e) else f.years,
      if Monthly in kept then Bucketed(f.months, Label(Monthly, cal, iso), e) else f.months,
      if Weekly in kept then Bucketed(f.weeks, Label(Weekly, cal, iso), e) else f.weeks,
      if Daily in kept then Bucketed(f.days, Label(Daily, cal, iso), e) else f.days)
  }

  /** The accumulators after the whole commit loop. */
  function FoldAll(commits: seq<Commit>, cal: Calendar, kept: set<Precision>): Folded
    requires Dated(commits)
  {
    if |commits| == 0 then Folded(EMPTY_REPO_METRICS, map[], map[], map[], map[])
    else Step(FoldAll(commits[..|commits| - 1], cal, kept), commits[|commits| - 1], cal, kept)
  }

  /** A step reaches a kept keyed precision through its bucket map alone. */
  lemma StepAt(f: Folded, c: Commit, cal: Calendar, kept: set<Precision>, p: Precision)
    requires c.commitDateIso.Some? && p in kept && p != Total
    ensures BucketsOf(Step(f, c, cal, kept), p) == Bucketed(BucketsOf(f, p), Label(p, cal, c.commitDateIso.value), EntryOf(c))
  {
    match p
    case Yearly =>
    case Monthly =>
    case Weekly =>
    case Daily =>
  }

  /** The loop's accumulator of each kept precision is the fold of all commits, at that precision. */
  lemma {:induction false} FoldAllAt(commits: seq<Commit>, cal: Calendar, kept: set<Precision>, p: Precision)
    requires Dated(commits) && p in kept
    ensures FoldedAt(FoldAll(commits, cal, kept), p, commits, cal)
  {
    if |commits| > 0 {
      var n := |commits|;
      var init, c := commits[..n - 1], commits[n - 1];
      FoldAllAt(init, cal, kept, p);
      var f := FoldAll(init, cal, kept);
      if p == Total {
        assert Entries(commits)[..n - 1] == Entries(init);
      } else {
        StepAt(f, c, cal, kept, p);
        var ls := LabelledBy(p, cal, commits);
        assert ls[..n - 1] == LabelledBy(p, cal, init);
      }
    }
  }

  /** One turn of the commit loop after the sample: the total and the bucket of every kept precision take the commit. */
  method FoldCommit(f: Folded, commit: Commit, cal: Calendar, kept: set<Precision>) returns (f': Folded)
    requires commit.commitDateIso.Some?
    ensures f' == Step(f, commit, cal, kept)
  {
    var entry := CommitEntry(commit);
    f' := f;
    if Total in kept {
      f' := f'.(total := AccumulateRepo(f'.total, entry.sample, entry.who));
    }
    var iso := commit.commitDateIso.value;
    if Yearly in kept {
      f' := f'.(years := Bucketed(f'.years, Label(Yearly, cal, iso), entry));
    }
    if Monthly in kept {
      f' := f'.(months := Bucketed(f'.months, Label(Monthly, cal, iso), entry));
    }
    if Weekly in kept {
      f' := f'.(weeks := Bucketed(f'.weeks, Label(Weekly, cal, iso), entry));
    }
    if Daily in kept {
      f' := f'.(days := Bucketed(f'.days, Label(Daily, cal, iso), entry));
    }
  }

  /** The commit loop of `analyze_commits`. */
  method FoldCommits(commits: seq<Commit>, cal: Calendar, kept: set<Precision>) returns (f: Folded)
    requires Dated(commits)
    ensures forall p :: p in kept ==> FoldedAt(f, p, commits, cal)
  {
    f := Folded(EMPTY_REPO_METRICS, map[], map[], map[], map[]);
    for i := 0 to |commits|
      invariant f == FoldAll(commits[..i], cal, kept)
    {
      assert commits[..i + 1][..i] == commits[..i];
      f := FoldCommit(f, commits[i], cal, kept);
    }
    assert commits[..|commits|] == commits;
    forall p | p in kept
      ensures FoldedAt(f, p, commits, cal)
    {
      FoldAllAt(commits, cal, kept, p);
    }
  }

  /** What the analysis reports at precision `p`: the finished total, or one finished bucket per label. */
  ghost predicate Reports(level: Level, p: Precision, commits: seq<Commit>, cal: Calendar, names: set<Key>)
    requires Dated(commits)
  {
    if p == Total then level.Single? && Finished(FoldRepo(EMPTY_REPO_METRICS, Entries(commits)), names, level.acc)
    else level.Keyed? && AllFinished(FoldBuckets(map[], LabelledBy(p, cal, commits)), names, level.accs)
  }

  /** Finishing the accumulator of precision `p`. */
  method FinishPrecision(f: Folded, p: Precision, commits: seq<Commit>, cal: Calendar, names: set<Key>) returns (level: Level)
    requires Dated(commits) && FoldedAt(f, p, commits, cal)
    ensures Reports(level, p, commits, cal, names)
  {
    if p == Total {
      var d := FinishBucket(f.total, names);
      level := Single(d);
    } else {
      var accs := FinishBuckets(BucketsOf(f, p), names);
      level := Keyed(accs);
    }
  }

  /** Writing back the finished level of `p` keeps what was already reported. */
  lemma ReportsAdd(metrics: map<Precision, Level>, done: set<Precision>, p: Precision, level: Level,
                   commits: seq<Commit>, cal: Calendar, names: set<Key>)
    requires Dated(commits)
    requires forall q :: q in metrics && q in done ==> Reports(metrics[q], q, commits, cal, names)
    requires Reports(level, p, commits, cal, names)
    ensures forall q :: q in metrics[p := level] && q in done + {p} ==> Reports(metrics[p := level][q], q, commits, cal, names)
  {
    var after := metrics[p := level];
    forall q | q in after && q in done + {p}
      ensures Reports(after[q], q, commits, cal, names)
    {
      if q != p {
        assert after[q] == metrics[q];
      }
    }
  }

  /** One `if … is not None` block of the finishing code, on precision `p`. */
  method FinishIfKept(metrics: map<Precision, Level>, ghost done: set<Precision>, kept: Option<Level>,
                      f: Folded, p: Precision, commits: seq<Commit>, cal: Calendar, names: set<Key>)
    returns (metrics': map<Precision, Level>)
    requires Dated(commits)
    requires kept.Some? <==> p in metrics
    requires kept.Some? ==> FoldedAt(f, p, commits, cal)
    requires forall q :: q in metrics && q in done ==> Reports(metrics[q], q, commits, cal, names)
    ensures metrics'.Keys == metrics.Keys
    ensures forall q :: q in metrics' && q in done + {p} ==> Reports(metrics'[q], q, commits, cal, names)
  {
    metrics' := metrics;
    if kept.Some? {
      var level := FinishPrecision(f, p, commits, cal, names);
      ReportsAdd(metrics, done, p, level, commits, cal, names);
      metrics' := metrics[p := level];
    }
  }

  /** The five `get_precision` calls over a map holding every precision. */
  method DropUnrequested(template: map<Precision, Level>, precisions: set<Precision>)
    returns (metrics: map<Precision, Level>, total: Option<Level>, yearly: Option<Level>,
             monthly: Option<Level>, weekly: Option<Level>, daily: Option<Level>)
    requires template.Keys == PRECISIONS
    ensures metrics.Keys == precisions
    ensures total.Some? <==> Total in precisions
    ensures yearly.Some? <==> Yearly in precisions
    ensures monthly.Some? <==> Monthly in precisions
    ensures weekly.Some? <==> Weekly in precisions
    ensures daily.Some? <==> Daily in precisions
  {
    AllPrecisionsRequestable(precisions);
    metrics, total := GetPrecision(Total, template, precisions);
    assert metrics.Keys == PRECISIONS - ({Total} - precisions);
    metrics, yearly := GetPrecision(Yearly, metrics, precisions);
    assert metrics.Keys == PRECISIONS - ({Total, Yearly} - precisions);
    metrics, monthly := GetPrecision(Monthly, metrics, precisions);
    assert metrics.Keys == PRECISIONS - ({Total, Yearly, Monthly} - precisions);
    metrics, weekly := GetPrecision(Weekly, metrics, precisions);
    assert metrics.Keys == PRECISIONS - ({Total, Yearly, Monthly, Weekly} - precisions);
    metrics, daily := GetPrecision(Daily, metrics, precisions);
  }

  /** The start of `analyze_commits`: the template with the unrequested precisions removed. */
  method GetPrecisions(precisions: set<Precision>)
    returns (metrics: map<Precision, Level>, total: Option<Level>, yearly: Option<Level>,
             monthly: Option<Level>, weekly: Option<Level>, daily: Option<Level>)
    ensures metrics.Keys == precisions
    ensures total.Some? <==> Total in precisions
    ensures yearly.Some? <==> Yearly in precisions
    ensures monthly.Some? <==> Monthly in precisions
    ensures weekly.Some? <==> Weekly in precisions
    ensures daily.Some? <==> Daily in precisions
  {
    TemplateKeys();
    metrics, total, yearly, monthly, weekly, daily := DropUnrequested(EMPTY_METRICS_PRECISIONS, precisions);
  }

  /**
   * `analyze_commits`: the precisions not asked for are dropped; the total
   * is the finished fold of every commit; a keyed precision holds one
   * finished bucket per label, the fold of the commits with that label.
   */
  method AnalyzeCommits(commits: seq<Commit>, cal: Calendar, precisions: set<Precision>, names: set<Key>)
    returns (metrics: map<Precision, Level>)
    requires Dated(commits)
    ensures metrics.Keys == precisions
    ensures forall p :: p in metrics ==> Reports(metrics[p], p, commits, cal, names)
  {
    var total, yearly, monthly, weekly, daily;
    metrics, total, yearly, monthly, weekly, daily := GetPrecisions(precisions);
    var f := FoldCommits(commits, cal, precisions);
    metrics := FinishIfKept(metrics, {}, total, f, Total, commits, cal, names);
    metrics := FinishIfKept(metrics, {Total}, yearly, f, Yearly, commits, cal, names);
    metrics := FinishIfKept(metrics, {Total, Yearly}, monthly, f, Monthly, commits, cal, names);
    metrics := FinishIfKept(metrics, {Total, Yearly, Monthly}, weekly, f, Weekly, commits, cal, names);
    metrics := FinishIfKept(metrics, {Total, Yearly, Monthly, Weekly}, daily, f, Daily, commits, cal, names);
    AllPrecisionsRequestable(metrics.Keys);
  }

  /** The bucket fold of per-commit samples: a fresh summary, one commit per entry, one contributor per key seen. */
  lemma FoldedBucket(es: seq<Entry>)
    requires UnitSamples(Samples(es))
    ensures var acc := FoldRepo(EMPTY_REPO_METRICS, es);
            && FreshSummary(acc) && acc.m.commitCount == |es| && acc.stats.Keys == Contributors(es)
  {
    FoldRepoCommitCounts(es);
    FoldRepoParts(EMPTY_REPO_METRICS, es);
  }

  /** The total the analysis reports holds the requested keys and counts every commit and every distinct contributor. */
  lemma TotalReport(commits: seq<Commit>, names: set<Key>, d: map<Key, Value>)
    requires Finished(FoldRepo(EMPTY_REPO_METRICS, Entries(commits)), names, d)
    ensures d.Keys == names
    ensures CommitCount in names ==> d[CommitCount] == Flat(Count(|commits|))
    ensures ContributorCount in names ==> d[ContributorCount] == Flat(Count(|Contributors(Entries(commits))|))
  {
    EntriesAreCommits(commits);
    FoldedBucket(Entries(commits));
    FinishedKeys(FoldRepo(EMPTY_REPO_METRICS, Entries(commits)), names, d);
    FinishedCounts(FoldRepo(EMPTY_REPO_METRICS, Entries(commits)), names, d);
  }

  /**
   * A keyed precision the analysis reports: one bucket per label some
   * commit carries, each holding the requested keys and counting exactly
   * the commits with its label.
   */
  lemma KeyedReport(p: Precision, cal: Calendar, commits: seq<Commit>, names: set<Key>, accs: map<string, map<Key, Value>>)
    requires Dated(commits)
    requires AllFinished(FoldBuckets(map[], LabelledBy(p, cal, commits)), names, accs)
    ensures accs.Keys == Labels(LabelledBy(p, cal, commits))
    ensures forall l :: l in accs ==> accs[l].Keys == names
    ensures CommitCount in names ==> forall l :: l in accs ==>
              accs[l][CommitCount] == Flat(Count(|WithLabel(LabelledBy(p, cal, commits), l)|))
  {
    var ls := LabelledBy(p, cal, commits);
    FoldBucketsSplits(ls);
    assert forall l :: l in accs ==> Finished(FoldBuckets(map[], ls)[l], names, accs[l]);
    forall l | l in accs
      ensures accs[l].Keys == names
      ensures CommitCount in names ==> accs[l][CommitCount] == Flat(Count(|WithLabel(ls, l)|))
    {
      BucketsAreCommits(p, cal, commits, l);
      FoldedBucket(WithLabel(ls, l));
      FinishedKeys(FoldRepo(EMPTY_REPO_METRICS, WithLabel(ls, l)), names, accs[l]);
      FinishedCounts(FoldRepo(EMPTY_REPO_METRICS, WithLabel(ls, l)), names, accs[l]);
    }
  }

  /**
   * The contributor dictionaries of the reported total: one per contributor
   * key, each counting that contributor's commits, the counts adding up to
   * the number of commits.
   */
  lemma TotalContributorCounts(commits: seq<Commit>, names: set<Key>, d: map<Key, Value>)
    requires Finished(FoldRepo(EMPTY_REPO_METRICS, Entries(commits)), names, d)
    requires ContributorStats in names && CommitCount in names
    ensures ContributorStats in d && d[ContributorStats].Stats?
    ensures var counts := ReportedCommitCounts(d[ContributorStats].stats);
            && counts.Keys == Contributors(Entries(commits))
            && (forall c :: c in counts ==> counts[c] == CountOf(Entries(commits), c))
            && SumValues(counts) == |commits|
  {
    EntriesAreCommits(commits);
    FoldedBucket(Entries(commits));
    FoldRepoCommitCounts(Entries(commits));
    FinishedContributorCounts(FoldRepo(EMPTY_REPO_METRICS, Entries(commits)), names, d);
  }

  /** The same for every bucket of a keyed precision, counting the commits with its label. */
  lemma KeyedContributorCounts(p: Precision, cal: Calendar, commits: seq<Commit>, names: set<Key>,
                               accs: map<string, map<Key, Value>>, l: string)
    requires Dated(commits)
    requires AllFinished(FoldBuckets(map[], LabelledBy(p, cal, commits)), names, accs)
    requires ContributorStats in names && CommitCount in names
    requires l in accs
    ensures ContributorStats in accs[l] && accs[l][ContributorStats].Stats?
    ensures var es := WithLabel(LabelledBy(p, cal, commits), l);
            var counts := ReportedCommitCounts(accs[l][ContributorStats].stats);
            && counts.Keys == Contributors(es)
            && (forall c :: c in counts ==> counts[c] == CountOf(es, c))
            && SumValues(counts) == |es|
  {
    var ls := LabelledBy(p, cal, commits);
    var es := WithLabel(ls, l);
    FoldBucketsSplits(ls);
    assert Finished(FoldRepo(EMPTY_REPO_METRICS, es), names, accs[l]);
    BucketsAreCommits(p, cal, commits, l);
    FoldedBucket(es);
    FoldRepoCommitCounts(es);
    FinishedContributorCounts(FoldRepo(EMPTY_REPO_METRICS, es), names, accs[l]);
  }
}
