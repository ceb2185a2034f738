/**
 * `accumulate_metrics` of `codewerdz/git/metrics/commit_analyzer.py`: folding
 * one commit's sample into an accumulator, and what a sequence of such folds
 * adds up to.
 */
module MetricsAccumulate {
  import opened MetricsTemplates

  // ---------------------------------------------------------------- one fold

  /** The maximum rule: only a strictly larger sample replaces it, and with `skipOne` never a sample of exactly 1.0. */
  function KeepMax(acc: real, s: real, skipOne: bool): real
  {
    if acc < s && (!skipOne || s != 1.0) then s else acc
  }

  /** The minimum rule: a 0.0 minimum is always overwritten, otherwise only a smaller non-zero sample replaces it. */
  function KeepMin(acc: real, s: real): real
  {
    if acc == 0.0 || (acc > s && s != 0.0) then s else acc
  }

  /** The "average" update, with `count` the commit count after this commit was added. */
  function RunningAvg(count: nat, acc: real, s: real): real
  {
    (count as real * acc + s) / (count as real + 1.0)
  }

  function AccumulateSpread(count: nat, acc: Spread, s: Spread, skipOne: bool): Spread
  {
    Spread(RunningAvg(count, acc.avg, s.avg), KeepMax(acc.max, s.max, skipOne), KeepMin(acc.min, s.min))
  }

  /** `accumulate_metrics` on the contributor fields. */
  function Accumulate(acc: Metrics, s: Metrics): Metrics
  {
    var count := acc.commitCount + s.commitCount;
    Metrics(
      count, acc.charsChangedCount + s.charsChangedCount,
      acc.codeCount + s.codeCount, acc.docsCount + s.docsCount,
      acc.onlyCodeCount + s.onlyCodeCount, acc.onlyDocsCount + s.onlyDocsCount,
      acc.codeCharsCount + s.codeCharsCount, acc.docsCharsCount + s.docsCharsCount,
      AccumulateSpread(count, acc.docsDensity, s.docsDensity, true),
      AccumulateSpread(count, acc.codeDensity, s.codeDensity, true),
      AccumulateSpread(count, acc.docsToCode, s.docsToCode, false))
  }

  /** This contributor's accumulator so far, or the empty template on first sight. */
  function ContributorSoFar(stats: map<string, Metrics>, who: string): Metrics
  {
    if who in stats then stats[who] else EMPTY_CONTRIBUTOR_METRICS
  }

  /**
   * `accumulate_metrics` on a bucket: the bucket's own fields and the
   * accumulator of the commit's contributor both take the sample; the
   * contributor summaries are left for finalisation.
   */
  function AccumulateRepo(acc: RepoMetrics, s: Metrics, who: string): RepoMetrics
  {
    acc.(m := Accumulate(acc.m, s), stats := acc.stats[who := Accumulate(ContributorSoFar(acc.stats, who), s)])
  }

  // ---------------------------------------------------------------- selecting fields

  /** The eight summed fields. */
  datatype Counter = Commits | CharsChanged | Code | Docs | OnlyCode | OnlyDocs | CodeChars | DocsChars

  function CounterOf(m: Metrics, c: Counter): nat
  {
    match c
    case Commits => m.commitCount
    case CharsChanged => m.charsChangedCount
    case Code => m.codeCount
    case Docs => m.docsCount
    case OnlyCode => m.onlyCodeCount
    case OnlyDocs => m.onlyDocsCount
    case CodeChars => m.codeCharsCount
    case DocsChars => m.docsCharsCount
  }

  /** The three measures kept as average, maximum and minimum. */
  datatype Measure = DocsDensity | CodeDensity | DocsToCode

  function SpreadOf(m: Metrics, w: Measure): Spread
  {
    match w
    case DocsDensity => m.docsDensity
    case CodeDensity => m.codeDensity
    case DocsToCode => m.docsToCode
  }

  /** The densities throw out samples of 1.0 for their maximum; the docs-to-code ratio can exceed 1.0 and keeps them. */
  predicate SkipsOne(w: Measure)
  {
    w != DocsToCode
  }

  lemma AccumulateCounter(acc: Metrics, s: Metrics, c: Counter)
    ensures CounterOf(Accumulate(acc, s), c) == CounterOf(acc, c) + CounterOf(s, c)
  {
  }

  lemma AccumulateMeasure(acc: Metrics, s: Metrics, w: Measure)
    ensures SpreadOf(Accumulate(acc, s), w)
         == AccumulateSpread(acc.commitCount + s.commitCount, SpreadOf(acc, w), SpreadOf(s, w), SkipsOne(w))
  {
  }

  // ---------------------------------------------------------------- one-step properties

  /** The maximum never decreases, changes only to the sample, never to an excluded 1.0, and takes any strictly larger eligible sample. */
  lemma MaxStep(acc: Metrics, s: Metrics, w: Measure)
    ensures var before := SpreadOf(acc, w).max;
            var after := SpreadOf(Accumulate(acc, s), w).max;
            var x := SpreadOf(s, w).max;
            && after >= before
            && (after == before || (after == x && (SkipsOne(w) ==> x != 1.0)))
            && (before < x && (!SkipsOne(w) || x != 1.0) ==> after == x)
  {
    AccumulateMeasure(acc, s, w);
  }

  /** A zero minimum takes the sample; a non-zero minimum never becomes 0.0 and never increases. */
  lemma MinStep(acc: Metrics, s: Metrics, w: Measure)
    ensures var before := SpreadOf(acc, w).min;
            var after := SpreadOf(Accumulate(acc, s), w).min;
            && (before == 0.0 ==> after == SpreadOf(s, w).min)
            && (before != 0.0 ==> after != 0.0 && after <= before)
  {
    AccumulateMeasure(acc, s, w);
  }

  /** The average uses the count after the increment: from the empty accumulator, one commit gives half its sample. */
  lemma FirstAverageIsHalf(s: Metrics, w: Measure)
    requires s.commitCount == 1
    ensures SpreadOf(Accumulate(EMPTY_CONTRIBUTOR_METRICS, s), w).avg == SpreadOf(s, w).avg / 2.0
  {
    AccumulateMeasure(EMPTY_CONTRIBUTOR_METRICS, s, w);
  }

  // ---------------------------------------------------------------- folding many samples

  function FoldMetrics(acc: Metrics, ss: seq<Metrics>): Metrics
  {
    if |ss| == 0 then acc else Accumulate(FoldMetrics(acc, ss[..|ss| - 1]), ss[|ss| - 1])
  }

  function SumOf(ss: seq<Metrics>, c: Counter): nat
  {
    if |ss| == 0 then 0 else SumOf(ss[..|ss| - 1], c) + CounterOf(ss[|ss| - 1], c)
  }

  function AvgSum(ss: seq<Metrics>, w: Measure): real
  {
    if |ss| == 0 then 0.0 else AvgSum(ss[..|ss| - 1], w) + SpreadOf(ss[|ss| - 1], w).avg
  }

  /** Per-commit samples: each counts one commit. */
  predicate UnitSamples(ss: seq<Metrics>)
  {
    forall i :: 0 <= i < |ss| ==> ss[i].commitCount == 1
  }

  /** Every summed field ends as its start plus the samples' values. */
  lemma {:induction false} FoldAdds(acc: Metrics, ss: seq<Metrics>, c: Counter)
    ensures CounterOf(FoldMetrics(acc, ss), c) == CounterOf(acc, c) + SumOf(ss, c)
  {
    if |ss| > 0 {
      FoldAdds(acc, ss[..|ss| - 1], c);
      AccumulateCounter(FoldMetrics(acc, ss[..|ss| - 1]), ss[|ss| - 1], c);
    }
  }

  /** With per-commit samples the commit count grows by one per fold. */
  lemma {:induction false} FoldCountsCommits(acc: Metrics, ss: seq<Metrics>)
    requires UnitSamples(ss)
    ensures FoldMetrics(acc, ss).commitCount == acc.commitCount + |ss|
  {
    if |ss| > 0 {
      FoldCountsCommits(acc, ss[..|ss| - 1]);
    }
  }

  /** The count plus one, times the average. */
  function Weighted(count: nat, avg: real): real
  {
    (count as real + 1.0) * avg
  }

  /**
   * What the "average" really holds: with per-commit samples, the count plus
   * one times the average is the start's such product plus the sum of the
   * samples, so from the empty template it is the sum divided by `n + 1`.
   */
  lemma {:induction false} AverageClosedForm(acc: Metrics, ss: seq<Metrics>, w: Measure)
    requires UnitSamples(ss)
    ensures var r := FoldMetrics(acc, ss);
            Weighted(r.commitCount, SpreadOf(r, w).avg) == Weighted(acc.commitCount, SpreadOf(acc, w).avg) + AvgSum(ss, w)
  {
    if |ss| > 0 {
      var init := ss[..|ss| - 1];
      var prev := FoldMetrics(acc, init);
      var s := ss[|ss| - 1];
      AverageClosedForm(acc, init, w);
      AccumulateMeasure(prev, s, w);
      AverageStep(prev.commitCount, SpreadOf(prev, w).avg, SpreadOf(s, w).avg,
                  Weighted(acc.commitCount, SpreadOf(acc, w).avg), AvgSum(init, w));
    }
  }

  /** One fold of a per-commit sample keeps the closed form of the average. */
  lemma AverageStep(c: nat, a: real, x: real, base: real, sum: real)
    requires Weighted(c, a) == base + sum
    ensures Weighted(c + 1, RunningAvg(c + 1, a, x)) == base + (sum + x)
  {
    var n := (c + 1) as real + 1.0;
    var t := (c + 1) as real * a + x;
    assert RunningAvg(c + 1, a, x) == t / n;
    assert n * (t / n) == t;
  }

  /** From the empty template, after `n` commits the average is the samples' sum over `n + 1`. */
  lemma AverageFromEmpty(ss: seq<Metrics>, w: Measure)
    requires UnitSamples(ss)
    ensures SpreadOf(FoldMetrics(EMPTY_CONTRIBUTOR_METRICS, ss), w).avg == AvgSum(ss, w) / (|ss| as real + 1.0)
  {
    AverageClosedForm(EMPTY_CONTRIBUTOR_METRICS, ss, w);
    FoldCountsCommits(EMPTY_CONTRIBUTOR_METRICS, ss);
    assert SpreadOf(EMPTY_CONTRIBUTOR_METRICS, w).avg == 0.0;
    Quotient(|ss|, SpreadOf(FoldMetrics(EMPTY_CONTRIBUTOR_METRICS, ss), w).avg, AvgSum(ss, w));
  }

  lemma Quotient(c: nat, a: real, t: real)
    requires Weighted(c, a) == Weighted(0, 0.0) + t
    ensures a == t / (c as real + 1.0)
  {
  }

  /** A sample that may set the maximum. */
  predicate MaxEligible(x: real, w: Measure)
  {
    !SkipsOne(w) || x != 1.0
  }

  /** The folded maximum is the largest of the start and every eligible sample. */
  lemma {:induction false} FoldMax(acc: Metrics, ss: seq<Metrics>, w: Measure)
    ensures var r := SpreadOf(FoldMetrics(acc, ss), w).max;
            && r >= SpreadOf(acc, w).max
            && (forall i :: 0 <= i < |ss| && MaxEligible(SpreadOf(ss[i], w).max, w) ==> r >= SpreadOf(ss[i], w).max)
            && (r == SpreadOf(acc, w).max
                || exists i :: 0 <= i < |ss| && MaxEligible(SpreadOf(ss[i], w).max, w) && r == SpreadOf(ss[i], w).max)
  {
    if |ss| > 0 {
      var init := ss[..|ss| - 1];
      var prev := FoldMetrics(acc, init);
      var s := ss[|ss| - 1];
      FoldMax(acc, init, w);
      MaxStep(prev, s, w);
      var r := SpreadOf(FoldMetrics(acc, ss), w).max;
      assert forall i :: 0 <= i < |init| ==> init[i] == ss[i];
      if r != SpreadOf(acc, w).max {
        if r == SpreadOf(prev, w).max {
          var i :| 0 <= i < |init| && MaxEligible(SpreadOf(init[i], w).max, w) && SpreadOf(prev, w).max == SpreadOf(init[i], w).max;
          assert ss[i] == init[i];
        } else {
          assert MaxEligible(SpreadOf(ss[|ss| - 1], w).max, w);
        }
      }
    }
  }

  /** With the 1.0 exclusion, a maximum that did not start at 1.0 never becomes 1.0. */
  lemma FoldMaxNeverOne(acc: Metrics, ss: seq<Metrics>, w: Measure)
    requires SkipsOne(w) && SpreadOf(acc, w).max != 1.0
    ensures SpreadOf(FoldMetrics(acc, ss), w).max != 1.0
  {
    FoldMax(acc, ss, w);
  }

  /**
   * The folded minimum is the smallest non-zero value among the start and
   * the samples, and 0.0 exactly when there is none.
   */
  lemma {:induction false} FoldMin(acc: Metrics, ss: seq<Metrics>, w: Measure)
    ensures var r := SpreadOf(FoldMetrics(acc, ss), w).min;
            && (r == 0.0 <==> SpreadOf(acc, w).min == 0.0 && forall i :: 0 <= i < |ss| ==> SpreadOf(ss[i], w).min == 0.0)
            && (SpreadOf(acc, w).min != 0.0 ==> r <= SpreadOf(acc, w).min)
            && (forall i :: 0 <= i < |ss| && SpreadOf(ss[i], w).min != 0.0 ==> r <= SpreadOf(ss[i], w).min)
            && (r == SpreadOf(acc, w).min || exists i :: 0 <= i < |ss| && r == SpreadOf(ss[i], w).min)
  {
    if |ss| > 0 {
      var init := ss[..|ss| - 1];
      var prev := FoldMetrics(acc, init);
      var s := ss[|ss| - 1];
      FoldMin(acc, init, w);
      MinStep(prev, s, w);
      AccumulateMeasure(prev, s, w);
      var r := SpreadOf(FoldMetrics(acc, ss), w).min;
      assert forall i :: 0 <= i < |init| ==> init[i] == ss[i];
      if r != SpreadOf(acc, w).min && r == SpreadOf(prev, w).min {
        var i :| 0 <= i < |init| && SpreadOf(prev, w).min == SpreadOf(init[i], w).min;
        assert ss[i] == init[i];
      }
    }
  }

  // ---------------------------------------------------------------- buckets and contributors

  /** One commit as the bucket fold sees it: its sample and its contributor key. */
  datatype Entry = Entry(sample: Metrics, who: string)

  function FoldRepo(acc: RepoMetrics, es: seq<Entry>): RepoMetrics
  {
    if |es| == 0 then acc else AccumulateRepo(FoldRepo(acc, es[..|es| - 1]), es[|es| - 1].sample, es[|es| - 1].who)
  }

  function Samples(es: seq<Entry>): (ss: seq<Metrics>)
    ensures |ss| == |es| && forall i :: 0 <= i < |es| ==> ss[i] == es[i].sample
  {
    if |es| == 0 then [] else Samples(es[..|es| - 1]) + [es[|es| - 1].sample]
  }

  /** The samples of one contributor's commits, in order. */
  function SamplesOf(es: seq<Entry>, who: string): seq<Metrics>
  {
    if |es| == 0 then []
    else SamplesOf(es[..|es| - 1], who) + (if es[|es| - 1].who == who then [es[|es| - 1].sample] else [])
  }

  function Contributors(es: seq<Entry>): (ws: set<string>)
    ensures forall w :: w in ws <==> exists i :: 0 <= i < |es| && es[i].who == w
  {
    set i | 0 <= i < |es| :: es[i].who
  }

  /** Fields of a bucket that accumulation leaves alone. */
  predicate SameSummary(a: RepoMetrics, b: RepoMetrics)
  {
    && a.contributorCount == b.contributorCount
    && a.contributorDocsCount == b.contributorDocsCount && a.contributorCodeCount == b.contributorCodeCount
    && a.docsList == b.docsList && a.codeList == b.codeList
    && a.contributorOnlyDocsCount == b.contributorOnlyDocsCount && a.contributorOnlyCodeCount == b.contributorOnlyCodeCount
    && a.onlyDocsList == b.onlyDocsList && a.onlyCodeList == b.onlyCodeList
  }

  /**
   * Folding a bucket: its own fields take every sample, each contributor's
   * accumulator takes exactly the samples of that contributor's commits,
   * and the contributor summaries are untouched.
   */
  lemma FoldRepoParts(acc: RepoMetrics, es: seq<Entry>)
    ensures var r := FoldRepo(acc, es);
            && r.m == FoldMetrics(acc.m, Samples(es))
            && SameSummary(r, acc)
            && r.stats.Keys == acc.stats.Keys + Contributors(es)
            && forall w :: w in r.stats ==> r.stats[w] == FoldMetrics(ContributorSoFar(acc.stats, w), SamplesOf(es, w))
  {
    FoldRepoOwn(acc, es);
    FoldRepoKeys(acc, es);
    forall w | w in FoldRepo(acc, es).stats
      ensures FoldRepo(acc, es).stats[w] == FoldMetrics(ContributorSoFar(acc.stats, w), SamplesOf(es, w))
    {
      FoldRepoContributor(acc, es, w);
    }
  }

  lemma {:induction false} FoldRepoOwn(acc: RepoMetrics, es: seq<Entry>)
    ensures FoldRepo(acc, es).m == FoldMetrics(acc.m, Samples(es))
    ensures SameSummary(FoldRepo(acc, es), acc)
  {
    if |es| > 0 {
      FoldRepoOwn(acc, es[..|es| - 1]);
      assert Samples(es)[..|es| - 1] == Samples(es[..|es| - 1]);
    }
  }

  lemma {:induction false} FoldRepoKeys(acc: RepoMetrics, es: seq<Entry>)
    ensures FoldRepo(acc, es).stats.Keys == acc.stats.Keys + Contributors(es)
  {
    if |es| > 0 {
      var init := es[..|es| - 1];
      FoldRepoKeys(acc, init);
      assert Contributors(es) == Contributors(init) + {es[|es| - 1].who} by {
        assert forall i :: 0 <= i < |init| ==> init[i] == es[i];
      }
    }
  }

  lemma {:induction false} FoldRepoContributor(acc: RepoMetrics, es: seq<Entry>, w: string)
    ensures ContributorSoFar(FoldRepo(acc, es).stats, w) == FoldMetrics(ContributorSoFar(acc.stats, w), SamplesOf(es, w))
  {
    if |es| > 0 {
      var init := es[..|es| - 1];
      var e := es[|es| - 1];
      FoldRepoContributor(acc, init, w);
      var pre := SamplesOf(init, w);
      if w == e.who {
        assert SamplesOf(es, w) == pre + [e.sample];
        assert (pre + [e.sample])[..|pre|] == pre;
      } else {
        assert SamplesOf(es, w) == pre + [];
        assert pre + [] == pre;
      }
    }
  }

  function CountOf(es: seq<Entry>, who: string): nat
  {
    if |es| == 0 then 0 else CountOf(es[..|es| - 1], who) + (if es[|es| - 1].who == who then 1 else 0)
  }

  lemma {:induction false} SamplesOfLength(es: seq<Entry>, who: string)
    ensures |SamplesOf(es, who)| == CountOf(es, who)
    ensures UnitSamples(Samples(es)) ==> UnitSamples(SamplesOf(es, who))
  {
    if |es| > 0 {
      SamplesOfLength(es[..|es| - 1], who);
      assert forall i :: 0 <= i < |es| - 1 ==> Samples(es[..|es| - 1])[i] == Samples(es)[i];
    }
  }

  /** Some key of a non-empty set. */
  ghost function Pick(keys: set<string>): (k: string)
    requires keys != {}
    ensures k in keys
  {
    var k :| k in keys; k
  }

  /** The sum of a map's values. */
  ghost function SumValues(m: map<string, nat>): nat
    decreases |m.Keys|
  {
    if m.Keys == {} then 0
    else
      var k := Pick(m.Keys);
      assert (m - {k}).Keys == m.Keys - {k};
      m[k] + SumValues(m - {k})
  }

  /** Any key can be taken out first. */
  lemma {:induction false} SumValuesRemove(m: map<string, nat>, k: string)
    requires k in m
    ensures SumValues(m) == m[k] + SumValues(m - {k})
    decreases |m.Keys|
  {
    var j := Pick(m.Keys);
    if j != k {
      var mj, mk := m - {j}, m - {k};
      RemoveKey(m, j, k);
      RemoveKey(m, k, j);
      SumValuesRemove(mj, k);
      SumValuesRemove(mk, j);
      RemoveBoth(m, j, k);
    }
  }

  lemma RemoveKey(m: map<string, nat>, j: string, k: string)
    requires j in m && k in m && j != k
    ensures (m - {j}).Keys == m.Keys - {j} && k in m - {j} && (m - {j})[k] == m[k]
  {
  }

  lemma RemoveBoth(m: map<string, nat>, j: string, k: string)
    ensures m - {j} - {k} == m - {k} - {j}
  {
  }

  /** Setting one key changes the sum by the difference at that key. */
  lemma SumValuesUpdate(m: map<string, nat>, k: string, v: nat)
    ensures SumValues(m[k := v]) + (if k in m then m[k] else 0) == SumValues(m) + v
  {
    SumValuesRemove(m[k := v], k);
    assert m[k := v] - {k} == m - {k};
    if k in m {
      SumValuesRemove(m, k);
    } else {
      assert m - {k} == m;
    }
  }

  /** Each contributor's commit count. */
  function CommitCounts(stats: map<string, Metrics>): (r: map<string, nat>)
    ensures r.Keys == stats.Keys && forall w :: w in r ==> r[w] == stats[w].commitCount
  {
    map w | w in stats :: stats[w].commitCount
  }

  /** With per-commit samples, every fold adds one commit to the contributors' total. */
  lemma {:induction false} FoldRepoCommitSum(acc: RepoMetrics, es: seq<Entry>)
    requires UnitSamples(Samples(es))
    ensures SumValues(CommitCounts(FoldRepo(acc, es).stats)) == SumValues(CommitCounts(acc.stats)) + |es|
  {
    if |es| > 0 {
      var init := es[..|es| - 1];
      var e := es[|es| - 1];
      assert forall i :: 0 <= i < |init| ==> Samples(init)[i] == Samples(es)[i];
      FoldRepoCommitSum(acc, init);
      var before := FoldRepo(acc, init).stats;
      assert Samples(es)[|es| - 1] == e.sample;
      var after := before[e.who := Accumulate(ContributorSoFar(before, e.who), e.sample)];
      assert CommitCounts(after) == CommitCounts(before)[e.who := ContributorSoFar(before, e.who).commitCount + 1];
      SumValuesUpdate(CommitCounts(before), e.who, ContributorSoFar(before, e.who).commitCount + 1);
    }
  }

  /**
   * From the empty bucket, with per-commit samples: the bucket counts every
   * commit, each contributor counts exactly that contributor's commits, and
   * the contributors' counts add up to the bucket's.
   */
  lemma FoldRepoCommitCounts(es: seq<Entry>)
    requires UnitSamples(Samples(es))
    ensures var r := FoldRepo(EMPTY_REPO_METRICS, es);
            && r.m.commitCount == |es|
            && r.stats.Keys == Contributors(es)
            && (forall w :: w in r.stats ==> r.stats[w].commitCount == CountOf(es, w))
            && SumValues(CommitCounts(r.stats)) == r.m.commitCount
  {
    FoldRepoParts(EMPTY_REPO_METRICS, es);
    FoldCountsCommits(EMPTY_CONTRIBUTOR_METRICS, Samples(es));
    forall w
      ensures FoldMetrics(EMPTY_CONTRIBUTOR_METRICS, SamplesOf(es, w)).commitCount == CountOf(es, w)
    {
      SamplesOfLength(es, w);
      FoldCountsCommits(EMPTY_CONTRIBUTOR_METRICS, SamplesOf(es, w));
    }
    FoldRepoCommitSum(EMPTY_REPO_METRICS, es);
    assert CommitCounts(EMPTY_REPO_METRICS.stats) == map[];
  }

  // ---------------------------------------------------------------- keyed buckets

  /** The bucket named `bucket` so far, or the template when it has not been created. */
  function BucketSoFar(b: map<string, RepoMetrics>, bucket: string): RepoMetrics
  {
    if bucket in b then b[bucket] else EMPTY_REPO_METRICS
  }

  /** Fold into the bucket named `bucket`, created from the template on first sight. */
  function Bucketed(b: map<string, RepoMetrics>, bucket: string, e: Entry): map<string, RepoMetrics>
  {
    b[bucket := AccumulateRepo(BucketSoFar(b, bucket), e.sample, e.who)]
  }

  /** One commit with the name of the bucket it falls in. */
  datatype Labelled = Labelled(bucket: string, entry: Entry)

  function FoldBuckets(b: map<string, RepoMetrics>, ls: seq<Labelled>): map<string, RepoMetrics>
  {
    if |ls| == 0 then b else Bucketed(FoldBuckets(b, ls[..|ls| - 1]), ls[|ls| - 1].bucket, ls[|ls| - 1].entry)
  }

  /** The entries that fall in the bucket named `bucket`, in order. */
  function WithLabel(ls: seq<Labelled>, bucket: string): seq<Entry>
  {
    if |ls| == 0 then []
    else WithLabel(ls[..|ls| - 1], bucket) + (if ls[|ls| - 1].bucket == bucket then [ls[|ls| - 1].entry] else [])
  }

  function Labels(ls: seq<Labelled>): (r: set<string>)
    ensures forall l :: l in r <==> exists i :: 0 <= i < |ls| && ls[i].bucket == l
  {
    set i | 0 <= i < |ls| :: ls[i].bucket
  }

  /** There is one bucket per label seen, and each is the plain bucket fold of exactly its own commits. */
  lemma FoldBucketsSplits(ls: seq<Labelled>)
    ensures var b := FoldBuckets(map[], ls);
            && b.Keys == Labels(ls)
            && forall l :: l in b ==> b[l] == FoldRepo(EMPTY_REPO_METRICS, WithLabel(ls, l))
  {
    FoldBucketsKeys(ls);
    forall l | l in FoldBuckets(map[], ls)
      ensures FoldBuckets(map[], ls)[l] == FoldRepo(EMPTY_REPO_METRICS, WithLabel(ls, l))
    {
      FoldBucketsOne(ls, l);
    }
  }

  lemma {:induction false} FoldBucketsKeys(ls: seq<Labelled>)
    ensures FoldBuckets(map[], ls).Keys == Labels(ls)
  {
    if |ls| > 0 {
      var init := ls[..|ls| - 1];
      FoldBucketsKeys(init);
      assert Labels(ls) == Labels(init) + {ls[|ls| - 1].bucket} by {
        assert forall i :: 0 <= i < |init| ==> init[i] == ls[i];
      }
    }
  }

  lemma {:induction false} FoldBucketsOne(ls: seq<Labelled>, l: string)
    ensures BucketSoFar(FoldBuckets(map[], ls), l) == FoldRepo(EMPTY_REPO_METRICS, WithLabel(ls, l))
  {
    if |ls| > 0 {
      var init := ls[..|ls| - 1];
      var x := ls[|ls| - 1];
      FoldBucketsOne(init, l);
      var pre := WithLabel(init, l);
      if l == x.bucket {
        assert WithLabel(ls, l) == pre + [x.entry];
        assert (pre + [x.entry])[..|pre|] == pre;
      } else {
        assert WithLabel(ls, l) == pre + [];
        assert pre + [] == pre;
      }
    }
  }

}
