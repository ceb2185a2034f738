/**
 * The accumulator templates of `codewerdz/git/metrics/__init__.py`.
 *
 * The program keeps accumulators as dictionaries. Here an accumulator is a
 * record while it is being folded (`Metrics` for a contributor, `RepoMetrics`
 * for a whole bucket) and becomes a dictionary (`ContributorDict`,
 * `RepoDict`) when it is pruned to the requested metric names, which is the
 * one step that removes keys.
 */
module MetricsTemplates {

  /** A density or ratio as the running average, the maximum and the minimum kept for it. */
  datatype Spread = Spread(avg: real, max: real, min: real)

  /** `EMPTY_CONTRIBUTOR_METRICS`: the per-contributor (and per-commit sample) fields. */
  datatype Metrics = Metrics(
    commitCount: nat, charsChangedCount: nat,
    codeCount: nat, docsCount: nat,
    onlyCodeCount: nat, onlyDocsCount: nat,
    codeCharsCount: nat, docsCharsCount: nat,
    docsDensity: Spread, codeDensity: Spread, docsToCode: Spread)

  /** `EMPTY_REPO_METRICS` after the merge: the contributor fields, the contributor summaries and the per-contributor accumulators. */
  datatype RepoMetrics = RepoMetrics(
    m: Metrics,
    contributorCount: nat,
    contributorDocsCount: nat, contributorCodeCount: nat,
    docsList: seq<string>, codeList: seq<string>,
    contributorOnlyDocsCount: nat, contributorOnlyCodeCount: nat,
    onlyDocsList: seq<string>, onlyCodeList: seq<string>,
    stats: map<string, Metrics>)

  /**
   * The dictionary keys of the templates. The command line only accepts
   * metric names from the template (its `--metric` choices), so a key is one
   * of these; `KeyName` gives each its spelling.
   */
  datatype Key =
    | CommitCount | CharsChangedCount | CodeCount | DocsCount | OnlyCodeCount | OnlyDocsCount
    | CodeCharsCount | DocsCharsCount
    | DocsDensityAvg | DocsDensityMax | DocsDensityMin
    | CodeDensityAvg | CodeDensityMax | CodeDensityMin
    | DocsToCodeAvg | DocsToCodeMax | DocsToCodeMin
    | ContributorCount | ContributorDocsCount | ContributorCodeCount
    | ContributorDocsList | ContributorCodeList
    | ContributorOnlyDocsCount | ContributorOnlyCodeCount
    | ContributorOnlyDocsList | ContributorOnlyCodeList
    | ContributorStats

  function KeyName(k: Key): string
  {
    match k
    case CommitCount => "commit_count"
    case CharsChangedCount => "chars_changed_count"
    case CodeCount => "code_count"
    case DocsCount => "docs_count"
    case OnlyCodeCount => "only_code_count"
    case OnlyDocsCount => "only_docs_count"
    case CodeCharsCount => "code_chars_count"
    case DocsCharsCount => "docs_chars_count"
    case DocsDensityAvg => "docs_density_avg"
    case DocsDensityMax => "docs_density_max"
    case DocsDensityMin => "docs_density_min"
    case CodeDensityAvg => "code_density_avg"
    case CodeDensityMax => "code_density_max"
    case CodeDensityMin => "code_density_min"
    case DocsToCodeAvg => "docs_to_code_avg"
    case DocsToCodeMax => "docs_to_code_max"
    case DocsToCodeMin => "docs_to_code_min"
    case ContributorCount => "contributor_count"
    case ContributorDocsCount => "contributor_docs_count"
    case ContributorCodeCount => "contributor_code_count"
    case ContributorDocsList => "contributor_docs_list"
    case ContributorCodeList => "contributor_code_list"
    case ContributorOnlyDocsCount => "contributor_only_docs_count"
    case ContributorOnlyCodeCount => "contributor_only_code_count"
    case ContributorOnlyDocsList => "contributor_only_docs_list"
    case ContributorOnlyCodeList => "contributor_only_code_list"
    case ContributorStats => "contributor_stats"
  }

  /** The keys of `EMPTY_METRICS_PRECISIONS`; `--metrics-precision` only accepts these. */
  datatype Precision = Total | Yearly | Monthly | Weekly | Daily

  function PrecisionName(p: Precision): string
  {
    match p
    case Total => "total"
    case Yearly => "yearly"
    case Monthly => "monthly"
    case Weekly => "weekly"
    case Daily => "daily"
  }

  /** A dictionary value that is not itself a dictionary. */
  datatype Field = Count(n: int) | Ratio(x: real) | Names(names: seq<string>)

  /** A value of a bucket dictionary: a plain field, or `contributor_stats`, whose values are contributor dictionaries. */
  datatype Value = Flat(f: Field) | Stats(stats: map<string, map<Key, Field>>)

  /** A value of the per-precision dictionary: the `total` accumulator, or a bucket label mapped to its accumulator. */
  datatype Level = Single(acc: map<Key, Value>) | Keyed(accs: map<string, map<Key, Value>>)

  const ZERO_SPREAD := Spread(0.0, 0.0, 0.0)

  const EMPTY_CONTRIBUTOR_METRICS := Metrics(0, 0, 0, 0, 0, 0, 0, 0, ZERO_SPREAD, ZERO_SPREAD, ZERO_SPREAD)

  const EMPTY_REPO_METRICS := RepoMetrics(EMPTY_CONTRIBUTOR_METRICS, 0, 0, 0, [], [], 0, 0, [], [], map[])

  const CONTRIBUTOR_KEYS: set<Key> := {
    CommitCount, CharsChangedCount, CodeCount, DocsCount, OnlyCodeCount, OnlyDocsCount,
    CodeCharsCount, DocsCharsCount,
    DocsDensityAvg, DocsDensityMax, DocsDensityMin,
    CodeDensityAvg, CodeDensityMax, CodeDensityMin,
    DocsToCodeAvg, DocsToCodeMax, DocsToCodeMin}

  const REPO_KEYS: set<Key> := {
    ContributorCount, ContributorDocsCount, ContributorCodeCount,
    ContributorDocsList, ContributorCodeList,
    ContributorOnlyDocsCount, ContributorOnlyCodeCount,
    ContributorOnlyDocsList, ContributorOnlyCodeList,
    ContributorStats}

  const ALL_KEYS: set<Key> := {
    CommitCount, CharsChangedCount, CodeCount, DocsCount, OnlyCodeCount, OnlyDocsCount,
    CodeCharsCount, DocsCharsCount,
    DocsDensityAvg, DocsDensityMax, DocsDensityMin,
    CodeDensityAvg, CodeDensityMax, CodeDensityMin,
    DocsToCodeAvg, DocsToCodeMax, DocsToCodeMin,
    ContributorCount, ContributorDocsCount, ContributorCodeCount,
    ContributorDocsList, ContributorCodeList,
    ContributorOnlyDocsCount, ContributorOnlyCodeCount,
    ContributorOnlyDocsList, ContributorOnlyCodeList,
    ContributorStats}

  const PRECISIONS: set<Precision> := {Total, Yearly, Monthly, Weekly, Daily}

  /** The value `m` holds under a contributor key. */
  function ContributorField(m: Metrics, k: Key): Field
  {
    match k
    case CommitCount => Count(m.commitCount)
    case CharsChangedCount => Count(m.charsChangedCount)
    case CodeCount => Count(m.codeCount)
    case DocsCount => Count(m.docsCount)
    case OnlyCodeCount => Count(m.onlyCodeCount)
    case OnlyDocsCount => Count(m.onlyDocsCount)
    case CodeCharsCount => Count(m.codeCharsCount)
    case DocsCharsCount => Count(m.docsCharsCount)
    case DocsDensityAvg => Ratio(m.docsDensity.avg)
    case DocsDensityMax => Ratio(m.docsDensity.max)
    case DocsDensityMin => Ratio(m.docsDensity.min)
    case CodeDensityAvg => Ratio(m.codeDensity.avg)
    case CodeDensityMax => Ratio(m.codeDensity.max)
    case CodeDensityMin => Ratio(m.codeDensity.min)
    case DocsToCodeAvg => Ratio(m.docsToCode.avg)
    case DocsToCodeMax => Ratio(m.docsToCode.max)
    case DocsToCodeMin => Ratio(m.docsToCode.min)
    case _ => Count(0)
  }

  /** The value `r` holds under a summary key. */
  function SummaryValue(r: RepoMetrics, k: Key): Value
  {
    match k
    case ContributorCount => Flat(Count(r.contributorCount))
    case ContributorDocsCount => Flat(Count(r.contributorDocsCount))
    case ContributorCodeCount => Flat(Count(r.contributorCodeCount))
    case ContributorDocsList => Flat(Names(r.docsList))
    case ContributorCodeList => Flat(Names(r.codeList))
    case ContributorOnlyDocsCount => Flat(Count(r.contributorOnlyDocsCount))
    case ContributorOnlyCodeCount => Flat(Count(r.contributorOnlyCodeCount))
    case ContributorOnlyDocsList => Flat(Names(r.onlyDocsList))
    case ContributorOnlyCodeList => Flat(Names(r.onlyCodeList))
    case ContributorStats => Stats(map c | c in r.stats :: ContributorDict(r.stats[c]))
    case _ => Flat(ContributorField(r.m, k))
  }

  /** A contributor accumulator as the dictionary the program holds. */
  function ContributorDict(m: Metrics): (d: map<Key, Field>)
    ensures d.Keys == CONTRIBUTOR_KEYS
  {
    map k | k in CONTRIBUTOR_KEYS :: ContributorField(m, k)
  }

  /**
   * A bucket accumulator as the dictionary the program holds: the summary
   * keys updated with the contributor keys.
   */
  function RepoDict(r: RepoMetrics): (d: map<Key, Value>)
    ensures d.Keys == ALL_KEYS
  {
    map k | k in ALL_KEYS :: SummaryValue(r, k)
  }

  /** `DEFAULT_METRICS` and `METRICS_CHOICES`: every key of the bucket template. */
  const DEFAULT_METRICS: set<Key> := RepoDict(EMPTY_REPO_METRICS).Keys

  /** `EMPTY_METRICS_PRECISIONS`. */
  const EMPTY_METRICS_PRECISIONS: map<Precision, Level> := map[
    Total := Single(RepoDict(EMPTY_REPO_METRICS)),
    Yearly := Keyed(map[]), Monthly := Keyed(map[]),
    Weekly := Keyed(map[]), Daily := Keyed(map[])]

  /** `DEFAULT_PRECISION` and `PRECISION_CHOICES`. */
  const DEFAULT_PRECISION: set<Precision> := EMPTY_METRICS_PRECISIONS.Keys

  /** Every field of the contributor template is zero: 0 for the counts, 0.0 for the densities and ratios. */
  lemma EmptyContributorIsZero()
    ensures forall k :: k in ContributorDict(EMPTY_CONTRIBUTOR_METRICS) ==>
      ContributorDict(EMPTY_CONTRIBUTOR_METRICS)[k] in {Count(0), Ratio(0.0)}
  {
  }

  /** The bucket template counts no contributor of any kind. */
  lemma EmptyRepoCountsNoOne()
    ensures var d := RepoDict(EMPTY_REPO_METRICS);
      && d[ContributorCount] == Flat(Count(0))
      && d[ContributorDocsCount] == Flat(Count(0)) && d[ContributorCodeCount] == Flat(Count(0))
      && d[ContributorOnlyDocsCount] == Flat(Count(0)) && d[ContributorOnlyCodeCount] == Flat(Count(0))
  {
  }

  /** The bucket template's contributor lists are empty. */
  lemma EmptyRepoListsNoOne()
    ensures var d := RepoDict(EMPTY_REPO_METRICS);
      && d[ContributorDocsList] == Flat(Names([])) && d[ContributorCodeList] == Flat(Names([]))
      && d[ContributorOnlyDocsList] == Flat(Names([])) && d[ContributorOnlyCodeList] == Flat(Names([]))
  {
  }

  /** The bucket template holds no contributor statistics. */
  lemma EmptyRepoHasNoStats()
    ensures RepoDict(EMPTY_REPO_METRICS)[ContributorStats] == Stats(map[])
  {
  }

  /** The bucket template's keys are the contributor keys and the ten summary keys, two disjoint sets. */
  lemma RepoKeysSplit()
    ensures CONTRIBUTOR_KEYS !! REPO_KEYS
    ensures DEFAULT_METRICS == CONTRIBUTOR_KEYS + REPO_KEYS == ALL_KEYS
  {
  }

  /** The precisions of the template are exactly the five levels. */
  lemma TemplateKeys()
    ensures EMPTY_METRICS_PRECISIONS.Keys == PRECISIONS
  {
  }

  /** `total` starts as an empty bucket accumulator, the keyed precisions as empty maps. */
  lemma PrecisionTemplate()
    ensures DEFAULT_PRECISION == PRECISIONS
    ensures EMPTY_METRICS_PRECISIONS[Total] == Single(RepoDict(EMPTY_REPO_METRICS))
    ensures forall p :: p in PRECISIONS - {Total} ==> EMPTY_METRICS_PRECISIONS[p] == Keyed(map[])
  {
  }
}
