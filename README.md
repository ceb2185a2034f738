# git-metrics core, modelled in Dafny

This project models the two stages of codewerdz-git-metrics that do the real work.

- **The log parser** (`GitLogParser`). It cuts the line output of `git log` into commit blocks at the sentinel `@@@@@@@@@@`. From each block it reads:
  - the ten header lines, in the order of the log format;
  - the leading `--numstat` rows;
  - the `diff --git` blocks.

  Each diff block is named from its header line. Its changed lines are then counted as added or removed, and as code or documentation.
- **The metrics aggregator** (`CommitAnalyzer.analyze_commits`). It turns every commit into a one-commit sample. It folds the sample into the total accumulator, and into the yearly, monthly, weekly and daily bucket that the commit date falls in; each accumulator also folds the sample into the accumulator of the commit's contributor. The buckets are then finalised: contributor lists and counts are filled in. Finally they are pruned to the requested metric names.

The modules follow the program.

| module | file | what it holds |
|---|---|---|
| `Options`, `Strings`, `Glob` | `options.dfy`, `strings.dfy`, `glob.dfy` | The Python built-ins the core relies on: `None`, `strip`, `split`, `join`, `str(n)`, `{:0>w}` and `fnmatch`. |
| `GitLogFormat` | `git_log_format.dfy` | The log format's field order and sentinel. |
| `DiffHeader` | `diff_header.dfy` | The header regular expression and `_parse_header_filename`. |
| `DiffClassifier` | `diff_classifier.dfy` | `_is_doc_file`, `_is_comment` and `analyze_changes`. |
| `GitLogParser` | `git_log_parser.dfy` | `parse`, `_commit_hash`, `_slurp_numstats`, `_slurp_diffs` and `_parse_diff`. |
| `MetricsTemplates` | `metrics_templates.dfy` | The templates and key sets of `codewerdz/git/metrics/__init__.py`. |
| `MetricsAccumulate` | `metrics_accumulate.dfy` | `accumulate_metrics` and what a sequence of folds adds up to. |
| `MetricsFinalize` | `metrics_finalize.dfy` | `accumulate_contributor_metrics`, `filter_metrics` and `get_precision`. |
| `CommitAnalyzer` | `commit_analyzer.dfy` | `analyze_commits` and the label helpers. |

The loops of the source are methods with loop invariants. Most of them are proved equal to a function that specifies them, and the properties the program promises are lemmas about those functions:

- `parse`, `_slurp_numstats`, `_slurp_diffs`, `analyze_changes`;
- the commit roll-up loop;
- the loop over the commits;
- `filter_metrics` and its deletion loops.

Three methods walk a dictionary, whose order Python 2 leaves open, or call one that does. They are proved to satisfy a relation that holds for every visiting order, not equal to one function:

- `accumulate_contributor_metrics` (`MetricsFinalize.AccumulateContributorMetrics`, relation `Finalized`);
- the loop over the buckets of a keyed precision (`CommitAnalyzer.FinishBuckets`, relation `AllFinished`);
- `analyze_commits` as a whole (`CommitAnalyzer.AnalyzeCommits`, relation `Reports`).

Python's dictionaries become Dafny `map`s and records. Metric names and precision names become the enumerations `Key` and `Precision`; `KeyName` and `PrecisionName` give their spellings. The densities and ratios are exact `real`s. Two points of the code are easy to misread, and the model follows what the code computes:

- **The week number.** It counts whole days from 1 January 00:00 UTC, floor-divides them by 7 and adds 1; the code's own note at `codewerdz/git/metrics/commit_analyzer.py:241` says it is not the ISO week number. It is not the day of the year divided by 7 either. An instant east of UTC that falls in the last hours before UTC midnight yields week 0. `WeekBounds` states this.
- **The running average.** It multiplies by the commit count *after* it was incremented, so one commit from the template gives half its sample (`FirstAverageIsHalf`). The closed form is `AverageFromEmpty`.

## Model

| member | source | states |
|---|---|---|
| GitLogFormat.FieldIndices | codewerdz/git/log/git_log_process.py:25-36 | Each header token sits on the line of its position in the format (sha on line 0 … subject on line 9), and the sentinel is not a format token. |
| Strings.StripIgnoresPadding | codewerdz/git/log/git_log_parser.py:187 | `strip()` gives the same text whatever whitespace surrounds it. |
| Strings.StripIdempotent | codewerdz/git/log/git_log_parser.py:187 | Stripping twice is stripping once. |
| Strings.SplitOnPieces | codewerdz/git/log/git_log_parser.py:113 | No field of `line.split('\t')` holds a tab. |
| Strings.JoinSplit | codewerdz/git/log/git_log_parser.py:113 | Joining the fields of `split('\t')` with a tab gives back the line. |
| Strings.ZeroPadRoundTrip | codewerdz/git/metrics/commit_analyzer.py:75-89 | Reading a `{:0>w}` rendering back as a decimal number gives the number, at any width. |
| Strings.ZeroPadInjective | codewerdz/git/metrics/commit_analyzer.py:75-89 | Two different numbers never render alike under `{:0>w}`. |
| Glob.StarMatchesAll | codewerdz/git/log/git_log_parser.py:181 | The pattern `*` matches every name. |
| Glob.LiteralMatchesItself | codewerdz/git/log/git_log_parser.py:181 | A pattern without wildcards matches a name if and only if it equals the name. |
| Glob.StarSuffixMatchesEndings | codewerdz/git/log/git_log_parser.py:181 | `*` followed by a literal suffix (such as `*.md`) matches a name if and only if the name ends with the suffix. |
| Glob.QuestionMarkIsOneChar | codewerdz/git/log/git_log_parser.py:181 | `?` matches exactly one character, and the rest of the pattern must match the rest of the name. |
| DiffHeader.TailIsSuffix | codewerdz/git/log/git_log_process.py:8 | Group 2 of the header pattern, when it matches, is a non-empty suffix of the line. |
| DiffHeader.SplitGroupsIsLongest | codewerdz/git/log/git_log_process.py:8 | Backtracking over the greedy group 1 finds the longest split after which the rest of the pattern matches. It fails only when no split lets the rest match. |
| DiffHeader.LongestSplitWins | codewerdz/git/log/git_log_process.py:8 | If the longest split whose tail matches is at `p0`, the groups are the text before `p0` and the tail's group 2. |
| DiffHeader.UnquotedHeaderGroups | codewerdz/git/log/git_log_process.py:8 | On the unquoted header `diff --git a/OLD b/NEW`, when NEW holds no ` b/` (nor ` "b/`), the groups are exactly OLD and NEW, whatever OLD holds. |
| DiffHeader.FirstHeaderFinds | codewerdz/git/log/git_log_parser.py:162-170 | The search over the block's lines fails if and only if no line matches the header pattern. Otherwise its groups are some line's match. |
| DiffHeader.FilenameOfBlock | codewerdz/git/log/git_log_parser.py:149-175 | A block that opens with a well-formed unquoted header is named by its new path, or by its old path when the new path is `/dev/null`. |
| DiffHeader.UnmatchedHeaderIsEmpty | codewerdz/git/log/git_log_parser.py:165-168 | A block in which no line matches the header pattern has the empty name. |
| Glob.Matches | codewerdz/git/log/git_log_parser.py:181 | Defines `fnmatch` for `*`, `?` and literal characters. It has no contract of its own; the four `Glob` lemmas above state what it matches. |
| DiffHeader.HeaderFilename | codewerdz/git/log/git_log_parser.py:149-175 | Defines `_parse_header_filename`. It has no contract of its own; `FilenameOfBlock` and `UnmatchedHeaderIsEmpty` state what it returns. |
| DiffClassifier.IsComment | codewerdz/git/log/git_log_parser.py:183-193 | Defines `_is_comment`: the stripped content opens with a listed prefix or closes with a listed suffix. It has no contract of its own; `StartsWithAnyMeans`, `EndsWithAnyMeans` and `CommentIgnoresPadding` state its meaning. |
| DiffClassifier.IsDocFile | codewerdz/git/log/git_log_parser.py:177-181 | Defines `_is_doc_file`. It has no contract of its own; `IsDocFileMeans` and `EmptyNameIsNotDoc` state its meaning. |
| DiffClassifier.StartsWithAnyMeans | codewerdz/git/log/git_log_parser.py:190-193 | `any(map(content.startswith, PREFIXES))` holds if and only if some listed prefix opens the content. |
| DiffClassifier.EndsWithAnyMeans | codewerdz/git/log/git_log_parser.py:190-193 | `any(map(content.endswith, SUFFIXES))` holds if and only if some listed suffix closes the content. |
| DiffClassifier.CommentIgnoresPadding | codewerdz/git/log/git_log_parser.py:183-193 | Whitespace around a line never changes whether it is a comment, because the content is stripped before the test. |
| DiffClassifier.IsDocFileMeans | codewerdz/git/log/git_log_parser.py:177-181 | A file is documentation if and only if its name is non-empty and some doc glob matches it. |
| DiffClassifier.MatchesAnyMeans | codewerdz/git/log/git_log_parser.py:181 | `any([fnmatch(...) for pattern in docs_pattern])` holds if and only if some pattern matches. |
| DiffClassifier.EmptyNameIsNotDoc | codewerdz/git/log/git_log_parser.py:177-181 | The empty name (an unparseable header) is never documentation, whatever the patterns. When `*` is among them, the pattern test alone would match it. |
| DiffClassifier.IsCounted | codewerdz/git/log/git_log_parser.py:241 | A change tuple counts if and only if exactly one of its two line numbers is absent. |
| DiffClassifier.CountFacts | codewerdz/git/log/git_log_parser.py:241-275 | Over any changes, lines and characters changed equal added plus removed, and equal docs plus code. The changed lines are at most the number of changes. In a doc file nothing is code; outside one, when comments are not docs, nothing is docs. |
| DiffClassifier.Tally | codewerdz/git/log/git_log_parser.py:219-289 | The ten counters satisfy `lines_of_docs + lines_of_code == lines_changed == lines_added + lines_removed`, and the same for characters. `is_docfile` is the doc-file test. A doc file has no code; a non-doc file has no docs unless comments count as docs. |
| DiffClassifier.UncountedChangeIsIgnored | codewerdz/git/log/git_log_parser.py:241 | A context tuple (both numbers) or a tuple with neither number changes no counter. |
| DiffClassifier.AddedChangeIsCounted | codewerdz/git/log/git_log_parser.py:241-247 | A tuple without an old line number adds one line and its characters to the added and changed counters. |
| DiffClassifier.RemovedChangeIsCounted | codewerdz/git/log/git_log_parser.py:241-250 | A tuple without a new line number adds one line and its characters to the removed and changed counters. |
| DiffClassifier.AnalyzeChanges | codewerdz/git/log/git_log_parser.py:195-289 | The counting loop over `changes or []` returns exactly `Tally` of those changes. |
| GitLogParser.Get | codewerdz/git/log/git_log_parser.py:79-95 | `dict(enumerate(lines)).get(i)` is the i-th line when there is one, and `None` otherwise. |
| GitLogParser.Drop | codewerdz/git/log/git_log_parser.py:99-104 | `lines.values()[offset:]` is the lines from `offset` on, and empty past the end. |
| GitLogParser.NumStatOf | codewerdz/git/log/git_log_parser.py:113-114 | A numstat row pairs `ins`, `del` and `path` with the first three tab fields, kept as text, and leaves out any key that has no field. |
| GitLogParser.NumStatCount | codewerdz/git/log/git_log_parser.py:110-112 | The rows read are the longest prefix of lines that are non-empty and open with a digit or `-`. |
| GitLogParser.NumStats | codewerdz/git/log/git_log_parser.py:107-116 | Defines what `_slurp_numstats` returns. It has no contract of its own; `NumStatCount` and `SlurpNumstats` state its meaning. |
| GitLogParser.SlurpNumstats | codewerdz/git/log/git_log_parser.py:107-116 | The loop returns one row per line of that longest prefix, in order, and stops at the first line that is not a row. |
| GitLogParser.WithoutRenames | codewerdz/git/log/git_log_parser.py:100 | Every filtered row is a row of the input with a path and no ` => `, and every such row of the input is among them; there are never more than the input rows. |
| GitLogParser.WithoutRenamesAppend | codewerdz/git/log/git_log_parser.py:100 | Filtering a concatenation filters each part and concatenates the results, so the filter keeps the rows' order and repeats. |
| GitLogParser.WithoutRenamesOne | codewerdz/git/log/git_log_parser.py:100 | A single row is kept if and only if its path holds no ` => `. |
| GitLogParser.DiffBlobs | codewerdz/git/log/git_log_parser.py:118-132 | Defines the diff blocks of a section. It has no contract of its own; `DiffBlobsPerHeader` and `DiffBlobsRoundTrip` state its meaning. |
| GitLogParser.DiffBlobsPerHeader | codewerdz/git/log/git_log_parser.py:118-132 | There is one diff block per line that opens with `diff --git `, and each block opens with its header. |
| GitLogParser.DiffBlobsRoundTrip | codewerdz/git/log/git_log_parser.py:118-132 | Joining the diff blocks with `\n` gives back the section's lines joined with `\n`. |
| GitLogParser.SlurpDiffs | codewerdz/git/log/git_log_parser.py:118-132 | The loop returns the parsed diff of every block, in order. |
| GitLogParser.ParseDiff | codewerdz/git/log/git_log_parser.py:134-147 | A diff is the header's file name, the counts of the changes that the diff library finds, and the block's text. |
| GitLogParser.Assemble | codewerdz/git/log/git_log_parser.py:81-105 | The commit record carries the sha on line 0, the filtered rows and the parsed diffs. |
| GitLogParser.CommitOf | codewerdz/git/log/git_log_parser.py:78-105 | A block yields a commit if and only if its sha line is present and non-empty, and the commit carries that sha. |
| GitLogParser.CommitHash | codewerdz/git/log/git_log_parser.py:78-105 | `_commit_hash` returns exactly `CommitOf` of the block. |
| GitLogParser.WellFormedBlock | codewerdz/git/log/git_log_parser.py:78-105 | A block laid out as git writes it yields a commit with the ten header values, the non-rename rows and one diff per diff block. The layout is: ten header lines, one skipped line, the numstat rows, one more non-row line, then the diff section. |
| GitLogParser.CommitsOf | codewerdz/git/log/git_log_parser.py:63-76 | The commits of a log are at most as many as its blocks. |
| GitLogParser.Blocks | codewerdz/git/log/git_log_parser.py:63-76 | Defines the split of the log at the sentinel. It has no contract of its own; `BlocksRoundTrip` states its meaning. |
| GitLogParser.BlocksRoundTrip | codewerdz/git/log/git_log_parser.py:63-76 | No block holds the sentinel line, and joining the blocks with one sentinel line between each two gives back the log. |
| GitLogParser.Parse | codewerdz/git/log/git_log_parser.py:15-76 | The loop yields, in order, the commit of every block of `Blocks(log)` that has a sha, the trailing block included; by `BlocksRoundTrip` these blocks are the sentinel-free pieces of the log. |
| GitLogParser.ClosedBlocksArePrefix | codewerdz/git/log/git_log_parser.py:63-76 | The blocks closed after reading part of the log stay closed, in the same order, as more lines are read. |
| MetricsTemplates.ContributorDict | codewerdz/git/metrics/__init__.py:16-39 | A contributor dictionary has exactly the seventeen contributor keys. |
| MetricsTemplates.RepoDict | codewerdz/git/metrics/__init__.py:3-52 | A bucket dictionary has exactly the contributor keys and the ten summary keys. |
| MetricsTemplates.EmptyContributorIsZero | codewerdz/git/metrics/__init__.py:16-39 | Every field of the contributor template is 0 or 0.0. |
| MetricsTemplates.EmptyRepoCountsNoOne | codewerdz/git/metrics/__init__.py:3-10 | The bucket template's five contributor counts are 0. |
| MetricsTemplates.EmptyRepoListsNoOne | codewerdz/git/metrics/__init__.py:7-12 | The bucket template's four contributor lists are empty. |
| MetricsTemplates.EmptyRepoHasNoStats | codewerdz/git/metrics/__init__.py:13 | The bucket template's `contributor_stats` is empty. |
| MetricsTemplates.RepoKeysSplit | codewerdz/git/metrics/__init__.py:3-54 | The contributor keys and the summary keys are disjoint, and together they are the default metric set. |
| MetricsTemplates.TemplateKeys | codewerdz/git/metrics/__init__.py:56-62 | The precision template has exactly the keys total, yearly, monthly, weekly and daily. |
| MetricsTemplates.PrecisionTemplate | codewerdz/git/metrics/__init__.py:56-64 | The default precisions are all five. `total` starts as the bucket template and the keyed precisions as empty maps. |
| MetricsAccumulate.Accumulate | codewerdz/git/metrics/commit_analyzer.py:166-211 | Defines `accumulate_metrics` on the contributor fields. It has no contract of its own; `AccumulateCounter`, `AccumulateMeasure`, `MaxStep`, `MinStep` and `FirstAverageIsHalf` state its meaning. |
| MetricsAccumulate.AccumulateRepo | codewerdz/git/metrics/commit_analyzer.py:166-219 | Defines `accumulate_metrics` on a bucket and its contributor. It has no contract of its own; `FoldRepoParts` and the lemmas after it state what folds of it give. |
| MetricsAccumulate.AccumulateCounter | codewerdz/git/metrics/commit_analyzer.py:168-175 | Folding a sample adds the sample's value to each of the eight summed fields. |
| MetricsAccumulate.AccumulateMeasure | codewerdz/git/metrics/commit_analyzer.py:177-211 | Folding a sample updates each of the three measures by the max, min and average rules, the averages using the incremented commit count. |
| MetricsAccumulate.MaxStep | codewerdz/git/metrics/commit_analyzer.py:177-203 | The maximum never decreases and changes only to the sample. A density maximum never takes a sample of 1.0. Any strictly larger eligible sample replaces it. |
| MetricsAccumulate.MinStep | codewerdz/git/metrics/commit_analyzer.py:181-207 | A minimum of 0.0 takes the sample; a non-zero minimum never becomes 0.0 and never increases. |
| MetricsAccumulate.FirstAverageIsHalf | codewerdz/git/metrics/commit_analyzer.py:185-187 | From the template, one commit leaves the average at half its sample. |
| MetricsAccumulate.FoldAdds | codewerdz/git/metrics/commit_analyzer.py:166-175 | After any folds every summed field is its start plus the samples' sum. |
| MetricsAccumulate.FoldCountsCommits | codewerdz/git/metrics/commit_analyzer.py:168 | With one-commit samples, the commit count grows by the number of folds. |
| MetricsAccumulate.AverageClosedForm | codewerdz/git/metrics/commit_analyzer.py:185-211 | With one-commit samples, (count + 1) × average is its start value plus the sum of the samples' averages. |
| MetricsAccumulate.AverageFromEmpty | codewerdz/git/metrics/commit_analyzer.py:185-211 | From the template, after n commits each average is the samples' sum divided by n + 1. |
| MetricsAccumulate.FoldMax | codewerdz/git/metrics/commit_analyzer.py:177-203 | The folded maximum is the largest of the start and every eligible sample. |
| MetricsAccumulate.FoldMaxNeverOne | codewerdz/git/metrics/commit_analyzer.py:177-191 | A density maximum that did not start at 1.0 never becomes 1.0. |
| MetricsAccumulate.FoldMin | codewerdz/git/metrics/commit_analyzer.py:181-207 | The folded minimum is the smallest non-zero value among the start and the samples, and is 0.0 exactly when there is none. |
| MetricsAccumulate.FoldRepoParts | codewerdz/git/metrics/commit_analyzer.py:166-219 | Folding a bucket folds every sample into the bucket's own fields. Each contributor's accumulator takes exactly that contributor's samples. The summaries are untouched. |
| MetricsAccumulate.FoldRepoOwn | codewerdz/git/metrics/commit_analyzer.py:166-211 | The bucket's own fields are the contributor fold of all samples. |
| MetricsAccumulate.FoldRepoKeys | codewerdz/git/metrics/commit_analyzer.py:213-217 | The contributors of a folded bucket are those it had plus every commit's contributor key. |
| MetricsAccumulate.FoldRepoContributor | codewerdz/git/metrics/commit_analyzer.py:213-219 | A contributor's accumulator is the fold of that contributor's samples into what it had (or into the template). |
| MetricsAccumulate.FoldRepoCommitSum | codewerdz/git/metrics/commit_analyzer.py:166-219 | With one-commit samples, the contributors' commit counts add up to their start plus the number of commits folded. |
| MetricsAccumulate.FoldRepoCommitCounts | codewerdz/git/metrics/commit_analyzer.py:166-219 | From the template, the bucket counts every commit, each contributor counts exactly their own commits, and the contributors' counts add up to the bucket's. |
| MetricsAccumulate.FoldBucketsSplits | codewerdz/git/metrics/commit_analyzer.py:66-92 | There is one bucket per label seen. Each bucket is the fold, from the template, of exactly the commits with its label. |
| MetricsAccumulate.FoldBucketsKeys | codewerdz/git/metrics/commit_analyzer.py:66-92 | The buckets' names are exactly the labels of the commits. |
| MetricsAccumulate.FoldBucketsOne | codewerdz/git/metrics/commit_analyzer.py:66-92 | Each bucket, or the template if the label never occurs, is the fold of the commits with that label. |
| MetricsFinalize.ReportedList | codewerdz/git/metrics/commit_analyzer.py:141-144 | Each contributor list and its count are what the bucket dictionary holds under their keys. |
| MetricsFinalize.Visited | codewerdz/git/metrics/commit_analyzer.py:146-163 | Defines one turn of the contributor loop. It has no contract of its own; `VisitContributor` and `FinalizedFacts` state its meaning. |
| MetricsFinalize.VisitContributor | codewerdz/git/metrics/commit_analyzer.py:146-163 | One turn of the loop files the contributor under the lists its counts qualify it for and recounts. |
| MetricsFinalize.AccumulateContributorMetrics | codewerdz/git/metrics/commit_analyzer.py:139-163 | The loop over the contributors, in any order, extends each list by exactly the qualifying contributors, each once. It sets every count. It leaves the rest of the bucket alone. |
| MetricsFinalize.FinalizedFacts | codewerdz/git/metrics/commit_analyzer.py:139-163 | After finalising a fresh bucket, a contributor is in a list if and only if their counts qualify them. An only-docs contributor is in the docs list and has no code commit, and the reverse holds for code. `contributor_count` is the number of contributors, and each count is the size of its list. |
| MetricsFinalize.RemoveUnrequested | codewerdz/git/metrics/commit_analyzer.py:133-136 | The deletion loop leaves exactly the requested keys, with their values. |
| MetricsFinalize.FilterMetrics | codewerdz/git/metrics/commit_analyzer.py:128-136 | `filter_metrics` prunes every contributor dictionary, then the bucket. |
| MetricsFinalize.Prune | codewerdz/git/metrics/commit_analyzer.py:128-136 | Defines what `filter_metrics` leaves. It has no contract of its own; `FilterMetrics`, `PruneKeepsRequested` and `PruneBucket` state its meaning. |
| MetricsFinalize.PruneKeepsRequested | codewerdz/git/metrics/commit_analyzer.py:128-136 | After pruning, the keys left at the bucket level and in every contributor dictionary are exactly the requested ones that were there. Plain values are unchanged. |
| MetricsFinalize.PruneBucket | codewerdz/git/metrics/commit_analyzer.py:128-136 | A pruned bucket dictionary holds exactly the requested metric names. |
| MetricsFinalize.GetPrecision | codewerdz/git/metrics/commit_analyzer.py:121-125 | A requested precision is returned and kept; an unrequested one is deleted, and the result is `None`. |
| CommitAnalyzer.RollupChars | codewerdz/git/metrics/commit_analyzer.py:23-33 | The roll-up loop sums the changed, code and doc characters of the commit's diffs. |
| CommitAnalyzer.TotalsConsistent | codewerdz/git/metrics/commit_analyzer.py:29-33 | When every diff's code and doc characters add up to its changed characters, so do the commit's totals. |
| CommitAnalyzer.ParsedTotalsConsistent | codewerdz/git/metrics/commit_analyzer.py:29-33 | The same holds for every parsed commit, whose diffs all come from the classifier. |
| CommitAnalyzer.DiffsOfConsistent | codewerdz/git/log/git_log_parser.py:118-147 | Every parsed diff's counters are consistent, and there is one diff per block. |
| CommitAnalyzer.Ratio | codewerdz/git/metrics/commit_analyzer.py:52-59 | `x / float(y) if y > 0 else fallback`: the quotient times `y` is `x`, and it is the fallback when `y` is 0. |
| CommitAnalyzer.SampleOf | codewerdz/git/metrics/commit_analyzer.py:35-60 | The sample counts one commit. It is code (docs) if and only if it changes code (doc) characters. It is only-code (only-docs) if and only if it changes none of the other kind, and never both. It carries the character totals. Its densities are the quotients, or 0.0 for an empty change. Its docs-to-code ratio is the quotient, or 1.0 without code. Min, max and average of each measure are equal. |
| CommitAnalyzer.DensitiesSplitTheChange | codewerdz/git/metrics/commit_analyzer.py:52-56 | When code and docs add up to the change, both densities lie in [0, 1], and for a non-empty change they add up to 1. |
| CommitAnalyzer.ContributorKey | codewerdz/git/metrics/commit_analyzer.py:26 | The key is the author, ` <`, the email and `>`, with a missing field shown as `None`. |
| CommitAnalyzer.ContributorKeyInjective | codewerdz/git/metrics/commit_analyzer.py:26 | For authors without `<`, equal keys mean equal authors and equal emails. |
| CommitAnalyzer.MissingAuthorIsNone | codewerdz/git/metrics/commit_analyzer.py:26 | A commit without an author shares its key with an author literally named `None`. |
| CommitAnalyzer.YearOf | codewerdz/git/metrics/commit_analyzer.py:66 | `commit_date_iso[:4]` is the first four characters, or the whole string when it is shorter. |
| CommitAnalyzer.WeekOfYear | codewerdz/git/metrics/commit_analyzer.py:240-243 | Week w covers days 7(w−1) to 7w−1 since 1 January, with floor division. |
| CommitAnalyzer.WeekBounds | codewerdz/git/metrics/commit_analyzer.py:240-243 | Days 0 to 365 give weeks 1 to 53, and the first seven days give week 1. The day before (−1) gives week 0. |
| CommitAnalyzer.WeekField | codewerdz/git/metrics/commit_analyzer.py:82 | `{:0>2}` zero-pads a week number and keeps the minus sign of a negative one. |
| CommitAnalyzer.MonthLabelInjective | codewerdz/git/metrics/commit_analyzer.py:75 | For years of one length, equal month labels mean the same year and month. |
| CommitAnalyzer.WeekLabelInjective | codewerdz/git/metrics/commit_analyzer.py:82 | For years of one length, equal week labels mean the same year and week. |
| CommitAnalyzer.DayLabelInjective | codewerdz/git/metrics/commit_analyzer.py:89 | For years of one length, equal day labels mean the same year and day. |
| CommitAnalyzer.Label | codewerdz/git/metrics/commit_analyzer.py:66-92 | Defines the bucket label of each precision. It has no contract of its own; `LabelExample` and the three label lemmas above state its meaning. |
| CommitAnalyzer.LabelExample | codewerdz/git/metrics/commit_analyzer.py:66-92 | A commit of 5 March 2021 falls in buckets `2021`, `2021-month03`, `2021-week10` and `2021-day064`. |
| CommitAnalyzer.Entries | codewerdz/git/metrics/commit_analyzer.py:22-60 | There is one entry per commit, in order, each the commit's sample and contributor key. |
| CommitAnalyzer.LabelledBy | codewerdz/git/metrics/commit_analyzer.py:62-92 | There is one labelled entry per commit; each element is the commit's entry under its label, by definition. |
| CommitAnalyzer.BucketsAreCommits | codewerdz/git/metrics/commit_analyzer.py:36 | Every sample folded into a bucket counts one commit. |
| CommitAnalyzer.CommitEntry | codewerdz/git/metrics/commit_analyzer.py:23-60 | The first part of the loop body builds the commit's sample and contributor key. |
| CommitAnalyzer.FoldCommit | codewerdz/git/metrics/commit_analyzer.py:62-92 | One turn of the loop folds the commit into the total and into the labelled bucket of every kept precision, creating the bucket on first sight. |
| CommitAnalyzer.FoldAllAt | codewerdz/git/metrics/commit_analyzer.py:22-92 | After the loop, the total is the fold of every commit, and each kept keyed precision holds the per-label bucket fold of the commits. |
| CommitAnalyzer.FoldCommits | codewerdz/git/metrics/commit_analyzer.py:22-92 | The commit loop leaves every kept precision holding the fold of all commits at that precision. |
| CommitAnalyzer.Finished | codewerdz/git/metrics/commit_analyzer.py:94-96 | Defines a finished bucket: finalised in some visiting order, then pruned. It has no contract of its own; `FinishedKeys`, `FinishedCounts`, `FinishedList` and `FinishedContributorCounts` state its meaning. |
| CommitAnalyzer.FinishBucket | codewerdz/git/metrics/commit_analyzer.py:94-96 | A bucket is finalised and then pruned. |
| CommitAnalyzer.FinishBuckets | codewerdz/git/metrics/commit_analyzer.py:98-116 | The loop over a keyed precision finishes every bucket and adds no other label. |
| CommitAnalyzer.FinishPrecision | codewerdz/git/metrics/commit_analyzer.py:94-116 | Finishing a precision gives the finished total, or one finished bucket per label. |
| CommitAnalyzer.FinishIfKept | codewerdz/git/metrics/commit_analyzer.py:94-116 | An `if … is not None` block finishes its precision when it is kept and leaves the precisions already finished as they are. |
| CommitAnalyzer.FinishedKeys | codewerdz/git/metrics/commit_analyzer.py:94-136 | A finished bucket holds exactly the requested metric names. |
| CommitAnalyzer.FinishedCounts | codewerdz/git/metrics/commit_analyzer.py:139-163 | A finished bucket reports its folded commit count and its number of contributors. |
| CommitAnalyzer.FinishedContributorCounts | codewerdz/git/metrics/commit_analyzer.py:128-136 | When both keys are requested, a finished bucket reports every contributor dictionary with the commit count it was folded to. |
| CommitAnalyzer.FinishedList | codewerdz/git/metrics/commit_analyzer.py:139-163 | A finished bucket reports each contributor list as the contributors of that kind, each once. Each count is their number. |
| CommitAnalyzer.DropUnrequested | codewerdz/git/metrics/commit_analyzer.py:16-20 | The five `get_precision` calls leave exactly the requested precisions. Each local is set if and only if its precision was requested. |
| CommitAnalyzer.GetPrecisions | codewerdz/git/metrics/commit_analyzer.py:14-20 | The same, starting from a copy of the precision template. |
| CommitAnalyzer.Reports | codewerdz/git/metrics/commit_analyzer.py:12-118 | Defines what one precision of the result holds. It has no contract of its own; `TotalReport`, `KeyedReport` and the two contributor-count lemmas below state its meaning. |
| CommitAnalyzer.AnalyzeCommits | codewerdz/git/metrics/commit_analyzer.py:12-118 | The result has exactly the requested precisions. `total` is the finished, pruned fold of every commit. Each keyed precision holds one finished, pruned bucket per label, which is the fold of the commits with that label. |
| CommitAnalyzer.FoldedBucket | codewerdz/git/metrics/commit_analyzer.py:166-219 | The fold of one-commit samples has fresh summaries, counts every commit and has one contributor per key seen. |
| CommitAnalyzer.TotalReport | codewerdz/git/metrics/commit_analyzer.py:94-96 | The reported total holds the requested keys. It counts every commit and every distinct contributor key. |
| CommitAnalyzer.TotalContributorCounts | codewerdz/git/metrics/commit_analyzer.py:94-96 | The reported total holds one contributor dictionary per contributor key. Each counts that contributor's commits, and the counts add up to the number of commits. |
| CommitAnalyzer.KeyedReport | codewerdz/git/metrics/commit_analyzer.py:98-116 | A reported keyed precision has one bucket per label some commit carries. Each bucket holds the requested keys and counts exactly the commits with its label. |
| CommitAnalyzer.KeyedContributorCounts | codewerdz/git/metrics/commit_analyzer.py:98-116 | The same for every bucket of a keyed precision. Each contributor dictionary counts that contributor's commits with the bucket's label, and the counts add up to the bucket's commits. |

## Left out

- I/O and laziness. `parse` is a generator over a process's output; here it takes the whole log as a sequence of lines and returns the commits as a sequence. Running git (`codewerdz/git/process/`, `codewerdz/git/log/log_command.py`) and the git arguments built in `codewerdz/git/log/git_log_process.py` are not part of this model.
- The diff library. `whatthepatch.patch.parse_unified_diff` is a parameter `Patcher`: it maps a diff block to its change tuples, or to nothing.
- The warning `click.echo` prints for an unparseable header. Printing is not modelled; only the empty name it goes with is.
- JSON output, streaming, the command line and repository-name guessing (`codewerdz/git/streaming_json_list_printer.py`, `codewerdz/git/metrics/metrics_command.py`, `codewerdz/git/cli.py`). These are output plumbing. `codewerdz/__init__.py` (global log level) is not part of this model.
- Date parsing and time zones. `iso8601.parse_date` is the parameter `Calendar`. It gives the month, the day of the year and the days since 1 January UTC that the program reads off a date. Whether these three agree with one another is up to the parameter.
- Bytes, not text. The program runs on Python 2.7, and its log lines are the byte strings the git process writes. Each Dafny `char` of the model stands for one byte: the `chars_*` counters are byte counts, and `strip` and `isdigit` work on ASCII. Decoding into Unicode text is not modelled.
- Floating point. Densities and ratios are exact reals. No rounding is modelled, and no equality is claimed beyond the exact values 0.0 and 1.0 the program tests for.
- `fnmatch` only knows `*`, `?` and literal characters. Character classes `[...]` and the operating system's case folding are left out.
- The header pattern is modelled in full for its unquoted form. Quoted paths are matched by the same pattern, but no lemma is stated about them.
- `str.splitlines()` is modelled as a split at `\n` only. Other line boundaries (`\r`, `\x0b` and the like) are left out.
- Crashes become preconditions, not error results:
  - a numstat row with fewer than three tab fields fails the rename filter (`KeyError`);
  - a diff section whose first line is not a header fails on `None + str`;
  - a commit without `commit_date_iso` fails on `None[:4]`.

  The model requires the inputs that avoid them (`CommitBlockOk`, `Dated`).
- In-place updates and aliasing. `metrics['total']`, the bucket dictionaries and the contributor lists are mutated in place through aliases. The model keeps them as values: each method returns the new value, and `AnalyzeCommits` writes it back. Sharing between aliases is therefore not modelled. `accumulate_metrics` is a function that returns the updated accumulator rather than a method that changes it.
- Dictionary order. Python 2 iterates a dictionary in an unspecified order. The loops over contributors, buckets and keys pick any remaining key, so `Finished` says that some visiting order gives the reported bucket, not which one.
- CommitAnalyzer.TotalReport: states the reported commit and contributor counts; the other metric values are stated by the `MetricsAccumulate` lemmas about the fold, not restated here.
- CommitAnalyzer.LabelledBy: its contract states only the length; what each element is follows from its definition and is used through `LabelledUnit` and `FoldAllAt`.
- Metric names and precision names are enumerations. A name outside the templates cannot be expressed; the command line only accepts the template names.
