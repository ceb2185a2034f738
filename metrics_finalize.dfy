/**
 * The last steps of `codewerdz/git/metrics/commit_analyzer.py`:
 * `accumulate_contributor_metrics` derives the contributor lists and counts
 * of a bucket, `filter_metrics` removes the keys that were not asked for, and
 * `get_precision` drops the precisions that were not asked for.
 */
module MetricsFinalize {
  import opened Options
  import opened MetricsTemplates

  // ---------------------------------------------------------------- contributor lists

  /** The four contributor lists of a bucket. */
  datatype ListKind = DocsList | CodeList | OnlyDocsList | OnlyCodeList

  /** Whether a contributor's accumulator puts it on the list. */
  predicate Qualifies(m: Metrics, kind: ListKind)
  {
    match kind
    case DocsList => m.docsCount > 0
    case CodeList => m.codeCount > 0
    case OnlyDocsList => m.docsCount > 0 && m.codeCount == 0
    case OnlyCodeList => m.codeCount > 0 && m.docsCount == 0
  }

  /** The contributors among `among` that belong on the list. */
  function Qualified(stats: map<string, Metrics>, among: set<string>, kind: ListKind): set<string>
  {
    set w | w in among && w in stats && Qualifies(stats[w], kind)
  }

  function ListOf(r: RepoMetrics, kind: ListKind): seq<string>
  {
    match kind
    case DocsList => r.docsList
    case CodeList => r.codeList
    case OnlyDocsList => r.onlyDocsList
    case OnlyCodeList => r.onlyCodeList
  }

  /** The count kept beside each list. */
  function ListCount(r: RepoMetrics, kind: ListKind): nat
  {
    match kind
    case DocsList => r.contributorDocsCount
    case CodeList => r.contributorCodeCount
    case OnlyDocsList => r.contributorOnlyDocsCount
    case OnlyCodeList => r.contributorOnlyCodeCount
  }

  /** The key each list is reported under. */
  function ListKey(kind: ListKind): Key
  {
    match kind
    case DocsList => ContributorDocsList
    case CodeList => ContributorCodeList
    case OnlyDocsList => ContributorOnlyDocsList
    case OnlyCodeList => ContributorOnlyCodeList
  }

  /** The key each list's count is reported under. */
  function ListCountKey(kind: ListKind): Key
  {
    match kind
    case DocsList => ContributorDocsCount
    case CodeList => ContributorCodeCount
    case OnlyDocsList => ContributorOnlyDocsCount
    case OnlyCodeList => ContributorOnlyCodeCount
  }

  /** A bucket reports each list and its count under the list's keys. */
  lemma ReportedList(r: RepoMetrics, kind: ListKind)
    ensures SummaryValue(r, ListKey(kind)) == Flat(Names(ListOf(r, kind)))
    ensures SummaryValue(r, ListCountKey(kind)) == Flat(Count(ListCount(r, kind)))
    ensures ListKey(kind) != ContributorStats && ListCountKey(kind) != ContributorStats
  {
  }

  predicate Distinct(l: seq<string>)
  {
    forall i, j :: 0 <= i < j < |l| ==> l[i] != l[j]
  }

  /** `l` lists the members of `s`, each once, in some order. */
  ghost predicate Enumerates(l: seq<string>, s: set<string>)
  {
    Distinct(l) && forall w :: w in l <==> w in s
  }

  /** `after` is `before` followed by an enumeration of `s`. */
  ghost predicate Extends(before: seq<string>, after: seq<string>, s: set<string>)
  {
    |before| <= |after| && after[..|before|] == before && Enumerates(after[|before|..], s)
  }

  /** What finalising `acc` after visiting the contributors in `done` leaves in `r`. */
  ghost predicate FinalizedAmong(acc: RepoMetrics, r: RepoMetrics, done: set<string>)
  {
    && r.m == acc.m && r.stats == acc.stats
    && (forall kind :: Extends(ListOf(acc, kind), ListOf(r, kind), Qualified(acc.stats, done, kind)))
    && (if done == {} then
          && r.contributorCount == acc.contributorCount
          && r.contributorDocsCount == acc.contributorDocsCount
          && r.contributorCodeCount == acc.contributorCodeCount
          && r.contributorOnlyDocsCount == acc.contributorOnlyDocsCount
          && r.contributorOnlyCodeCount == acc.contributorOnlyCodeCount
        else
          && r.contributorCount == |acc.stats|
          && r.contributorDocsCount == |r.docsList|
          && r.contributorCodeCount == |r.codeList|
          && r.contributorOnlyDocsCount == |r.onlyDocsList|
          && r.contributorOnlyCodeCount == |r.onlyCodeList|)
  }

  /**
   * `accumulate_contributor_metrics` is done: every contributor was visited
   * once, in an order the dictionary chooses. The counts are set inside the
   * loop, so with no contributors they keep their old values.
   */
  ghost predicate Finalized(acc: RepoMetrics, r: RepoMetrics)
  {
    FinalizedAmong(acc, r, acc.stats.Keys)
  }

  lemma EnumeratesAppend(l: seq<string>, s: set<string>, w: string)
    requires Enumerates(l, s) && w !in s
    ensures Enumerates(l + [w], s + {w})
  {
  }

  lemma ExtendsAppend(before: seq<string>, after: seq<string>, s: set<string>, w: string)
    requires Extends(before, after, s) && w !in s
    ensures Extends(before, after + [w], s + {w})
  {
    assert (after + [w])[..|before|] == before;
    assert (after + [w])[|before|..] == after[|before|..] + [w];
    EnumeratesAppend(after[|before|..], s, w);
  }

  /** The list after visiting `w`: extended by `w` exactly when `w` qualifies. */
  function Visit(l: seq<string>, m: Metrics, kind: ListKind, w: string): seq<string>
  {
    if Qualifies(m, kind) then l + [w] else l
  }

  /** The bucket after visiting `w`, as one turn of the `accumulate_contributor_metrics` loop leaves it. */
  function Visited(acc: RepoMetrics, r: RepoMetrics, w: string): RepoMetrics
    requires w in acc.stats
  {
    var m := acc.stats[w];
    var docs := Visit(r.docsList, m, DocsList, w);
    var code := Visit(r.codeList, m, CodeList, w);
    var onlyDocs := Visit(r.onlyDocsList, m, OnlyDocsList, w);
    var onlyCode := Visit(r.onlyCodeList, m, OnlyCodeList, w);
    r.(docsList := docs, codeList := code, onlyDocsList := onlyDocs, onlyCodeList := onlyCode,
       contributorCount := |acc.stats|,
       contributorDocsCount := |docs|, contributorCodeCount := |code|,
       contributorOnlyDocsCount := |onlyDocs|, contributorOnlyCodeCount := |onlyCode|)
  }

  lemma VisitStep(acc: RepoMetrics, r: RepoMetrics, done: set<string>, w: string, kind: ListKind)
    requires w in acc.stats && w !in done
    requires Extends(ListOf(acc, kind), ListOf(r, kind), Qualified(acc.stats, done, kind))
    ensures Extends(ListOf(acc, kind), ListOf(Visited(acc, r, w), kind), Qualified(acc.stats, done + {w}, kind))
  {
    var before := Qualified(acc.stats, done, kind);
    assert ListOf(Visited(acc, r, w), kind) == Visit(ListOf(r, kind), acc.stats[w], kind, w);
    if Qualifies(acc.stats[w], kind) {
      assert Qualified(acc.stats, done + {w}, kind) == before + {w};
      ExtendsAppend(ListOf(acc, kind), ListOf(r, kind), before, w);
    } else {
      assert Qualified(acc.stats, done + {w}, kind) == before;
    }
  }

  lemma VisitedStep(acc: RepoMetrics, r: RepoMetrics, done: set<string>, w: string)
    requires w in acc.stats && w !in done
    requires FinalizedAmong(acc, r, done)
    ensures FinalizedAmong(acc, Visited(acc, r, w), done + {w})
  {
    forall kind
      ensures Extends(ListOf(acc, kind), ListOf(Visited(acc, r, w), kind), Qualified(acc.stats, done + {w}, kind))
    {
      VisitStep(acc, r, done, w, kind);
    }
  }

  /** Before the loop no contributor has been visited and nothing has changed. */
  lemma NothingVisited(acc: RepoMetrics)
    ensures FinalizedAmong(acc, acc, {})
  {
    forall kind
      ensures Extends(ListOf(acc, kind), ListOf(acc, kind), Qualified(acc.stats, {}, kind))
    {
      assert ListOf(acc, kind)[|ListOf(acc, kind)|..] == [];
    }
  }

  /** One turn of the `accumulate_contributor_metrics` loop: file `w` under its lists and recount. */
  method VisitContributor(acc: RepoMetrics, r: RepoMetrics, w: string) returns (r': RepoMetrics)
    requires w in acc.stats
    ensures r' == Visited(acc, r, w)
  {
    var m := acc.stats[w];
    r' := r;
    if m.docsCount > 0 {
      r' := r'.(docsList := r'.docsList + [w]);
      if m.codeCount == 0 {
        r' := r'.(onlyDocsList := r'.onlyDocsList + [w]);
      }
    }
    if m.codeCount > 0 {
      r' := r'.(codeList := r'.codeList + [w]);
      if m.docsCount == 0 {
        r' := r'.(onlyCodeList := r'.onlyCodeList + [w]);
      }
    }
    r' := r'.(contributorCount := |acc.stats|,
              contributorDocsCount := |r'.docsList|, contributorCodeCount := |r'.codeList|,
              contributorOnlyDocsCount := |r'.onlyDocsList|, contributorOnlyCodeCount := |r'.onlyCodeList|);
  }

  /** `accumulate_contributor_metrics`. */
  method AccumulateContributorMetrics(acc: RepoMetrics) returns (r: RepoMetrics)
    ensures Finalized(acc, r)
  {
    r := acc;
    var todo := acc.stats.Keys;
    ghost var done: set<string> := {};
    NothingVisited(acc);
    while todo != {}
      invariant todo + done == acc.stats.Keys && todo !! done
      invariant FinalizedAmong(acc, r, done)
      decreases todo
    {
      var w :| w in todo;
      VisitedStep(acc, r, done, w);
      r := VisitContributor(acc, r, w);
      done := done + {w};
      todo := todo - {w};
    }
  }

  lemma {:induction false} EnumerationSize(l: seq<string>, s: set<string>)
    requires Enumerates(l, s)
    ensures |l| == |s|
    decreases |l|
  {
    if |l| > 0 {
      var init := l[..|l| - 1];
      var w := l[|l| - 1];
      assert l == init + [w];
      assert w !in init;
      assert forall v :: v in init <==> v in s - {w};
      EnumerationSize(init, s - {w});
    }
  }

  /** A bucket whose lists are empty and whose counts are zero, as every bucket is before finalisation. */
  predicate FreshSummary(acc: RepoMetrics)
  {
    && acc.contributorCount == 0
    && acc.contributorDocsCount == 0 && acc.contributorCodeCount == 0
    && acc.contributorOnlyDocsCount == 0 && acc.contributorOnlyCodeCount == 0
    && acc.docsList == [] && acc.codeList == [] && acc.onlyDocsList == [] && acc.onlyCodeList == []
  }

  /**
   * After finalising a fresh bucket: each list names exactly the
   * contributors with the matching commits, an only-docs contributor is in
   * the docs list and has no code commit (and symmetrically), and each count
   * is the size of what it counts.
   */
  lemma FinalizedFacts(acc: RepoMetrics, r: RepoMetrics)
    requires FreshSummary(acc) && Finalized(acc, r)
    ensures r.stats == acc.stats && r.m == acc.m
    ensures forall kind, w :: w in ListOf(r, kind) <==> w in r.stats && Qualifies(r.stats[w], kind)
    ensures forall w :: w in r.onlyDocsList ==> w in r.docsList && w in r.stats && r.stats[w].codeCount == 0
    ensures forall w :: w in r.onlyCodeList ==> w in r.codeList && w in r.stats && r.stats[w].docsCount == 0
    ensures r.contributorCount == |r.stats|
    ensures forall kind :: Enumerates(ListOf(r, kind), Qualified(r.stats, r.stats.Keys, kind))
    ensures forall kind :: ListCount(r, kind) == |Qualified(r.stats, r.stats.Keys, kind)|
  {
    forall kind
      ensures Enumerates(ListOf(r, kind), Qualified(acc.stats, acc.stats.Keys, kind))
      ensures |ListOf(r, kind)| == |Qualified(acc.stats, acc.stats.Keys, kind)|
    {
      assert ListOf(acc, kind) == [];
      assert ListOf(r, kind)[|ListOf(acc, kind)|..] == ListOf(r, kind);
      EnumerationSize(ListOf(r, kind), Qualified(acc.stats, acc.stats.Keys, kind));
    }
    forall kind
      ensures ListCount(r, kind) == |ListOf(r, kind)|
    {
    }
    assert r.docsList == ListOf(r, DocsList) && r.codeList == ListOf(r, CodeList);
    assert r.onlyDocsList == ListOf(r, OnlyDocsList) && r.onlyCodeList == ListOf(r, OnlyCodeList);
  }

  // ---------------------------------------------------------------- pruning keys

  /** A dictionary with only the requested keys left. */
  function Requested<V>(d: map<Key, V>, names: set<Key>): map<Key, V>
  {
    map k | k in d && k in names :: d[k]
  }

  /** The deletion `filter_metrics` makes at one level: every key not in `names` is removed. */
  method RemoveUnrequested<V>(d: map<Key, V>, names: set<Key>) returns (r: map<Key, V>)
    ensures r == Requested(d, names)
  {
    r := d;
    var keys := d.Keys;
    while keys != {}
      invariant keys <= d.Keys
      invariant r.Keys == (d.Keys - keys) * names + keys
      invariant forall k :: k in r ==> r[k] == d[k]
      decreases keys
    {
      var k :| k in keys;
      if k !in names {
        r := r - {k};
      }
      keys := keys - {k};
    }
    assert r.Keys == Requested(d, names).Keys;
  }

  /** The dictionaries `filter_metrics` can walk: `contributor_stats`, when present, holds contributor dictionaries. */
  predicate Walkable(d: map<Key, Value>)
  {
    ContributorStats in d ==> d[ContributorStats].Stats?
  }

  /** `filter_metrics`: prune each contributor dictionary, then the bucket itself. */
  function Prune(d: map<Key, Value>, names: set<Key>): map<Key, Value>
    requires Walkable(d)
  {
    var inner := if ContributorStats in d
                 then d[ContributorStats := Stats(PruneEach(d[ContributorStats].stats, names))]
                 else d;
    Requested(inner, names)
  }

  function PruneEach(stats: map<string, map<Key, Field>>, names: set<Key>): map<string, map<Key, Field>>
  {
    map c | c in stats :: Requested(stats[c], names)
  }

  /** `filter_metrics`. */
  method FilterMetrics(acc: map<Key, Value>, names: set<Key>) returns (r: map<Key, Value>)
    requires Walkable(acc)
    ensures r == Prune(acc, names)
  {
    r := acc;
    if ContributorStats in acc {
      var stats := acc[ContributorStats].stats;
      var pruned := stats;
      var todo := stats.Keys;
      while todo != {}
        invariant todo <= stats.Keys && pruned.Keys == stats.Keys
        invariant forall c :: c in stats ==> pruned[c] == if c in todo then stats[c] else Requested(stats[c], names)
        decreases todo
      {
        var c :| c in todo;
        var fields := RemoveUnrequested(pruned[c], names);
        pruned := pruned[c := fields];
        todo := todo - {c};
      }
      assert pruned == PruneEach(stats, names);
      r := acc[ContributorStats := Stats(pruned)];
    }
    r := RemoveUnrequested(r, names);
  }

  /**
   * After pruning, every key left at the bucket level and in every
   * contributor dictionary was requested, and every requested key that was
   * there is still there with the same plain value.
   */
  lemma PruneKeepsRequested(d: map<Key, Value>, names: set<Key>)
    requires Walkable(d)
    ensures var r := Prune(d, names);
            && r.Keys == d.Keys * names
            && (forall k :: k in r && k != ContributorStats ==> r[k] == d[k])
            && (ContributorStats in r ==>
                  && r[ContributorStats].stats.Keys == d[ContributorStats].stats.Keys
                  && forall c :: c in r[ContributorStats].stats ==>
                       r[ContributorStats].stats[c].Keys == d[ContributorStats].stats[c].Keys * names)
  {
  }

  /** Every key is a template key, so the bucket dictionary keeps exactly the requested keys. */
  lemma AllKeysInTemplate(k: Key)
    ensures k in ALL_KEYS
  {
  }

  /** A finished bucket's dictionary, once pruned, holds exactly the requested keys. */
  lemma PruneBucket(b: RepoMetrics, names: set<Key>)
    ensures Walkable(RepoDict(b))
    ensures Prune(RepoDict(b), names).Keys == names
  {
    var d := RepoDict(b);
    assert d[ContributorStats] == SummaryValue(b, ContributorStats);
    PruneKeepsRequested(d, names);
    forall k | k in names
      ensures k in d.Keys
    {
      AllKeysInTemplate(k);
    }
  }

  // ---------------------------------------------------------------- precisions

  /** `get_precision`: a precision not asked for is deleted and reported absent. */
  method GetPrecision(p: Precision, metrics: map<Precision, Level>, precisions: set<Precision>)
    returns (after: map<Precision, Level>, level: Option<Level>)
    requires p in metrics
    ensures p in precisions ==> after == metrics && level == Some(metrics[p])
    ensures p !in precisions ==> after == metrics - {p} && level == None
  {
    if p !in precisions {
      after := metrics - {p};
      level := None;
    } else {
      after := metrics;
      level := Some(metrics[p]);
    }
  }
}
