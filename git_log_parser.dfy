/**
 * The commit stream parser: it cuts the flat line output of the log
 * producer into sentinel-delimited blocks, reads each block's fixed header
 * lines, its leading numstat rows and its `diff --git` blocks, and hands
 * every diff block to the diff classifier.
 */
module GitLogParser {

  import opened Options
  import opened Strings
  import opened GitLogFormat
  import opened DiffHeader
  import opened DiffClassifier

  /** One `--numstat` row, `ins<TAB>del<TAB>path`, its fields kept as text. */
  datatype NumStat = NumStat(ins: string, del: Option<string>, path: Option<string>)

  datatype Diff = Diff(filename: string, stats: DiffStats, diffLines: string)

  /** A parsed commit; missing header lines are `None`. */
  datatype Commit = Commit(
    sha: string,
    author: Option<string>, email: Option<string>,
    date: Option<string>, dateIso: Option<string>,
    commitDate: Option<string>, commitDateIso: Option<string>,
    parent: Option<string>, tree: Option<string>, subject: Option<string>,
    stats: seq<NumStat>, diffs: seq<Diff>)

  /** The unified-diff library: the change tuples of a diff block, or nothing. */
  type Patcher = string -> Option<seq<Change>>

  /** `dict(enumerate(lines)).get(i)`. */
  function Get(lines: seq<string>, i: nat): (r: Option<string>)
    ensures r.Some? <==> i < |lines|
    ensures r.Some? ==> r.value == lines[i]
  {
    if i < |lines| then Some(lines[i]) else None
  }

  /** `lines[n:]`, empty when `n` is past the end. */
  function Drop(lines: seq<string>, n: nat): (r: seq<string>)
    ensures |r| == if n <= |lines| then |lines| - n else 0
    ensures forall i :: 0 <= i < |r| ==> r[i] == lines[n + i]
  {
    if n <= |lines| then lines[n..] else []
  }

  // ---------------------------------------------------------------- numstats

  predicate IsNumStatLine(line: string)
  {
    line != "" && (IsDigit(line[0]) || line[0] == '-')
  }

  /** `dict(zip(['ins', 'del', 'path'], line.split('\t')))`. */
  function NumStatOf(line: string): (r: NumStat)
    ensures var fields := SplitOn(line, '\t');
            && r.ins == fields[0]
            && (r.del.Some? <==> |fields| >= 2) && (r.del.Some? ==> r.del.value == fields[1])
            && (r.path.Some? <==> |fields| >= 3) && (r.path.Some? ==> r.path.value == fields[2])
  {
    var fields := SplitOn(line, '\t');
    NumStat(fields[0],
            if |fields| >= 2 then Some(fields[1]) else None,
            if |fields| >= 3 then Some(fields[2]) else None)
  }

  /** The length of the longest prefix of numstat lines. */
  function NumStatCount(lines: seq<string>): (n: nat)
    ensures n <= |lines|
    ensures forall i :: 0 <= i < n ==> IsNumStatLine(lines[i])
    ensures n < |lines| ==> !IsNumStatLine(lines[n])
  {
    if |lines| == 0 || !IsNumStatLine(lines[0]) then 0
    else 1 + NumStatCount(lines[1..])
  }

  function ParseRows(lines: seq<string>): (rows: seq<NumStat>)
    ensures |rows| == |lines|
    ensures forall i :: 0 <= i < |lines| ==> rows[i] == NumStatOf(lines[i])
  {
    if |lines| == 0 then [] else ParseRows(lines[..|lines| - 1]) + [NumStatOf(lines[|lines| - 1])]
  }

  /** What `_slurp_numstats` returns: the rows of the leading numstat lines. */
  function NumStats(lines: seq<string>): seq<NumStat>
  {
    ParseRows(lines[..NumStatCount(lines)])
  }

  /** `_slurp_numstats`: collect rows up to the first line that is not one. */
  method SlurpNumstats(lines: seq<string>) returns (numstats: seq<NumStat>)
    ensures |numstats| <= |lines|
    ensures forall i :: 0 <= i < |numstats| ==> IsNumStatLine(lines[i]) && numstats[i] == NumStatOf(lines[i])
    ensures |numstats| < |lines| ==> !IsNumStatLine(lines[|numstats|])
    ensures numstats == NumStats(lines)
  {
    numstats := [];
    var i := 0;
    while i < |lines|
      invariant 0 <= i <= |lines|
      invariant forall k :: 0 <= k < i ==> IsNumStatLine(lines[k])
      invariant numstats == ParseRows(lines[..i])
    {
      var line := lines[i];
      if line == "" || !(IsDigit(line[0]) || line[0] == '-') {
        break;
      }
      assert lines[..i + 1][..i] == lines[..i];
      numstats := numstats + [NumStatOf(line)];
      i := i + 1;
    }
    assert i == NumStatCount(lines);
  }

  predicate HasPath(row: NumStat)
  {
    row.path.Some?
  }

  predicate IsRename(row: NumStat)
    requires HasPath(row)
  {
    Contains(row.path.value, " => ")
  }

  /** `filter(lambda x: " => " not in x['path'], numstats)`. */
  function WithoutRenames(rows: seq<NumStat>): (r: seq<NumStat>)
    requires forall i :: 0 <= i < |rows| ==> HasPath(rows[i])
    ensures |r| <= |rows|
    ensures forall x :: x in r ==> x in rows && HasPath(x) && !IsRename(x)
    ensures forall x :: x in rows && !IsRename(x) ==> x in r
  {
    if |rows| == 0 then []
    else
      var init := WithoutRenames(rows[..|rows| - 1]);
      var last := rows[|rows| - 1];
      assert forall x :: x in rows ==> x in rows[..|rows| - 1] || x == last;
      if IsRename(last) then init else init + [last]
  }

  /** The filter works row by row: filtering a concatenation filters each part. */
  lemma {:induction false} WithoutRenamesAppend(xs: seq<NumStat>, ys: seq<NumStat>)
    requires forall i :: 0 <= i < |xs| ==> HasPath(xs[i])
    requires forall i :: 0 <= i < |ys| ==> HasPath(ys[i])
    ensures WithoutRenames(xs + ys) == WithoutRenames(xs) + WithoutRenames(ys)
    decreases |ys|
  {
    if |ys| == 0 {
      assert xs + ys == xs;
    } else {
      var init := ys[..|ys| - 1];
      var last := ys[|ys| - 1];
      assert (xs + ys)[..|xs + ys| - 1] == xs + init;
      assert (xs + ys)[|xs + ys| - 1] == last;
      WithoutRenamesAppend(xs, init);
    }
  }

  /** A single row is kept exactly when its path is not a rename. */
  lemma WithoutRenamesOne(row: NumStat)
    requires HasPath(row)
    ensures WithoutRenames([row]) == if IsRename(row) then [] else [row]
  {
    assert [row][..0] == [];
  }

  // ---------------------------------------------------------------- diffs

  predicate IsDiffStart(line: string)
  {
    StartsWith(line, "diff --git ")
  }

  /** `_slurp_diffs` can only run on lines that are empty or open with a diff header. */
  predicate DiffSectionOk(lines: seq<string>)
  {
    |lines| == 0 || IsDiffStart(lines[0])
  }

  /** The blocks closed so far and the one still growing, after reading the first `n` lines. */
  function BlobState(lines: seq<string>, n: nat): (seq<string>, string)
    requires 0 < n <= |lines| && IsDiffStart(lines[0])
  {
    if n == 1 then ([], lines[0])
    else
      var prev := BlobState(lines, n - 1);
      var line := lines[n - 1];
      if IsDiffStart(line) then (prev.0 + [prev.1], line)
      else (prev.0, prev.1 + "\n" + line)
  }

  /** The diff blocks of a section, each the `\n`-joined lines from one header to the next. */
  function DiffBlobs(lines: seq<string>): seq<string>
    requires DiffSectionOk(lines)
  {
    if |lines| == 0 then []
    else
      var st := BlobState(lines, |lines|);
      st.0 + [st.1]
  }

  /** How many of `lines` open a diff block. */
  function CountStarts(lines: seq<string>): nat
  {
    if |lines| == 0 then 0
    else CountStarts(lines[..|lines| - 1]) + (if IsDiffStart(lines[|lines| - 1]) then 1 else 0)
  }

  lemma BlobStateFacts(lines: seq<string>, n: nat)
    requires 0 < n <= |lines| && IsDiffStart(lines[0])
    ensures var st := BlobState(lines, n);
      && |st.0| + 1 == CountStarts(lines[..n])
      && Join(st.0 + [st.1], "\n") == Join(lines[..n], "\n")
      && (forall i :: 0 <= i < |st.0| ==> IsDiffStart(st.0[i]))
      && IsDiffStart(st.1)
  {
    BlobCount(lines, n);
    BlobJoin(lines, n);
    BlobHeaders(lines, n);
  }

  lemma {:induction false} BlobCount(lines: seq<string>, n: nat)
    requires 0 < n <= |lines| && IsDiffStart(lines[0])
    ensures |BlobState(lines, n).0| + 1 == CountStarts(lines[..n])
    decreases n
  {
    if n == 1 {
      assert lines[..1][..0] == [];
      assert CountStarts(lines[..1]) == CountStarts(lines[..1][..0]) + 1;
    } else {
      BlobCount(lines, n - 1);
      assert lines[..n][..n - 1] == lines[..n - 1];
    }
  }

  lemma {:induction false} BlobJoin(lines: seq<string>, n: nat)
    requires 0 < n <= |lines| && IsDiffStart(lines[0])
    ensures var st := BlobState(lines, n); Join(st.0 + [st.1], "\n") == Join(lines[..n], "\n")
    decreases n
  {
    if n == 1 {
      assert lines[..1] == [lines[0]];
    } else {
      BlobJoin(lines, n - 1);
      var (closed, open) := BlobState(lines, n - 1);
      var line := lines[n - 1];
      assert lines[..n] == lines[..n - 1] + [line];
      JoinAppend(lines[..n - 1], line, "\n");
      if IsDiffStart(line) {
        JoinAppend(closed + [open], line, "\n");
      } else if |closed| == 0 {
        assert [] + [open] == [open];
        assert [] + [open + "\n" + line] == [open + "\n" + line];
      } else {
        JoinAppend(closed, open, "\n");
        JoinAppend(closed, open + "\n" + line, "\n");
      }
    }
  }

  lemma {:induction false} BlobHeaders(lines: seq<string>, n: nat)
    requires 0 < n <= |lines| && IsDiffStart(lines[0])
    ensures var st := BlobState(lines, n);
      && (forall i :: 0 <= i < |st.0| ==> IsDiffStart(st.0[i]))
      && IsDiffStart(st.1)
    decreases n
  {
    if n > 1 {
      BlobHeaders(lines, n - 1);
      var (closed, open) := BlobState(lines, n - 1);
      var line := lines[n - 1];
      if !IsDiffStart(line) {
        assert (open + "\n" + line)[..11] == open[..11];
      }
    }
  }

  /** One diff block per header line, each opening with its header. */
  lemma DiffBlobsPerHeader(lines: seq<string>)
    requires DiffSectionOk(lines)
    ensures |DiffBlobs(lines)| == CountStarts(lines)
    ensures forall i :: 0 <= i < |DiffBlobs(lines)| ==> IsDiffStart(DiffBlobs(lines)[i])
  {
    if |lines| > 0 {
      BlobStateFacts(lines, |lines|);
      assert lines[..|lines|] == lines;
    }
  }

  /** Joining the diff blocks with `\n` gives back the section's lines joined with `\n`. */
  lemma DiffBlobsRoundTrip(lines: seq<string>)
    requires DiffSectionOk(lines)
    ensures Join(DiffBlobs(lines), "\n") == Join(lines, "\n")
  {
    if |lines| > 0 {
      BlobStateFacts(lines, |lines|);
      assert lines[..|lines|] == lines;
    }
  }

  /** What `_parse_diff` returns for one diff block. */
  function DiffOf(cfg: Config, patch: Patcher, diffLines: string): Diff
  {
    var filename := HeaderFilename(diffLines);
    Diff(filename, Tally(cfg, filename, ChangesOrEmpty(patch(diffLines))), diffLines)
  }

  function DiffsOf(cfg: Config, patch: Patcher, blobs: seq<string>): seq<Diff>
  {
    if |blobs| == 0 then [] else DiffsOf(cfg, patch, blobs[..|blobs| - 1]) + [DiffOf(cfg, patch, blobs[|blobs| - 1])]
  }

  lemma DiffsOfAppend(cfg: Config, patch: Patcher, blobs: seq<string>, blob: string)
    ensures DiffsOf(cfg, patch, blobs + [blob]) == DiffsOf(cfg, patch, blobs) + [DiffOf(cfg, patch, blob)]
  {
    assert (blobs + [blob])[..|blobs|] == blobs;
  }

  /** `_parse_diff`: name the file, run the diff library, count the changes. */
  method ParseDiff(cfg: Config, patch: Patcher, diffLines: string) returns (d: Diff)
    ensures d == DiffOf(cfg, patch, diffLines)
  {
    var filename := HeaderFilename(diffLines);
    var changes := patch(diffLines);
    var stats := AnalyzeChanges(cfg, filename, changes);
    d := Diff(filename, stats, diffLines);
  }

  /** `_slurp_diffs`: grow a block until the next header, then parse it. */
  method SlurpDiffs(cfg: Config, patch: Patcher, lines: seq<string>) returns (diffs: seq<Diff>)
    requires DiffSectionOk(lines)
    ensures diffs == DiffsOf(cfg, patch, DiffBlobs(lines))
  {
    diffs := [];
    var blob: Option<string> := None;
    ghost var closed: seq<string> := [];
    var i := 0;
    while i < |lines|
      invariant 0 <= i <= |lines|
      invariant i == 0 ==> blob.None? && closed == []
      invariant i > 0 ==> blob.Some? && (closed, blob.value) == BlobState(lines, i)
      invariant diffs == DiffsOf(cfg, patch, closed)
    {
      var line := lines[i];
      if StartsWith(line, "diff --git ") {
        if blob.Some? {
          diffs := AppendDiff(cfg, patch, diffs, closed, blob.value);
          closed := closed + [blob.value];
        }
        blob := Some(line);
      } else {
        blob := Some(blob.value + "\n" + line);
      }
      i := i + 1;
    }
    if blob.Some? {
      diffs := AppendDiff(cfg, patch, diffs, closed, blob.value);
    }
  }

  /** `diffs.append(self._parse_diff(blob))`. */
  method AppendDiff(cfg: Config, patch: Patcher, diffs: seq<Diff>, ghost blobs: seq<string>, blob: string)
    returns (diffs': seq<Diff>)
    requires diffs == DiffsOf(cfg, patch, blobs)
    ensures diffs' == DiffsOf(cfg, patch, blobs + [blob])
  {
    var d := ParseDiff(cfg, patch, blob);
    DiffsOfAppend(cfg, patch, blobs, blob);
    diffs' := diffs + [d];
  }

  // ---------------------------------------------------------------- one commit

  /** The header lines, then the one line skipped after them. */
  const NUMSTAT_OFFSET: nat := |FORMAT| + 1

  /** Where a block's diff section starts: one more line is skipped after the (unfiltered) numstats. */
  function DiffOffset(lines: seq<string>): nat
  {
    NUMSTAT_OFFSET + NumStatCount(Drop(lines, NUMSTAT_OFFSET)) + 1
  }

  function Sha(lines: seq<string>): Option<string>
  {
    Get(lines, FieldIndex(SHA))
  }

  predicate HasSha(lines: seq<string>)
  {
    Sha(lines).Some? && Sha(lines).value != ""
  }

  /**
   * The blocks `_commit_hash` gets through without raising: a numstat row
   * without a path field fails the rename filter, and a diff section whose
   * first line is not a header fails on `None + str`.
   */
  predicate CommitBlockOk(lines: seq<string>)
  {
    HasSha(lines) ==>
      && (forall i :: 0 <= i < |NumStats(Drop(lines, NUMSTAT_OFFSET))| ==> HasPath(NumStats(Drop(lines, NUMSTAT_OFFSET))[i]))
      && DiffSectionOk(Drop(lines, DiffOffset(lines)))
  }

  /** The commit record: the sha and the other header values by their position in the format. */
  function Assemble(lines: seq<string>, stats: seq<NumStat>, diffs: seq<Diff>): (c: Commit)
    requires HasSha(lines)
    ensures c.sha == lines[0] && c.stats == stats && c.diffs == diffs
  {
    FieldIndices();
    Commit(
      Sha(lines).value,
      Get(lines, FieldIndex(AUTHOR)), Get(lines, FieldIndex(EMAIL)),
      Get(lines, FieldIndex(DATE)), Get(lines, FieldIndex(DATE_ISO)),
      Get(lines, FieldIndex(COMMIT_DATE)), Get(lines, FieldIndex(COMMIT_DATE_ISO)),
      Get(lines, FieldIndex(PARENT)), Get(lines, FieldIndex(TREE)), Get(lines, FieldIndex(SUBJECT)),
      stats, diffs)
  }

  /** What `_commit_hash` returns for the lines of one block. */
  function CommitOf(cfg: Config, patch: Patcher, lines: seq<string>): (c: Option<Commit>)
    requires CommitBlockOk(lines)
    ensures c.Some? <==> HasSha(lines)
    ensures c.Some? ==> c.value.sha == lines[0]
  {
    if !HasSha(lines) then None
    else
      Some(Assemble(lines, WithoutRenames(NumStats(Drop(lines, NUMSTAT_OFFSET))),
                    DiffsOf(cfg, patch, DiffBlobs(Drop(lines, DiffOffset(lines))))))
  }

  /** `_commit_hash`. */
  method CommitHash(cfg: Config, patch: Patcher, lines: seq<string>) returns (commit: Option<Commit>)
    requires CommitBlockOk(lines)
    ensures commit == CommitOf(cfg, patch, lines)
  {
    var sha := Sha(lines);
    if sha.None? || sha.value == "" {
      return None;
    }
    var offset := NUMSTAT_OFFSET;
    var numstats := SlurpNumstats(Drop(lines, offset));
    assert numstats == NumStats(Drop(lines, NUMSTAT_OFFSET));
    var stats := WithoutRenames(numstats);
    offset := offset + |numstats| + 1;
    assert offset == DiffOffset(lines);
    var diffs := SlurpDiffs(cfg, patch, Drop(lines, offset));
    commit := Some(Assemble(lines, stats, diffs));
  }

  /**
   * A block laid out as git writes it: ten header lines, one skipped line,
   * numstat rows, one more line that is not a numstat row, and the diff
   * section. Its commit carries the header values, the non-rename rows and
   * one diff per diff block.
   */
  lemma WellFormedBlock(cfg: Config, patch: Patcher, header: seq<string>, skipped: string,
                        rows: seq<string>, gap: string, section: seq<string>)
    requires |header| == |FORMAT| && header[0] != ""
    requires forall i :: 0 <= i < |rows| ==> IsNumStatLine(rows[i]) && |SplitOn(rows[i], '\t')| >= 3
    requires !IsNumStatLine(gap)
    requires DiffSectionOk(section)
    ensures var block := header + [skipped] + rows + [gap] + section;
            && CommitBlockOk(block)
            && CommitOf(cfg, patch, block) == Some(Commit(
                 header[0], Some(header[1]), Some(header[2]), Some(header[3]), Some(header[4]),
                 Some(header[5]), Some(header[6]), Some(header[7]), Some(header[8]), Some(header[9]),
                 WithoutRenames(ParseRows(rows)), DiffsOf(cfg, patch, DiffBlobs(section))))
  {
    var block := header + [skipped] + rows + [gap] + section;
    BlockLayout(header, skipped, rows, gap, section);
    AssembleFields(block, WithoutRenames(ParseRows(rows)), DiffsOf(cfg, patch, DiffBlobs(section)));
  }

  /** Where the parts of a well-formed block end up. */
  lemma BlockLayout(header: seq<string>, skipped: string, rows: seq<string>, gap: string, section: seq<string>)
    requires |header| == |FORMAT|
    requires forall i :: 0 <= i < |rows| ==> IsNumStatLine(rows[i])
    requires !IsNumStatLine(gap)
    ensures var block := header + [skipped] + rows + [gap] + section;
            && NumStats(Drop(block, NUMSTAT_OFFSET)) == ParseRows(rows)
            && Drop(block, DiffOffset(block)) == section
            && forall i :: 0 <= i < |FORMAT| ==> Get(block, i) == Some(header[i])
  {
    var block := header + [skipped] + rows + [gap] + section;
    var tail := rows + [gap] + section;
    BlockSplits(header, [skipped], rows, [gap], section);
    DropPrefix(header + [skipped], tail);
    RowsThenGap(rows, gap, section);
    assert DiffOffset(block) == NUMSTAT_OFFSET + |rows| + 1;
    DropPrefix(header + [skipped] + rows + [gap], section);
    HeaderGets(header, [skipped] + rows + [gap] + section);
  }

  lemma BlockSplits(a: seq<string>, b: seq<string>, c: seq<string>, d: seq<string>, e: seq<string>)
    ensures a + b + c + d + e == (a + b) + (c + d + e)
    ensures a + b + c + d + e == a + (b + c + d + e)
  {
  }

  lemma DropPrefix(front: seq<string>, back: seq<string>)
    ensures Drop(front + back, |front|) == back
  {
    assert (front + back)[|front|..] == back;
  }

  lemma RowsThenGap(rows: seq<string>, gap: string, section: seq<string>)
    requires forall i :: 0 <= i < |rows| ==> IsNumStatLine(rows[i])
    requires !IsNumStatLine(gap)
    ensures NumStatCount(rows + [gap] + section) == |rows|
    ensures NumStats(rows + [gap] + section) == ParseRows(rows)
  {
    var tail := rows + [gap] + section;
    assert forall k :: 0 <= k < |rows| ==> tail[k] == rows[k];
    assert tail[|rows|] == gap;
    assert tail[..|rows|] == rows;
  }

  lemma HeaderGets(header: seq<string>, rest: seq<string>)
    ensures forall i :: 0 <= i < |header| ==> Get(header + rest, i) == Some(header[i])
  {
  }

  lemma AssembleFields(lines: seq<string>, stats: seq<NumStat>, diffs: seq<Diff>)
    requires HasSha(lines)
    ensures Assemble(lines, stats, diffs) == Commit(
      lines[0], Get(lines, 1), Get(lines, 2), Get(lines, 3), Get(lines, 4),
      Get(lines, 5), Get(lines, 6), Get(lines, 7), Get(lines, 8), Get(lines, 9), stats, diffs)
  {
    FieldIndices();
  }

  // ---------------------------------------------------------------- the stream

  /** The blocks closed so far and the lines of the one still growing, after reading `log`. */
  function BlockState(log: seq<string>): (seq<seq<string>>, seq<string>)
  {
    if |log| == 0 then ([], [])
    else
      var prev := BlockState(log[..|log| - 1]);
      var line := log[|log| - 1];
      if line == START_COMMIT then (prev.0 + [prev.1], []) else (prev.0, prev.1 + [line])
  }

  /** The sentinel-delimited blocks of a log, the text before the first sentinel and after the last included. */
  function Blocks(log: seq<string>): seq<seq<string>>
  {
    BlockState(log).0 + [BlockState(log).1]
  }

  /** The blocks put back together, a sentinel line between each two. */
  function JoinBlocks(blocks: seq<seq<string>>): seq<string>
    requires |blocks| > 0
  {
    if |blocks| == 1 then blocks[0]
    else JoinBlocks(blocks[..|blocks| - 1]) + [START_COMMIT] + blocks[|blocks| - 1]
  }

  /**
   * The block split loses nothing: no block holds a sentinel line, and
   * joining the blocks with the sentinel gives back the log.
   */
  lemma {:induction false} BlocksRoundTrip(log: seq<string>)
    ensures JoinBlocks(Blocks(log)) == log
    ensures forall b :: b in Blocks(log) ==> START_COMMIT !in b
  {
    if |log| > 0 {
      var init := log[..|log| - 1];
      var line := log[|log| - 1];
      BlocksRoundTrip(init);
      var (closed, open) := BlockState(init);
      assert log == init + [line];
      if line == START_COMMIT {
        var bs := closed + [open] + [[]];
        assert Blocks(log) == bs;
        assert bs[..|bs| - 1] == Blocks(init);
        assert JoinBlocks(bs) == JoinBlocks(Blocks(init)) + [START_COMMIT] + [];
      } else {
        var bs := closed + [open + [line]];
        assert Blocks(log) == bs;
        if |closed| > 0 {
          assert bs[..|bs| - 1] == closed;
          assert Blocks(init)[..|Blocks(init)| - 1] == closed;
          assert JoinBlocks(bs) == JoinBlocks(Blocks(init)) + [line];
        }
        assert forall b :: b in bs ==> b in closed || b == open + [line];
      }
    }
  }

  /** What `parse` yields for `blocks`: one commit per block that has a sha, in order. */
  function CommitsOf(cfg: Config, patch: Patcher, blocks: seq<seq<string>>): (cs: seq<Commit>)
    requires forall b :: b in blocks ==> CommitBlockOk(b)
    ensures |cs| <= |blocks|
  {
    if |blocks| == 0 then []
    else
      var init := CommitsOf(cfg, patch, blocks[..|blocks| - 1]);
      match CommitOf(cfg, patch, blocks[|blocks| - 1])
      case None => init
      case Some(c) => init + [c]
  }

  /** `parse`: collect the lines of each block and emit its commit at the next sentinel and at the end. */
  method Parse(cfg: Config, patch: Patcher, log: seq<string>) returns (commits: seq<Commit>)
    requires forall b :: b in Blocks(log) ==> CommitBlockOk(b)
    ensures commits == CommitsOf(cfg, patch, Blocks(log))
  {
    commits := [];
    var commitLines: seq<string> := [];
    var i := 0;
    while i < |log|
      invariant 0 <= i <= |log|
      invariant forall b :: b in BlockState(log[..i]).0 ==> b in Blocks(log)
      invariant commitLines == BlockState(log[..i]).1
      invariant commits == CommitsOf(cfg, patch, BlockState(log[..i]).0)
    {
      var line := log[i];
      assert log[..i + 1][..i] == log[..i];
      if line == START_COMMIT {
        ClosedBlocksArePrefix(log, i + 1);
        assert commitLines in BlockState(log[..i + 1]).0;
        assert commitLines in Blocks(log);
        CommitsOfAppend(cfg, patch, BlockState(log[..i]).0, commitLines);
        if commitLines != [] {
          var commit := CommitHash(cfg, patch, commitLines);
          if commit.Some? {
            commits := commits + [commit.value];
          }
        }
        commitLines := [];
      } else {
        commitLines := commitLines + [line];
      }
      i := i + 1;
    }
    assert log[..|log|] == log;
    assert commitLines in Blocks(log);
    CommitsOfAppend(cfg, patch, BlockState(log).0, commitLines);
    if commitLines != [] {
      var commit := CommitHash(cfg, patch, commitLines);
      if commit.Some? {
        commits := commits + [commit.value];
      }
    }
  }

  lemma CommitsOfAppend(cfg: Config, patch: Patcher, blocks: seq<seq<string>>, block: seq<string>)
    requires forall b :: b in blocks ==> CommitBlockOk(b)
    requires CommitBlockOk(block)
    ensures var c := CommitOf(cfg, patch, block);
            CommitsOf(cfg, patch, blocks + [block]) == CommitsOf(cfg, patch, blocks) + (if c.Some? then [c.value] else [])
  {
    assert (blocks + [block])[..|blocks|] == blocks;
  }

  /** The blocks closed after reading a prefix of the log stay closed, in the same order. */
  lemma {:induction false} ClosedBlocksArePrefix(log: seq<string>, i: nat)
    requires i <= |log|
    ensures BlockState(log[..i]).0 <= BlockState(log).0
    decreases |log| - i
  {
    if i < |log| {
      ClosedBlocksArePrefix(log, i + 1);
      assert log[..i + 1][..i] == log[..i];
    } else {
      assert log[..i] == log;
    }
  }
}
