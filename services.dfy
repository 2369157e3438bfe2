/** services.py: the prompt-file filter of `PromptService`, the fallback of
    `BedrockService.analyze_jira_request`, and the pull-request data and bounded
    diff digest that `GitHubService.get_pr_with_files` builds. */
module Services {
  import opened Wrappers
  import opened Text
  import opened PullRequest

  // ---------------------------------------------------------------------------
  // PromptService.load_prompt
  // ---------------------------------------------------------------------------

  /** A markdown header or code-fence line, which the prompt loader skips. */
  predicate IsMarkupLine(line: string) {
    StartsWith(line, "#") || StartsWith(line, "```")
  }

  /** The lines the loader keeps, in order. */
  function KeptLines(lines: seq<string>): (kept: seq<string>)
    ensures |kept| <= |lines|
  {
    if lines == [] then []
    else
      var kept := KeptLines(lines[..|lines| - 1]);
      var line := lines[|lines| - 1];
      if IsMarkupLine(line) then kept else kept + [line]
  }

  /** The prompt text loaded from a file whose contents are `content`. */
  function PromptText(content: string): string {
    Strip(Join(KeptLines(Split(content, '\n')), "\n"))
  }

  /** The markup-free positions of `lines` below `n`. */
  function KeptPositions(lines: seq<string>, n: nat): set<nat> {
    set i: nat | i < n && i < |lines| && !IsMarkupLine(lines[i])
  }

  /** One more line adds its position to the kept ones exactly when it is not markup. */
  lemma KeptPositionsStep(lines: seq<string>, n: nat)
    requires n < |lines|
    ensures !IsMarkupLine(lines[n]) ==> KeptPositions(lines, n + 1) == KeptPositions(lines, n) + {n}
    ensures IsMarkupLine(lines[n]) ==> KeptPositions(lines, n + 1) == KeptPositions(lines, n)
    ensures n !in KeptPositions(lines, n)
  {
  }

  /** As many lines are kept as there are markup-free lines. */
  lemma {:induction false} KeptLinesCount(lines: seq<string>)
    ensures |KeptLines(lines)| == |KeptPositions(lines, |lines|)|
  {
    if lines != [] {
      var n := |lines| - 1;
      var init := lines[..n];
      KeptLinesCount(init);
      assert KeptPositions(init, n) == KeptPositions(lines, n);
      KeptPositionsStep(lines, n);
    }
  }

  /** The loader keeps exactly the lines that are not markup, each once, in their original
      order. */
  lemma {:induction false} KeptLinesExact(lines: seq<string>)
    ensures forall i :: 0 <= i < |KeptLines(lines)| ==> !IsMarkupLine(KeptLines(lines)[i])
    ensures forall i :: 0 <= i < |lines| && !IsMarkupLine(lines[i]) ==> lines[i] in KeptLines(lines)
    ensures IsSubsequence(KeptLines(lines), lines)
    ensures |KeptLines(lines)| == |set i: nat | i < |lines| && !IsMarkupLine(lines[i])|
  {
    KeptLinesCount(lines);
    assert KeptPositions(lines, |lines|) == set i: nat | i < |lines| && !IsMarkupLine(lines[i]);
    if lines != [] {
      var init := lines[..|lines| - 1];
      KeptLinesExact(init);
      assert forall i :: 0 <= i < |init| ==> lines[i] == init[i];
    }
  }

  /** With no markup line, nothing is dropped: the prompt is the file's text, stripped. */
  lemma {:induction false} KeptLinesAll(lines: seq<string>)
    requires forall i :: 0 <= i < |lines| ==> !IsMarkupLine(lines[i])
    ensures KeptLines(lines) == lines
  {
    if lines != [] {
      KeptLinesAll(lines[..|lines| - 1]);
    }
  }

  /** A file without header or fence lines loads as its whole text, stripped. */
  lemma PromptWithoutMarkup(content: string)
    requires forall i :: 0 <= i < |Split(content, '\n')| ==> !IsMarkupLine(Split(content, '\n')[i])
    ensures PromptText(content) == Strip(content)
  {
    KeptLinesAll(Split(content, '\n'));
    JoinSplit(content, '\n');
  }

  /** `PromptService.load_prompt`, given the file's contents (the file read is not modelled). */
  method LoadPrompt(content: string) returns (prompt: string)
    ensures prompt == PromptText(content)
  {
    var lines := Split(content, '\n');
    var systemPrompt: seq<string> := [];
    for i := 0 to |lines|
      invariant systemPrompt == KeptLines(lines[..i])
    {
      var line := lines[i];
      assert lines[..i + 1][..i] == lines[..i];
      if !StartsWith(line, "#") && !StartsWith(line, "```") {
        systemPrompt := systemPrompt + [line];
      }
    }
    assert lines[..|lines|] == lines;
    prompt := Strip(Join(systemPrompt, "\n"));
  }

  // ---------------------------------------------------------------------------
  // BedrockService.analyze_jira_request: the parse-or-create fallback
  // ---------------------------------------------------------------------------

  /** A JSON value as `json.loads` returns it. */
  datatype Json =
    | JNull
    | JBool(b: bool)
    | JNumber(n: int)
    | JString(s: string)
    | JArray(items: seq<Json>)
    | JObject(members: seq<(string, Json)>)

  /** `{"action": "create"}`, used when the model's reply is not JSON. */
  const CreateFallback: Json := JObject([("action", JString("create"))])

  /** The analysis returned for the model's reply text: the reply is stripped and parsed
      (`parse` stands for `json.loads`, `None` for a `JSONDecodeError`). */
  function AnalyzeReply(reply: string, parse: string -> Option<Json>): (analysis: Json)
    ensures parse(Strip(reply)).Some? ==> analysis == parse(Strip(reply)).value
    ensures parse(Strip(reply)).None? ==> analysis == CreateFallback
  {
    match parse(Strip(reply))
    case Some(v) => v
    case None => CreateFallback
  }

  /** The fallback is the only place the analysis is invented: any parsed reply,
      whatever its action or keys, is returned as it is. */
  lemma AnalyzeReplyPassesThrough(reply: string, parse: string -> Option<Json>, v: Json)
    requires parse(Strip(reply)) == Some(v)
    ensures AnalyzeReply(reply, parse) == v
    ensures v != CreateFallback ==> AnalyzeReply(reply, parse) != CreateFallback
  {
  }

  // ---------------------------------------------------------------------------
  // GitHubService.get_pr_with_files: changed files and the bounded diff digest
  // ---------------------------------------------------------------------------

  /** A changed file as the GitHub API reports it: its name and its patch, if any. */
  datatype FileChange = FileChange(filename: string, patch: Option<string>)

  /** The two size limits: `MAX_DIFF_SIZE` for the whole digest, `MAX_FILE_DIFF_SIZE`
      for the patch text of one file. */
  datatype DiffLimits = DiffLimits(maxDiffSize: nat, maxFileDiffSize: nat)

  /** The configured limits (config.py). */
  const DefaultLimits: DiffLimits := DiffLimits(8000, 2000)

  /** The header line that opens a file's block. */
  function FileHeader(name: string): string {
    "\n--- " + name + " ---\n"
  }

  /** Appended to a patch that was cut. */
  const FileTruncatedNote: string := "\n... (file diff truncated)"

  /** `patch[:maxFile]`: the first `maxFile` characters of the patch, or all of it. */
  function CutPatch(patch: string, maxFile: nat): (cut: string)
    ensures |cut| == if |patch| <= maxFile then |patch| else maxFile
    ensures cut == patch[..|cut|]
  {
    if |patch| <= maxFile then patch else patch[..maxFile]
  }

  /** The block a file contributes: its header, its patch cut to the per-file limit with
      a note when it was cut, and a newline. A missing or empty patch adds nothing. */
  function FileBlock(f: FileChange, maxFile: nat): (block: string)
    ensures |block| > |FileHeader(f.filename)|
  {
    FileHeader(f.filename)
    + (if Truthy(f.patch)
       then CutPatch(f.patch.value, maxFile)
            + (if |f.patch.value| > maxFile then FileTruncatedNote else "")
       else "")
    + "\n"
  }

  /** A file with a missing or empty patch contributes its header and a newline. */
  lemma FileBlockNoPatch(f: FileChange, maxFile: nat)
    requires !Truthy(f.patch)
    ensures FileBlock(f, maxFile) == "\n--- " + f.filename + " ---\n\n"
  {
  }

  /** The patch text inside a block is a prefix of the patch, at most `maxFile` long;
      the truncation note follows it exactly when the patch is longer than that. */
  lemma FileBlockPatch(f: FileChange, maxFile: nat)
    requires Truthy(f.patch)
    ensures var p := f.patch.value; var cut := CutPatch(p, maxFile);
      && |cut| <= maxFile && cut == p[..|cut|]
      && (cut == p <==> |p| <= maxFile)
      && FileBlock(f, maxFile)
         == FileHeader(f.filename) + cut + (if |p| > maxFile then FileTruncatedNote else "") + "\n"
  {
  }

  /** The overall truncation marker, reporting `count` files. */
  function TruncationMarker(count: nat): string {
    "\n... (truncated - showing first " + NatToString(count) + " files)\n"
  }

  /** `len([f for f in files if total < maxDiff])`: the condition does not depend on
      `f`, so the count is all the files or none of them. */
  function CountBelowBudget(files: seq<FileChange>, total: nat, maxDiff: nat): (count: nat)
    ensures count == if total < maxDiff then |files| else 0
  {
    if files == [] then 0
    else CountBelowBudget(files[..|files| - 1], total, maxDiff) + (if total < maxDiff then 1 else 0)
  }

  /** The block of every file, in order. */
  function FileBlocks(files: seq<FileChange>, maxFile: nat): (blocks: seq<string>)
    ensures |blocks| == |files|
    ensures forall i :: 0 <= i < |files| ==> blocks[i] == FileBlock(files[i], maxFile)
    ensures NonEmptyBlocks(blocks)
  {
    seq(|files|, i requires 0 <= i < |files| => FileBlock(files[i], maxFile))
  }

  /** Every block holds at least its header. */
  predicate NonEmptyBlocks(blocks: seq<string>) {
    forall i :: 0 <= i < |blocks| ==> blocks[i] != []
  }

  /** What the digest loop emits from file `i` on, having emitted `total` characters;
      `blocks` are the files' blocks. */
  function DigestFrom(files: seq<FileChange>, blocks: seq<string>, i: nat, total: nat, maxDiff: nat): string
    requires |blocks| == |files| && i <= |files|
    decreases |files| - i
  {
    if i == |files| then ""
    else if total >= maxDiff then TruncationMarker(CountBelowBudget(files, total, maxDiff))
    else if total + |blocks[i]| <= maxDiff then blocks[i] + DigestFrom(files, blocks, i + 1, total + |blocks[i]|, maxDiff)
    else ""
  }

  /** The diff digest (`pr_data['code_diff']`) of a list of changed files: the loop's
      semantics, which is the shape `Shaped` gives the files' blocks from an empty digest. */
  function Digest(files: seq<FileChange>, limits: DiffLimits): (digest: string)
    ensures digest == Shaped(FileBlocks(files, limits.maxFileDiffSize), 0, limits.maxDiffSize)
  {
    var blocks := FileBlocks(files, limits.maxFileDiffSize);
    DigestFromShape(files, blocks, 0, 0, limits.maxDiffSize);
    assert blocks[0..] == blocks;
    DigestFrom(files, blocks, 0, 0, limits.maxDiffSize)
  }

  /** The given blocks, one after the other. */
  function Concat(blocks: seq<string>): string {
    if blocks == [] then "" else blocks[0] + Concat(blocks[1..])
  }

  /** The number of leading blocks that fit together in `budget` characters. */
  function FitCount(blocks: seq<string>, budget: nat): (k: nat)
    ensures k <= |blocks|
    ensures |Concat(blocks[..k])| <= budget
    ensures k < |blocks| ==> |Concat(blocks[..k + 1])| > budget
  {
    if blocks == [] then 0
    else if |blocks[0]| <= budget then
      var k := 1 + FitCount(blocks[1..], budget - |blocks[0]|);
      assert blocks[..k][0] == blocks[0] && blocks[..k][1..] == blocks[1..][..k - 1];
      assert k < |blocks| ==> blocks[..k + 1][0] == blocks[0] && blocks[..k + 1][1..] == blocks[1..][..k];
      k
    else
      assert blocks[..1] == [blocks[0]];
      0
  }

  /** The loop's semantics, stated without the loop, for the blocks `rest` still to visit
      once `total` characters are emitted: the blocks that fit in the remaining budget,
      then the marker (reporting 0 files) only if blocks remain and the budget is used up
      exactly. */
  function Shaped(rest: seq<string>, total: nat, maxDiff: nat): string
    requires total <= maxDiff
  {
    var k := FitCount(rest, maxDiff - total);
    Concat(rest[..k]) + MarkerIf(k < |rest| && total + |Concat(rest[..k])| == maxDiff)
  }

  /** The truncation marker when `stopped`, nothing otherwise (its count is always 0). */
  function MarkerIf(stopped: bool): string {
    if stopped then TruncationMarker(0) else ""
  }

  /** A block that fits is emitted, and the rest is shaped from the new total. */
  lemma ShapedStep(rest: seq<string>, total: nat, maxDiff: nat)
    requires rest != [] && total + |rest[0]| <= maxDiff
    ensures Shaped(rest, total, maxDiff) == rest[0] + Shaped(rest[1..], total + |rest[0]|, maxDiff)
  {
    var k1 := FitCount(rest[1..], maxDiff - total - |rest[0]|);
    assert FitCount(rest, maxDiff - total) == 1 + k1;
    ConcatPrefix(rest, 1 + k1);
    var tail := Concat(rest[1..][..k1]);
    var marker := MarkerIf(k1 < |rest[1..]| && total + |rest[0]| + |tail| == maxDiff);
    assert Shaped(rest, total, maxDiff) == (rest[0] + tail) + marker;
  }

  /** The first `k` blocks are the first block followed by the next `k - 1`. */
  lemma ConcatPrefix(blocks: seq<string>, k: nat)
    requires 1 <= k <= |blocks|
    ensures Concat(blocks[..k]) == blocks[0] + Concat(blocks[1..][..k - 1])
  {
    assert blocks[..k][0] == blocks[0] && blocks[..k][1..] == blocks[1..][..k - 1];
  }

  /** A block that does not fit ends the digest: no marker unless the budget is used up
      exactly. */
  lemma ShapedStop(rest: seq<string>, total: nat, maxDiff: nat)
    requires rest != [] && total <= maxDiff && total + |rest[0]| > maxDiff
    ensures Shaped(rest, total, maxDiff) == if total == maxDiff then TruncationMarker(0) else ""
  {
    assert FitCount(rest, maxDiff - total) == 0;
    assert rest[..0] == [];
  }

  lemma {:induction false} DigestFromShape(files: seq<FileChange>, blocks: seq<string>, i: nat, total: nat, maxDiff: nat)
    requires |blocks| == |files| && i <= |files| && total <= maxDiff
    requires NonEmptyBlocks(blocks)
    ensures DigestFrom(files, blocks, i, total, maxDiff) == Shaped(blocks[i..], total, maxDiff)
    decreases |files| - i
  {
    var rest := blocks[i..];
    if i == |files| {
      assert rest[..0] == [];
    } else {
      assert rest[0] == blocks[i] != [];
      if total >= maxDiff {
        ShapedStop(rest, total, maxDiff);
      } else if total + |blocks[i]| <= maxDiff {
        DigestFromShape(files, blocks, i + 1, total + |blocks[i]|, maxDiff);
        assert rest[1..] == blocks[i + 1..];
        ShapedStep(rest, total, maxDiff);
      } else {
        ShapedStop(rest, total, maxDiff);
      }
    }
  }

  /** The number of files whose blocks the digest shows. */
  function ShownCount(files: seq<FileChange>, limits: DiffLimits): (k: nat)
    ensures k <= |files|
  {
    FitCount(FileBlocks(files, limits.maxFileDiffSize), limits.maxDiffSize)
  }

  /** The blocks of the first `k` files, in input order. */
  function ShownBlocks(files: seq<FileChange>, k: nat, limits: DiffLimits): string
    requires k <= |files|
  {
    Concat(FileBlocks(files, limits.maxFileDiffSize)[..k])
  }

  /** The digest is the blocks of a prefix of the files, in input order — the longest prefix
      that fits the overall budget — followed by the marker reporting 0 files exactly when
      files remain and the blocks fill the budget to the character. */
  lemma DigestShape(files: seq<FileChange>, limits: DiffLimits)
    ensures var k := ShownCount(files, limits);
      var shown := ShownBlocks(files, k, limits);
      && |shown| <= limits.maxDiffSize
      && (k < |files| ==> |ShownBlocks(files, k + 1, limits)| > limits.maxDiffSize)
      && Digest(files, limits)
         == shown + (if k < |files| && |shown| == limits.maxDiffSize then TruncationMarker(0) else "")
  {
    var blocks := FileBlocks(files, limits.maxFileDiffSize);
    DigestFromShape(files, blocks, 0, 0, limits.maxDiffSize);
    assert blocks[0..] == blocks;
  }

  /** The digest never exceeds the overall budget plus one truncation marker. */
  lemma DigestBound(files: seq<FileChange>, limits: DiffLimits)
    ensures |Digest(files, limits)| <= limits.maxDiffSize + |TruncationMarker(0)|
  {
    DigestShape(files, limits);
  }

  /** A file that does not fit, while the budget is not used up exactly, ends the digest
      with no marker: the later files vanish silently. */
  lemma DigestSilentOverflow(files: seq<FileChange>, limits: DiffLimits)
    requires ShownCount(files, limits) < |files|
    requires |ShownBlocks(files, ShownCount(files, limits), limits)| < limits.maxDiffSize
    ensures Digest(files, limits) == ShownBlocks(files, ShownCount(files, limits), limits)
  {
    DigestShape(files, limits);
  }

  /** Three files, overall budget 500, per-file budget 200: the first two blocks take
      480 characters and the third would add 150. The digest is the first two blocks
      alone: no truncation marker and no mention of the third file. */
  lemma DigestExampleNoMarker()
    ensures var x300 := seq(300, _ => 'x');
      var files := [FileChange("abc", Some(x300)), FileChange("abd", Some(x300)),
                    FileChange("c", Some(seq(138, _ => 'x')))];
      var limits := DiffLimits(500, 200);
      Digest(files, limits) == FileBlock(files[0], 200) + FileBlock(files[1], 200)
      && |Digest(files, limits)| == 480
  {
    var x300 := seq(300, _ => 'x');
    var files := [FileChange("abc", Some(x300)), FileChange("abd", Some(x300)),
                  FileChange("c", Some(seq(138, _ => 'x')))];
    var limits := DiffLimits(500, 200);
    var blocks := FileBlocks(files, 200);
    assert |blocks[0]| == 240 && |blocks[1]| == 240 && |blocks[2]| == 150;
    assert DigestFrom(files, blocks, 2, 480, 500) == "";
    assert DigestFrom(files, blocks, 1, 240, 500) == blocks[1];
    assert DigestFrom(files, blocks, 0, 0, 500) == blocks[0] + blocks[1];
  }

  /** The block of one file, built as the loop body builds it. */
  method BuildFileDiff(file: FileChange, maxFile: nat) returns (fileDiff: string)
    ensures fileDiff == FileBlock(file, maxFile)
  {
    fileDiff := "\n--- " + file.filename + " ---\n";
    if file.patch.Some? && file.patch.value != "" {
      fileDiff := fileDiff + CutPatch(file.patch.value, maxFile);
      if |file.patch.value| > maxFile {
        fileDiff := fileDiff + "\n... (file diff truncated)";
      }
    }
    fileDiff := fileDiff + "\n";
  }

  /** The digest loop of `get_pr_with_files` (two accumulators, an early `break`). */
  method BuildDiffDigest(files: seq<FileChange>, limits: DiffLimits) returns (prDiff: string)
    ensures prDiff == Digest(files, limits)
    ensures |prDiff| <= limits.maxDiffSize + |TruncationMarker(0)|
  {
    ghost var blocks := FileBlocks(files, limits.maxFileDiffSize);
    ghost var digest := DigestFrom(files, blocks, 0, 0, limits.maxDiffSize);
    prDiff := "";
    var totalDiffSize := 0;
    var i := 0;
    while i < |files|
      invariant 0 <= i <= |files|
      invariant totalDiffSize == |prDiff| <= limits.maxDiffSize
      invariant prDiff + DigestFrom(files, blocks, i, totalDiffSize, limits.maxDiffSize) == digest
    {
      if totalDiffSize >= limits.maxDiffSize {
        prDiff := prDiff + TruncationMarker(CountBelowBudget(files, totalDiffSize, limits.maxDiffSize));
        break;
      }
      var fileDiff := BuildFileDiff(files[i], limits.maxFileDiffSize);
      assert fileDiff == blocks[i];
      if totalDiffSize + |fileDiff| <= limits.maxDiffSize {
        prDiff := prDiff + fileDiff;
        totalDiffSize := totalDiffSize + |fileDiff|;
      } else {
        break;
      }
      i := i + 1;
    }
    assert prDiff == digest;
    DigestBound(files, limits);
  }

  /** The pull request's own attributes, as the GitHub API returns them. */
  datatype PullInfo = PullInfo(
    number: int, title: string, body: Option<string>, login: string, headRef: string,
    baseRef: string, htmlUrl: string, additions: int, deletions: int, commits: int)

  /** The names of the changed files, one entry per file, in order. */
  function ChangedFileNames(files: seq<FileChange>): (names: seq<string>)
    ensures |names| == |files|
    ensures forall i :: 0 <= i < |files| ==> names[i] == files[i].filename
  {
    seq(|files|, i requires 0 <= i < |files| => files[i].filename)
  }

  /** `GitHubService.get_pr_with_files` after the API calls: the PR dictionary with every
      changed file listed, whatever the digest left out, and the digest as `code_diff`. */
  method GetPrWithFiles(pull: PullInfo, repoName: string, files: seq<FileChange>, limits: DiffLimits)
    returns (prData: PrPayload)
    ensures prData.number == Some(pull.number) && prData.title == Some(pull.title)
    ensures prData.body == Some(pull.body) && prData.login == Some(pull.login)
    ensures prData.headRef == Some(pull.headRef) && prData.baseRef == Some(pull.baseRef)
    ensures prData.repoFullName == Some(repoName) && prData.htmlUrl == Some(pull.htmlUrl)
    ensures prData.additions == Some(pull.additions) && prData.deletions == Some(pull.deletions)
    ensures prData.commits == Some(pull.commits)
    ensures prData.changedFiles == Some(FileEntries(ChangedFileNames(files)))
    ensures prData.codeDiff == Some(Digest(files, limits))
  {
    prData := PrPayload(
      Some(pull.number), Some(pull.title), Some(pull.body), Some(pull.login),
      Some(pull.headRef), Some(pull.baseRef), Some(repoName), Some(pull.htmlUrl),
      Some(pull.additions), Some(pull.deletions), Some(pull.commits), None, None);
    prData := prData.(changedFiles := Some(FileEntries(ChangedFileNames(files))));
    var prDiff := BuildDiffDigest(files, limits);
    prData := prData.(codeDiff := Some(prDiff));
  }
}
