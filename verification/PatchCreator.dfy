/**
 * Edit application and patch assembly (qwen/patch_creator.py): resolving an
 * `old_code` snippet against a file's text, exactly or by a sliding line window,
 * and running a list of proposed changes against a working tree while building
 * the ledger of results and the patch fragments.
 */
module PatchCreator {
  import opened Wrappers
  import opened PyStr

  // ---------------------------------------------------------------------------
  // Line-window scoring
  // ---------------------------------------------------------------------------

  /** Number of start indices `range(len(lines) - len(snippet) + 1)` visits. */
  function Windows(lines: seq<string>, snippet: seq<string>): (w: nat)
    ensures w > 0 <==> |snippet| <= |lines|
    ensures w > 0 ==> w - 1 + |snippet| == |lines|
  {
    if |snippet| <= |lines| then |lines| - |snippet| + 1 else 0
  }

  /** Among the first `k` positions of the window at `i`, those whose trimmed lines agree. */
  function MatchesUpTo(lines: seq<string>, snippet: seq<string>, i: nat, k: nat): (m: nat)
    requires k <= |snippet| && i + |snippet| <= |lines|
    ensures m <= k
  {
    if k == 0 then 0
    else MatchesUpTo(lines, snippet, i, k - 1) + (if Strip(lines[i + k - 1]) == Strip(snippet[k - 1]) then 1 else 0)
  }

  /** `sum(1 for a, b in zip(block, old_lines) if a.strip() == b.strip())` for the window at `i`. */
  function Matches(lines: seq<string>, snippet: seq<string>, i: nat): (m: nat)
    requires i + |snippet| <= |lines|
    ensures m <= |snippet|
  {
    MatchesUpTo(lines, snippet, i, |snippet|)
  }

  /** A window agrees with `snippet` on every line exactly when all its positions match. */
  lemma {:induction false} FullMatchIffEqualTrimmed(lines: seq<string>, snippet: seq<string>, i: nat, k: nat)
    requires k <= |snippet| && i + |snippet| <= |lines|
    ensures MatchesUpTo(lines, snippet, i, k) == k <==>
      forall j :: 0 <= j < k ==> Strip(lines[i + j]) == Strip(snippet[j])
  {
    if k > 0 {
      FullMatchIffEqualTrimmed(lines, snippet, i, k - 1);
      var prev := MatchesUpTo(lines, snippet, i, k - 1);
      assert prev <= k - 1;
      if MatchesUpTo(lines, snippet, i, k) == k {
        assert prev == k - 1 && Strip(lines[i + k - 1]) == Strip(snippet[k - 1]);
      }
    }
  }

  /** The score the source computes, `matches / len(old_lines)`. */
  function Score(lines: seq<string>, snippet: seq<string>, i: nat): (s: real)
    requires |snippet| >= 1 && i + |snippet| <= |lines|
    ensures 0.0 <= s <= 1.0
  {
    (Matches(lines, snippet, i) as real) / (|snippet| as real)
  }

  /**
   * Scores over one denominator compare as their match counts do, and a score is above
   * one half exactly when twice the match count exceeds the line count; the model
   * therefore keeps integer match counts.
   */
  lemma ScoreAsCounts(lines: seq<string>, snippet: seq<string>, i: nat, j: nat)
    requires |snippet| >= 1 && i + |snippet| <= |lines| && j + |snippet| <= |lines|
    ensures Score(lines, snippet, i) > Score(lines, snippet, j) <==> Matches(lines, snippet, i) > Matches(lines, snippet, j)
    ensures Score(lines, snippet, i) > 0.5 <==> 2 * Matches(lines, snippet, i) > |snippet|
    ensures Score(lines, snippet, i) > 0.0 <==> Matches(lines, snippet, i) > 0
  {
    var n := |snippet| as real;
    var a, b := Matches(lines, snippet, i) as real, Matches(lines, snippet, j) as real;
    assert Score(lines, snippet, i) == a / n && Score(lines, snippet, j) == b / n;
    DivCompare(a, b, n);
    DivCompare(a, 0.0, n);
    HalfCompare(a, n);
  }

  /** A fraction with a positive denominator is above one half exactly when twice its numerator exceeds the denominator. */
  lemma HalfCompare(a: real, n: real)
    requires n > 0.0
    ensures a / n > 0.5 <==> 2.0 * a > n
  {
    var x := a / n;
    assert x * n == a;
    assert (x - 0.5) * n == a - n / 2.0;
  }

  /** The pair `(best_match_score, best_match_start)`, the score kept as a match count. */
  datatype Best = Best(score: nat, start: int)

  /**
   * The values of the two loop variables after the first `w` windows: the largest match
   * count seen and the earliest window reaching it, or `(0, -1)` when every window
   * scored zero (the best is replaced only on strict improvement).
   */
  function BestUpTo(lines: seq<string>, snippet: seq<string>, w: nat): (b: Best)
    requires w <= Windows(lines, snippet)
    ensures -1 <= b.start < w
    ensures b.start == -1 <==> b.score == 0
    ensures b.start >= 0 ==> b.score == Matches(lines, snippet, b.start)
  {
    if w == 0 then Best(0, -1)
    else
      var prev := BestUpTo(lines, snippet, w - 1);
      var m := Matches(lines, snippet, w - 1);
      if m > prev.score then Best(m, w - 1) else prev
  }

  /**
   * The kept window has the largest match count of the first `w` windows and every
   * earlier window scored strictly less: it is the earliest maximum.
   */
  lemma {:induction false} BestUpToIsEarliestMax(lines: seq<string>, snippet: seq<string>, w: nat)
    requires w <= Windows(lines, snippet)
    ensures var b := BestUpTo(lines, snippet, w);
      && (forall j :: 0 <= j < w ==> Matches(lines, snippet, j) <= b.score)
      && (b.start >= 0 ==> forall j :: 0 <= j < b.start ==> Matches(lines, snippet, j) < b.score)
      && (b.start == -1 ==> forall j :: 0 <= j < w ==> Matches(lines, snippet, j) == 0)
  {
    if w > 0 {
      BestUpToIsEarliestMax(lines, snippet, w - 1);
      var prev, m := BestUpTo(lines, snippet, w - 1), Matches(lines, snippet, w - 1);
      if m > prev.score {
        assert BestUpTo(lines, snippet, w) == Best(m, w - 1);
      } else {
        assert BestUpTo(lines, snippet, w) == prev;
      }
    }
  }

  /** The outcome of the whole scan. */
  function BestWindow(lines: seq<string>, snippet: seq<string>): Best {
    BestUpTo(lines, snippet, Windows(lines, snippet))
  }

  /** The scan of `apply_change_to_file` over every window of `snippet.size` lines. */
  method FindBestWindow(lines: seq<string>, snippet: seq<string>) returns (bestStart: int, bestScore: nat)
    ensures Best(bestScore, bestStart) == BestWindow(lines, snippet)
    ensures bestStart >= 0 ==> bestStart + |snippet| <= |lines| && Matches(lines, snippet, bestStart) == bestScore
  {
    bestStart := -1;
    bestScore := 0;
    var i := 0;
    while i < |lines| - |snippet| + 1
      invariant 0 <= i <= Windows(lines, snippet)
      invariant Best(bestScore, bestStart) == BestUpTo(lines, snippet, i)
    {
      var matches := Matches(lines, snippet, i);
      if matches > bestScore {
        bestScore := matches;
        bestStart := i;
      }
      i := i + 1;
    }
  }

  // ---------------------------------------------------------------------------
  // Resolving a snippet against a file's text
  // ---------------------------------------------------------------------------

  /** `old_code.strip().split('\n')`. */
  function OldLines(oldCode: string): (ls: seq<string>)
    ensures |ls| >= 1
  {
    Split(Strip(oldCode), '\n')
  }

  /** The lines before the window, then `new_code`'s lines, then the lines after it. */
  function Splice(lines: seq<string>, start: nat, width: nat, newCode: string): seq<string>
    requires start + width <= |lines|
  {
    lines[..start] + Split(newCode, '\n') + lines[start + width..]
  }

  /** The line-window fallback: the new text, or None when the best score is not above 0.5. */
  function FuzzyReplace(content: string, oldCode: string, newCode: string): Option<string> {
    var snippet := OldLines(oldCode);
    var lines := Split(content, '\n');
    var best := BestWindow(lines, snippet);
    if 2 * best.score > |snippet| then
      Some(Join(Splice(lines, best.start, |snippet|, newCode), '\n'))
    else None
  }

  /** The text `apply_change_to_file` would write, or None when it gives up. */
  function Resolve(content: string, oldCode: string, newCode: string): Option<string> {
    if Contains(content, oldCode) then Some(ReplaceFirst(content, oldCode, newCode))
    else FuzzyReplace(content, oldCode, newCode)
  }

  /**
   * An exact occurrence wins: the first occurrence of `old_code`, and only it, is replaced,
   * and all text before and after it is kept as it was.
   */
  lemma ExactFirstOccurrence(content: string, oldCode: string, newCode: string)
    requires Contains(content, oldCode)
    ensures var i := Find(content, oldCode).value;
      && (forall j :: 0 <= j < i ==> !OccursAt(content, oldCode, j))
      && Resolve(content, oldCode, newCode).Some?
      && var r := Resolve(content, oldCode, newCode).value;
      && r == content[..i] + newCode + content[i + |oldCode|..]
      && r[..i] == content[..i]
      && r[i + |newCode|..] == content[i + |oldCode|..]
  {
    ReplaceFirstKeepsRest(content, oldCode, newCode, Find(content, oldCode).value);
  }

  /** A comparison of two reals with the same positive denominator is a comparison of numerators. */
  lemma DivCompare(a: real, b: real, n: real)
    requires n > 0.0
    ensures a / n > b / n <==> a > b
  {
    var x, y := a / n, b / n;
    assert x * n == a && y * n == b;
    assert (x - y) * n == a - b;
  }

  /** An empty `old_code` always matches exactly, so `new_code` goes in front of the file. */
  lemma EmptyOldCodeInsertsAtStart(content: string, newCode: string)
    ensures Resolve(content, "", newCode) == Some(newCode + content)
  {
    EmptyOccursFirst(content);
    assert Contains(content, "");
    assert ReplaceFirst(content, "", newCode) == content[..0] + newCode + content[0..];
    assert content[..0] + newCode + content[0..] == newCode + content;
  }

  /**
   * Without an exact occurrence, the change is applied exactly when the best window's
   * score is above one half; a score of exactly one half, or a file with fewer lines
   * than the snippet, is a failure.
   */
  lemma FuzzyThreshold(content: string, oldCode: string, newCode: string)
    requires !Contains(content, oldCode)
    ensures var snippet := OldLines(oldCode);
      var lines := Split(content, '\n');
      && (Resolve(content, oldCode, newCode).Some? <==> 2 * BestWindow(lines, snippet).score > |snippet|)
      && (|lines| < |snippet| ==> Resolve(content, oldCode, newCode).None?)
      && (2 * BestWindow(lines, snippet).score == |snippet| ==> Resolve(content, oldCode, newCode).None?)
  {
  }

  /**
   * On a fuzzy success the new text, split into lines again, is exactly the lines before
   * the earliest best window, `new_code`'s lines, and the lines after the window; every
   * window before it scored strictly lower, and none scored higher.
   */
  lemma FuzzySplice(content: string, oldCode: string, newCode: string)
    requires !Contains(content, oldCode) && Resolve(content, oldCode, newCode).Some?
    ensures var snippet := OldLines(oldCode);
      var lines := Split(content, '\n');
      var best := BestWindow(lines, snippet);
      && 0 <= best.start && best.start + |snippet| <= |lines|
      && 2 * Matches(lines, snippet, best.start) > |snippet|
      && (forall j :: 0 <= j < best.start ==> Matches(lines, snippet, j) < best.score)
      && (forall j :: 0 <= j < Windows(lines, snippet) ==> Matches(lines, snippet, j) <= best.score)
      && Split(Resolve(content, oldCode, newCode).value, '\n') == Splice(lines, best.start, |snippet|, newCode)
  {
    var snippet, lines := OldLines(oldCode), Split(content, '\n');
    var best := BestWindow(lines, snippet);
    FuzzySuccessResolves(content, oldCode, newCode);
    BestUpToIsEarliestMax(lines, snippet, Windows(lines, snippet));
    SpliceRoundTrip(lines, best.start, |snippet|, newCode);
  }

  /** Splicing lines without newlines and joining them: splitting the text again gives the splice back. */
  lemma SpliceRoundTrip(lines: seq<string>, start: nat, width: nat, newCode: string)
    requires start + width <= |lines|
    requires forall k :: 0 <= k < |lines| ==> '\n' !in lines[k]
    ensures Split(Join(Splice(lines, start, width, newCode), '\n'), '\n') == Splice(lines, start, width, newCode)
  {
    var parts := Splice(lines, start, width, newCode);
    var pre, mid, post := lines[..start], Split(newCode, '\n'), lines[start + width..];
    assert parts == pre + mid + post;
    forall k | 0 <= k < |parts|
      ensures '\n' !in parts[k]
    {
      if k < |pre| {
        assert parts[k] == lines[k];
      } else if k < |pre| + |mid| {
        assert parts[k] == mid[k - |pre|];
      } else {
        assert parts[k] == lines[start + width + (k - |pre| - |mid|)];
      }
    }
    SplitJoin(parts, '\n');
  }

  // ---------------------------------------------------------------------------
  // The working tree and apply_change_to_file
  // ---------------------------------------------------------------------------

  /** `file_path.lstrip('/')`: the path below the clone directory. */
  function Key(filePath: string): (k: string)
    ensures k == [] || k[0] != '/'
  {
    LStripChar(filePath, '/')
  }

  /** The returned triple `(success, old_content, new_content)`. */
  datatype Outcome = Outcome(success: bool, oldContent: string, newContent: string)

  /**
   * What `apply_change_to_file` returns: `(False, "", "")` for a missing file,
   * `(False, original, original)` when no replacement is found, and otherwise
   * `(True, original, replaced)`.
   */
  function ApplyOutcome(files: map<string, string>, filePath: string, oldCode: string, newCode: string): Outcome {
    var key := Key(filePath);
    if key !in files then Outcome(false, "", "")
    else
      match Resolve(files[key], oldCode, newCode)
      case Some(c) => Outcome(true, files[key], c)
      case None => Outcome(false, files[key], files[key])
  }

  /** The tree after the call: only a successful call writes, and only its own file. */
  function FilesAfter(files: map<string, string>, filePath: string, o: Outcome): map<string, string> {
    if o.success then files[Key(filePath) := o.newContent] else files
  }

  /** A missing file: `(False, "", "")`, nothing written. */
  lemma MissingFileFails(files: map<string, string>, filePath: string, oldCode: string, newCode: string)
    requires Key(filePath) !in files
    ensures ApplyOutcome(files, filePath, oldCode, newCode) == Outcome(false, "", "")
    ensures FilesAfter(files, filePath, ApplyOutcome(files, filePath, oldCode, newCode)) == files
  {
  }

  lemma ExactResolves(content: string, oldCode: string, newCode: string)
    requires Contains(content, oldCode)
    ensures Resolve(content, oldCode, newCode) == Some(ReplaceFirst(content, oldCode, newCode))
  {
  }

  lemma FuzzyFailureResolves(content: string, oldCode: string, newCode: string)
    requires !Contains(content, oldCode)
    requires 2 * BestWindow(Split(content, '\n'), OldLines(oldCode)).score <= |OldLines(oldCode)|
    ensures Resolve(content, oldCode, newCode) == None
  {
  }

  /** An exact occurrence always succeeds and the file then holds the replaced text. */
  lemma ExactMatchApplies(files: map<string, string>, filePath: string, oldCode: string, newCode: string)
    requires Key(filePath) in files && Contains(files[Key(filePath)], oldCode)
    ensures var content := files[Key(filePath)];
      var o := ApplyOutcome(files, filePath, oldCode, newCode);
      && o == Outcome(true, content, ReplaceFirst(content, oldCode, newCode))
      && FilesAfter(files, filePath, o) == files[Key(filePath) := o.newContent]
  {
    var content := files[Key(filePath)];
    ExactResolves(content, oldCode, newCode);
    var o := ApplyOutcome(files, filePath, oldCode, newCode);
    assert o == Outcome(true, content, ReplaceFirst(content, oldCode, newCode));
    SuccessWrites(files, filePath, o);
  }

  lemma SameValueUpdate(m: map<string, string>, k: string, v: string)
    requires k in m && m[k] == v
    ensures m[k := v] == m
  {
  }

  lemma SuccessWrites(files: map<string, string>, filePath: string, o: Outcome)
    requires o.success
    ensures FilesAfter(files, filePath, o) == files[Key(filePath) := o.newContent]
  {
  }

  /**
   * Without an exact occurrence and without a window scoring above one half, the call
   * returns `(False, original, original)` and writes nothing.
   */
  lemma FuzzyFailureLeavesFile(files: map<string, string>, filePath: string, oldCode: string, newCode: string)
    requires Key(filePath) in files
    requires !Contains(files[Key(filePath)], oldCode)
    requires 2 * BestWindow(Split(files[Key(filePath)], '\n'), OldLines(oldCode)).score <= |OldLines(oldCode)|
    ensures var content := files[Key(filePath)];
      var o := ApplyOutcome(files, filePath, oldCode, newCode);
      && o == Outcome(false, content, content)
      && FilesAfter(files, filePath, o) == files
  {
    FuzzyFailureResolves(files[Key(filePath)], oldCode, newCode);
    UnresolvedLeavesFile(files, filePath, oldCode, newCode);
  }

  lemma UnresolvedLeavesFile(files: map<string, string>, filePath: string, oldCode: string, newCode: string)
    requires Key(filePath) in files && Resolve(files[Key(filePath)], oldCode, newCode).None?
    ensures var content := files[Key(filePath)];
      var o := ApplyOutcome(files, filePath, oldCode, newCode);
      && o == Outcome(false, content, content)
      && FilesAfter(files, filePath, o) == files
  {
    UnresolvedOutcome(files, filePath, oldCode, newCode);
    FailureWritesNothing(files, filePath, ApplyOutcome(files, filePath, oldCode, newCode));
  }

  lemma UnresolvedOutcome(files: map<string, string>, filePath: string, oldCode: string, newCode: string)
    requires Key(filePath) in files && Resolve(files[Key(filePath)], oldCode, newCode).None?
    ensures ApplyOutcome(files, filePath, oldCode, newCode) == Outcome(false, files[Key(filePath)], files[Key(filePath)])
  {
  }

  lemma FailureWritesNothing(files: map<string, string>, filePath: string, o: Outcome)
    requires !o.success
    ensures FilesAfter(files, filePath, o) == files
  {
  }

  /** A window scoring above one half: the call succeeds with the spliced text and writes it. */
  lemma FuzzySuccessApplies(files: map<string, string>, filePath: string, oldCode: string, newCode: string)
    requires Key(filePath) in files
    requires !Contains(files[Key(filePath)], oldCode)
    requires 2 * BestWindow(Split(files[Key(filePath)], '\n'), OldLines(oldCode)).score > |OldLines(oldCode)|
    ensures var content := files[Key(filePath)];
      var snippet, lines := OldLines(oldCode), Split(content, '\n');
      var best := BestWindow(lines, snippet);
      var o := ApplyOutcome(files, filePath, oldCode, newCode);
      && 0 <= best.start && best.start + |snippet| <= |lines|
      && o == Outcome(true, content, Join(Splice(lines, best.start, |snippet|, newCode), '\n'))
      && FilesAfter(files, filePath, o) == files[Key(filePath) := o.newContent]
  {
    var content := files[Key(filePath)];
    FuzzySuccessResolves(content, oldCode, newCode);
    var o := ApplyOutcome(files, filePath, oldCode, newCode);
    SuccessWrites(files, filePath, o);
  }

  lemma FuzzySuccessResolves(content: string, oldCode: string, newCode: string)
    requires !Contains(content, oldCode)
    requires 2 * BestWindow(Split(content, '\n'), OldLines(oldCode)).score > |OldLines(oldCode)|
    ensures var snippet, lines := OldLines(oldCode), Split(content, '\n');
      var best := BestWindow(lines, snippet);
      && 0 <= best.start && best.start + |snippet| <= |lines|
      && Resolve(content, oldCode, newCode) == Some(Join(Splice(lines, best.start, |snippet|, newCode), '\n'))
  {
  }

  /** A proposal, as the JSON object the agent returns; absent keys are None. */
  datatype Change = Change(
    file: Option<string>,
    oldCode: Option<string>,
    newCode: Option<string>,
    action: Option<string>,
    explanation: Option<string>)

  /** `d.get(key, default)` for one field. */
  function Get(o: Option<string>, default: string): string {
    if o.Some? then o.value else default
  }

  function ActionOf(c: Change): string {
    Get(c.action, "modify")
  }

  datatype Status = Success | Failed

  /** One element of `applied_changes`; `explanation` and `reason` are present only where the source sets them. */
  datatype LedgerEntry = LedgerEntry(
    file: string,
    action: string,
    status: Status,
    explanation: Option<string>,
    reason: Option<string>)

  const FailureReason: string := "Could not apply change"

  /** The five fragments a `create` contributes. */
  function CreateParts(filePath: string, newCode: string): (parts: seq<string>)
    ensures |parts| == 5 && parts[2] == "--- /dev/null\n"
  {
    [ "diff --git a/" + filePath + " b/" + filePath + "\n",
      "new file mode 100644\n",
      "--- /dev/null\n",
      "+++ b/" + filePath + "\n",
      "+" + newCode + "\n" ]
  }

  /** The tree, the ledger and the patch fragments while the proposals are run. */
  datatype PatchState = PatchState(files: map<string, string>, ledger: seq<LedgerEntry>, parts: seq<string>)

  /**
   * One turn of the loop in `generate_patch_from_agent`; `diff` stands for
   * `create_unified_diff(snippet, new, path, path)`.
   */
  function Step(s: PatchState, c: Change, diff: (string, string, string) -> string): PatchState {
    var fp := Get(c.file, "");
    var newCode := Get(c.newCode, "");
    var action := ActionOf(c);
    if action == "create" then
      PatchState(
        s.files[Key(fp) := newCode],
        s.ledger + [LedgerEntry(fp, "create", Success, None, None)],
        s.parts + CreateParts(fp, newCode))
    else if action == "delete" then
      PatchState(s.files - {Key(fp)}, s.ledger + [LedgerEntry(fp, "delete", Success, None, None)], s.parts)
    else if action == "modify" then
      Record(s, fp, Get(c.explanation, ""), ApplyOutcome(s.files, fp, Get(c.oldCode, ""), newCode), diff)
    else s
  }

  /** The bookkeeping after `apply_change_to_file` returned `o` for a modify. */
  function Record(s: PatchState, fp: string, explanation: string, o: Outcome, diff: (string, string, string) -> string): PatchState {
    if o.success then
      var d := diff(o.oldContent, o.newContent, fp);
      PatchState(
        FilesAfter(s.files, fp, o),
        s.ledger + [LedgerEntry(fp, "modify", Success, Some(explanation), None)],
        if d != "" then s.parts + [d] else s.parts)
    else
      PatchState(s.files, s.ledger + [LedgerEntry(fp, "modify", Failed, None, Some(FailureReason))], s.parts)
  }

  /** The state after running `changes` in order from `files`. */
  function Run(files: map<string, string>, changes: seq<Change>, diff: (string, string, string) -> string): PatchState {
    if changes == [] then PatchState(files, [], [])
    else Step(Run(files, changes[..|changes| - 1], diff), changes[|changes| - 1], diff)
  }

  /** `"".join(parts)`. */
  function Concat(parts: seq<string>): string {
    if parts == [] then "" else Concat(parts[..|parts| - 1]) + parts[|parts| - 1]
  }

  function Header(timestamp: string): string {
    "# Bug Fix Patch\n# Generated: " + timestamp + "\n# Issue: See PRD for details\n\n"
  }

  /** The text written to `generated.patch`. */
  function PatchDocument(timestamp: string, parts: seq<string>): (doc: string)
    ensures Header(timestamp) <= doc
  {
    Header(timestamp) + Concat(parts)
  }

  /** The changes whose action is one of the three the loop handles, in input order. */
  function Recognized(changes: seq<Change>): (r: seq<Change>)
    ensures |r| <= |changes|
  {
    if changes == [] then []
    else
      var c := changes[|changes| - 1];
      Recognized(changes[..|changes| - 1]) + (if ActionOf(c) in {"create", "delete", "modify"} then [c] else [])
  }

  /** `len([c for c in applied_changes if c.get("status") == status])`. */
  function CountStatus(ledger: seq<LedgerEntry>, status: Status): (n: nat)
    ensures n <= |ledger|
  {
    if ledger == [] then 0
    else CountStatus(ledger[..|ledger| - 1], status) + (if ledger[|ledger| - 1].status == status then 1 else 0)
  }

  /** Every ledger entry is counted as successful or as failed, never both. */
  lemma {:induction false} CountsPartition(ledger: seq<LedgerEntry>)
    ensures CountStatus(ledger, Success) + CountStatus(ledger, Failed) == |ledger|
  {
    if ledger != [] {
      CountsPartition(ledger[..|ledger| - 1]);
    }
  }

  /** What the ledger entry for a recognised change says. */
  predicate EntryFor(e: LedgerEntry, c: Change) {
    && e.file == Get(c.file, "")
    && e.action == ActionOf(c)
    && (e.action == "delete" || e.action == "create" ==> e.status == Success && e.reason.None?)
    && (e.status == Failed <==> e.reason == Some(FailureReason))
    && (e.status == Failed ==> e.action == "modify" && e.explanation.None?)
    && (e.status == Success && e.action == "modify" ==> e.explanation == Some(Get(c.explanation, "")))
  }

  /** One step adds the entry for a recognised change and nothing for any other. */
  lemma StepLedger(s: PatchState, c: Change, diff: (string, string, string) -> string)
    ensures ActionOf(c) in {"create", "delete", "modify"} ==>
      |Step(s, c, diff).ledger| == |s.ledger| + 1
      && Step(s, c, diff).ledger[..|s.ledger|] == s.ledger
      && EntryFor(Step(s, c, diff).ledger[|s.ledger|], c)
    ensures ActionOf(c) !in {"create", "delete", "modify"} ==> Step(s, c, diff).ledger == s.ledger
  {
    if ActionOf(c) == "modify" {
      var fp := Get(c.file, "");
      ModifyIsRecord(s, c, diff);
      RecordLedger(s, fp, Get(c.explanation, ""), ApplyOutcome(s.files, fp, Get(c.oldCode, ""), Get(c.newCode, "")), diff);
    }
  }

  /** The entry a modify leaves, whatever the outcome. */
  lemma RecordLedger(s: PatchState, fp: string, explanation: string, o: Outcome, diff: (string, string, string) -> string)
    ensures Record(s, fp, explanation, o, diff).ledger == s.ledger + [
      if o.success then LedgerEntry(fp, "modify", Success, Some(explanation), None)
      else LedgerEntry(fp, "modify", Failed, None, Some(FailureReason))]
  {
  }

  /**
   * The ledger has one entry per recognised change, in input order; deletes and creates
   * always succeed, a failure is a modify with the fixed reason, and any other action
   * leaves no trace.
   */
  lemma {:induction false} LedgerSpec(files: map<string, string>, changes: seq<Change>, diff: (string, string, string) -> string)
    ensures var ledger := Run(files, changes, diff).ledger;
      var rec := Recognized(changes);
      && |ledger| == |rec|
      && forall k :: 0 <= k < |ledger| ==> EntryFor(ledger[k], rec[k])
  {
    if changes != [] {
      var init, c := changes[..|changes| - 1], changes[|changes| - 1];
      LedgerSpec(files, init, diff);
      var s := Run(files, init, diff);
      StepLedger(s, c, diff);
      var ledger := Run(files, changes, diff).ledger;
      var rec := Recognized(changes);
      assert rec == Recognized(init) + (if ActionOf(c) in {"create", "delete", "modify"} then [c] else []);
      forall k | 0 <= k < |ledger|
        ensures EntryFor(ledger[k], rec[k])
      {
        if k < |s.ledger| {
          assert ledger[k] == s.ledger[k];
          assert rec[k] == Recognized(init)[k];
        }
      }
    }
  }

  /** A delete leaves the patch fragments as they were and removes the file if present. */
  lemma DeleteEmitsNothing(s: PatchState, c: Change, diff: (string, string, string) -> string)
    requires ActionOf(c) == "delete"
    ensures Step(s, c, diff).parts == s.parts
    ensures Step(s, c, diff).files == s.files - {Key(Get(c.file, ""))}
    ensures Step(s, c, diff).ledger == s.ledger + [LedgerEntry(Get(c.file, ""), "delete", Success, None, None)]
  {
  }

  /** A create writes `new_code` and appends the five-part header that starts from /dev/null. */
  lemma CreateEmitsNewFileHeader(s: PatchState, c: Change, diff: (string, string, string) -> string)
    requires ActionOf(c) == "create"
    ensures var t := Step(s, c, diff);
      && t.parts == s.parts + CreateParts(Get(c.file, ""), Get(c.newCode, ""))
      && Key(Get(c.file, "")) in t.files && t.files[Key(Get(c.file, ""))] == Get(c.newCode, "")
  {
  }

  /** A proposal with an unknown action changes nothing at all. */
  lemma UnknownActionIgnored(s: PatchState, c: Change, diff: (string, string, string) -> string)
    requires ActionOf(c) !in {"create", "delete", "modify"}
    ensures Step(s, c, diff) == s
  {
  }

  /**
   * A modify that leaves the text as it was (say, `old_code == new_code` matched exactly)
   * adds no fragment, given only that the diff of equal texts is empty.
   */
  lemma UnchangedModifyEmitsNothing(s: PatchState, c: Change, diff: (string, string, string) -> string)
    requires forall a, p :: diff(a, a, p) == ""
    requires ActionOf(c) == "modify"
    requires Get(c.oldCode, "") == Get(c.newCode, "")
    requires Key(Get(c.file, "")) in s.files && Contains(s.files[Key(Get(c.file, ""))], Get(c.oldCode, ""))
    ensures Step(s, c, diff).parts == s.parts
    ensures Step(s, c, diff).files == s.files
    ensures Step(s, c, diff).ledger
      == s.ledger + [LedgerEntry(Get(c.file, ""), "modify", Success, Some(Get(c.explanation, "")), None)]
  {
    var fp := Get(c.file, "");
    var content := s.files[Key(fp)];
    var code := Get(c.oldCode, "");
    ReplaceFirstKeepsRest(content, code, code, Find(content, code).value);
    ExactResolves(content, code, code);
    var o := ApplyOutcome(s.files, fp, code, code);
    assert o == Outcome(true, content, content);
    ModifyIsRecord(s, c, diff);
    UnchangedRecord(s, fp, Get(c.explanation, ""), o, diff);
  }

  lemma ModifyIsRecord(s: PatchState, c: Change, diff: (string, string, string) -> string)
    requires ActionOf(c) == "modify"
    ensures var fp := Get(c.file, "");
      Step(s, c, diff) == Record(s, fp, Get(c.explanation, ""), ApplyOutcome(s.files, fp, Get(c.oldCode, ""), Get(c.newCode, "")), diff)
  {
  }

  lemma UnchangedRecord(s: PatchState, fp: string, explanation: string, o: Outcome, diff: (string, string, string) -> string)
    requires forall a, p :: diff(a, a, p) == ""
    requires o.success && o.oldContent == o.newContent
    requires Key(fp) in s.files && s.files[Key(fp)] == o.newContent
    ensures Record(s, fp, explanation, o, diff).parts == s.parts
    ensures Record(s, fp, explanation, o, diff).files == s.files
    ensures Record(s, fp, explanation, o, diff).ledger == s.ledger + [LedgerEntry(fp, "modify", Success, Some(explanation), None)]
  {
    assert diff(o.oldContent, o.newContent, fp) == "";
    SameValueUpdate(s.files, Key(fp), o.newContent);
    SuccessWrites(s.files, fp, o);
  }

  // ---------------------------------------------------------------------------
  // The stateful working tree
  // ---------------------------------------------------------------------------

  /** The cloned repository: path below the clone directory to file text. */
  class WorkingTree {
    var files: map<string, string>

    constructor(files0: map<string, string>)
      ensures files == files0
    {
      files := files0;
    }

    /** `apply_change_to_file`: resolves the snippet and writes the file on success. */
    method ApplyChangeToFile(filePath: string, oldCode: string, newCode: string)
      returns (success: bool, oldContent: string, newContent: string)
      modifies this
      ensures Outcome(success, oldContent, newContent) == ApplyOutcome(old(files), filePath, oldCode, newCode)
      ensures files == FilesAfter(old(files), filePath, Outcome(success, oldContent, newContent))
    {
      var key := Key(filePath);
      if key !in files {
        MissingFileFails(files, filePath, oldCode, newCode);
        return false, "", "";
      }
      var original := files[key];
      if Contains(original, oldCode) {
        ExactMatchApplies(files, filePath, oldCode, newCode);
        var replaced := ReplaceFirst(original, oldCode, newCode);
        files := files[key := replaced];
        return true, original, replaced;
      }
      var snippet := OldLines(oldCode);
      var lines := Split(original, '\n');
      var bestStart, bestScore := FindBestWindow(lines, snippet);
      if 2 * bestScore > |snippet| {
        FuzzySuccessApplies(files, filePath, oldCode, newCode);
        var replaced := Join(Splice(lines, bestStart, |snippet|, newCode), '\n');
        files := files[key := replaced];
        return true, original, replaced;
      }
      FuzzyFailureLeavesFile(files, filePath, oldCode, newCode);
      return false, original, original;
    }

    /**
     * `generate_patch_from_agent`: runs the proposals in order against the tree and
     * returns the patch document and the ledger.
     */
    method GeneratePatch(changes: seq<Change>, diff: (string, string, string) -> string, timestamp: string)
      returns (patch: string, applied: seq<LedgerEntry>)
      modifies this
      ensures var r := Run(old(files), changes, diff);
        && files == r.files
        && applied == r.ledger
        && patch == PatchDocument(timestamp, r.parts)
    {
      var parts: seq<string> := [];
      applied := [];
      for i := 0 to |changes|
        invariant Run(old(files), changes[..i], diff) == PatchState(files, applied, parts)
      {
        assert changes[..i + 1][..i] == changes[..i];
        var c := changes[i];
        var fp := Get(c.file, "");
        var newCode := Get(c.newCode, "");
        var action := ActionOf(c);
        if action == "create" {
          files := files[Key(fp) := newCode];
          applied := applied + [LedgerEntry(fp, "create", Success, None, None)];
          parts := parts + CreateParts(fp, newCode);
        } else if action == "delete" {
          files := files - {Key(fp)};
          applied := applied + [LedgerEntry(fp, "delete", Success, None, None)];
        } else if action == "modify" {
          var success, oldContent, newContent := ApplyChangeToFile(fp, Get(c.oldCode, ""), newCode);
          if success {
            applied := applied + [LedgerEntry(fp, "modify", Success, Some(Get(c.explanation, "")), None)];
            var d := diff(oldContent, newContent, fp);
            if d != "" {
              parts := parts + [d];
            }
          } else {
            applied := applied + [LedgerEntry(fp, "modify", Failed, None, Some(FailureReason))];
          }
        }
      }
      assert changes[..|changes|] == changes;
      patch := Header(timestamp) + Concat(parts);
    }
  }
}
