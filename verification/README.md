# bugout core, modelled in Dafny

This is a model of the deterministic core of *bugout*. Bugout is a toolchain that does four things:

- collects the comments of a GitHub issue;
- aggregates the bug features extracted from them into frequency tables and a PRD summary;
- has an agent propose code edits and assembles them into a patch;
- picks a reviewer from competence checks.

The model covers the list-and-string logic of that pipeline and proves what it promises.

- **Edit application and patch assembly** (`PatchCreator`, after `qwen/patch_creator.py`).
  - `apply_change_to_file` is a method on a `WorkingTree` class whose `files` map stands for the clone directory.
    - It first replaces only the first exact occurrence of `old_code`.
    - Otherwise it slides a window of the stripped `old_code`'s line count over the file's lines and scores each window by its trimmed-equal lines.
    - It then splices `new_code` into the earliest best window, but only when the score is strictly above one half.
  - `generate_patch_from_agent` is the method `GeneratePatch`. It runs the proposals in order and builds the ledger of results and the patch fragments.
  - It is proved equal to the pure fold `Run`, about which the ledger properties are proved.
- **Bug-report aggregation** (`Frequency`, `BugAnalysis`).
  - There are three near-identical copies: `analyze_issue` in `mcp.py` and `bugout.py`, and `analyze_bug_reports` in `qwen/prd_generator.py`.
  - They are one definition with a `Variant` switch:
    - `StringifyAll` is mcp.py and bugout.py;
    - `DropFalsy` is qwen/prd_generator.py.
  - `Counter.most_common()` is a stable sort by descending count over the keys in first-seen order.
  - The model also covers the five-entry truncation of `generate_prd`.
- **Issue participants** (`IssueRows`): the row flattening of `fetch_issue_comments`, `find_commenters`, and `extract_commenters_from_issue`, all on parsed JSON.
- **Reviewer selection** (`Reviewers`):
  - the two `get_best_reviewer` scans;
  - the two `check_reviewers_bulk` loops;
  - `check_reviewer_competence` of `review_checker.py` once its scout call has returned.
- **Log capture** (`LogCapture`): the `CapturingWriter` class of `qwen/bugout_gui.py`, a line buffer that queues complete non-blank lines.

`PyStr` gives Python's string operations their Python meaning:

- `isspace` over the Unicode whitespace set;
- `strip`, `lstrip(c)`, `split`, `join`, `in`/`find` and `replace(..., 1)`;
- string `<`;
- `str(int)`.

`Seqs` holds the "append if not yet seen" deduplication. `Wrappers` holds `Option` and `Result`.

Two behaviours of the code are easy to misread, and the model follows the code in both:

- **Text fields.** A design that never fails on odd input would skip a text field whose value is not a string, as `qwen/prd_generator.py:57` does. But `mcp.py:115` and `bugout.py:252` call `.strip()` on whatever a present text field holds. A `None`, number or boolean there raises `AttributeError`. The model returns `Err("AttributeError")` exactly then (`AnalysisFailsIff`).
- **Crash-rate denominator.** It is not "the reports whose `crash` is present and boolean".
  - `mcp.py:121-122` and `bugout.py:258-259` divide by all reports and count truthy flags.
  - `qwen/prd_generator.py:63-65` reads a missing `crash` as `False`. That is a bool, so such a report is in the denominator.

## Model

| member | source | states |
|---|---|---|
| PyStr.StripTrims | mcp.py:115 | `strip()` leaves no whitespace at either end and never lengthens the text |
| PyStr.StripLeadingSplits | mcp.py:115 | the leading strip cuts off a prefix of whitespace only and keeps the rest as it was |
| PyStr.StripTrailingSplits | mcp.py:115 | the trailing strip cuts off a suffix of whitespace only and keeps the rest as it was |
| PyStr.StripTrimmed | qwen/patch_creator.py:109 | `strip()` leaves a text without surrounding whitespace unchanged |
| PyStr.StripIdempotent | qwen/prd_generator.py:57 | stripping an already stripped text changes nothing |
| PyStr.StripEmptyIffBlank | qwen/bugout_gui.py:134 | `line.strip()` is empty exactly when every character of the line is whitespace |
| PyStr.LStripChar | qwen/patch_creator.py:84 | `lstrip('/')` drops exactly the leading slashes: the result is a suffix that does not start with '/', and everything cut off was '/' |
| PyStr.IndexOfChar | qwen/bugout_gui.py:133 | the first occurrence of a character: the character is there and at no earlier index |
| PyStr.Split | qwen/patch_creator.py:100-101 | `split('\n')` gives at least one piece and no piece holds the separator |
| PyStr.JoinSplit | qwen/patch_creator.py:101 | joining the pieces of a split with the separator gives the text back |
| PyStr.IndexAfterPrefix | qwen/bugout_gui.py:133 | the first newline of `p + "\n" + t` is the one right after `p` when `p` has none |
| PyStr.SplitJoin | qwen/patch_creator.py:118-119 | splitting a join of separator-free pieces gives the pieces back |
| PyStr.Terminated | qwen/bugout_gui.py:130-136 | definition: each line followed by a newline; its properties are in PyStr.TerminatedSnoc and PyStr.JoinAsTerminated |
| PyStr.TerminatedSnoc | qwen/prd_generator.py:139-140 | writing one more line appends that line and its newline at the end |
| PyStr.JoinAsTerminated | qwen/bugout_gui.py:133 | joining pieces with newlines is writing all pieces but the last as newline-ended lines, then the last |
| PyStr.FindFrom | qwen/patch_creator.py:95 | the search returns an index where the pattern occurs with no occurrence before it, or reports that it occurs nowhere |
| PyStr.Find | qwen/patch_creator.py:95 | `old_code in content` / `find`: the first occurrence, or none at all |
| PyStr.EmptyOccursFirst | qwen/patch_creator.py:95 | the empty snippet occurs in every text, at index 0 |
| PyStr.ReplaceFirstKeepsRest | qwen/patch_creator.py:96 | `replace(old, new, 1)` puts `new` at the first occurrence and keeps every character before and after it; the original is recoverable from the result |
| PyStr.LexLessIrreflexive | qwen/reviewer_checker_wrapper.py:204 | Python string `<` is irreflexive |
| PyStr.LexLessTransitive | qwen/reviewer_checker_wrapper.py:204 | Python string `<` is transitive |
| PyStr.LexLessTotal | qwen/reviewer_checker_wrapper.py:204 | of two different strings one is smaller, so `sorted` has one answer |
| PyStr.NatToString | qwen/prd_generator.py:17 | `str` of a natural number is a non-empty string of decimal digits |
| PyStr.IntToString | qwen/prd_generator.py:17 | `str` of an integer is non-empty |
| Seqs.FirstIndex | mcp.py:116 | the index of the first occurrence, `|s|` exactly when the value is absent |
| Seqs.FirstSeen | mcp.py:113-117 | the `seen` list holds only values of the input, every value of it, each once |
| Seqs.FirstSeenOrder | mcp.py:113-117 | the `seen` list is in order of first appearance in the input |
| Seqs.FirstSeenOrderSnoc | mcp.py:116-117 | appending one value to the input keeps the `seen` list in order of first appearance |
| Seqs.FirstIndexAppend | mcp.py:116 | appending to the input does not move the first occurrence of a value already there |
| Frequency.Str | qwen/prd_generator.py:17 | definition of `str(v)` for a JSON value; its property is in Frequency.StrFalse |
| Frequency.Truthy | qwen/prd_generator.py:17 | definition of the `if v` test; its consequences are in Frequency.CountedStringsMembers and Frequency.FalseListedOnlyForText |
| Frequency.Tallies | mcp.py:78 | the `Counter`: one tally per key, holding that key's number of occurrences |
| Frequency.Insert | mcp.py:79 | one insertion step of the stable sort keeps every entry and adds one |
| Frequency.SortByCount | mcp.py:79 | the sort of `most_common()` is a permutation of the tallies |
| Frequency.MostCommon | mcp.py:78-79 | definition of `Counter(vals).most_common()` as a stable sort by count of the first-seen tallies; its properties are in Frequency.MostCommonSpec and Frequency.MostCommonFirstIsMax |
| Frequency.ComputeFrequency | bugout.py:213-216 | definition of `compute_frequency` (mcp.py:76-79, bugout.py:213-216, qwen/prd_generator.py:15-18, by variant); its properties are in Frequency.ComputeFrequencySpec |
| Frequency.SortOrdered | mcp.py:79 | sorting tallies given in first-seen order yields descending counts with ties in first-seen order |
| Frequency.InsertOrdered | mcp.py:79 | inserting a tally seen earlier than all others keeps the table in that order |
| Frequency.SumCountsSort | mcp.py:79 | sorting does not change the sum of the counts |
| Frequency.SumTalliesFirstSeen | mcp.py:78 | the counts of the `Counter` add up to the number of values counted |
| Frequency.MostCommonCounts | mcp.py:78-79 | each entry of `most_common()` is a counted value with its exact number of occurrences, at least 1 |
| Frequency.MostCommonCovers | mcp.py:78-79 | every counted value appears in `most_common()` |
| Frequency.MostCommonOrdered | mcp.py:79 | `most_common()` is by descending count, ties in first-seen order |
| Frequency.MostCommonSpec | mcp.py:78-79 | `most_common()` lists every distinct value once with its count (at least 1), by descending count, ties in first-seen order; the counts add up to the number of values |
| Frequency.MostCommonFirstIsMax | mcp.py:78-79 | the first entry is a value of maximal count, and the table is empty exactly when there are no values |
| Frequency.ComputeFrequencySpec | qwen/prd_generator.py:15-18 | `compute_frequency` of either variant: descending counts, ties in first-seen order, counts at least 1, no value twice, counts summing to the number of counted values |
| Frequency.CountedStringsMembers | qwen/prd_generator.py:17 | a string is counted exactly when some value that the variant keeps (all of them, or only the truthy ones) stringifies to it |
| Frequency.StrFalse | mcp.py:78 | only the boolean False and the text "False" stringify to "False" |
| Frequency.FalseListedOnlyForText | qwen/prd_generator.py:17 | with falsy values dropped, a False crash flag never appears in the table; when everything is stringified, it does |
| BugAnalysis.FieldValues | mcp.py:107 | `[r.get(field) for r in reports if field in r]`: never more values than reports; its count is in BugAnalysis.CountedStringsOfField |
| BugAnalysis.FieldTableSum | mcp.py:106-108 | the counts of a field's table add up to the reports that hold the field (mcp.py, bugout.py) or hold it with a truthy value (qwen/prd_generator.py:48-50) |
| BugAnalysis.CountedStringsOfField | mcp.py:107 | the values gathered for a field number the reports holding it, or holding it truthy for qwen/prd_generator.py |
| BugAnalysis.TextOf | qwen/prd_generator.py:57 | the text one report contributes is stripped; a non-string value raises in mcp.py/bugout.py and reads as "" in qwen/prd_generator.py |
| BugAnalysis.TextFieldFailsIff | mcp.py:114-115 | a text field raises exactly when some report's value for it raises |
| BugAnalysis.CollectText | mcp.py:112-118 | the `seen` loop raises exactly when a report's value raises, and otherwise returns the text aggregate |
| BugAnalysis.TextAggregateSnoc | bugout.py:252-254 | one more report appends its stripped text exactly when it is non-empty and not yet seen |
| BugAnalysis.TextAggregate | mcp.py:112-118 | definition of one text field's `seen` list; its properties are in BugAnalysis.TextAggregateSpec and BugAnalysis.CollectText |
| BugAnalysis.TextCandidatesSnoc | mcp.py:114-115 | one more report adds its stripped text, or "" where qwen/prd_generator.py:57 skips a non-string |
| BugAnalysis.FailsSnoc | mcp.py:114-115 | the text loop raises on a prefix plus one report exactly when it raised before or that report raises |
| BugAnalysis.FailsExtend | mcp.py:114-115 | once the text loop has raised on a prefix it raises on the whole list |
| BugAnalysis.NonEmpty | mcp.py:116 | the `if v` filter keeps exactly the non-empty texts |
| BugAnalysis.TextAggregateSpec | qwen/prd_generator.py:54-60 | a text aggregate holds only non-empty, trimmed, pairwise distinct texts; it holds every non-empty one, in order of first appearance |
| BugAnalysis.CrashFlag | mcp.py:121 | definition of `r.get("crash", False)`; used by BugAnalysis.CrashCounts and BugAnalysis.NoBoolCrashMeansZero |
| BugAnalysis.CrashCounts | mcp.py:121-122 | crashes never exceed the reports considered, which are all reports in mcp.py/bugout.py and at most all in qwen/prd_generator.py |
| BugAnalysis.CrashRatePct | qwen/prd_generator.py:65 | the crash rate lies in [0, 100]; it is 0 with nothing considered or no crash, and 100 exactly when every considered report crashed |
| BugAnalysis.NoBoolCrashMeansZero | qwen/prd_generator.py:63-65 | without a bool-typed crash flag qwen/prd_generator.py considers no report |
| BugAnalysis.FirstMaxIndex | qwen/prd_generator.py:69 | `max(d, key=d.get)`: an entry of maximal count with every earlier entry strictly smaller |
| BugAnalysis.FirstMaxOfDescending | bugout.py:262-263 | in a table sorted by descending count the first maximum is the first entry |
| BugAnalysis.DominantLevel | qwen/prd_generator.py:68-69 | definition of the dominant frustration level ("unknown" for an empty table); its properties are in BugAnalysis.FirstMaxIndex and BugAnalysis.SummarySpec |
| BugAnalysis.TopValue | mcp.py:133-135 | definition of `table[0][0]` or "unknown"; its properties are in BugAnalysis.TopIsMostFrequent |
| BugAnalysis.TopIsMostFrequent | mcp.py:133-135 | the top value of a table is a most frequent counted value; the table is empty exactly when nothing was counted |
| BugAnalysis.SummaryOf | mcp.py:128-136 | definition of the `prd_summary` block (also bugout.py:265-273, qwen/prd_generator.py:71-79); its properties are in BugAnalysis.SummarySpec |
| BugAnalysis.SummarySpec | mcp.py:128-136 | the summary's id and report count are the inputs'; the crash rate is in [0, 100] and 0 without reports; the dominant frustration level, top platform, top version and primary behaviour are the first entries of their tables ("unknown" for an empty table) |
| BugAnalysis.CountFields | mcp.py:105-108 | the loop over the categorical fields builds one table per field |
| BugAnalysis.FrequencyMapSnoc | mcp.py:106-108 | one more categorical field adds its own table and keeps the others |
| BugAnalysis.SummaryTables | mcp.py:125-135 | the summary reads the tables of user_frustration, platform, software_version and bug_behaviour built by the categorical loop |
| BugAnalysis.CollectTextFields | mcp.py:111-118 | the loop over the text fields raises exactly when some field raises, and otherwise builds one aggregate per field |
| BugAnalysis.TextMapSnoc | mcp.py:112-118 | one more text field adds its own aggregate and keeps the others |
| BugAnalysis.AnalysisOf | mcp.py:97-142 | definition of the whole analysis (also bugout.py:234-279, qwen/prd_generator.py:21-85); its properties are in BugAnalysis.AnalysisFailsIff and BugAnalysis.AnalyzeIssue |
| BugAnalysis.AnalyzeIssue | mcp.py:97-142 | the whole analysis returns exactly the frequency tables, text aggregates and summary of the definitions above, or the exception |
| BugAnalysis.AnalysisFailsIff | bugout.py:252 | qwen/prd_generator.py never raises; mcp.py and bugout.py raise exactly when some report holds a non-string value in a text field |
| BugAnalysis.Shown | qwen/prd_generator.py:139 | `items[:5]` is the first min(5, n) entries |
| BugAnalysis.AppendEntries | qwen/prd_generator.py:139-140 | the loop appends one bullet line per shown entry, in order |
| BugAnalysis.BulletLines | qwen/prd_generator.py:140 | one line `- entry` per entry, in order |
| BugAnalysis.RenderedLines | qwen/prd_generator.py:139-148 | entries without line breaks render as at most five lines, the first five entries |
| PatchCreator.Windows | qwen/patch_creator.py:107-108 | `range(len(lines) - len(old_lines) + 1)` is non-empty exactly when the snippet fits, and its last window ends at the last line |
| PatchCreator.OldLines | qwen/patch_creator.py:100 | `old_code.strip().split('\n')` has at least one line, so the score's division is defined |
| PatchCreator.Matches | qwen/patch_creator.py:109 | a window matches on at most the snippet's line count |
| PatchCreator.MatchesUpTo | qwen/patch_creator.py:109 | a window's match count never exceeds the positions compared |
| PatchCreator.FullMatchIffEqualTrimmed | qwen/patch_creator.py:108-109 | a window matches on every position exactly when all its lines equal the snippet's after trimming |
| PatchCreator.Score | qwen/patch_creator.py:110 | the score `matches / len(old_lines)` lies in [0, 1] |
| PatchCreator.ScoreAsCounts | qwen/patch_creator.py:110-116 | scores compare as match counts do; a score is above 0.5 exactly when twice the count exceeds the line count |
| PatchCreator.HalfCompare | qwen/patch_creator.py:116 | a fraction is above one half exactly when twice its numerator exceeds the denominator |
| PatchCreator.DivCompare | qwen/patch_creator.py:112 | fractions over one positive denominator compare as their numerators |
| PatchCreator.BestUpTo | qwen/patch_creator.py:104-114 | the loop variables after `w` windows: a start in range, -1 exactly when no window matched, and the score of the kept window |
| PatchCreator.BestUpToIsEarliestMax | qwen/patch_creator.py:107-114 | the kept window has the maximal count, every earlier window scored strictly less, and with start -1 every window scored 0 |
| PatchCreator.FindBestWindow | qwen/patch_creator.py:104-114 | the scan's loop computes exactly the earliest best window and its count |
| PatchCreator.Resolve | qwen/patch_creator.py:95-122 | definition of the text `apply_change_to_file` would write, or none; its properties are in PatchCreator.ExactFirstOccurrence, PatchCreator.FuzzyThreshold and PatchCreator.FuzzySplice |
| PatchCreator.ExactFirstOccurrence | qwen/patch_creator.py:95-96 | with an exact occurrence, only the first occurrence is replaced and all text before and after it is kept |
| PatchCreator.EmptyOldCodeInsertsAtStart | qwen/patch_creator.py:95-96 | an empty `old_code` always matches, so `new_code` goes in front of the file |
| PatchCreator.FuzzySuccessResolves | qwen/patch_creator.py:116-119 | no exact occurrence and a best score above 0.5 give the best window in range, with `new_code` spliced in |
| PatchCreator.FuzzyThreshold | qwen/patch_creator.py:116-122 | without an exact occurrence the change applies exactly when the best score is above 0.5; a score of exactly 0.5, or a file shorter than the snippet, fails |
| PatchCreator.FuzzySplice | qwen/patch_creator.py:116-119 | on a fuzzy success the new text's lines are the lines before the earliest best window, `new_code`'s lines, then the lines after it |
| PatchCreator.SpliceRoundTrip | qwen/patch_creator.py:118-119 | the spliced lines joined with '\n' split back into the same lines |
| PatchCreator.Key | qwen/patch_creator.py:84 | the path used in the clone has no leading '/' |
| PatchCreator.UnresolvedLeavesFile | qwen/patch_creator.py:120-122 | an existing file without a replacement is not written |
| PatchCreator.ApplyOutcome | qwen/patch_creator.py:84-128 | definition of the triple `apply_change_to_file` returns; its properties are in PatchCreator.ExactMatchApplies, PatchCreator.FuzzySuccessApplies and PatchCreator.UnresolvedLeavesFile |
| PatchCreator.FilesAfter | qwen/patch_creator.py:124-128 | definition of the clone after the call (only a success writes); its properties are in PatchCreator.WorkingTree.ApplyChangeToFile |
| PatchCreator.ExactMatchApplies | qwen/patch_creator.py:95-128 | an exact occurrence succeeds, and the file then holds the replaced text |
| PatchCreator.FuzzyFailureLeavesFile | qwen/patch_creator.py:116-122 | no window above 0.5 gives `(False, original, original)` and writes nothing |
| PatchCreator.FuzzySuccessApplies | qwen/patch_creator.py:116-128 | a window above 0.5 succeeds with the spliced text, and that text is written |
| PatchCreator.WorkingTree.ApplyChangeToFile | qwen/patch_creator.py:84-128 | the returned triple is the outcome of the definitions above, and only a success writes, only its own file |
| PatchCreator.WorkingTree.constructor | qwen/patch_creator.py:136 | a tree starts with the given clone contents |
| PatchCreator.Step | qwen/patch_creator.py:158-219 | definition of one turn of the loop over the proposals; its properties are in PatchCreator.StepLedger, PatchCreator.DeleteEmitsNothing, PatchCreator.CreateEmitsNewFileHeader and PatchCreator.UnknownActionIgnored |
| PatchCreator.Record | qwen/patch_creator.py:197-219 | definition of the bookkeeping after a modify; its property is in PatchCreator.UnchangedRecord |
| PatchCreator.Run | qwen/patch_creator.py:151-219 | definition of the loop over the proposals as a fold; its properties are in PatchCreator.LedgerSpec and PatchCreator.WorkingTree.GeneratePatch |
| PatchCreator.CreateParts | qwen/patch_creator.py:178-182 | a create contributes five fragments, the third being `--- /dev/null` |
| PatchCreator.Header | qwen/patch_creator.py:222-226 | definition of the fixed patch header with the timestamp; used by PatchCreator.PatchDocument |
| PatchCreator.PatchDocument | qwen/patch_creator.py:222-227 | the patch text starts with the fixed header |
| PatchCreator.CountStatus | qwen/patch_creator.py:255-256 | definition of `len([c for c in applied_changes if c.get("status") == ...])`; its property is in PatchCreator.CountsPartition |
| PatchCreator.CountsPartition | qwen/patch_creator.py:255-256 | the successful and failed counts add up to the ledger's length |
| PatchCreator.UnchangedRecord | qwen/patch_creator.py:201-212 | a success whose text did not change adds a success entry and no fragment, and the tree stays as it was |
| PatchCreator.StepLedger | qwen/patch_creator.py:158-219 | each change with action create, delete or modify appends exactly one entry describing it; any other action appends nothing |
| PatchCreator.LedgerSpec | qwen/patch_creator.py:158-219 | the ledger has one entry per recognised change, in input order; creates and deletes succeed, and a failure is a modify with reason "Could not apply change" |
| PatchCreator.DeleteEmitsNothing | qwen/patch_creator.py:184-193 | a delete always succeeds, removes the file, and adds no patch text |
| PatchCreator.CreateEmitsNewFileHeader | qwen/patch_creator.py:167-182 | a create writes `new_code` and appends the /dev/null header fragments |
| PatchCreator.UnknownActionIgnored | qwen/patch_creator.py:167-219 | an action other than the three changes nothing at all |
| PatchCreator.UnchangedModifyEmitsNothing | qwen/patch_creator.py:195-211 | a modify that leaves the text equal succeeds and adds no fragment, given only that equal texts have an empty diff |
| PatchCreator.WorkingTree.GeneratePatch | qwen/patch_creator.py:151-227 | the loop leaves the tree, ledger and patch text of the fold `Run` over the proposals |
| IssueRows.FlattenIssue | bugout.py:147-172 | the row list is the issue row, then one row per comment in order, each repeating the issue fields and `;`-joined labels; a post without a login raises KeyError |
| IssueRows.FindCommenters | bugout.py:397-410 | each non-empty row author, once |
| IssueRows.RowAuthorsAreParticipants | bugout.py:147-172 | the authors of the flattened rows are exactly the issue's author and commenters |
| IssueRows.InsertSorted | qwen/reviewer_checker_wrapper.py:204 | inserting into a sorted list adds exactly the new name |
| IssueRows.InsertSortedAscending | qwen/reviewer_checker_wrapper.py:204 | insertion keeps a list strictly ascending |
| IssueRows.AscendingDistinct | qwen/reviewer_checker_wrapper.py:204 | a strictly ascending list has no repetitions |
| IssueRows.SortedList | qwen/reviewer_checker_wrapper.py:204 | `sorted(list(s))` is ascending and holds exactly the set's names |
| IssueRows.ExtractCommenters | qwen/reviewer_checker_wrapper.py:178-204 | the result is sorted, without repetitions, and holds exactly the author and the commenters with a non-empty login |
| Reviewers.FirstWhere | qwen/reviewer_checker_wrapper.py:223-225 | a linear scan finds the first result with the property, or none |
| Reviewers.BestReviewer | qwen/reviewer_checker_wrapper.py:218-236 | the first competent result wins, else the first with a scout id, else the first result; None exactly for an empty list |
| Reviewers.BestReviewerIsACandidate | qwen/reviewer_checker_wrapper.py:218-236 | on a non-empty list the chosen name is one of the results' |
| Reviewers.BestScouted | review_checker.py:151-159 | the first result with a truthy scout id wins; None exactly when there is none |
| Reviewers.CheckCompetence | review_checker.py:110-136 | a failed scout creation gives a result for the user without a scout id and not competent; otherwise the result carries the scout's id and competence is still undecided |
| Reviewers.SelectedHasScout | review_checker.py:119-158 | the selected user's scout, as created for that position of the list, has a truthy id; with every creation failing nobody is selected |
| Reviewers.CheckReviewersBulk | review_checker.py:140-148 | one result per username, in input order, each the reply of its own call |
| LogCapture.CompleteLines | qwen/bugout_gui.py:132-133 | the complete lines hold no newline |
| LogCapture.Tail | qwen/bugout_gui.py:132-133 | what stays in the buffer holds no newline |
| LogCapture.LinesThenTail | qwen/bugout_gui.py:130-136 | a text is its complete lines, each followed by a newline, then its tail |
| LogCapture.QueuedMembers | qwen/bugout_gui.py:134-136 | the queued messages are exactly "log" messages of the lines that are not all whitespace |
| LogCapture.QueuedWithoutBlanks | qwen/bugout_gui.py:134-136 | without blank lines every line is queued, in order |
| LogCapture.CapturingWriter.constructor | qwen/bugout_gui.py:121-125 | a new writer has an empty buffer and has queued no messages of its own |
| LogCapture.CapturingWriter.Write | qwen/bugout_gui.py:127-136 | after `write` the buffer is the tail of old buffer + text and has no newline, this writer's queued messages grew by the non-blank complete lines, and old buffer + text is the split-off lines with their newlines followed by the buffer |
| LogCapture.CapturingWriter.TakeLine | qwen/bugout_gui.py:133-136 | one loop round takes off the first line and queues it unless it is blank |
| LogCapture.CapturingWriter.Flush | qwen/bugout_gui.py:138-143 | a non-empty buffer is queued whole and emptied; an empty one changes nothing |

Some lemmas are one-step proof helpers, and their contracts only unfold a definition: PatchCreator.MissingFileFails, ExactResolves, FuzzyFailureResolves, SuccessWrites, UnresolvedOutcome, FailureWritesNothing, RecordLedger and ModifyIsRecord; Seqs.FirstSeenSnoc; BugAnalysis.NonEmptySnoc, SomeFieldFails and NoFieldFails; LogCapture.SplitAtFirst and QueuedSnoc. The table above lists the contracts that carry the claims.

## Left out

- File and process I/O is not modelled:
  - the clone directory is the `files` map, and reading and writing it are map lookups and updates;
  - the `except Exception` path of `apply_change_to_file` (qwen/patch_creator.py:130-132) is not modelled: read and write errors cannot happen on a map, and the type errors it also catches are listed below;
  - `git diff HEAD`, `update_patch_folder`, the JSON dumps and the `gh` calls are left out.
- `create_unified_diff` (qwen/patch_creator.py:32-63) delegates to difflib. It is a function parameter `diff`, and the only fact assumed about it is that equal texts give an empty diff.
- The patch document's timestamp comes from the clock. It is a parameter, and the return value is modelled as the patch text rather than the path of the file holding it.
- Printing and colours are not modelled, including the progress line of qwen/patch_creator.py:165. That line reads `Colors.WHITE`, which the `Colors` class of that file (lines 16-27) does not define. So, as written, the source raises AttributeError at the first change of every non-empty `changes` list, before any file is touched. PatchCreator.WorkingTree.GeneratePatch models the loop as it would run without that print.
- The scout service, LLM calls, polling loops and MCP plumbing are not modelled.
  - The per-user check of qwen/reviewer_checker_wrapper.py is a function parameter of `CheckReviewersBulk`.
  - For review_checker.py, only the scout's reply (`Scout`) is a parameter.
- The wx GUI is single-threaded here: the `threading.Lock` of `CapturingWriter` and the queue's consumer are left out, and the queue is a sequence.
- The crash rate is the exact rational percentage. The final `round(..., 1)` and IEEE float arithmetic are left out.
- JSON typing is simplified:
  - values are `None`, bool, int or string;
  - a post's `author` is a login or missing;
  - the other fields of an issue are assumed present and typed as `gh` returns them.
  - So the KeyError/TypeError of a malformed issue other than a missing login, and the AttributeError of a JSON `null` author in `extract_commenters_from_issue`, are not modelled.
- PatchCreator.Change: a proposal field is a string or missing (read with the source's default); a present non-string value is not represented. In the source a `null` `new_code` or `old_code` makes `apply_change_to_file` raise a TypeError inside its `try`, so the change is recorded as failed with `(False, "", "")`; a `null` `file` raises an uncaught AttributeError at qwen/patch_creator.py:84, 169 or 186 and ends the run. These cases are not modelled.
- PatchCreator.Step: `ActionOf` reads a missing `action` as "modify", as the source does, but a present `null` action, which the source skips, cannot be written in `Change`. A create or delete whose path names a directory (including the default empty path, the clone root) raises an uncaught IsADirectoryError at qwen/patch_creator.py:171 or 188. The model instead records success and writes or removes that key.
- PatchCreator.Key: a path is identified by its text after `lstrip('/')`. Pathlib's normalisation (`./n.py` and `n.py` name one file, and so do `a//b` and `a/b`) is not modelled, so two spellings of one file are two keys here.
- PatchCreator.WorkingTree.ApplyChangeToFile: the file is read as stored. The source reads it with universal newlines and `errors='ignore'` (qwen/patch_creator.py:91), so a successful modify also rewrites CRLF line ends as LF and drops undecodable bytes. That is not modelled.
- Reviewers.CheckReviewersBulk, Reviewers.SelectedHasScout: the network calls are their replies, given per position of the list. Timing, retries and the service's state between calls are not modelled.
- `py.py`, prompt/PRD templating beyond the five-entry truncation, and `_parse_and_log` styling are left out.
- IssueRows.FindCommenters: the source returns `list(set)`, whose order Python leaves unspecified. The contract states membership and distinctness only, not an order.
- PatchCreator.Score: `real` arithmetic stands for Python's float division, so IEEE rounding of the score is not modelled. Scores are compared through integer match counts, which is exact.
