# LLM4Backport core, modelled in Dafny

LLM4Backport ports Linux kernel security fixes from an upstream commit to a
downstream kernel. A language model drives the work through a set of tools.
This project models the deterministic core those tools stand on and proves
what it promises.

The core has three parts.

- **Patch utilities** (`src/tools/utils.py`).
  - `split_patch` cuts a unified diff into single-hunk units. It skips blocks
    whose file names are on the denylist.
  - `find_most_similar_block` finds the window of a file nearest to a hunk's
    old lines by edit distance, then shifts it by a small offset.
  - `revise_patch`, with `revise_block` and `revise_hunk`, repairs a patch
    against the real files: it normalises paths, coerces malformed lines,
    rewrites context lines and recounts hunk headers.
  - `extract_context` and `find_most_similar_files` are also modelled.
- **The backport session** (class `Project` of `src/tools/project.py`).
  - It keeps the flags, the mismatch counter and the list of patches that
    applied.
  - `_validate` runs either the per-hunk apply phase, with relocation of
    missing files and mismatch diagnostics, or the whole-patch phase of
    compile, test case and proof of concept.
  - The session also reads ctags output, searches for the nearest symbol and
    shows windows of files.
- **The pre-judge** (`src/prejudge`). Rule-based gates decide whether a
  commit is worth backporting, in this order:
  - its `Fixes:` tags name commits that exist downstream;
  - some CONFIG option it needs is built for some architecture (from the
    added lines, the `#if` stack around them, the Makefiles, and a dependency
    closure);
  - it touches only supported architectures;
  - the agent's free-text answer, read by keyword rules, is not "no".

## How the model is built

- Each source component is one module, and each module is one file.
  - Pure computations are functions.
  - Loops are methods with invariants, each proved equal to a specification
    function. The properties are lemmas about those functions.
  - `Project`, `PatchParser` and `PreprocessorConditionTracker` update their
    fields in place, so they are classes.
- Helpers that make Python's built-ins explicit:
  - `Text` models the string built-ins: `strip`, `split`, `splitlines`,
    `in`, `replace`, `lower` on ASCII, and `int`/`str`.
  - `PyList` models indexing with negative indices and clamped slices.
  - `Paths` models `os.path.normpath`.
  - `EditDistance` models Levenshtein distance as a recursive definition.
- Regular expressions become deterministic scanners that match exactly what
  the pattern matches.
- Python exceptions become an `Err` result wherever the code catches them or
  lets them end an operation.
- What git, the file system, ctags, the build, test and PoC scripts, and the
  language model answer are inputs:
  - the session's `Env` record: repository, working trees, rename output,
    tags files, the file walk of each working tree, and the symbol
    heuristic of `project.py`;
  - the `Script` outcomes of the build, test and PoC scripts;
  - the `Tree` of Makefiles and sources;
  - the `Deps` map of Kconfig dependencies;
  - the `Commit` record of everything `analyze_and_report` consults.
- A session is built from such an environment. Its constructor fixes its
  reply texts (the constant field `texts`) to those of `project.py`
  (`ProjectSpec.Messages()`), and every reply contract of the session is
  stated in terms of that field.
- The session calls the utilities through `ProjectSpec.Utilities()`. That
  record binds them to the model's own `RevisedPatch`, `ErrorFeedback`,
  `SplitPatchUnits` and `MostSimilarFiles`.

Where the code behaves in a way a reader might not expect, the model follows
the code:

- `_validate` treats any patch that contains "need not ported" as applied,
  not only that exact text.
- `revise_block` checks the `+++` side of every block against
  `--- /dev/null`, so a block that deletes a file fails that assertion, and
  `revise_patch` then returns the whole patch unchanged
  (`Repair.DeletedFileBlockRaises`).
- The tests in `_parse_makefile_for_config` on the line with its spaces
  removed can never hold, because both patterns contain a space
  (`SourceAnalyzer.SpacelessTestsNeverHold`).
- The source scan of `extract_config_conditions` pushes at `#elif` without
  popping, unlike the condition tracker. It therefore ends deeper than the
  tracker (`SourceAnalyzer.ScanElifDeepens`).
- A hunk is "fixed" exactly when its two start numbers differ. The start
  numbers are copied from the input header (`Revise.HunkHeaderReadsBack`).

## Model

| member | source | states |
|---|---|---|
| Text.Find | src/tools/utils.py:237 | `find` gives the first occurrence at or after the start, or -1 exactly when there is none |
| Text.ContainsIff | src/tools/project.py:729 | `p in s` holds exactly when `p` occurs at some position of `s` |
| Text.SkipForward | src/tools/utils.py:103 | the strip scan stops at the first character outside the stripped set, and everything it passed is in the set |
| Text.SkipBackward | src/tools/utils.py:103 | the backward strip scan stops just after the last character outside the set, never below its lower bound |
| Text.RStrip | src/tools/utils.py:264 | `rstrip` keeps a prefix of its input |
| Text.SplitLinesRStripNewline | src/tools/utils.py:264 | `line.rstrip("\n")` keeps every line `splitlines()` gives, so the file lines revise_patch compares are the `splitlines()` lines |
| Text.StripSpec | src/tools/utils.py:103-107 | `strip()` keeps one contiguous piece whose two ends are not whitespace, and everything it cuts off around it is whitespace |
| Text.StripUnchanged | src/tools/utils.py:107 | text that neither starts nor ends with whitespace strips to itself |
| Text.RemoveSpaces | src/tools/utils.py:192 | `re.sub(r"\s+", "", s)` leaves no whitespace and never lengthens its input |
| Text.RemoveSpacesConcat | src/tools/utils.py:192 | deleting whitespace distributes over concatenation |
| Text.RemoveSpacesOfSpaceFree | src/tools/utils.py:192 | text without whitespace is unchanged by the substitution |
| Text.RemoveSpacesOfAllSpace | src/tools/utils.py:192 | text made only of whitespace becomes empty |
| Text.RemoveSpacesOfStripNewline | src/tools/utils.py:191-193 | stripping line feeds off a file line first never changes what the whitespace-free comparison of revise_hunk sees |
| Text.ReplaceAbsent | src/tools/utils.py:258-259 | `replace` leaves text without the pattern unchanged, as for the file header lines whose path is normal |
| Text.ReplaceRemovesPattern | src/tools/utils.py:198 | replacing a one-character pattern by nothing leaves no occurrence of it |
| Text.JoinAppend | src/tools/utils.py:232 | joining one more piece appends the separator and the piece |
| Text.JoinConcat | src/tools/utils.py:341 | joining two non-empty lists is joining each, with the separator between |
| Text.IndexOfChar | src/prejudge/prejudge.py:187 | the first occurrence of a character, or the length when there is none |
| Text.Split | src/tools/project.py:103 | `split(c)` gives at least one piece, no piece holds `c`, and joining the pieces with `c` gives the input back |
| Text.SplitOfJoin | src/tools/project.py:249 | splitting a join whose pieces do not hold the separator gives the pieces back, as `pp.split("\n")` does to the units split_patch joins |
| Text.AfterFirst | src/prejudge/prejudge.py:202 | the text after the first separator exists exactly when the separator occurs |
| Text.BeforeFirst | src/prejudge/prejudge.py:187 | the text before the first separator is a prefix of the input without the separator |
| Text.BeforeFirstAbsent | src/prejudge/prejudge.py:187 | without the separator the whole text is kept |
| Text.FirstLineBreak | src/tools/utils.py:287 | the first line boundary, with no boundary before it |
| Text.SplitLines | src/tools/utils.py:287 | `splitlines()` gives no lines for empty text only, and no line holds a line boundary |
| Text.SplitLinesOfJoin | src/tools/utils.py:264 | for text whose only boundaries are `\n`, `splitlines()` is `split("\n")` without the empty piece a final `\n` leaves |
| Text.LowerChar | src/prejudge/judge_agent.py:225 | lower-casing maps capital ASCII letters to small ones and keeps every other character |
| Text.Lower | src/prejudge/judge_agent.py:225 | `lower()` works character by character and keeps the length |
| Text.LowerIdempotent | src/prejudge/judge_arch.py:94 | lower-casing twice is lower-casing once |
| Text.NatToString | src/tools/utils.py:230 | `str(n)` is a non-empty run of digits without a leading zero whose value is `n` |
| Text.IntToString | src/tools/utils.py:230 | `str(i)` of a negative number is a minus sign and the digits of its magnitude |
| Text.ParseInt | src/prejudge/judge_config.py:46 | `int(s)` succeeds exactly when the stripped text is at least one digit after an optional `-` or `+`, and then gives the digits' value with that sign |
| Text.ParseIntOfIntToString | src/prejudge/judge_config.py:46 | `int(str(i)) == i` for every integer, negative ones included |
| Text.ParseIntOfNatToString | src/prejudge/judge_config.py:46 | `int(str(n)) == n` |
| Text.PadLeft | src/prejudge/judge_tools.py:144 | `f"{i:5d}"` pads with spaces on the left to at least five characters and ends with the digits |
| PyList.PyIndex | src/tools/utils.py:107 | `s[k]` succeeds exactly for `-len(s) <= k < len(s)`, counting from the end for negative `k` |
| PyList.SliceBound | src/tools/utils.py:209 | a slice bound inside the list is kept, a negative one counts from the end, and one past either end is clamped to the length or to 0 |
| PyList.PySlice | src/tools/utils.py:209 | `s[a:b]` never raises; it holds as many elements as the normalised end lies past the normalised start, none if it does not, and they are the list's from the normalised start on |
| EditDistance.Min3 | src/tools/utils.py:88-90 | the least of three distances is one of them and no larger than any |
| EditDistance.LevSelf | src/tools/utils.py:88-90 | a text is at distance zero from itself |
| EditDistance.LevLowerBound | src/tools/utils.py:53 | the distance is at least the difference of the lengths |
| EditDistance.LevUpperBound | src/tools/utils.py:53 | the distance is at most the longer length |
| EditDistance.LevZeroIff | src/tools/utils.py:88-95 | distance zero holds exactly for equal texts |
| EditDistance.LevSymmetric | src/tools/utils.py:53 | the distance does not depend on the order of its arguments |
| Folds.FoldFixes | src/tools/utils.py:269-284 | a successful fold has one output per piece |
| Folds.FoldFixesSnoc | src/tools/utils.py:296-300 | one more piece appends its output and ors its flag, unless an earlier piece or this one raised |
| Folds.FoldFixesSnocOk | src/tools/utils.py:273-277 | a piece that succeeds appends its output and ors its flag into the fix flag |
| Folds.FoldFixesSnocErr | src/tools/utils.py:297 | a piece that raises makes the whole fold raise with its exception |
| Folds.FoldFixesErrStays | src/tools/utils.py:307-311 | once a piece raised, the later pieces do not change the outcome |
| Folds.FoldFixesSpec | src/tools/utils.py:292-306 | the fold succeeds exactly when every piece does; then its outputs are the pieces' outputs in order, and it reports a fix exactly when some piece does |
| Chunks.Cut | src/tools/utils.py:290-300 | `last_line` is -1 or the index of a line already scanned |
| Chunks.CutStep | src/tools/utils.py:293-300 | a marker line closes the open piece, if any, and opens a new one at itself; other lines change nothing |
| Chunks.FirstMarker | src/tools/utils.py:293-295 | the first marker line at or after a position, with none before it |
| Chunks.FlattenAppend | src/tools/utils.py:298 | `fixed_lines += block_lines`: the flattened list grows by the new block |
| Chunks.CutOpen | src/tools/utils.py:290-300 | a piece is open exactly when a marker has been met, and it starts at or after the first one |
| Chunks.CutCovers | src/tools/utils.py:290-300 | while scanning, the closed pieces and the open one are exactly the lines from the first marker on |
| Chunks.CutShaped | src/tools/utils.py:270-278 | every closed piece and the open one start at a marker line and hold no other |
| Chunks.ShapedSnoc | src/tools/utils.py:270-271 | a non-marker line joins the open piece |
| Chunks.PiecesCover | src/tools/utils.py:290-304 | the blocks together are the lines from the first file header on: nothing after it is lost, duplicated or reordered (the lines before it are dropped) |
| Chunks.PiecesShaped | src/tools/utils.py:269-282 | every hunk starts at its `@@` line and every block at its `--- a/` or `--- /dev/null` line, with no other such line inside |
| Chunks.NoMarkerNoPieces | src/tools/utils.py:290-301 | without any marker line there is no piece at all |
| Chunks.FlattenNonEmpty | src/tools/utils.py:298 | a flattened list with a non-empty block is not empty |
| Chunks.CutGrows | src/tools/utils.py:292-300 | scanning further only closes more pieces; those closed so far stay in front, in order |
| Chunks.PiecesExtendCut | src/tools/utils.py:301-304 | the pieces closed during the scan are at the front of all pieces |
| Text.DigitEnd | src/tools/utils.py:227 | `(\d+)` takes the whole run of digits, as in the hunk headers revise_hunk reads and the `+N` numbers of `PatchParser.parse` |
| Headers.Group | src/tools/utils.py:227 | a matched number group is a non-empty run of digits |
| Headers.LineRest | src/tools/utils.py:227 | the `(.*)` group stops before a line feed |
| Headers.MatchFromWellFormed | src/tools/utils.py:227 | every header the pattern finds has four digit groups and a tail without line feed |
| Headers.GroupOf | src/tools/utils.py:227 | a digit run followed by the separator is read as that group |
| Headers.DigitEndOf | src/tools/utils.py:227 | a digit run followed by a non-digit ends where the non-digit starts |
| Headers.MatchAtRendered | src/tools/utils.py:227-230 | a header written with four digit runs matches at its start, keeping the tail up to its first line feed |
| Headers.LineRestWhole | src/tools/utils.py:227 | a tail without line feed is read whole |
| Headers.LineRestThen | src/tools/utils.py:227 | the tail group stops at the first line feed |
| Headers.MatchAtRender | src/tools/utils.py:227-230 | a written well-formed header reads back as itself |
| Headers.MatchAtRenderThen | src/tools/utils.py:230-232 | the hunk lines after the written header do not change how it reads |
| Headers.RenderAppend | src/tools/utils.py:230 | text appended to a written header is appended to its tail group |
| Headers.ParseRender | src/tools/utils.py:227-230 | reading back the header revise_hunk writes gives the same five groups |
| Paths.LeadingSlashes | src/tools/utils.py:238 | normpath keeps no more than two leading slashes |
| Paths.NormPath | src/tools/utils.py:238 | normpath never gives the empty path |
| Paths.FoldClean | src/tools/utils.py:238 | the component loop of normpath leaves only components in normal form |
| Paths.FoldOfClean | src/tools/utils.py:238 | components already in normal form pass through unchanged |
| Paths.NormPathShape | src/tools/utils.py:238 | every normal path is `.` or the kept slashes followed by components in normal form |
| Paths.JoinFirstChar | src/tools/utils.py:238 | a join of non-empty components starts with the first component's first character |
| Paths.SlashedJoin | src/tools/utils.py:238 | one or two leading empty components join into that many slashes |
| Paths.LeadingSlashesOfNormal | src/tools/utils.py:238 | a normal path keeps its count of leading slashes |
| Paths.SplitOfNormal | src/tools/utils.py:238 | splitting a normal path at `/` gives its empty leading pieces and its components |
| Paths.NormPathOfNormal | src/tools/utils.py:238 | a path in normal form is its own normal form |
| Paths.FoldEmpties | src/tools/utils.py:238 | empty components contribute nothing |
| Paths.NormPathIdempotent | src/tools/utils.py:238-249 | normpath is idempotent, so a path fixed once is never fixed again |
| Alignment.Scores | src/tools/utils.py:87-90 | one distance per window that fits, each the distance of the window's joined lines to the joined pattern |
| Alignment.Eligible | src/tools/utils.py:91-93 | a window may be chosen exactly when it fits and, with `dline_flag`, does not start at an added or removed line |
| Alignment.ScanFold | src/tools/utils.py:84-96 | the kept start is 1-based, never below 1 |
| Alignment.ScanFoldIsEarliestMinimum | src/tools/utils.py:87-96 | after any number of windows the loop keeps the earliest allowed window of least distance, and keeps start 1 with an infinite distance exactly when no window was allowed |
| Alignment.ScanFoldFinds | src/tools/utils.py:84-96 | the whole window loop finds the earliest allowed minimum, or none exactly when no window is allowed |
| Alignment.MatchRow | src/tools/utils.py:105-110 | one entry per `j` in `-5 .. 5`, true exactly when the stripped lines are equal at a position Python can index |
| Alignment.LongLines | src/tools/utils.py:102-103 | a pattern line takes part exactly when it is at least three characters long after stripping |
| Alignment.LineOffsets | src/tools/utils.py:101-112 | the offset each pattern line proposes, in order |
| Alignment.MostSimilarBlock | src/tools/utils.py:68-117 | with `dline_flag` the start stays 1-based |
| Alignment.MostSimilarBlockMeetsResult | src/tools/utils.py:68-117 | the result is the earliest best window, 1-based, shifted by the first long pattern line's nearest match unless `dline_flag`; or start 1, shifted the same way, with an infinite distance when no window is allowed |
| Alignment.FindMostSimilarBlock | src/tools/utils.py:68-117 | the two loops compute exactly the value above |
| Alignment.ScanWindows | src/tools/utils.py:84-96 | the window loop computes the fold over every window that fits, for any distance |
| Alignment.RefineStart | src/tools/utils.py:98-115 | the refinement loop moves the start by exactly the shift of the first anchoring line |
| Alignment.ScanOffsets | src/tools/utils.py:101-112 | the loop over `j` gives the line's offset, and `offset_flag` is set exactly when it found one; an index Python cannot take is skipped as the bare `except` does |
| Alignment.OffsetScanStep | src/tools/utils.py:106-110 | one `j` replaces the kept offset exactly when it matches and is strictly closer |
| Alignment.OffsetScanIsClosest | src/tools/utils.py:105-110 | the loop over `j` keeps the matching `j` nearest to `i`, the smallest on a tie, and keeps nothing exactly when no `j` matches |
| Alignment.ClosestStep | src/tools/utils.py:106-110 | one step of the loop over `j` keeps the nearest match |
| Alignment.ShiftWithoutAnchor | src/tools/utils.py:101-115 | without a long line that matches, the start is not moved |
| Alignment.ShiftAtFirstAnchor | src/tools/utils.py:113-115 | the first long line that matches decides the shift, and the loop stops there |
| Alignment.ExactCopyIsBest | src/tools/utils.py:87-96 | an exact copy of the pattern with no earlier window at distance zero is the best window, at distance zero |
| Alignment.ExactCopyIsNotShifted | src/tools/utils.py:98-115 | the refinement leaves such a copy in place when a long line is among its first six |
| Alignment.EarliestMinimumIsUnique | src/tools/utils.py:87-96 | the window kept is determined uniquely |
| Alignment.ExactCopyResult | src/tools/utils.py:68-117 | on an exact copy find_most_similar_block returns the copy's own line and distance zero |
| Alignment.DlineSkipsSigned | src/tools/utils.py:91-93 | with `dline_flag` the chosen window never starts at an added or removed line |
| Alignment.OldLines | src/tools/utils.py:132-135 | there are never more old lines than input lines |
| Alignment.AddedLines | src/tools/utils.py:136-137 | there are never more added lines than input lines |
| Alignment.ExtractContext | src/tools/utils.py:120-142 | the counts returned are the lengths of the two lists, and they add up to no more than the input |
| Alignment.CountsBound | src/tools/utils.py:131-137 | every input line goes to at most one list |
| Alignment.OldAndAddedConcat | src/tools/utils.py:131-137 | the split works line by line, so it distributes over concatenation |
| Alignment.SignedLinesRoundTrip | src/tools/utils.py:131-137 | lines given a sign and split again come back whole, in the list that sign selects |
| Alignment.SignedRoundTrip | src/tools/utils.py:131-137 | the same for any hunk body given the same sign on every line |
| Alignment.EarliestMin | src/tools/utils.py:60 | the index of an entry of the list |
| Alignment.EarliestMinSpec | src/tools/utils.py:60 | no entry is nearer than the chosen one, and every entry before it is farther: a stable sort puts it first |
| Alignment.TopN | src/tools/utils.py:60-63 | `similarity_list[:top_n]` has `top_n` entries, or all of them when there are fewer |
| Alignment.RestAfterMin | src/tools/utils.py:60 | the rest has one entry fewer |
| Alignment.RestAfterMinSpec | src/tools/utils.py:60 | the rest is the list without the chosen entry, as a multiset, and no entry of it is nearer |
| Alignment.TopNUnfold | src/tools/utils.py:60-63 | the ranking is the nearest entry followed by the ranking of the rest |
| Alignment.TopNTakesFromInput | src/tools/utils.py:60-63 | the ranking only takes entries of the list, each no more often than it occurs |
| Alignment.TopNIsSorted | src/tools/utils.py:60 | the ranking is in nondecreasing distance |
| Alignment.LeftOutIsFarther | src/tools/utils.py:60-63 | an entry the ranking leaves out is no nearer than any entry it takes |
| Alignment.LeftOutStep | src/tools/utils.py:60-63 | one round of the ranking keeps an omitted entry omitted and no nearer than the taken one |
| Alignment.TopNLeavesOutFarther | src/tools/utils.py:60-63 | every omitted entry is at least as far as every taken one |
| Alignment.TopNKeepsOrderWhenAllEqual | src/tools/utils.py:60 | when every entry has the same distance the stable sort keeps the walk order (the ranking is the first `n` entries) |
| Alignment.Scored | src/tools/utils.py:49-57 | each file is paired with the distance of its name to the missing file's name, in walk order |
| Alignment.MostSimilarFiles | src/tools/utils.py:35-65 | at most five paths, those the stable ranking by name distance puts first, in that order |
| Revise.TrimLast | src/tools/utils.py:165-166 | at most the last line is dropped |
| Revise.CoerceLine | src/tools/utils.py:170-174 | a body line comes out as a context, removed or added line, either as it was or with a space in front |
| Revise.HunkBody | src/tools/utils.py:169-174 | `tmp_lines` has one coerced line for each line after the `@@` line, in order |
| Revise.ReviseBody | src/tools/utils.py:186-198 | when no file index raises, the per-line loop gives one line per body line |
| Revise.RemovedTexts | src/tools/utils.py:203-207 | there are no more removed texts than body lines |
| Revise.MarkRemoved | src/tools/utils.py:202-213 | the marking loop keeps the number of lines and gives one position per removed line |
| Revise.MarkOne | src/tools/utils.py:206-213 | one round keeps the number of lines |
| Revise.Marked | src/tools/utils.py:213 | a marked line starts with `-` |
| Revise.Extend | src/tools/utils.py:213 | adding positions keeps the lines and the outcome |
| Revise.Finish | src/tools/utils.py:215-218 | the forced-mode tail keeps the marked lines in front, adds at most one line, and the result ends with a context line |
| Revise.MarkedLines | src/tools/utils.py:202-213 | the lines after the marking loop, defined exactly when the loop does not raise |
| Revise.CountUnsigned | src/tools/utils.py:221-226 | the recount is at most the number of lines, and all of them exactly when none starts with the sign |
| Revise.ReviseHunk | src/tools/utils.py:162-232 | revise_hunk computes the repaired hunk text and fix flag, or raises |
| Revise.ReviseLines | src/tools/utils.py:180-218 | the middle of revise_hunk computes the revised lines, or raises |
| Revise.ReviseAt | src/tools/utils.py:184-218 | the rewriting once the block start is known |
| Revise.LocateBlock | src/tools/utils.py:180-183 | the block start is find_most_similar_block's over the context and removed lines |
| Revise.FinishLines | src/tools/utils.py:215-218 | the forced-mode tail, raising when the file line after the block is out of range |
| Revise.RewriteLines | src/tools/utils.py:184-198 | the per-line loop computes the revised lines and its counter ends at the number of context and removed lines |
| Revise.OldCountStep | src/tools/utils.py:187-196 | `i` grows by one exactly at a context or removed line |
| Revise.ReviseBodyStep | src/tools/utils.py:186-198 | one step of the per-line loop: an old line reads the next file line, raising when out of range; any other line gets the `'s ` replacement |
| Revise.RemovedTextsStep | src/tools/utils.py:203-207 | the removed texts from one line on: a removed line contributes its text, any other nothing |
| Revise.MarkNext | src/tools/utils.py:206-213 | one round of the marking loop |
| Revise.MarkRemovedCons | src/tools/utils.py:203-213 | the marking loop unfolded by one round |
| Revise.MarkLines | src/tools/utils.py:202-213 | the marking loop computes the marked lines, or raises |
| Revise.OldBeforeShift | src/tools/utils.py:196 | the counter splits at the first line |
| Revise.ReviseBodyHead | src/tools/utils.py:186-198 | the loop is defined exactly when the first line's read and the rest are, and its output is the first revised line followed by the rest |
| Revise.FileIndexShift | src/tools/utils.py:189 | the file line a body line reads is the same counted from the second line on |
| Revise.ReviseBodyDefined | src/tools/utils.py:186-198 | the per-line loop raises exactly when some context or removed line reads a file index Python cannot take |
| Revise.ReviseBodyLines | src/tools/utils.py:186-198 | each body line gives exactly one output line, in order: an old line rewritten from its file line, any other line by the replacement |
| Revise.ShiftRevised | src/tools/utils.py:186-198 | the per-line description carries over from the rest of the body to the whole |
| Revise.WhitespaceRevisionKeepsText | src/tools/utils.py:192-195 | outside forced mode a rewritten line keeps its sign and its whitespace-free text; it takes the file line exactly when the two agree without whitespace, and is kept otherwise |
| Revise.ForcedRevisionIsContext | src/tools/utils.py:190-191 | forced mode makes a context line whose whitespace-free text is the file line's |
| Revise.AddedLineWithoutPattern | src/tools/utils.py:198 | an added line without `'s ` is kept |
| Revise.MarkOneSpec | src/tools/utils.py:208-213 | one round marks exactly one line after the previous mark and changes no other |
| Revise.MarkedAtCons | src/tools/utils.py:203-213 | one mark in front of later marks keeps the marking description |
| Revise.InRangeCons | src/tools/utils.py:211-212 | the positions stay after the first mark and within the lines |
| Revise.IncreasingCons | src/tools/utils.py:211-212 | the positions keep increasing |
| Revise.MarksAtCons | src/tools/utils.py:213 | every position holds its marked line |
| Revise.KeepsOthersCons | src/tools/utils.py:213 | lines at no position are kept |
| Revise.MarkRemovedSpec | src/tools/utils.py:202-213 | the marking loop marks one line per removed text, at strictly increasing positions after the start, and leaves every other line alone |
| Revise.ForcedModeLines | src/tools/utils.py:186-218 | in forced mode the hunk keeps one line per body line, at most one more, ends with a context line, and marks one line per removed line |
| Revise.FinishMarked | src/tools/utils.py:202-218 | the forced-mode tail keeps the marking description on the lines it does not add |
| Revise.ForcedIsFinish | src/tools/utils.py:200-218 | in forced mode the result is the per-line loop, marked, then finished |
| Revise.HunkHeaderReadsBack | src/tools/utils.py:220-232 | the written header reads back with the old start numbers and tail, the new lengths count the lines without `+` and without `-`, and the flag is set exactly when the two start numbers differ |
| Repair.HeaderPath | src/tools/utils.py:237-243 | `re.findall(pat + "(.*)", line)[0]` succeeds exactly when the pattern occurs, and the path holds no line feed |
| Repair.ReviseBlock | src/tools/utils.py:234-284 | revise_block computes the block's lines and fix flag, or raises |
| Repair.ReviseBlockHunks | src/tools/utils.py:269-284 | the hunk loop folds revise_hunk over the hunks of the block |
| Repair.RevisePatch | src/tools/utils.py:286-311 | revise_patch computes the repaired diff and flag, and gives the diff back unchanged when anything raises |
| Repair.CloseBlock | src/tools/utils.py:296-299 | one block closed by the next header extends the fold, or makes the whole fold raise |
| Repair.FailingBlockKeepsPatch | src/tools/utils.py:307-311 | one block that raises leaves the whole diff as it was, not fixed |
| Repair.NoFileHeaderGivesNewline | src/tools/utils.py:290-306 | a diff without any file header line revises to a lone line feed, not fixed |
| Repair.MissingFileKeepsBlock | src/tools/utils.py:261-267 | a block whose file cannot be read is kept as it is, not fixed |
| Repair.RevisedBlockShape | src/tools/utils.py:257-284 | when no hunk raises, the block is the two header lines followed by one repaired text per hunk, and it is fixed exactly when a path was normalised or some hunk was fixed |
| Repair.DevNullHasNoPath | src/tools/utils.py:243-246 | `+++ /dev/null` holds no `+++ b/` path, so the whole line is kept as the path |
| Repair.DeletedFileBlockRaises | src/tools/utils.py:251-255 | a block that deletes a file fails the path assertion, since the `+++` side is compared with `--- /dev/null` |
| Split.UnitsUnder | src/tools/utils.py:333-353 | one unit per hunk, in order, each under the block's two header lines |
| Split.SplitBlock | src/tools/utils.py:329-353 | split_block yields the units of its block, and raises on a block of fewer than two lines |
| Split.BlockUnitLines | src/tools/utils.py:336-342 | a unit read back line by line is its two header lines followed by its hunk |
| Split.BlockUnitsReadBack | src/tools/utils.py:329-353 | split_block loses nothing: each unit is the header lines and one hunk that starts at its `@@` line and holds no other, and the hunks together are the block's lines from its first `@@` on |
| Split.PieceLinesIn | src/tools/utils.py:341 | the lines of a hunk hold no line break when the block's do not |
| Split.FlattenHas | src/tools/utils.py:341 | a hunk line is a line of the block |
| Split.Prefixed | src/tools/utils.py:364 | `message + x` for each unit, in order |
| Split.ScanTo | src/tools/utils.py:358-393 | `last_line` is always a line already scanned, -1 or -2 |
| Split.OnHeader | src/tools/utils.py:360-393 | the loop body at a file header computes one step of the scan |
| Split.ScanStoppedStays | src/tools/utils.py:398-402 | once an exception ends the generator, nothing more is yielded |
| Split.SplitPatch | src/tools/utils.py:314-402 | split_patch yields exactly the units of the scan, keeping those yielded before an exception |
| Split.EmitKeepsMessage | src/tools/utils.py:363-367 | yielding keeps the message and every unit starts with it |
| Split.MessageKeptScan | src/tools/utils.py:358-396 | while scanning a commit, the message is fixed at the first header and every unit starts with it |
| Split.LaterHeaderKeepsMessage | src/tools/utils.py:361-367 | a header after the first keeps the message and every unit's prefix |
| Split.FirstHeaderSetsMessage | src/tools/utils.py:368-369 | the first header sets the message from the lines before its preamble and yields nothing |
| Split.UnitsCarryMessage | src/tools/utils.py:355-396 | every unit of a commit starts with the commit message, and a patch without a file header yields nothing |
| Split.PlainUnitsSnoc | src/tools/utils.py:361-367 | one more block appends its units, or stops when it raises |
| Split.KeptBlockPrefix | src/tools/utils.py:370-393 | whether a block is skipped is decided by its first two lines |
| Split.PlainScanAtHeader | src/tools/utils.py:360-393 | one header step keeps the scan in agreement with the blocks read so far |
| Split.PlainScanHolds | src/tools/utils.py:359-393 | without a commit message, the scan agrees with the blocks read so far at every line |
| Split.PlainSplitFollowsBlocks | src/tools/utils.py:314-402 | without a commit message, split_patch gives the units of each file block not ending in an ignored name, in order, stopping at the first block too short to split |
| Split.SkippedBlocksYieldNothing | src/tools/utils.py:10-32 | a patch whose every block names an ignored file yields nothing |
| Tags.TagEntry | src/tools/project.py:72-80 | a tag line gives a symbol without a tab, or is skipped |
| Tags.ReadTags | src/tools/project.py:69-82 | the loop over the tags file builds the table the lines describe, in order |
| Tags.AddEntryWellKeyed | src/tools/project.py:78-80 | adding a location keeps every symbol listed once, exactly the symbols with locations |
| Tags.ParseTagsCollects | src/tools/project.py:69-82 | a symbol is in the table exactly when some tag line names it, and then it lists exactly those lines' locations in file order |
| Tags.CollectStep | src/tools/project.py:78-80 | reading one more line keeps the table listing exactly the locations |
| Tags.KeyDistances | src/tools/project.py:159-161 | each symbol paired with its distance from the name asked for, in dictionary order |
| Tags.NearestKey | src/tools/project.py:155-166 | a nearest symbol exists exactly when the table has symbols |
| Tags.NearestKeyIsNearest | src/tools/project.py:159-164 | no symbol is nearer than the chosen one, and every symbol before it in dictionary order is strictly farther |
| Tags.EarliestIsUnique | src/tools/project.py:162 | the strict comparison picks one symbol only |
| Tags.LocateSimilar | src/tools/project.py:141-166 | the loop returns the nearest symbol and its locations, or nothing for a ref without symbols |
| Feedback.Clamp | src/tools/project.py:105-107 | a window that runs past the end is moved back to end at the last line, keeping its width; one inside is kept |
| Feedback.ViewLinesSpec | src/tools/project.py:113-114 | the window's lines are read exactly when every index is one Python can take, and then each is the line at that index |
| Feedback.ViewLinesInside | src/tools/project.py:113-114 | a window inside the file shows exactly its lines `startline` through `endline` |
| Feedback.ReadWindow | src/tools/project.py:113-114 | the window loop reads the lines, or raises |
| Feedback.ViewLinesNoneStays | src/tools/project.py:113-114 | once one index raises, every longer window raises |
| Feedback.ViewCode | src/tools/project.py:84-118 | `_viewcode` gives the answer for the file's content, the missing-file message, or raises |
| Feedback.OldCount | src/tools/project.py:341-348 | `j` never exceeds the number of lines seen |
| Feedback.MismatchesRaises | src/tools/project.py:342-348 | the diff loop raises exactly when some compared file index is out of range |
| Feedback.MismatchesSound | src/tools/project.py:343-347 | every entry is a context or removed line that differs from its file line, with the patch line number and both texts |
| Feedback.MismatchesComplete | src/tools/project.py:343-347 | every context or removed line that differs has an entry |
| Feedback.MismatchesOrdered | src/tools/project.py:342-348 | the entries follow the patch order, each line once |
| Feedback.MismatchesErrStays | src/tools/project.py:342-348 | once the loop raised, it stays raised |
| Feedback.SnippetReadBack | src/tools/project.py:335-336 | the snippet read back line by line is exactly the file lines shown |
| Feedback.SnippetJoin | src/tools/project.py:335-336 | the snippet is those lines joined by line feeds, with a final line feed |
| Feedback.SnippetBounds | src/tools/project.py:329-330 | the last line shown is within the file |
| Feedback.MismatchesText | src/tools/project.py:345-347 | the entries' text is empty exactly when there are no entries |
| Feedback.CharLines | src/tools/project.py:320 | a string handed over as lines is read one character per line |
| Feedback.SearchSimilarRaises | src/tools/project.py:315-327 | the search over similar files raises exactly when reading one of them does |
| Feedback.SearchSimilarIsNearest | src/tools/project.py:315-327 | the search keeps a file no other similar file is strictly nearer than, the first of the nearest, with its block start; without any finite distance the starting values stay |
| Feedback.SearchSimilarFiles | src/tools/project.py:315-327 | the loop over the similar files computes the search |
| Feedback.SearchErrStays | src/tools/project.py:315-317 | once a similar file raised, the search stays raised |
| Feedback.BuildSnippet | src/tools/project.py:335-336 | the snippet loop builds the file lines from `lo` up to but not including `hi`, each followed by a line feed, as the snippet description reads back |
| Feedback.DiffEntries | src/tools/project.py:339-348 | the diff loop gives the fenced opening and the entries, or raises |
| Feedback.DiffLine | src/tools/project.py:343-348 | one turn of the diff loop adds the line's entry when it differs, or raises |
| Feedback.AppendEntry | src/tools/project.py:345-347 | appending an entry's text extends the rendered entries |
| Feedback.MismatchesTextSnoc | src/tools/project.py:345-347 | the entries' text grows by the new entry |
| Feedback.NoDifferenceExactly | src/tools/project.py:350-353 | the advice to keep three lines of context is given exactly when no context or removed line differs |
| Feedback.DifferTextFenced | src/tools/project.py:339-353 | a diff with entries opens with the context-diff fence and ends with the closing advice |
| Feedback.BuildDiffer | src/tools/project.py:339-353 | the diff part of `_apply_error_handling` gives the fenced entries with the closing advice, or raises exactly when the diff loop does |
| Feedback.ApplyErrorHandling | src/tools/project.py:286-354 | `_apply_error_handling` gives the snippet and the diff text, or raises |
| ProjectSpec.PathsOf | src/tools/project.py:407 | `[item[0] for item in symbol_locations]`: the file of each location, in order |
| ProjectSpec.StagesFlags | src/tools/project.py:719-726 | the test and PoC stages leave `all_hunks_applied_succeeded`, `round_succeeded` and the mismatch counter alone |
| ProjectSpec.MismatchReplyNamesIt | src/tools/project.py:469 | the reply to a context mismatch contains "CONTEXT MISMATCH", which `_validate` counts |
| ProjectSpec.HunkClassified | src/tools/project.py:429-476 | `_apply_hunk` tells a failed apply apart in a fixed order: a missing file, then a corrupt patch, then a context mismatch whose reply names it; only a clean apply appends, and it appends the revised patch once |
| ProjectSpec.HunkAppendsOnlyApplied | src/tools/project.py:455-457 | every patch appended to `succeeded_patches`, however deep the relocation went, is one `git apply` took on a clean checkout of the ref |
| ProjectSpec.MoveAppendsOnlyApplied | src/tools/project.py:415-423 | the relocation appends only patches `git apply` took |
| ProjectSpec.TryAppendsOnlyApplied | src/tools/project.py:415-423 | the loop over the candidates appends only patches `git apply` took |
| ProjectSpec.TryPathsIsTryEach | src/tools/project.py:415-427 | the loop over the candidates is the generic try-each over the session's own apply |
| ProjectSpec.TryEachKeeps | src/tools/project.py:415-423 | the loop appends only what the candidates' applies appended |
| ProjectSpec.TryEachAllDeclined | src/tools/project.py:423-427 | when every candidate declines, the reply lists the candidates followed by all their replies, in order |
| ProjectSpec.TryEachFirstTaken | src/tools/project.py:418-421 | the loop stops at the first candidate whose reply says "successfully" and names it, or ends with the error its apply raised |
| ProjectSpec.CandidatesInOrder | src/tools/project.py:367-412 | the candidate paths come in a fixed order of preference: the rename git reports; else the files defining the hunk header's symbol, in tags-file order; else at most five files of similar name |
| ProjectSpec.ApplyUnitsStopsAtFirst | src/tools/project.py:501-525 | applying the hunks of the joined patch stops at the first that fails; each earlier one applied, revised against the tree the earlier ones left |
| ProjectSpec.ApplyUnitsFailedStays | src/tools/project.py:523-525 | once a hunk fails, the later hunks are not tried |
| ProjectSpec.ErrorLinesOfConcat | src/tools/project.py:578-584 | the error-line filter works line by line, so it keeps their order |
| ProjectSpec.ErrorLinesOfOne | src/tools/project.py:582 | a line is kept exactly when its lower-case form contains "error:" |
| ProjectSpec.ErrorLinesOfKeeps | src/tools/project.py:578-584 | every kept line is an output line containing "error:" in lower case, and every such line is kept |
| ProjectSpec.CompileSetsFlag | src/tools/project.py:478-598 | the compile stage fails at the first hunk that does not apply and names it, together with the patches applied before it (whose working tree the similar-file search lists); only a patch that applies and whose build is missing or exits with 0 sets `compile_succeeded`; a failed build gives its output, a timeout ends the run |
| ProjectSpec.NeedNotPorted | src/tools/project.py:729-731 | a hunk marked "need not ported" counts as applied without touching the repository |
| ProjectSpec.HunkPhaseCounts | src/tools/project.py:733-738 | in the per-hunk phase the counter grows by one exactly when the reply names a context mismatch, and only the appended patches and the round flag change besides |
| ProjectSpec.ValidateForces | src/tools/project.py:712-738 | `_validate` runs the per-hunk phase until all hunks applied and the whole-patch phase after; the apply is forced exactly from two counted mismatches and the compile from one |
| ProjectSpec.CompileGate | src/tools/project.py:714-718 | the compile runs only when not yet compiled and each compile that returns is counted; the phase never touches the apply flags |
| ProjectSpec.CompileRaises | src/tools/project.py:715-717 | a compile that raises ends the phase with its error |
| ProjectSpec.StagesGate | src/tools/project.py:719-726 | a newly passed test needs the patch compiled; a newly passed PoC needs it compiled and past its test case and leaves exactly the complete patch as the succeeded one; otherwise the succeeded patches stay |
| ProjectSpec.ValidateDone | src/tools/project.py:712-727 | once compiled and past its test case and its PoC, validating again changes nothing and says nothing |
| ProjectSpec.TestStageEffects | src/tools/project.py:600-645 | a failed test clears only `compile_succeeded`, a timeout changes nothing, a missing or passing test sets `testcase_succeeded` |
| ProjectSpec.PocStageEffects | src/tools/project.py:647-698 | a PoC whose output holds the bug's message clears the compile and test flags; a missing PoC or one without it sets `poc_succeeded` and leaves the complete patch as the only succeeded one; a timeout changes nothing |
| Session.Project.constructor | src/tools/project.py:17-41 | a missing or empty error message becomes "no err_msg"; every flag starts false, the counter at 0, the caches empty; the session's reply texts are those of `project.py` (`Messages()`) |
| Session.Project.Prepare | src/tools/project.py:53-82 | `_prepare` caches the symbol table of the ref read from its tags file and changes no flag |
| Session.Project.LocateSymbol | src/tools/project.py:120-139 | the locations of the symbol at the ref in tags-file order, or None when it has none; the ref is prepared on first use |
| Session.Project.LocateSimilarSymbol | src/tools/project.py:141-166 | the symbol nearest by edit distance in the cached table of the ref, the first among equals, with its locations; nothing for a ref never prepared |
| Session.Project.ViewCode | src/tools/project.py:84-118 | `_viewcode` on the file as committed at the ref |
| Session.Project.ApplyHunk | src/tools/project.py:429-476 | `_apply_hunk` gives the outcome's reply and appends exactly its applied patches; the round flag is set exactly when one was appended |
| Session.Project.MoveFileHandling | src/tools/project.py:356-427 | `_apply_file_move_handling` gives the relocation's reply and appends exactly its applied patches |
| Session.Project.FindMovedPaths | src/tools/project.py:389-412 | the candidate paths by symbol, or by file name when the symbol is not found |
| Session.Project.TryCandidates | src/tools/project.py:414-427 | the loop over the candidates gives the relocation's reply and appends exactly its applied patches |
| Session.Project.CompilePatch | src/tools/project.py:478-598 | `_compile_patch` gives the compile reply and sets `compile_succeeded` exactly as the outcome says |
| Session.Project.RunTestcase | src/tools/project.py:600-645 | `_run_testcase` gives its reply and changes the flags as the test stage says |
| Session.Project.RunPoc | src/tools/project.py:647-698 | `_run_poc` gives its reply and changes the flags as the PoC stage says |
| Session.Project.Validate | src/tools/project.py:700-738 | `_validate` gives the reply and new session state of the validation step |
| Session.Project.ValidateWhole | src/tools/project.py:712-727 | the whole-patch phase, with the compile forced from one counted mismatch |
| Session.Project.CompileStage | src/tools/project.py:714-718 | the compile step of `_validate`: run when not compiled, then counted |
| Session.Project.RunStages | src/tools/project.py:719-726 | the test and PoC stages, each run when the earlier ones passed and it has not |
| Session.Project.ValidateHunk | src/tools/project.py:728-738 | the per-hunk phase, with the apply forced from two counted mismatches |
| JudgeConfig.ParseLinesSnoc | src/prejudge/judge_config.py:34-56 | the per-line loop reads one more line on top of the state so far |
| JudgeConfig.HeaderPathsSnoc | src/prejudge/judge_config.py:36-37 | one more line adds its path exactly when it is a `+++ b/` line |
| JudgeConfig.ParseLinesKeys | src/prejudge/judge_config.py:29-58 | the map has a key for each file it held and each `+++ b/` line, and no other; the current file is one of them |
| JudgeConfig.OtherLinesCount | src/prejudge/judge_config.py:54-56 | a removed line changes nothing, any other line that is no header, `@@` or added line only counts |
| JudgeConfig.Span | src/prejudge/judge_config.py:51-52 | the numbers from `a` up to `a + len - 1` |
| JudgeConfig.AddedLine | src/prejudge/judge_config.py:49-52 | an added line under a named file records its number and counts it |
| JudgeConfig.AddedRun | src/prejudge/judge_config.py:49-52 | a run of added lines records the consecutive numbers from the running one and moves it on by the run's length |
| JudgeConfig.AddedRunStep | src/prejudge/judge_config.py:49-52 | one more added line extends the recorded run by one |
| JudgeConfig.OverrideStep | src/prejudge/judge_config.py:36-56 | a line read on top of an existing map acts as on the empty map, with the old entries underneath |
| JudgeConfig.ParseOverrides | src/prejudge/judge_config.py:25-58 | parsing on top of a map replaces the entries of the files the patch names and keeps every other one |
| JudgeConfig.ParseIdempotent | src/prejudge/judge_config.py:29-58 | calling `parse` a second time on the same parser changes nothing |
| JudgeConfig.PatchParser.constructor | src/prejudge/judge_config.py:25-27 | the parser holds the patch text and an empty map |
| JudgeConfig.PatchParser.Parse | src/prejudge/judge_config.py:29-58 | `parse` updates the map the parser holds by the per-line reading of `splitlines()` and returns it |
| JudgeConfig.ReplaceTop | src/prejudge/judge_config.py:81-84 | replacing the top keeps the depth |
| JudgeConfig.Pop | src/prejudge/judge_config.py:76-87 | popping a non-empty stack removes one entry; an empty stack stays empty |
| JudgeConfig.TrackDepth | src/prejudge/judge_config.py:68-87 | `#if` pushes, `#elif` keeps the depth (or starts one), `#else` keeps it, `#endif` pops, any other line leaves it |
| JudgeConfig.IfEndifRestores | src/prejudge/judge_config.py:73-87 | an `#if` closed by an `#endif` leaves the stack as it was |
| JudgeConfig.ElifPushesIf | src/prejudge/judge_config.py:78 | the condition an `#elif` pushes reads as an `#if` |
| JudgeConfig.ConditionTracker.constructor | src/prejudge/judge_config.py:64-66 | the tracker starts with an empty stack and no recorded lines |
| JudgeConfig.ConditionTracker.ProcessLine | src/prejudge/judge_config.py:68-99 | the stack moves as the stripped directive says, and a plain line with a source line records the stack when it is not empty |
| JudgeConfig.ConditionTracker.ConditionsForLine | src/prejudge/judge_config.py:101-103 | the stored conditions of the line, or none |
| ConfigNames.NameEnd | src/prejudge/judge_config.py:174 | `[A-Z0-9_]+` takes the whole run of name characters |
| ConfigNames.NameAt | src/prejudge/judge_config.py:174 | a symbol read at a position is `CONFIG_` and at least one name character, ending at the first other character |
| ConfigNames.NameEndAt | src/prejudge/judge_config.py:174 | the run ends at the first character that is not a name character |
| ConfigNames.MakeVarFrom | src/prejudge/judge_config.py:174 | a `$(CONFIG_...)` found is a symbol that occurs in the line |
| ConfigNames.MakeVar | src/prejudge/judge_config.py:174-189 | `re.search(r'\$\((CONFIG_[A-Z0-9_]+)\)', line)` gives a symbol that occurs in the line |
| ConfigNames.MakeVarAbsent | src/prejudge/judge_config.py:174 | a line without `CONFIG_` names no make variable |
| ConfigNames.MakeVarSkip | src/prejudge/judge_config.py:174 | no match starts where there is no `$` |
| ConfigNames.MakeVarAt | src/prejudge/judge_config.py:174 | `$(CONFIG_X)` at a position is the match found from there |
| ConfigNames.SpaceEnd | src/prejudge/judge_config.py:369 | `\s*` stops inside the text, never before where it starts |
| ConfigNames.DefinedOpen | src/prejudge/judge_config.py:369 | `defined\s*\(\s*` matched at a position spells `defined` there and ends past its `(` |
| ConfigNames.DefinedClose | src/prejudge/judge_config.py:369 | `\s*\)` matched after a symbol ends just past a `)` |
| ConfigNames.DefinedAt | src/prejudge/judge_config.py:369 | `defined\s*\(\s*(CONFIG_...)\s*\)` matched at a position gives a symbol and the end of the match |
| ConfigNames.DefinedAtParts | src/prejudge/judge_config.py:369 | a match is `defined` at its start and a symbol after it, read whole, with a character after the symbol |
| ConfigNames.DefinedAtHere | src/prejudge/judge_config.py:369 | the pattern matches `defined(CONFIG_X)` standing at a position whole, giving `CONFIG_X` |
| ConfigNames.DefinedNames | src/prejudge/judge_config.py:370 | every name `re.findall` gives for `defined(...)` is a symbol |
| ConfigNames.DefinedNamesSound | src/prejudge/judge_config.py:370 | every name `re.findall` gives is the symbol of a match at some position at or after where the scan began |
| ConfigNames.DefinedVisitedIncluded | src/prejudge/judge_config.py:370 | what the scan finds from a position it comes to, it finds from where it began |
| ConfigNames.DefinedFound | src/prejudge/judge_config.py:370 | a match at a position the scan comes to is among the names found |
| ConfigNames.DefinedSkip | src/prejudge/judge_config.py:370 | over a stretch where the pattern matches nowhere the scan finds nothing |
| ConfigNames.DefinedSkipVisits | src/prejudge/judge_config.py:370 | over such a stretch the scan comes to its end |
| ConfigNames.RemoveDefinedSkip | src/prejudge/judge_config.py:374 | over such a stretch `re.sub` keeps the text as it is |
| ConfigNames.BareAt | src/prejudge/judge_config.py:375 | `\b(CONFIG_...)\b` matched at a position gives a symbol |
| ConfigNames.BareNames | src/prejudge/judge_config.py:376 | every bare name found is a symbol |
| ConfigNames.BareNamesSound | src/prejudge/judge_config.py:376 | every bare name found is the symbol of a bare match at some position at or after where the scan began |
| ConfigNames.BareVisitedIncluded | src/prejudge/judge_config.py:376 | what the bare scan finds from a position it comes to, it finds from where it began |
| ConfigNames.BareFound | src/prejudge/judge_config.py:376 | a bare match at a position the scan comes to is among the names found |
| ConfigNames.BareSkip | src/prejudge/judge_config.py:376 | over a stretch without a bare match the scan finds nothing and comes to its end |
| ConfigNames.ExtractConfigs | src/prejudge/judge_config.py:358-378 | every name `_extract_configs_from_condition` gives is a symbol |
| ConfigNames.ExtractConfigsSound | src/prejudge/judge_config.py:358-378 | every name given is the symbol of a `defined(...)` match in the condition or of a bare match in what is left once those are cut out |
| ConfigNames.ExtractConfigsFinds | src/prejudge/judge_config.py:358-378 | every `defined(...)` match and every bare match in the cut text that the scans come to is among the names given |
| ConfigNames.ExtractConfigsAbsent | src/prejudge/judge_config.py:358-378 | a condition that does not mention `CONFIG_` gives nothing |
| ConfigNames.DefinedAbsent | src/prejudge/judge_config.py:370 | without `CONFIG_` there is no `defined(...)` symbol |
| ConfigNames.RemoveDefinedAbsent | src/prejudge/judge_config.py:374 | without `CONFIG_` the substitution removes nothing |
| ConfigNames.BareAbsent | src/prejudge/judge_config.py:376 | without `CONFIG_` there is no bare symbol |
| ConfigNames.NoDefinedMatch | src/prejudge/judge_config.py:369-376 | a condition in which `defined(...)` matches nowhere gives exactly its bare symbols |
| ConfigNames.OneBare | src/prejudge/judge_config.py:376 | a text with exactly one bare match gives that symbol only |
| ConfigNames.DefinedAlone | src/prejudge/judge_config.py:362-376 | `defined(CONFIG_FOO)` gives exactly `CONFIG_FOO` |
| ConfigNames.DefinedPair | src/prejudge/judge_config.py:362-376 | `defined(CONFIG_A) && defined(CONFIG_B)`, or the two joined by any text with no `CONFIG_` and no `d`, gives exactly both symbols |
| ConfigNames.BareAfterPrefix | src/prejudge/judge_config.py:362-376 | a symbol ending the condition after text without `CONFIG_` whose last character is not a word character (`#if CONFIG_X`, `!CONFIG_X`) gives exactly that symbol |
| ConfigNames.BareBetween | src/prejudge/judge_config.py:362-376 | a symbol between texts without `CONFIG_`, with a non-word character on each side and no `defined` before it, gives exactly that symbol |
| ConfigNames.ConfigEqualsValue | src/prejudge/judge_config.py:362-376 | `CONFIG_FOO=y`, or `=` followed by any value without `CONFIG_`, gives exactly `CONFIG_FOO` |
| ConfigNames.IsEnabled | src/prejudge/judge_config.py:358-378 | `IS_ENABLED(CONFIG_X)` gives exactly `CONFIG_X` |
| SourceAnalyzer.ContinuationHas | src/prejudge/judge_config.py:252-260 | the continuation scan finds the target only on a line that holds it |
| SourceAnalyzer.SpacelessTestsNeverHold | src/prejudge/judge_config.py:213-214 | the tests on the line with its spaces removed never hold, since both patterns hold a space |
| SourceAnalyzer.NoSpaceNoPattern | src/prejudge/judge_config.py:213-214 | a text without a space holds no pattern with a space in it |
| SourceAnalyzer.WordEnd | src/prejudge/judge_config.py:216 | `[a-zA-Z0-9_]+` takes the whole run of word characters |
| SourceAnalyzer.CompositeName | src/prejudge/judge_config.py:216-218 | `re.match(r'([a-zA-Z0-9_]+)-(?:y\|objs)\s*\+=', line)` gives a non-empty name the line starts with |
| SourceAnalyzer.MakefileConfig | src/prejudge/judge_config.py:153-300 | a CONFIG `_parse_makefile_for_config` reports is never the empty name |
| SourceAnalyzer.HitNonEmpty | src/prejudge/judge_config.py:167-264 | every CONFIG the first pass reports is a `$(CONFIG_...)` name of a line or a truthy context |
| SourceAnalyzer.Pass2NonEmpty | src/prejudge/judge_config.py:267-298 | every CONFIG the second pass reports is non-empty |
| SourceAnalyzer.DirectHit | src/prejudge/judge_config.py:183-195 | a Makefile whose first line reads `obj-$(CONFIG_X) += <obj>` gives `CONFIG_X` |
| SourceAnalyzer.DirectLine | src/prejudge/judge_config.py:185-191 | such a line holds the target and `+=`, and names `CONFIG_X` first |
| SourceAnalyzer.HeadThenObject | src/prejudge/judge_config.py:185-187 | a line ending in `+= <obj>` holds the target and `+=` |
| SourceAnalyzer.DirectLineShape | src/prejudge/judge_config.py:168-179 | such a line is no conditional and no `endif` |
| SourceAnalyzer.MakeVarHead | src/prejudge/judge_config.py:189 | `$(CONFIG_X)` after `obj-` is the first make variable of the line |
| SourceAnalyzer.ParseMakefileForConfig | src/prejudge/judge_config.py:153-300 | the set returned holds exactly the one CONFIG the passes report, or nothing |
| SourceAnalyzer.ScanContinuation | src/prejudge/judge_config.py:233-260 | the continuation loop of both passes succeeds exactly as the continuation scan does |
| SourceAnalyzer.ContinuationHasIff | src/prejudge/judge_config.py:233-260 | the continuation scan succeeds exactly when some later line holds the object and every line before it, from the start, ends in a backslash once stripped |
| SourceAnalyzer.FirstPassLoop | src/prejudge/judge_config.py:167-264 | the first `while` loop ends with the first pass's answer: a CONFIG hit, no hit, or the composite object to look for |
| SourceAnalyzer.SecondPassLoop | src/prejudge/judge_config.py:267-298 | the second loop computes the second pass for the composite object's `.o` name |
| SourceAnalyzer.LastIndexOf | src/prejudge/judge_config.py:122 | `rfind(c)` is the last occurrence, or -1 |
| SourceAnalyzer.LastIndexOfAt | src/prejudge/judge_config.py:122 | the occurrence no other follows is the one found |
| SourceAnalyzer.ObjNameOfSource | src/prejudge/judge_config.py:118-122 | a C file `dir/name.c` is built as `name.o` |
| SourceAnalyzer.BaseNameAfterSlash | src/prejudge/judge_config.py:118-122 | the last path component follows the last slash |
| SourceAnalyzer.StemOfName | src/prejudge/judge_config.py:122 | `stem` drops the last suffix |
| SourceAnalyzer.DirConfigs | src/prejudge/judge_config.py:130-145 | for each directory, what its Makefile gives, or nothing when it has none |
| SourceAnalyzer.FirstConfigIsFirst | src/prejudge/judge_config.py:130-149 | the walk stops at the first directory whose Makefile names a CONFIG, within five levels, and finds nothing exactly when none does |
| SourceAnalyzer.MakefileSearch | src/prejudge/judge_config.py:113-151 | a CONFIG found is never the empty name |
| SourceAnalyzer.ExtractConfigFromMakefile | src/prejudge/judge_config.py:113-151 | the walk up the directories returns the CONFIG of the first Makefile that names one, or nothing |
| SourceAnalyzer.ScanMarksInRange | src/prejudge/judge_config.py:322-343 | only lines of the file get conditions |
| SourceAnalyzer.ScanKeepsEarlier | src/prejudge/judge_config.py:322-343 | later lines leave what earlier lines recorded alone |
| SourceAnalyzer.ScanRecordsLine | src/prejudge/judge_config.py:326-343 | a directive line records the stack as it stands after it; another line the stack it is inside, when that is not empty |
| SourceAnalyzer.ScanElifDeepens | src/prejudge/judge_config.py:326-328 | the source scan pushes at `#elif` without popping, so it ends one deeper than the tracker |
| SourceAnalyzer.UnionOfIff | src/prejudge/judge_config.py:348-351 | a name is in the union exactly when one item gives it |
| SourceAnalyzer.ConditionConfigsIff | src/prejudge/judge_config.py:348-351 | a name comes from a line's conditions exactly when one of them holds it |
| SourceAnalyzer.CollectedAdd | src/prejudge/judge_config.py:346-351 | one more target line adds the names of its conditions |
| SourceAnalyzer.CollectedIff | src/prejudge/judge_config.py:345-351 | a name is collected exactly when some condition recorded for some target line holds it |
| SourceAnalyzer.ExtractConfigConditions | src/prejudge/judge_config.py:302-356 | nothing for a file that cannot be read; otherwise the names of the conditions around the target lines |
| SourceAnalyzer.CollectConditions | src/prejudge/judge_config.py:346-351 | the loop over the target lines gathers exactly the collected names: those of the conditions recorded for some target line |
| SourceAnalyzer.ScanConditions | src/prejudge/judge_config.py:322-343 | the scan loop records, for each line, exactly the stack the line-by-line scan records |
| SourceAnalyzer.ConfigsOfConditions | src/prejudge/judge_config.py:348-351 | the loop over one line's conditions gathers exactly the names some condition of the line holds |
| PatchConfig.MakefileConfigs | src/prejudge/judge_config.py:654 | the Makefile gives a file at most one CONFIG, never the empty name |
| PatchConfig.UnionOverAdd | src/prejudge/judge_config.py:648-662 | one more file adds its contribution to the union |
| PatchConfig.AnalyzePatch | src/prejudge/judge_config.py:626-666 | `analyze_patch` computes the union over the changed files, nothing when the patch cannot be read |
| PatchConfig.AnalyzeFile | src/prejudge/judge_config.py:648-662 | one file's contribution: nothing for a file that is not C, the Makefile's CONFIG when there is one, the conditions around its changed lines otherwise |
| PatchConfig.FileConfigsIff | src/prejudge/judge_config.py:648-662 | a name comes from a file exactly when it is C and the name is its Makefile's CONFIG or, without one, a CONFIG of a condition around a changed line |
| PatchConfig.PatchConfigsIff | src/prejudge/judge_config.py:626-666 | a name is needed exactly when some changed file gives it |
| PatchConfig.MakefileShadowsSource | src/prejudge/judge_config.py:654-662 | a file whose Makefile names a CONFIG contributes that one and nothing else |
| PatchConfig.NoCFilesNoConfigs | src/prejudge/judge_config.py:631-651 | a patch that touches no C file, or cannot be read, needs nothing |
| PatchConfig.ConfigsNonEmpty | src/prejudge/judge_config.py:626-666 | every name found is non-empty |
| Kconfig.Universe | src/prejudge/judge_config.py:595-615 | a finite set holds the input and is closed under the dependencies, so the worklist ends |
| Kconfig.GetAllRequiredConfigs | src/prejudge/judge_config.py:590-615 | the result holds the input, holds the dependencies of each of its members, and lies inside every other set that does both: the least closure |
| Kconfig.PopOne | src/prejudge/judge_config.py:600-613 | one turn of the worklist keeps the invariants and makes progress |
| Kconfig.AddDeps | src/prejudge/judge_config.py:604-613 | the inner loops add every dependency of the popped symbol, and only ones the closure needs |
| JudgeArch.PatchFiles | src/prejudge/judge_arch.py:35-57 | the file list holds no empty name, and is empty when `git show --name-only` failed |
| JudgeArch.NonEmptyStripped | src/prejudge/judge_arch.py:53 | the stripped lines that are kept are all non-empty |
| JudgeArch.ArchOf | src/prejudge/judge_arch.py:59-72 | an architecture is found exactly for a path that starts with `arch/` followed by a character other than `/`; it is the non-empty segment up to the next `/` or the end |
| JudgeArch.SupportedIgnoresCase | src/prejudge/judge_arch.py:88-97 | whether an architecture is supported does not depend on the case of its ASCII letters |
| JudgeArch.ArchChangesSpec | src/prejudge/judge_arch.py:113-121 | every change names a listed file with its architecture and its support, and every listed file under an architecture directory gives a change |
| JudgeArch.Analyze | src/prejudge/judge_arch.py:99-149 | no file list gives the failed report; otherwise the changes are the architecture changes in file order, `has_arch_changes` says there are some, `all_supported` holds exactly when every change is supported, and the unsupported set holds exactly the architectures of the unsupported changes |
| JudgeArch.ShouldBackport | src/prejudge/judge_arch.py:151-160 | the commit is backported exactly when every file under an architecture directory names a supported architecture (so also when the file list is empty) |
| JudgeArch.HasArchSpecificChanges | src/prejudge/judge_arch.py:74-86 | True exactly when some file is under an architecture directory |
| JudgeFix.HexEnd | src/prejudge/judge_fix.py:62 | the run of `[0-9a-f]` from a position is taken whole |
| JudgeFix.MatchAt | src/prejudge/judge_fix.py:62-67 | a tag pattern that matches captures a commit id of 7 to 40 lowercase hex digits and ends past its start |
| JudgeFix.FindAll | src/prejudge/judge_fix.py:71 | `re.findall` of a tag pattern captures only commit ids |
| JudgeFix.TagIds | src/prejudge/judge_fix.py:70-72 | the union over the tags captures only commit ids |
| JudgeFix.ExtractFixCommits | src/prejudge/judge_fix.py:49-74 | the loop over the six patterns gives the union of what each finds, and only commit ids |
| JudgeFix.VisitedIncluded | src/prejudge/judge_fix.py:71 | whatever `re.findall` finds from a position its scan comes to, it finds from the start of the message |
| JudgeFix.NoMatchVisits | src/prejudge/judge_fix.py:71 | when the pattern matches nowhere before a position, the scan comes to that position |
| JudgeFix.MatchAtTag | src/prejudge/judge_fix.py:62-67 | at a tag followed by whitespace and a 7 to 40 digit hex id that no further hex digit follows, the pattern captures exactly that id and ends after it |
| JudgeFix.TagFound | src/prejudge/judge_fix.py:62-71 | such a tag anywhere in the message, at a position no earlier match runs over, yields its id |
| JudgeFix.TagIdsHas | src/prejudge/judge_fix.py:70-72 | what one pattern finds is among the union over all of them |
| JudgeFix.FixTagFound | src/prejudge/judge_fix.py:61-74 | a fix tag followed by whitespace and a commit id, such as a `Fixes:` trailer at the end of the message, puts the id among the extracted fix commits |
| JudgeFix.SkipsWhitespace | src/prejudge/judge_fix.py:62 | `\s+` after the tag consumes exactly the whitespace before the id |
| JudgeFix.ReadsHexRun | src/prejudge/judge_fix.py:62 | the hex run read after the whitespace is exactly the id |
| JudgeFix.CommitInBranch | src/prejudge/judge_fix.py:76-111 | a commit found in the branch exists in the repository |
| JudgeFix.Analyze | src/prejudge/judge_fix.py:130-174 | an empty message gives the report without `all_exist`; otherwise `all_exist` holds exactly when every extracted id exists downstream, and each extracted id is reported with its existence and its OLK-6.6 membership |
| JudgeFix.CheckAll | src/prejudge/judge_fix.py:153-167 | the loop reports every id once and clears `all_exist` exactly when some id is missing |
| JudgeFix.ShouldProceed | src/prejudge/judge_fix.py:176-182 | the pre-judge goes on exactly when every id the message's fix tags name exists downstream |
| JudgeFix.NoIdsInEmpty | src/prejudge/judge_fix.py:137-141 | an empty message names no id, so it lets the commit proceed |
| JudgeAgent.AnyIn | src/prejudge/judge_agent.py:244-247 | some phrase of the list occurs in the text exactly when the loop with its early return finds one |
| JudgeAgent.ParseDecisionFalseIff | src/prejudge/judge_agent.py:209-280 | the answer is False exactly when some "no" phrase occurs in the lower-cased response |
| JudgeAgent.NoBeforeYes | src/prejudge/judge_agent.py:227-268 | a "no" phrase wins over a "yes" phrase present in the same response |
| JudgeAgent.DefaultIsYes | src/prejudge/judge_agent.py:249-280 | a response without a "no" phrase is read as True |
| JudgeAgent.CaseInsensitive | src/prejudge/judge_agent.py:225 | a response and its lower-cased form are read alike |
| JudgeAgent.Judge | src/prejudge/judge_agent.py:172-207 | an empty patch or a failing agent answers True; otherwise the answer is the decision read from the agent's output |
| JudgeTools.ClampWindow | src/prejudge/judge_tools.py:103-109 | the corrected window starts at 1 or later, does not end before it starts and spans at most 500 lines, and each correction applies exactly when its condition holds |
| JudgeTools.ClampKeepsValid | src/prejudge/judge_tools.py:103-109 | a window that already meets the three conditions is not changed |
| JudgeTools.Numbered | src/prejudge/judge_tools.py:135-144 | one numbered line per line of the window, in order, each `{i:5d}: ` followed by line `i` of the file |
| JudgeTools.ViewCodeText | src/prejudge/judge_tools.py:86-154 | only a timeout gives an error, and a window shown lies inside the file and spans at most 500 lines |
| JudgeTools.TextIsContentView | src/prejudge/judge_tools.py:101-147 | for a file that was read, the view is that of its text for the corrected window |
| JudgeTools.ContentView | src/prejudge/judge_tools.py:124-147 | a window shown from a file's text lies inside the file and spans at most 500 lines |
| JudgeTools.NumberLines | src/prejudge/judge_tools.py:143-144 | the loop over the window builds exactly its numbered lines |
| JudgeTools.ViewCode | src/prejudge/judge_tools.py:86-154 | `view_code` step by step agrees with its value form |
| JudgeTools.ViewContent | src/prejudge/judge_tools.py:124-147 | the part of `view_code` after the file is read agrees with its value form |
| JudgeTools.RenderedIs | src/prejudge/judge_tools.py:138-147 | the output list joined by line feeds is the header, a fence, the numbered lines and a fence |
| JudgeTools.ViewCodeShows | src/prejudge/judge_tools.py:101-147 | a start past the last line is refused exactly when it lies past it; otherwise the window keeps the corrected start, ends at the corrected end or the last line, whichever is first, and shows those lines numbered between a header and two fences |
| JudgeTools.ContentViewIs | src/prejudge/judge_tools.py:128-135 | the refusal when the start is past the file, the window clamped to the file otherwise |
| JudgeTools.WindowShows | src/prejudge/judge_tools.py:138-147 | a window's text is made of the numbered lines of the window |
| JudgeTools.ViewOutputKinds | src/prejudge/judge_tools.py:120-147 | both refusals, the missing file and the start past the last line, begin with `Error: `, and a window does not: it begins with its `Showing <path> lines` header |
| JudgeTools.LocateSymbol | src/prejudge/judge_tools.py:30-68 | found output is stripped and cut to its first 1000 characters (a prefix of exactly `min(len, 1000)` characters), and kept whole when it is no longer; a failed grep gives the NOT FOUND text naming the symbol and ref, a timeout the timed-out text naming the symbol |
| Prejudge.ConfigName | src/prejudge/prejudge.py:187 | the name read from `NAME=y` holds no `=` |
| Prejudge.LineEnablesIff | src/prejudge/prejudge.py:197-205 | a line enables a CONFIG exactly when, stripped, it reads `NAME=y` or `NAME=m` |
| Prejudge.EnablesStripped | src/prejudge/prejudge.py:199-203 | a stripped line that starts with `NAME=` and whose text after the first `=` is `y` or `m` is exactly `NAME=y` or `NAME=m` |
| Prejudge.AfterNameIs | src/prejudge/prejudge.py:202 | after `NAME=`, for a name without `=`, `split('=', 1)[1]` is the rest of the line |
| Prejudge.CheckConfigInArchConfigs | src/prejudge/prejudge.py:164-210 | True exactly when there are no CONFIGs, or no `config_data` directory, or some CONFIG is enabled by some line of some architecture's file |
| Prejudge.EnabledAnywhere | src/prejudge/prejudge.py:189-207 | the loops over the architectures and their lines find a line enabling the name exactly when there is one |
| Prejudge.JudgeFixGate | src/prejudge/prejudge.py:65-77 | the fix rule's answer, or True when the analyzer raised |
| Prejudge.JudgeArchGate | src/prejudge/prejudge.py:79-91 | the architecture rule's answer, or True when the analyzer raised |
| Prejudge.LlmGate | src/prejudge/prejudge.py:93-106 | the agent gate says no exactly when the agent answered False |
| Prejudge.JudgeConfigGate | src/prejudge/prejudge.py:108-130 | `NAME=y` for each CONFIG the patch needs, or nothing when the temporary file could not be written |
| Prejudge.ConfigNameOfFormatted | src/prejudge/prejudge.py:127 | the name read back from a formatted `NAME=y` is `NAME` |
| Prejudge.AnalyzeConfig | src/prejudge/prejudge.py:144-162 | the `config` entry is present exactly when there are CONFIGs, and then holds them |
| Prejudge.AnalyzeAndReport | src/prejudge/prejudge.py:212-257 | the text printed is the verdict of the gates in their order |
| Prejudge.GatherConfigs | src/prejudge/prejudge.py:236-238 | the gathered set is exactly the union of the result values |
| Prejudge.VerdictTrueIff | src/prejudge/prejudge.py:212-257 | "true" is printed exactly when the fix rule passes, the patch can be read, the CONFIG check passes, the architectures are supported and the agent did not answer False |
| Prejudge.VerdictNoPatchIff | src/prejudge/prejudge.py:224-230 | the error text is printed exactly when the fix rule passes and no patch text is available; every other outcome is "true" or "false" |
| Prejudge.FixGateFirst | src/prejudge/prejudge.py:217-222 | when the fix rule fails, the verdict is "false" whatever else holds |
| Prejudge.NoConfigsPass | src/prejudge/prejudge.py:169-171 | a patch that needs no CONFIG passes the configuration check |

## Left out

- git, GitPython, docker, subprocess, tempfile and file reads are not modelled as processes. Their answers are inputs: stderr texts, exit codes, timeouts, output texts and file contents.
- `_checkout` and `_get_patch` are not modelled. The `Env` record answers for any ref and any list of applied patches directly.
- `_git_history` and `_git_show` are left out. They format git log output with a floating-point percentage and play no part in apply or validate.
- `get_tools` and the LangChain tool wrappers of `project.py` and `judge_tools.py` are left out. They only forward their arguments.
- The language model, its prompts (`src/agent`, `judge_prompt.py`) and `judge_llm.py` are left out. The agent's answer is an input: an output text for `JudgeAgent.Judge`, and a `Result<bool>` for `Prejudge.LlmGate`.
- The construction of `JudgeAgent` is left out because it is network and model setup. So are the constructor checks of `PrejudgeController`, `FixCommitAnalyzer` and `ArchAnalyzer`, which test that directories exist.
- Every `main` is left out because it parses the command line. The reports of the pre-judge are returned as strings instead of printed.
- Logging is left out. So are the `print` of `judge_agent_llm` and the warnings of `_load_kconfig`.
- `analyze_config_dependencies`, `_load_kconfig`, `_manual_parse_dependencies`, `_find_kconfig_files`, `_parse_symbol_dependencies` and `_extract_configs_from_expr` are left out. They wrap kconfiglib and a recursive file search. Their result is the `Kconfig.Deps` map, and a symbol missing from the map has no dependencies.
- `_infer_config_from_path`, `_parse_kconfig_for_directory` and `_config_exists` are left out. No code path reaches them.
- The command-line `analyze_and_report` of `judge_config.py` is left out, since it only prints.
- `Kconfig.GetAllRequiredConfigs` is modelled on its own. `analyze_patch` never calls it.
- `SourceAnalyzer.ExtractConfigFromMakefile` takes the Makefiles of the file's directories, nearest first, as a list (`Tree.makefiles`). The model does not resolve paths or test whether files exist. The unused `is_same_dir` parameter of `_parse_makefile_for_config` is dropped.
- `Alignment.MostSimilarFiles` takes the `os.walk` listing as a list. The model does not fix its order, and ties keep that order.
- `EditDistance.Lev` stands for the `Levenshtein` library. It is the textbook recursive definition, not the library's algorithm.
- Strings are sequences of characters, with these simplifications:
  - `lower()` and the classes `\d` and `\w` are modelled on ASCII;
  - `\s` and `strip()` use Python's whitespace characters;
  - Unicode case mapping and normalisation are not modelled.
- Python's recursion limit bounds the mutual recursion between `_apply_hunk` and `_apply_file_move_handling`. The model writes that bound as a `fuel` parameter; when it runs out, the result is an error.
- The `exit(0)` that ends the whole program when a build times out becomes an `Err("SystemExit")` outcome. It ends the validation step, and nothing after it is modelled.
- `Prejudge.JudgeConfigGate` models one failure: the temporary patch file cannot be written (`written` false), which gives the empty set. Any other exception raised inside `PatchConfigAnalyzer` is not modelled.
- `JudgeTools.LocateSymbol` models the not-found and timeout texts. It does not model the catch-all branch that prints the text of an unexpected exception.
- `JudgeTools.ViewCodeText` and `JudgeTools.ViewCode` model only a timeout of `git show`, as an `Err` value instead of the fixed text. Other exceptions are not modelled.
- `JudgeFix.Analyze` takes the commit message as given, already stripped, with `""` when `git log` failed.
- The resets of `all_hunks_applied_succeeded` and `round_succeeded` between rounds are left out. They are done by `src/agent/invoke_llm.py`, which is outside this model.
- The temporary patch file of `judge_config` is left out. Only whether it could be written is an input; the analysis reads the patch text directly.
- `ProjectSpec.QuotedItems` writes the candidate paths as `'a', 'b'`. Python's `repr` of a path holding `'` uses double quotes, and it escapes backslashes and non-printable characters; the model does not.
- `Text.ParseInt` rejects the `_` digit separators (`"1_0"`) and the non-ASCII decimal digits that Python's `int()` accepts. The texts it reads in this model are ctags line numbers and the lengths of hunk headers.
- The UTF-8 decoding of file contents in `_viewcode` is left out. Files are given as text.
