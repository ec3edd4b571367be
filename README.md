# coc-unibeautify diff utilities, modelled in Dafny

coc-unibeautify formats a document, or a range of it, with an external
beautifier. It then hands the editor a list of text edits that turn the old
text into the formatted text. That list comes from `src/diffUtils.ts`, which
this project models:

- **The hunk walk** (`parseUniDiffs`). It runs over the structured patch of a
  line diff, hunk by hunk and line by line, and switches on each line's first
  character. It keeps a running `startLine` and a nullable `edit` slot that
  holds a mutable `Edit` object (kind, start, end, text), and pushes finished
  edits onto an `edits` array.
- **`Edit.apply`** turns one `Edit` into an editor edit (insert, delete or
  replace). **`getTextEdits`** maps `apply` over a file's edits and drops the
  empty results (`notEmpty`).
- **`getEdits`** normalises CR-LF to LF on Windows before diffing.
- **`translateTextEdits` / `translateRange`** move edits computed on a
  sub-range's text back to document coordinates.

The walk has two layers:

- **The specification.** `HunkWalk` gives the walk's meaning as left folds
  (`StepLine`, `WalkLines`, `WalkHunk`, `WalkHunks`) over a `WalkState`. The
  state has a pool of every Edit object created (as values), the output
  array as indexes into that pool, and whether the slot is filled.
- **The imperative model.** `DiffUtils` mirrors the source: a `class Edit`
  whose fields are assigned in place, the nullable slot, the `edits` array
  and the nested loops. It is proved to compute exactly that fold, through a
  ghost predicate `Tracks` that links each object on the heap to its pool
  entry.

The source never clears `edit` after the end-of-hunk push. So one object can
be pushed twice and can change after it was pushed. The pool/index state
models this as written (`Scenarios.OpenEditSharedAcrossHunks`). A line diff
only ends a hunk in the middle of a change at the end of the file, where no
hunk follows. The ordering results therefore assume that layout (`WalkOrder.LaidOut`).

The line diff library's `structuredPatch` is a parameter (`StructuredPatch`).
The platform test `process.platform === "win32"` is the parameter `isWindows`.

Where the code's behaviour may look unintended, the model follows the code:

- The end-of-hunk flush does not clear the open edit (see above).
- `translateRange` adds the column offset to every position, not only to
  positions on the first line of the extracted text (see Findings).
- An Insert that is followed by removed lines stays an Insert, but gets an
  `end` (`StepLine`, case `Removed`).

## Model

| member | source | states |
|---|---|---|
| `EditModel.ApplyEdit` | src/diffUtils.ts:28-39 | yields an editor edit exactly when the action is one of the three kinds; an Insert is an empty range at `start` with the text, a Delete is [start, end) with "", a Replace is [start, end) with the text |
| `EditModel.Present` | src/diffUtils.ts:191-193 | `filter(notEmpty)` keeps exactly the present values (x is kept iff Some(x) is in the input), never adds entries, and keeps every value in place when none is missing |
| `EditModel.PresentAppend` | src/diffUtils.ts:166 | filtering a concatenation is the concatenation of the filtered parts, so relative order is kept |
| `EditModel.ApplyAll` | src/diffUtils.ts:166 | `map(apply)` keeps the length and converts the i-th edit into the i-th entry |
| `EditModel.TextEditsOf` | src/diffUtils.ts:166 | when every action is known, nothing is filtered out and the i-th editor edit is the i-th edit converted |
| `HunkWalk.TagOfFirstChar` | src/diffUtils.ts:97 | `line.substr(0, 1)` decides the case: Removed iff the line starts with "-", Added iff "+", Context iff " ", and anything else (the empty line included) falls through the switch |
| `HunkWalk.ContentDropsTag` | src/diffUtils.ts:117 | `line.substr(1)` is the line without its one-character tag: the tag in front of it gives the line back |
| `HunkWalk.OpenSlot` | src/diffUtils.ts:99-113 | an open edit is kept as it is; with none open exactly one new Edit of the given kind at (startLine - 1, 0), no end and empty text joins, and the earlier ones are untouched |
| `HunkWalk.StepLine` | src/diffUtils.ts:97-126 | one pass of the switch keeps the walk state consistent: an open slot names an existing Edit and every pushed entry names one (what each case does is `HunkWalk.StepLineEffect`) |
| `HunkWalk.StepLineEffect` | src/diffUtils.ts:97-126 | "-" opens a Delete at (startLine - 1, 0) if none is open, keeps an open edit's kind and text, sets its end to (startLine, 0) and advances startLine; "+" opens an Insert at (startLine - 1, 0) with no end if none is open, turns a Delete into a Replace, keeps an open edit's end, appends content plus "\n" and keeps startLine; " " advances, pushes the open edit and empties the slot; any other line changes nothing; "-" and "+" never push and never change an older Edit |
| `HunkWalk.WalkLines` | src/diffUtils.ts:96-127 | the line loop keeps the walk state consistent (its growth is `HunkWalk.WalkLinesGrows`, its splitting `WalkProperties.WalkLinesAppend`) |
| `HunkWalk.WalkLinesGrows` | src/diffUtils.ts:96-127 | the line loop never moves startLine back, never loses an Edit and never takes back a push |
| `HunkWalk.EndHunk` | src/diffUtils.ts:128-130 | the flush pushes the open edit, if any, and leaves it open; startLine and the Edits are unchanged |
| `HunkWalk.WalkHunk` | src/diffUtils.ts:94-131 | a hunk restarts startLine at its `oldStart` (so it ends at `oldStart` or later, whatever it was before), keeps every Edit and takes back no push |
| `HunkWalk.WalkHunks` | src/diffUtils.ts:94-131 | the hunk loop keeps every Edit and takes back no push |
| `HunkWalk.FileNameOf` | src/diffUtils.ts:133 | `oldFileName || ""`: the old file name when there is one, "" otherwise |
| `HunkWalk.ParseFile` | src/diffUtils.ts:91-135 | the FilePatch of one file diff: its file name, one edit per push, and no edits for a diff without hunks |
| `HunkWalk.Resolve` | src/diffUtils.ts:122-134 | the pushed array read at the end: the i-th entry is the object pushed i-th, with its final fields |
| `HunkWalk.ParseAll` | src/diffUtils.ts:89-138 | one FilePatch per file diff, in the same order, each the walk of that file |
| `WalkProperties.WalkLinesAppend` | src/diffUtils.ts:96-127 | walking a + b is walking a and then b from the resulting state |
| `WalkProperties.RemovedRun` | src/diffUtils.ts:98-107 | k removed lines open a Delete at (startLine - 1, 0) when none is open, set the open edit's end to (startLine - 1 + k, 0), advance startLine by k and push nothing |
| `WalkProperties.FreshRemovedRun` | src/diffUtils.ts:98-107 | with no edit open, k removed lines create exactly one Delete spanning [startLine - 1, startLine - 1 + k) with empty text |
| `WalkProperties.AddedRun` | src/diffUtils.ts:108-118 | m added lines open an Insert when none is open, turn an open Delete into a Replace and keep any other kind, append each line's content plus "\n", and change neither startLine nor the output |
| `WalkProperties.AddedToOpen` | src/diffUtils.ts:114-117 | an added line with a non-Delete edit open only extends that edit's text |
| `WalkProperties.RemovedThenAdded` | src/diffUtils.ts:98-118 | k removed lines then m added lines, from no open edit, leave one open Replace of [s - 1, s - 1 + k) carrying the added text |
| `WalkProperties.ReplaceRunCoalesces` | src/diffUtils.ts:97-125 | from no open edit, k removed lines, m added lines and a context line push exactly one Replace of [s - 1, s - 1 + k) by the added text, and empty the slot |
| `WalkProperties.ChangeRunOpensOneEdit` | src/diffUtils.ts:98-118 | from no open edit, any non-empty run of removed/added lines, in any order, creates exactly one new Edit and pushes nothing |
| `WalkProperties.OneEditPerRun` | src/diffUtils.ts:97-125 | from no open edit, a run of changed lines closed by a context line appends exactly one edit to the output, the one the run created |
| `WalkProperties.ContextOnlyLines` | src/diffUtils.ts:119-125 | with no edit open, context and unrecognised lines create and push nothing |
| `WalkProperties.ContextOnlyHunk` | src/diffUtils.ts:94-131 | a hunk of context lines only, entered with no open edit, adds no edits |
| `WalkProperties.OtherLinesIgnored` | src/diffUtils.ts:97-126 | lines whose first character is not "-", "+" or " " (including the empty line) change nothing: dropping them gives the same walk |
| `WalkInvariants.StepKeeps` | src/diffUtils.ts:97-126 | one line keeps every Edit well formed (known kind, end set when deleting, text empty iff Delete, column 0) and only grows the state |
| `WalkInvariants.WalkLinesKeeps` | src/diffUtils.ts:96-127 | the line loop keeps every Edit well formed, never takes back a push, only extends texts and only upgrades Delete to Replace |
| `WalkInvariants.WalkHunkKeeps` | src/diffUtils.ts:94-131 | the same for one hunk, end-of-hunk push included |
| `WalkInvariants.WalkHunksKeeps` | src/diffUtils.ts:94-131 | the same for the hunk loop |
| `WalkInvariants.ParsedEditsWellFormed` | src/diffUtils.ts:89-138 | every edit of every parsed file is well formed |
| `WalkInvariants.NothingFiltered` | src/diffUtils.ts:163-167 | every parsed edit converts, so `notEmpty` drops nothing and the i-th editor edit is the i-th edit converted |
| `WalkOrder.StepInHunk` | src/diffUtils.ts:97-126 | one line keeps a hunk's edits in creation order, each pushed at most once, separated, and the newest ending just above startLine |
| `WalkOrder.WalkLinesInHunk` | src/diffUtils.ts:96-127 | the line loop keeps that invariant |
| `WalkOrder.HunkEditsOrdered` | src/diffUtils.ts:94-131 | a hunk entered with no open edit pushes each Edit it created exactly once, in creation order; they are non-overlapping and ascending and none starts above the hunk |
| `WalkOrder.HunkAppendsItsEdits` | src/diffUtils.ts:94-131 | the array after such a hunk is the array before it followed by the hunk's own edits |
| `WalkOrder.SeparatedAscending` | src/diffUtils.ts:28-39 | well-formed, separated edits convert to an ascending, non-overlapping editor edit list |
| `WalkOrder.HunkTextEditsAscending` | src/diffUtils.ts:94-131 | the editor edits of one hunk entered with no open edit are ascending and non-overlapping |
| `WalkOrder.WalkLinesAdvance` | src/diffUtils.ts:96-127 | startLine advances by exactly the number of removed and context lines |
| `WalkOrder.ClosedAfter` | src/diffUtils.ts:119-125 | a hunk whose last recognised line is a context line leaves no edit open |
| `WalkOrder.LaidOutFileOrdered` | src/diffUtils.ts:91-131 | for hunks laid out as a line diff lays them out, the array holds every Edit exactly once, in creation order, non-overlapping and ascending |
| `WalkOrder.FileEditsAscending` | src/diffUtils.ts:163-167 | for such hunks the file's editor edit list is ascending and non-overlapping, as the editor requires |
| `WalkOrder.UnchangedHunksNoEdits` | src/diffUtils.ts:94-131 | from the start of a file diff, hunks without removed or added lines create and push nothing |
| `WalkOrder.UnchangedFileNoEdits` | src/diffUtils.ts:89-138 | a file diff without removed or added lines (e.g. of equal texts) yields no edits |
| `LineEndings.SplitCrlf` | src/diffUtils.ts:154 | `split("\r\n")` always yields at least one piece |
| `LineEndings.Join` | src/diffUtils.ts:154-155 | `join(sep)` starts with the first piece |
| `LineEndings.NormalizeEol` | src/diffUtils.ts:150-155 | on Windows the text handed to the diff is the original with every CR that precedes an LF dropped; elsewhere it is the original |
| `LineEndings.SplitJoinDropsCr` | src/diffUtils.ts:154-155 | `split("\r\n").join("\n")` equals the independent definition "drop each CR that precedes an LF" |
| `LineEndings.SplitJoinRoundTrip` | src/diffUtils.ts:154 | splitting on CR-LF and joining with CR-LF gives the text back |
| `LineEndings.NormalizeKeepsLineBreaks` | src/diffUtils.ts:150-155 | the normalised text has as many LF as the original, on every platform |
| `LineEndings.NormalizeWithoutCrlf` | src/diffUtils.ts:150-155 | a text with no CR-LF pair is not changed |
| `Translate.TranslateRange` | src/diffUtils.ts:179-189 | both ends of the range move by the offset's line and by the offset's column |
| `Translate.TranslateTextEdits` | src/diffUtils.ts:169-177 | same number of edits and same texts; every line moves by offset.start.line and every column by offset.start.character |
| `Translate.TranslateByZero` | src/diffUtils.ts:179-189 | translating by (0, 0) is the identity |
| `Translate.TranslateTwice` | src/diffUtils.ts:179-189 | two translations compose into one by the component-wise sum |
| `Translate.TranslateUndo` | src/diffUtils.ts:179-189 | translating back by the negated offset undoes a translation |
| `Translate.ShiftKeepsOrder` | src/diffUtils.ts:179-189 | a shift keeps document order between two positions, both ways |
| `Translate.TranslateKeepsAscending` | src/diffUtils.ts:169-177 | an edit list is ascending and non-overlapping iff its translation is |
| `Translate.TranslateEditsByZero` | src/diffUtils.ts:169-177 | translating a list by a range starting at (0, 0) is the identity |
| `Translate.TranslateEditsTwice` | src/diffUtils.ts:169-177 | translating a list twice equals translating it once by the summed start |
| `Translate.TranslateMatchesFirstLineRule` | src/diffUtils.ts:179-189 | the translation agrees with the first-line-only rule exactly when the offset column is 0 or both ends are on line 0 |
| `Translate.TranslateScenario` | src/diffUtils.ts:169-189 | an edit at (0, 0) translated by a range starting at (5, 3) starts at (5, 3) |
| `Translate.TranslateMisplacesInteriorColumns` | src/diffUtils.ts:179-189 | for a range starting at column 3, a position on line 1 of the extracted text is moved onto a different character |
| `Translate.TranslateTextEditsFirstLine` | src/diffUtils.ts:169-189 | corrected translation: same texts, every line shifted by the offset's line, columns on line 0 shifted by the offset's column, columns on other lines unchanged |
| `Translate.FirstLineShiftFindsSameChar` | src/diffUtils.ts:179-189 | the corrected shift maps every character position of the extracted text to the same character in the document |
| `Translate.FirstLineKeepsAscending` | src/diffUtils.ts:169-177 | the corrected translation keeps an edit list ascending and non-overlapping, both ways |
| `Scenarios.ReplacedLine` | src/diffUtils.ts:94-131 | "a b c" to "a x c": one Replace of [(1,0), (2,0)) by "x\n" |
| `Scenarios.AppendedLine` | src/diffUtils.ts:94-131 | "a b" to "a b c": one Insert of "c\n" at (2, 0), the end of the document |
| `Scenarios.RemovedLine` | src/diffUtils.ts:94-131 | "a b c" to "a c": one Delete of [(1,0), (2,0)) |
| `Scenarios.OpenEditSharedAcrossHunks` | src/diffUtils.ts:92-131 | a hunk ending on a removed line leaves its Delete in the slot; the next hunk's added line turns that object into a Replace, and the file's array holds it twice |
| `DiffUtils.Edit.constructor` | src/diffUtils.ts:21-25 | a new Edit has the given kind and start, no end and empty text |
| `DiffUtils.Snapshot` | src/diffUtils.ts:133-134 | the FilePatch's edits are the objects' current fields, one per array entry |
| `DiffUtils.RemoveLine` | src/diffUtils.ts:98-106 | the "-" case on objects: the new slot and objects agree with the fold; at most one fresh object is created |
| `DiffUtils.AddLine` | src/diffUtils.ts:108-118 | the "+" case on objects: the new slot and objects agree with the fold; at most one fresh object is created |
| `DiffUtils.WalkLine` | src/diffUtils.ts:97-126 | one pass of the switch: startLine, slot, array and objects agree with `StepLine` |
| `DiffUtils.WalkLinesOf` | src/diffUtils.ts:96-127 | the line loop agrees with `WalkLines` |
| `DiffUtils.TracksEndHunk` | src/diffUtils.ts:128-130 | the end-of-hunk push agrees with `EndHunk` |
| `DiffUtils.ParseHunk` | src/diffUtils.ts:94-131 | one hunk agrees with `WalkHunk`; only the open object and fresh ones are changed |
| `DiffUtils.ParseDiff` | src/diffUtils.ts:91-135 | one file diff yields exactly `ParseFile` of it |
| `DiffUtils.ParseUniDiffs` | src/diffUtils.ts:89-138 | the result is exactly `ParseAll` of the input |
| `DiffUtils.GetEdits` | src/diffUtils.ts:149-161 | the FilePatch is the walk of the structured patch of the CR-LF-normalised texts |
| `DiffUtils.GetTextEdits` | src/diffUtils.ts:163-167 | one editor edit per parsed edit, the i-th being the i-th converted; ascending and non-overlapping when the hunks are laid out as a line diff lays them out |

## Findings

| source | as written | input that shows it | evidently intended | confidence | as-written member | corrected member |
|---|---|---|---|---|---|---|
| src/diffUtils.ts:179-189 | `translateRange` adds `offset.character` to the column of every position | range formatting of a range that starts at (0, 3) of the lines "xyzab", "cdefg": the extracted text's line 1 starts with 'c', but its position (1, 0) is translated to (1, 3), which is 'f' | add the column offset only to positions on line 0 of the extracted text, because only that line starts mid-line | not executed | `Translate.TranslateMisplacesInteriorColumns` | `Translate.TranslateTextEditsFirstLine` (with `Translate.FirstLineShiftFindsSameChar`) |

The model keeps the translation as written (`Translate.TranslateTextEdits`).
The corrected version is proved to keep every extracted character position on
the same character, and `Translate.TranslateMatchesFirstLineRule` states
exactly when the two agree.

## Left out

- The line diff itself (`jsDiff.structuredPatch`) is a parameter. So the
  claim that applying the edits to the old text gives the new text is not
  stated: it depends on what the diff returns.
- Hunk fields other than `oldStart` and `lines` (`oldLines`, `newStart`,
  `newLines`), and the parsed diff's other file names and headers, are not
  modelled. The walk does not read them.
- `process.platform` is the `isWindows` parameter.
- `Edit.applyUsingWorkspaceEdit` (src/diffUtils.ts:42-74) is not modelled.
  Nothing in the diff utilities calls it.
- src/EditProvider.ts, src/index.ts and src/Editor.ts (formatter calls,
  configuration, editor registration) are not part of this model.
- `EditModel.ApplyEdit` requires a deleting edit to have its end set.
  `Range.create` with an undefined end is an error in the editor library, and
  that path is not modelled. `WalkInvariants.ParsedEditsWellFormed` shows the
  walk never produces such an edit.
- A FilePatch holds the final field values of its Edit objects, not
  references to them. Nothing changes the objects once the walk returns, so
  the two agree.
- Strings are sequences of characters. `substr` on UTF-16 code units and any
  Unicode handling are not modelled.
