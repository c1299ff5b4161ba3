# compare-docs core, modelled in Dafny

compare-docs is a web application that shows two documents side by side
with their differences highlighted. This project models its comparison
core:

- **`lib/comparison-engine.ts`**
  - `normalizeText`: optional lower-casing, then collapsing each whitespace run to one space and trimming.
  - `compareTexts`: normalizes both texts, diffs them, and returns the edit script with its HTML rendering and line alignment.
  - `generateLineMap`: the left/right line alignment maps built from an edit script.
  - `formatDiffs`: HTML-escapes each edit and wraps deletions and insertions in coloured spans.
- **`lib/file-utils.ts`**
  - `diffTexts`: the hand-written two-cursor line diff with a two-line look-ahead.
- **`lib/document-context.tsx`**
  - The comparison state: the two documents, the differences, a busy flag and an error.
  - Its setters: `setLeftDocument`, `setRightDocument`, `clearDocuments` and `setError`.
  - `compareDocuments`: diffs the two documents index by index, after a guard that checks both are loaded.
- **`components/molecules/PDFViewer.tsx`**
  - `processGitHubStyleDiff` and the effect that calls it. Together they project an edit script onto one side as numbered `DiffLine` rows.
  - The `isLikelyHeading` heuristic of the paragraph view.
  - The page buttons `goToPreviousPage` and `goToNextPage`.

Files:

- `Wrappers.dfy`: `Option` and a map lookup (`Map.get`).
- `Text.dfy`: the JavaScript string built-ins the core uses over `seq<char>`.
  - `split('\n')` and its inverse.
  - ASCII case and whitespace classes.
  - The `{ line, content }` record shared by both line diffs.
- `ComparisonEngine.dfy`, `FileUtils.dfy`, `DocumentContext.dfy` and `PdfViewer.dfy`: one module per source file.

Pure code is modelled as functions, with lemmas about them. Code that works by loops and accumulators is modelled as methods with loops:

- the `forEach` bodies of `generateLineMap`, `formatDiffs` and `processGitHubStyleDiff`;
- the `while` loop of `diffTexts`;
- the `for` loop of `compareDocuments`.

Each such method is proved against a specification function: its `ensures` ties its result to that function of its inputs. The function's properties are proved as lemmas. For `diffTexts` the function is `WalkFrom`, which repeats `Pass`, one pass of the loop, until both cursors are at the end; the properties of its records are carried by the loop invariant `Walked`. React state updates `setState(prev => …)` are functions from the old state to the new one. The viewer's two page counters, which the component updates in place, are a class.

Edit scripts are `seq<Edit>`, where an `Edit` is an operation (`Delete`, `Equal`, `Insert`, standing for -1, 0, 1) and a text. The diff library (`diff_main` followed by `diff_cleanupSemantic`) is not part of this model. `CompareTexts` takes its output as a parameter. The only thing required of it is what any correct diff guarantees: dropping the inserted pieces of the script spells the first normalized text, and dropping the deleted pieces spells the second.

Three behaviours of the code are modelled as written and stated as lemmas:

- **`correspondingLine` is read one line late.**
  - `processGitHubStyleDiff` reads the alignment maps at `lineNumber - 1` after the increment, which is the row's own 1-based number. The maps are 0-based.
  - So on an unchanged document, row `k` carries `k` (its own number) rather than `k - 1`. The last row carries nothing (`CorrespondingLineShift`).
  - No part of the component renders `correspondingLine`.
- **The alignment cursors count edit fragments, not lines.**
  - `generateLineMap` advances by the line count of each edit's text on its own.
  - A line cut across several edits is therefore counted once per piece. For example, `[Equal "ab", Delete "c", Equal "d\n"]` moves the left cursor 3 lines over a one-line text (`CursorOvercountExample`).
  - When every edit ends at a line end, the cursors do count the lines of each side (`CursorLineCounts`).
- **`compareTexts` passes `split('\n')` of the raw texts to `generateLineMap`, which never reads them.** The alignment depends on the edit script alone (`GenerateLineMap` ignores its line arrays).

## Model

| member | source | states |
|---|---|---|
| Wrappers.Lookup | compare-docs/components/molecules/PDFViewer.tsx:133-134 | `Map.get`: a value exactly when the key is present, and then the stored one |
| Text.Split | compare-docs/lib/file-utils.ts:29-30 | `split('\n')` never returns an empty array |
| Text.SplitShape | compare-docs/lib/file-utils.ts:29-30 | a split has one piece more than the text has newlines; no piece holds a newline; joining the pieces with '\n' gives the text back |
| Text.SplitLastEmpty | compare-docs/lib/comparison-engine.ts:91-92 | the last piece of a split is empty exactly when the text is empty or ends in '\n' |
| Text.LowerChar | compare-docs/lib/comparison-engine.ts:27-29 | an upper-case letter becomes the lower-case letter 32 code points above it; any other character is unchanged; the result is never upper-case and is whitespace exactly when the input is |
| Text.UpperChar | compare-docs/components/molecules/PDFViewer.tsx:290 | a lower-case letter becomes the upper-case letter 32 code points below it; any other character is unchanged; the result is never lower-case |
| ComparisonEngine.TrimStart | compare-docs/lib/comparison-engine.ts:35 | the left trim is a suffix of its input that does not start with whitespace |
| ComparisonEngine.TrimStartDropsWhitespace | compare-docs/lib/comparison-engine.ts:35 | everything the left trim removes is whitespace |
| ComparisonEngine.TrimEnd | compare-docs/lib/comparison-engine.ts:35 | the right trim is a prefix of its input that does not end with whitespace |
| ComparisonEngine.TrimEndDropsWhitespace | compare-docs/lib/comparison-engine.ts:35 | everything the right trim removes is whitespace |
| ComparisonEngine.TrimIsSlice | compare-docs/lib/comparison-engine.ts:35 | `trim()` returns a contiguous slice of its input |
| ComparisonEngine.TrimTrimmed | compare-docs/lib/comparison-engine.ts:35 | the result of `trim()` neither starts nor ends with whitespace |
| ComparisonEngine.TrimKeepsVisible | compare-docs/lib/comparison-engine.ts:35 | `trim()` removes no non-whitespace character |
| ComparisonEngine.ReplaceWhitespaceRunsFirst | compare-docs/lib/comparison-engine.ts:33 | collapsing runs keeps a non-empty text non-empty, with a whitespace first character exactly when the input has one |
| ComparisonEngine.ReplaceWhitespaceRunsShape | compare-docs/lib/comparison-engine.ts:33 | after `replace(/\s+/g, ' ')` no two whitespace characters are adjacent, and every whitespace character is a plain space |
| ComparisonEngine.ReplaceWhitespaceRunsKeepsVisible | compare-docs/lib/comparison-engine.ts:33 | collapsing runs keeps every non-whitespace character, in order |
| ComparisonEngine.ReplaceWhitespaceRunsFixpoint | compare-docs/lib/comparison-engine.ts:33 | a text with no runs and only plain spaces is left unchanged |
| ComparisonEngine.SingleSpacesTail | compare-docs/lib/comparison-engine.ts:33 | a text with no runs and only plain spaces keeps both properties without its first character |
| ComparisonEngine.SingleSpaceTrimStart | compare-docs/lib/comparison-engine.ts:33 | in a text with no adjacent whitespace that starts with whitespace, dropping the leading run removes only the first character |
| ComparisonEngine.NoUpperSurvives | compare-docs/lib/comparison-engine.ts:27-36 | collapsing runs introduces no upper-case letter |
| ComparisonEngine.NormalizeText | compare-docs/lib/comparison-engine.ts:21-39 | without options the text is returned unchanged; with `ignoreCase` alone it is the lower-cased text |
| ComparisonEngine.NormalizeTextShape | compare-docs/lib/comparison-engine.ts:21-39 | with `ignoreWhitespace`, a normalized text has no whitespace at either end, no adjacent whitespace, only plain spaces and no newline; with `ignoreCase`, it has no upper-case letter |
| ComparisonEngine.CollapsedShape | compare-docs/lib/comparison-engine.ts:31-36 | collapsing then trimming gives a trimmed text with single plain spaces only |
| ComparisonEngine.CollapsedNoUpper | compare-docs/lib/comparison-engine.ts:27-36 | collapsing and trimming a lower-cased text keeps it free of upper-case letters |
| ComparisonEngine.NormalizeTextKeepsVisible | compare-docs/lib/comparison-engine.ts:21-39 | whitespace normalization keeps every non-whitespace character of the case-folded text, in order |
| ComparisonEngine.NormalizeTextIdempotent | compare-docs/lib/comparison-engine.ts:21-39 | normalizing a normalized text with the same options changes nothing |
| ComparisonEngine.Words | compare-docs/lib/comparison-engine.ts:31-36 | text starting with a visible character has at least one word |
| ComparisonEngine.WordsShape | compare-docs/lib/comparison-engine.ts:31-36 | every word is non-empty and holds no whitespace |
| ComparisonEngine.WordsTrimStart | compare-docs/lib/comparison-engine.ts:31-36 | leading whitespace holds no word |
| ComparisonEngine.CollapsedWords | compare-docs/lib/comparison-engine.ts:31-36 | `replace(/\s+/g, ' ').trim()` is the words of the text joined by single spaces |
| ComparisonEngine.CollapsedWordsLead | compare-docs/lib/comparison-engine.ts:31-36 | leading whitespace changes neither side of `CollapsedWords` |
| ComparisonEngine.CollapsedWordsSingle | compare-docs/lib/comparison-engine.ts:31-36 | a single visible character collapses and trims to its one word |
| ComparisonEngine.GapUnfoldRuns | compare-docs/lib/comparison-engine.ts:33 | a visible character then whitespace collapses to that character, one space and the collapsed rest |
| ComparisonEngine.GapUnfoldWords | compare-docs/lib/comparison-engine.ts:31-36 | a visible character then whitespace is a one-character word before the words of the rest |
| ComparisonEngine.NormalizeTextWords | compare-docs/lib/comparison-engine.ts:21-39 | with `ignoreWhitespace`, the result is the words of the case-folded text joined by single spaces |
| ComparisonEngine.WordsExample | compare-docs/lib/comparison-engine.ts:31-36 | " ab  c " has the words "ab" and "c", which join to "ab c" |
| ComparisonEngine.ReplaceWhitespaceRunsWordFirst | compare-docs/lib/comparison-engine.ts:33 | a word without whitespace in front of a text is kept as it is |
| ComparisonEngine.TrimStartGap | compare-docs/lib/comparison-engine.ts:35 | a run of whitespace in front of a word is exactly what the left trim removes |
| ComparisonEngine.WordKept | compare-docs/lib/comparison-engine.ts:33 | a word without whitespace is unchanged by collapsing |
| ComparisonEngine.GapCollapses | compare-docs/lib/comparison-engine.ts:33 | a non-empty whitespace gap followed by a word becomes one space followed by the word |
| ComparisonEngine.WordsCollapse | compare-docs/lib/comparison-engine.ts:33 | two words separated by any non-empty whitespace gap become the words separated by a single space |
| ComparisonEngine.HelloWorldCollapses | compare-docs/lib/comparison-engine.ts:33 | "hello  world" and "hello world" both collapse to "hello world" |
| ComparisonEngine.HelloWorldTrimmed | compare-docs/lib/comparison-engine.ts:35 | "hello world" has nothing to trim |
| ComparisonEngine.HelloWorldFolded | compare-docs/lib/comparison-engine.ts:27-29 | "Hello  World" lower-cases to "hello  world" |
| ComparisonEngine.HelloWorldFoldedAgain | compare-docs/lib/comparison-engine.ts:27-29 | "hello world" is already lower-case |
| ComparisonEngine.NormalizeMixedCase | compare-docs/lib/comparison-engine.ts:21-39 | with both options, "Hello  World" normalizes to "hello world" |
| ComparisonEngine.NormalizeLowerCase | compare-docs/lib/comparison-engine.ts:21-39 | with both options, "hello world" normalizes to itself |
| ComparisonEngine.NormalizeTextExample | compare-docs/lib/comparison-engine.ts:21-39 | with both options, texts that differ only in case and spacing normalize alike |
| ComparisonEngine.LineCount | compare-docs/lib/comparison-engine.ts:91-92 | an edit's line count is its number of newlines, plus one for an unterminated last line |
| ComparisonEngine.LineCountAppend | compare-docs/lib/comparison-engine.ts:91-92 | the line count of two texts joined is the sum of their counts, less one when the first ends mid-line and the second is non-empty |
| ComparisonEngine.LineCountExamples | compare-docs/lib/comparison-engine.ts:91-92 | "" has 0 lines, "a\n" and "c" have 1, and "a\nb" and "a\nb\n" have 2 |
| ComparisonEngine.RunIntoEntries | compare-docs/lib/comparison-engine.ts:97-99 | a deleted or inserted run adds exactly its lines as keys, each mapped to the other side's cursor, and keeps the other entries |
| ComparisonEngine.ShiftIntoEntries | compare-docs/lib/comparison-engine.ts:104-107 | an unchanged run adds exactly its lines as keys, pairing each with the other side's line at the same offset, and keeps the other entries |
| ComparisonEngine.StepAligned | compare-docs/lib/comparison-engine.ts:94-118 | one edit keeps, on both sides, every key below its own cursor, every value at most the other side's cursor, and values that never decrease as keys grow |
| ComparisonEngine.StepKeys | compare-docs/lib/comparison-engine.ts:94-118 | one edit adds exactly the lines its cursor passes as keys of each map |
| ComparisonEngine.FillKeys | compare-docs/lib/comparison-engine.ts:90-119 | a script adds exactly the lines its cursors pass as keys |
| ComparisonEngine.FillAligned | compare-docs/lib/comparison-engine.ts:90-119 | a script keeps, on both sides, every key below its own cursor, every value at most the other side's cursor, and values that never decrease as keys grow |
| ComparisonEngine.LineMapShape | compare-docs/lib/comparison-engine.ts:78-122 | the left map's keys are exactly the lines below the final left cursor, and likewise on the right; every value is at most the other side's final cursor, and values never decrease as keys grow; each line ends up with the value that the edit covering it wrote: the other side's cursor for a deleted or inserted line, the line at the same offset for an unchanged one |
| ComparisonEngine.StepKeepsKey | compare-docs/lib/comparison-engine.ts:94-118 | one edit leaves every entry below its own cursor as it was, on both sides |
| ComparisonEngine.StepWritesKey | compare-docs/lib/comparison-engine.ts:94-118 | one edit maps each line its cursor passes to the other side's cursor, or, when unchanged, to the other side's line at the same offset |
| ComparisonEngine.FillKeepsLeft | compare-docs/lib/comparison-engine.ts:90-119 | a left entry below the left cursor keeps its value through the rest of the script |
| ComparisonEngine.FillKeepsRight | compare-docs/lib/comparison-engine.ts:90-119 | a right entry below the right cursor keeps its value through the rest of the script |
| ComparisonEngine.FillKeepsKey | compare-docs/lib/comparison-engine.ts:90-119 | both halves of `FillKeepsLeft` and `FillKeepsRight` for one key |
| ComparisonEngine.FillKeeps | compare-docs/lib/comparison-engine.ts:90-119 | no key is written twice: every entry present before a script, below the cursors, survives it with its value |
| ComparisonEngine.FillWritesKey | compare-docs/lib/comparison-engine.ts:90-119 | a line covered by edit `d` holds, at the end of the script, the value edit `d` wrote, with the cursors advanced past the edits before `d` |
| ComparisonEngine.FillWrites | compare-docs/lib/comparison-engine.ts:90-119 | every line covered by edit `d` holds the value edit `d` wrote, on both sides |
| ComparisonEngine.LineMapEntries | compare-docs/lib/comparison-engine.ts:78-122 | from empty maps and cursors at zero, every line covered by an edit ends with the value that edit wrote |
| ComparisonEngine.FillNext | compare-docs/lib/comparison-engine.ts:90-119 | the maps built after one more `forEach` visit, from the state that visit leaves, are those built before it |
| ComparisonEngine.StepIdentity | compare-docs/lib/comparison-engine.ts:102-110 | an unchanged edit with equal cursors keeps identity maps identities |
| ComparisonEngine.FillIdentity | compare-docs/lib/comparison-engine.ts:90-119 | a script with no changes moves both cursors alike and keeps identity maps identities |
| ComparisonEngine.UnchangedLineMap | compare-docs/lib/comparison-engine.ts:78-122 | a script with no changes aligns every line with itself on both sides |
| ComparisonEngine.FillAt | compare-docs/lib/comparison-engine.ts:90-119 | the maps built from position `d` of a script are those of the edit at `d` followed by those of the rest |
| ComparisonEngine.SetRun | compare-docs/lib/comparison-engine.ts:97-99 | the `for` loop of a deleted (or inserted) run sets exactly the run's entries to the other side's cursor |
| ComparisonEngine.SetShifted | compare-docs/lib/comparison-engine.ts:104-107 | the `for` loop of an unchanged run pairs the run's lines one to one |
| ComparisonEngine.ApplyEdit | compare-docs/lib/comparison-engine.ts:91-117 | one `forEach` visit updates the maps as the specification step does and moves each cursor by the edit's line count on that side |
| ComparisonEngine.GenerateLineMap | compare-docs/lib/comparison-engine.ts:78-122 | the maps returned are the alignment of the script, whose keys and values are characterised by `LineMapShape`; the line arrays play no part |
| ComparisonEngine.CursorLineCounts | compare-docs/lib/comparison-engine.ts:86-117 | each final cursor is at least the line count of its side's text, and equals it when every edit ends at a line end |
| ComparisonEngine.LeftCursorLineCount | compare-docs/lib/comparison-engine.ts:100-108 | the left half of `CursorLineCounts` |
| ComparisonEngine.RightCursorLineCount | compare-docs/lib/comparison-engine.ts:109-116 | the right half of `CursorLineCounts` |
| ComparisonEngine.CursorOvercountExample | compare-docs/lib/comparison-engine.ts:91-92 | a one-line left text cut into three edits moves the left cursor three lines |
| ComparisonEngine.LineMapExampleSteps | compare-docs/lib/comparison-engine.ts:94-118 | the maps after each edit of "a\n" kept, "b\n" deleted, "c" kept |
| ComparisonEngine.LineMapExample | compare-docs/lib/comparison-engine.ts:78-122 | that script maps left lines 0, 1, 2 to 0, 1, 1, and right lines 0, 1 to 0, 2 |
| ComparisonEngine.ReplaceAllAppend | compare-docs/lib/comparison-engine.ts:133-136 | a global replace distributes over concatenation |
| ComparisonEngine.ReplaceAllAbsent | compare-docs/lib/comparison-engine.ts:133-136 | replacing an absent character changes nothing |
| ComparisonEngine.EscapeEachAppend | compare-docs/lib/comparison-engine.ts:133-136 | per-character escaping distributes over concatenation |
| ComparisonEngine.EscapeHtmlChar | compare-docs/lib/comparison-engine.ts:133-136 | the three chained replaces escape a single character as `&amp;`, `&lt;`, `&gt;` or itself |
| ComparisonEngine.EscapeHtmlIsEachChar | compare-docs/lib/comparison-engine.ts:133-136 | the chained replaces, `&` first, escape each character independently, so no entity is escaped twice |
| ComparisonEngine.EscapedHasNoBrackets | compare-docs/lib/comparison-engine.ts:133-136 | escaped text holds no `<` and no `>`, so it cannot open or close a tag |
| ComparisonEngine.UnescapeChar | compare-docs/lib/comparison-engine.ts:133-136 | decoding the entities undoes the escaping of one character |
| ComparisonEngine.UnescapeAmp | compare-docs/lib/comparison-engine.ts:134 | `&amp;` decodes to `&` |
| ComparisonEngine.UnescapeLt | compare-docs/lib/comparison-engine.ts:135 | `&lt;` decodes to `<` |
| ComparisonEngine.UnescapeGt | compare-docs/lib/comparison-engine.ts:136 | `&gt;` decodes to `>` |
| ComparisonEngine.UnescapePlain | compare-docs/lib/comparison-engine.ts:133-136 | a character other than `&` decodes to itself |
| ComparisonEngine.UnescapeEscape | compare-docs/lib/comparison-engine.ts:133-136 | decoding the entities of an escaped text gives the text back |
| ComparisonEngine.EscapeEachPlain | compare-docs/lib/comparison-engine.ts:133-136 | a text without `&`, `<` and `>` is left unchanged by escaping |
| ComparisonEngine.EscapeTagExample | compare-docs/lib/comparison-engine.ts:133-136 | `<b>` escapes to `&lt;b&gt;` |
| ComparisonEngine.EntityEscapedEach | compare-docs/lib/comparison-engine.ts:133-136 | per character, `&lt;` escapes to `&amp;lt;` |
| ComparisonEngine.EscapeEntityExample | compare-docs/lib/comparison-engine.ts:133-136 | an entity in the input is escaped once, as text: `&lt;` becomes `&amp;lt;` |
| ComparisonEngine.HtmlAt | compare-docs/lib/comparison-engine.ts:131-150 | the HTML of a script from position `d` is the fragment of the edit at `d` followed by that of the rest |
| ComparisonEngine.AppendRun | compare-docs/lib/comparison-engine.ts:131-150 | one `forEach` visit appends the edit's fragment to each side's HTML |
| ComparisonEngine.FormatDiffs | compare-docs/lib/comparison-engine.ts:127-153 | the HTML of each side is the concatenation of the fragments of the script's edits, in order |
| ComparisonEngine.LeftHtmlAppend | compare-docs/lib/comparison-engine.ts:127-153 | the HTML of two scripts in sequence is the concatenation of their HTML, on both sides |
| ComparisonEngine.HtmlIgnoresOtherSide | compare-docs/lib/comparison-engine.ts:138-149 | insertions contribute nothing to the left HTML and deletions nothing to the right HTML |
| ComparisonEngine.VisiblePlain | compare-docs/lib/comparison-engine.ts:138-149 | text with no `<` is shown as it is |
| ComparisonEngine.VisibleTagBody | compare-docs/lib/comparison-engine.ts:138-149 | the inside of a tag is not shown |
| ComparisonEngine.VisibleTag | compare-docs/lib/comparison-engine.ts:138-149 | a whole tag is not shown |
| ComparisonEngine.NoTagEndAppend | compare-docs/lib/comparison-engine.ts:140 | two texts without `>` joined have no `>` |
| ComparisonEngine.DeletionPiecesNoTagEnd | compare-docs/lib/comparison-engine.ts:140 | the class list of the deletion span holds no `>` |
| ComparisonEngine.InsertionPiecesNoTagEnd | compare-docs/lib/comparison-engine.ts:147 | the class list of the insertion span holds no `>` |
| ComparisonEngine.TagsNoTagEnd | compare-docs/lib/comparison-engine.ts:140-147 | the opening and closing span tags hold no `>` inside |
| ComparisonEngine.VisibleSpan | compare-docs/lib/comparison-engine.ts:140-147 | a span around escaped text shows exactly that text |
| ComparisonEngine.LeftFragmentVisible | compare-docs/lib/comparison-engine.ts:139-145 | an edit's left fragment shows its escaped text unless it is an insertion |
| ComparisonEngine.RightFragmentVisible | compare-docs/lib/comparison-engine.ts:142-148 | an edit's right fragment shows its escaped text unless it is a deletion |
| ComparisonEngine.VisibleHtml | compare-docs/lib/comparison-engine.ts:127-153 | the text each side's HTML shows, tags removed, is the escaped text of that side |
| ComparisonEngine.RenderedText | compare-docs/lib/comparison-engine.ts:127-153 | once rendered, each side's HTML reads as exactly that side's text |
| ComparisonEngine.CompareTexts | compare-docs/lib/comparison-engine.ts:44-72 | the result carries the script, its HTML and its alignment; each side's HTML, once rendered, reads as that side's normalized text |
| FileUtils.IndexOf | compare-docs/lib/file-utils.ts:55 | `indexOf(x, from)` is -1 when no line at or after `from` is `x`, and otherwise the first such index |
| FileUtils.LookAhead | compare-docs/lib/file-utils.ts:55-56 | on differing lines, the look-ahead succeeds exactly when the modified line occurs one or two lines further in the original, and then it names the first such place |
| FileUtils.KeptIgnoresBeyond | compare-docs/lib/file-utils.ts:40-68 | lines not yet walked make no difference to what is kept |
| FileUtils.Push | compare-docs/lib/file-utils.ts:43 | recording the line under a cursor keeps the records valid, increasing and below the moved cursor, and drops that line from what is kept |
| FileUtils.Keep | compare-docs/lib/file-utils.ts:49-52 | a line that is not recorded is kept |
| FileUtils.RecordAddition | compare-docs/lib/file-utils.ts:41-44 | reporting the modified line and advancing `j` keeps the loop invariant |
| FileUtils.RecordDeletion | compare-docs/lib/file-utils.ts:45-48 | reporting the original line and advancing `i` keeps the loop invariant |
| FileUtils.MatchLines | compare-docs/lib/file-utils.ts:49-52 | skipping equal lines on both sides keeps the loop invariant |
| FileUtils.RunShape | compare-docs/lib/file-utils.ts:58-60 | the records of lines `lo` up to `hi` are one per line, in order, each naming its line and its content |
| FileUtils.Pass | compare-docs/lib/file-utils.ts:40-67 | one pass of the loop keeps both cursors in range and moves them closer to the end |
| FileUtils.PassCases | compare-docs/lib/file-utils.ts:40-67 | original exhausted: the modified line is added and `j` moves; modified exhausted: the original line is deleted and `i` moves; equal lines: both move with no record; otherwise, when the modified line is one or two lines further in the original, the lines up to its first occurrence are deleted and `i` jumps there, and else the modified line is added and `j` moves |
| FileUtils.WalkStep | compare-docs/lib/file-utils.ts:37-68 | records so far, then one pass, then the rest of the walk, are the records so far followed by the walk from the current cursors |
| FileUtils.DeleteUpTo | compare-docs/lib/file-utils.ts:58-61 | the inner loop appends exactly the records of original lines `i` up to the found index, in order, and keeps the invariant |
| FileUtils.Mismatch | compare-docs/lib/file-utils.ts:53-67 | on differing lines, the `else` branch moves the cursors and appends the records exactly as `Pass` prescribes (by `PassCases`: the lines up to the first match one or two lines further are deleted, or else the modified line is added) and keeps the invariant |
| FileUtils.Advance | compare-docs/lib/file-utils.ts:40-68 | one pass of the loop moves the cursors and appends the records exactly as `Pass` prescribes, keeps the invariant, and never reports anything while the texts are equal |
| FileUtils.DiffTexts | compare-docs/lib/file-utils.ts:25-71 | the records are exactly `WalkFrom` of the split texts from line 0; every record names a line of its own side with its content; records are in increasing line order, so none repeats; the original less its deletions equals the modified text less its additions; identical texts give no records |
| FileUtils.WalkExamples | compare-docs/lib/file-utils.ts:37-68 | ["a"] against ["b"] deletes line 0 and adds line 0; ["a", "b", "c"] against ["a", "c"] deletes line 1 only |
| FileUtils.WalkLookAheadExamples | compare-docs/lib/file-utils.ts:53-67 | a match one line further deletes the skipped line; a match three lines further is out of reach, so the line is added and the whole original deleted |
| DocumentContext.SetLeftDocument | compare-docs/lib/document-context.tsx:43-49 | loads the left document and clears the error; everything else, stale differences included, is kept |
| DocumentContext.SetRightDocument | compare-docs/lib/document-context.tsx:51-57 | loads the right document and clears the error; everything else is kept |
| DocumentContext.ClearDocuments | compare-docs/lib/document-context.tsx:111-119 | returns to the initial state, whatever came before |
| DocumentContext.SetError | compare-docs/lib/document-context.tsx:121-123 | replaces the error and nothing else |
| DocumentContext.DiffByIndex | compare-docs/lib/document-context.tsx:76-92 | the loop builds the positional diff of the two line arrays |
| DocumentContext.DeletionsUpToRecords | compare-docs/lib/document-context.tsx:84-90 | deletion records below an index carry left lines, increase strictly and lie below that index |
| DocumentContext.DeletionsUpToLines | compare-docs/lib/document-context.tsx:84-90 | a line is a deletion exactly when it is in the left text and the right text lacks it or differs there |
| DocumentContext.AdditionsUpToRecords | compare-docs/lib/document-context.tsx:81-90 | addition records below an index carry right lines, increase strictly and lie below that index |
| DocumentContext.AdditionsUpToLines | compare-docs/lib/document-context.tsx:81-90 | a line is an addition exactly when it is in the right text and the left text lacks it or differs there |
| DocumentContext.PushRecord | compare-docs/lib/document-context.tsx:83-90 | appending a valid record for the current index keeps records valid and increasing |
| DocumentContext.PositionalDiffLines | compare-docs/lib/document-context.tsx:80-92 | a line both sides have is reported on both sides exactly when the texts differ there; a line only one side has is reported on that side only; no other line is reported |
| DocumentContext.PositionalDiffRecords | compare-docs/lib/document-context.tsx:80-92 | records carry their own side's line, are strictly increasing and lie below the longer side's length |
| DocumentContext.PositionalDiffSame | compare-docs/lib/document-context.tsx:80-92 | identical line arrays give no records |
| DocumentContext.BeginCompare | compare-docs/lib/document-context.tsx:68 | a comparison that starts marks the state busy and clears the error, keeping the rest |
| DocumentContext.FinishCompare | compare-docs/lib/document-context.tsx:97-101 | a comparison that finishes stores the differences and clears the busy flag, keeping the rest |
| DocumentContext.CompareDocuments | compare-docs/lib/document-context.tsx:59-109 | without both documents, only the missing-document error is set; otherwise the state ends with the positional diff of the two contents, not busy and without an error |
| DocumentContext.CompareSameContent | compare-docs/lib/document-context.tsx:43-109 | loading the same text on both sides and comparing gives no differences and no error |
| DocumentContext.CompareAfterClear | compare-docs/lib/document-context.tsx:59-119 | comparing after `clearDocuments` leaves the initial state with the missing-document error |
| DocumentContext.CompareWithOneDocument | compare-docs/lib/document-context.tsx:43-66 | with only the left document loaded, a comparison sets the error, keeps the document and computes no differences |
| PdfViewer.KeptAfterNewline | compare-docs/components/molecules/PDFViewer.tsx:116-123 | a leading newline yields a leading empty row |
| PdfViewer.KeptAfterChar | compare-docs/components/molecules/PDFViewer.tsx:116-123 | a leading character joins the first kept piece |
| PdfViewer.SegmentsOfSplit | compare-docs/components/molecules/PDFViewer.tsx:116-123 | the rows of an edit's text are its `split('\n')` pieces, less a trailing empty piece |
| PdfViewer.SegmentsArePrefix | compare-docs/components/molecules/PDFViewer.tsx:116-123 | the kept pieces are the first pieces of the split: all of them, or all but an empty last one |
| PdfViewer.SegmentsShape | compare-docs/components/molecules/PDFViewer.tsx:116-123 | an edit yields as many rows as the alignment counts lines for it, no row holds a newline, and an empty text yields none |
| PdfViewer.EmitLine | compare-docs/components/molecules/PDFViewer.tsx:125-157 | a kept piece adds a row when the side shows the edit, and advances the counter either way |
| PdfViewer.SegmentRowsSnoc | compare-docs/components/molecules/PDFViewer.tsx:119-158 | the rows of pieces with one more piece are the earlier rows followed by the new piece's row |
| PdfViewer.SegmentRowsStep | compare-docs/components/molecules/PDFViewer.tsx:119-158 | after one more kept piece, the rows so far are followed by that piece's row |
| PdfViewer.AppendEdit | compare-docs/components/molecules/PDFViewer.tsx:114-159 | one edit appends the rows of its kept pieces and advances the counter by their number |
| PdfViewer.DiffRowsAt | compare-docs/components/molecules/PDFViewer.tsx:114-159 | the rows from position `d` of a script are the rows of the edit at `d` followed by those of the rest, numbered on |
| PdfViewer.ProcessGitHubStyleDiff | compare-docs/components/molecules/PDFViewer.tsx:106-162 | the rows of the script projected onto the side, numbered from 1; its kinds and numbers are stated by `DiffRowsKinds` and `DiffRowsNumbers`, and its other properties by `DiffRowsShape` |
| PdfViewer.UpdateDiffLines | compare-docs/components/molecules/PDFViewer.tsx:96-103 | with highlighting on and a result present, the projected rows; otherwise no rows |
| PdfViewer.NumberedConcat | compare-docs/components/molecules/PDFViewer.tsx:106-162 | numbered row lists over adjacent ranges join into one numbered list |
| PdfViewer.AllOnSideConcat | compare-docs/components/molecules/PDFViewer.tsx:106-162 | rows a side shows, joined, are still rows that side shows |
| PdfViewer.ContentsConcat | compare-docs/components/molecules/PDFViewer.tsx:106-162 | the contents of joined rows are the joined contents |
| PdfViewer.SegmentRowsNumbered | compare-docs/components/molecules/PDFViewer.tsx:119-158 | one edit's rows are numbered strictly increasingly within its pieces' numbers |
| PdfViewer.SegmentRowsOnSide | compare-docs/components/molecules/PDFViewer.tsx:125-157 | one edit's rows have a kind the side shows, no newline, and the side's map read at their own number |
| PdfViewer.SegmentRowsContents | compare-docs/components/molecules/PDFViewer.tsx:125-157 | one edit's rows carry its pieces when the side shows the edit, and nothing otherwise |
| PdfViewer.DiffRowsNumbered | compare-docs/components/molecules/PDFViewer.tsx:106-162 | row numbers increase strictly and lie from the start up to the number of pieces in the whole script |
| PdfViewer.DiffRowsOnSide | compare-docs/components/molecules/PDFViewer.tsx:125-157 | the left side shows no additions and the right side no deletions; no row holds a newline; each row carries the side's map at its number |
| PdfViewer.DiffRowsContents | compare-docs/components/molecules/PDFViewer.tsx:106-162 | the rows' contents are exactly the pieces of the edits the side shows, in script order |
| PdfViewer.DiffRowsShape | compare-docs/components/molecules/PDFViewer.tsx:106-162 | the three facts above together |
| PdfViewer.KindsConcat | compare-docs/components/molecules/PDFViewer.tsx:106-162 | the kinds of joined rows are the joined kinds |
| PdfViewer.NumbersConcat | compare-docs/components/molecules/PDFViewer.tsx:106-162 | the numbers of joined rows are the joined numbers |
| PdfViewer.SegmentRowsKinds | compare-docs/components/molecules/PDFViewer.tsx:125-157 | an edit the side shows gives one row per piece, all of its kind (kept: context, deleted: deletion, inserted: addition); an edit it hides gives none |
| PdfViewer.SegmentRowsNumbers | compare-docs/components/molecules/PDFViewer.tsx:125-157 | a shown edit's rows take the consecutive numbers from the counter on; a hidden one takes none |
| PdfViewer.DiffRowsKinds | compare-docs/components/molecules/PDFViewer.tsx:106-162 | the row kinds are, edit by edit, one per piece of each edit the side shows, of that edit's kind |
| PdfViewer.DiffRowsNumbers | compare-docs/components/molecules/PDFViewer.tsx:106-162 | the row numbers are, edit by edit, the consecutive numbers of each shown edit's pieces, and a hidden edit's pieces use up numbers without rows |
| PdfViewer.SegmentRowsContext | compare-docs/components/molecules/PDFViewer.tsx:127-136 | the context rows of an edit are numbered consecutively from the counter when it is kept, and there are none otherwise |
| PdfViewer.ContextNumbersConcat | compare-docs/components/molecules/PDFViewer.tsx:127-136 | the context numbers of joined rows are the joined context numbers |
| PdfViewer.DiffRowsContext | compare-docs/components/molecules/PDFViewer.tsx:106-162 | the context rows' numbers are those of the kept edits' pieces, counted with every piece of the script, on either side |
| PdfViewer.ContextNumbersAgree | compare-docs/components/molecules/PDFViewer.tsx:106-162 | both sides give their context rows the same numbers, whatever the maps |
| PdfViewer.RowsWithoutMap | compare-docs/components/molecules/PDFViewer.tsx:133-151 | without a line map, no row has a corresponding line |
| PdfViewer.ContextConcat | compare-docs/components/molecules/PDFViewer.tsx:127-136 | consecutively numbered context rows, joined, stay consecutive |
| PdfViewer.UnchangedRows | compare-docs/components/molecules/PDFViewer.tsx:106-162 | a script with no changes yields one context row per piece, numbered consecutively |
| PdfViewer.UnchangedSegmentRows | compare-docs/components/molecules/PDFViewer.tsx:127-136 | an unchanged edit yields one context row per piece, numbered consecutively |
| PdfViewer.UnchangedTotal | compare-docs/components/molecules/PDFViewer.tsx:116-123 | on a script with no changes, the viewer numbers as many rows as the alignment counts lines |
| PdfViewer.CorrespondingLineShift | compare-docs/components/molecules/PDFViewer.tsx:132-134 | on an unchanged script with its own alignment, the row at position `k` (0-based) carries `k + 1` rather than `k`, and the last row carries nothing |
| PdfViewer.ProjectionExampleInsert | compare-docs/components/molecules/PDFViewer.tsx:145-157 | an inserted line is a numbered addition on the right and nothing on the left |
| PdfViewer.ProjectionExampleDelete | compare-docs/components/molecules/PDFViewer.tsx:137-157 | a deleted line takes a number on both sides but is shown on the left only |
| PdfViewer.ProjectionExample | compare-docs/components/molecules/PDFViewer.tsx:106-162 | kept, deleted and inserted lines give rows 1, 2 on the left and rows 1, 3 on the right |
| PdfViewer.OneEditRows | compare-docs/components/molecules/PDFViewer.tsx:114-159 | a terminated one-character edit yields its own row, then the rest numbered one on |
| PdfViewer.OneSegmentRows | compare-docs/components/molecules/PDFViewer.tsx:119-158 | one piece yields its own row |
| PdfViewer.SegmentsExample | compare-docs/components/molecules/PDFViewer.tsx:116-123 | a one-character terminated line is one piece |
| PdfViewer.UpperUnchanged | compare-docs/components/molecules/PDFViewer.tsx:290 | a text equals its upper-case form exactly when it has no lower-case letter |
| PdfViewer.LikelyHeadingIff | compare-docs/components/molecules/PDFViewer.tsx:287-290 | a line is a likely heading exactly when it is shorter than 50 characters, has no '.', and ends in ':' or has no lower-case letter |
| PdfViewer.LikelyHeadingExamples | compare-docs/components/molecules/PDFViewer.tsx:287-290 | "SUMMARY" and "Notes:" are headings; "See below." is not |
| PdfViewer.PreviousPage | compare-docs/components/molecules/PDFViewer.tsx:313-317 | going back moves one page back exactly when past page 1, and otherwise stays; it keeps an in-range page in range |
| PdfViewer.NextPage | compare-docs/components/molecules/PDFViewer.tsx:319-323 | going forward moves one page on exactly when before the last page, and otherwise stays; it keeps an in-range page in range |
| PdfViewer.PreviousFromPastEnd | compare-docs/components/molecules/PDFViewer.tsx:313-323 | from a page past the end, back moves one page towards it and next stays |
| PdfViewer.PageNavigator.constructor | compare-docs/components/molecules/PDFViewer.tsx:57-58 | the viewer starts on page 1 of 0 pages |
| PdfViewer.PageNavigator.SetTotalPages | compare-docs/components/molecules/PDFViewer.tsx:178 | loading a document sets the page count and keeps the current page |
| PdfViewer.PageNavigator.GoToPreviousPage | compare-docs/components/molecules/PDFViewer.tsx:313-317 | moves the current page as `PreviousPage` says, keeps the page count, and keeps the page in range |
| PdfViewer.PageNavigator.GoToNextPage | compare-docs/components/molecules/PDFViewer.tsx:319-323 | moves the current page as `NextPage` says, keeps the page count, and keeps the page in range |

## Left out

- The diff library (`diff_main`, `diff_cleanupSemantic`, `Diff_Timeout = 10`, comparison-engine.ts:53-62) is not part of this model. `CompareTexts` takes its edit script as a parameter. It requires only that the script spells both normalized texts. Minimality and the semantic cleanup are not modelled.
- Case folding and whitespace are ASCII. `toLowerCase`/`toUpperCase` are Unicode in JavaScript, and `\s` also matches Unicode spaces (for example U+00A0 and U+2028). The model's whitespace is ' ', '\t', '\n', '\r', '\v' and '\f'.
- Strings are sequences of characters, not UTF-16 code units. The length bound of `isLikelyHeading` counts characters.
- The `try`/`catch` of `compareDocuments` (document-context.tsx:102-107) is left out. Nothing in the modelled body can throw, so the "Failed to compare documents" state is unreachable in the model.
- The 500 ms `setTimeout` of `compareDocuments` is left out. The same goes for the asynchronous, batched nature of React `setState`. `CompareDocuments` works on the state as read at the call and returns the state after the call.
- PDF loading and rendering, text extraction, zoom (`scale`), the canvas and all JSX are left out. So is the render-time `lineMap` closure: `lineMap` is passed to `ProcessGitHubStyleDiff` as a parameter.
- The page a document loads into: `SetTotalPages` does not reset `currentPage`, just as `setTotalPages` does not.
- The viewer's `Diff` tuples use -1, 0 and 1. They are an enumeration here, so operations other than those three are not representable.
- The rest of `file-utils.ts` (file reading and type detection) is not part of this model. The same goes for `lib/utils.ts`.
- ComparisonEngine.NormalizeText: its own `ensures` covers only the cases without `ignoreWhitespace`. The whitespace case is stated, against the independent definition `Words`/`JoinWords`, by `NormalizeTextWords`, and its shape by `NormalizeTextShape`, `NormalizeTextKeepsVisible` and `NormalizeTextIdempotent`.
- ComparisonEngine.GenerateLineMap: the `leftLines`/`rightLines` arrays are accepted and ignored, as in the source.
- PdfViewer.CorrespondingLineShift: states the off-by-one lookup only for scripts without changes. For other scripts, `DiffRowsOnSide` states which map entry each row carries.
