# Verta editor core, modelled in Dafny

Verta is a LaTeX editor. A React shell edits the documents and a Python
backend validates LaTeX, builds prompt context for language models and routes
completions to a model backend. This project models the pure, sequential
logic of that system as Dafny functions and methods, and proves what the
code promises about it.

| file | module | models |
|---|---|---|
| `wrappers.dfy` | `Wrappers` | `Option` (JS `null`, Python `None`) and `Result` (a raised error) |
| `text.dfy` | `Text` | the JS/Python built-ins the code relies on: `split`, `join`, Python slicing with negative bounds, `startsWith`/`endsWith`, ASCII case folding, Python `strip`/`rstrip`, `str.count`, `str(n)` |
| `unified_diff.dfy` | `UnifiedDiff` | `applyUnifiedDiff` in the editor shell: the hunk-header recogniser, a left fold that states the applier's meaning, and the source's loop proved equal to it |
| `hunk_placement.dfy` | `HunkPlacement` | where a hunk belongs: the `-a,b` range of a header, an applier that places hunks by it, hunks as a diff generator writes them, the round trip, and a patch the applier as written misplaces |
| `format_latex.dfy` | `FormatLatex` | `formatLatex`: trailing blanks removed from every line, runs of three or more line feeds collapsed to two |
| `ignore_filter.dfy` | `IgnoreFilter` | `matchesIgnore` (a case-insensitive `*` glob) and `shouldIgnorePath` over a path's `/` segments |
| `page_history.dfy` | `PageHistory` | the PDF page navigator: `goToPage`, `undoPage`, `redoPage`, the reset after a compile and the clamp when a document loads |
| `pane_layout.dfy` | `PaneLayout` | the splitter arithmetic: `clamp`, the sidebar drag and the two three-pane layout drags |
| `latex_validate.dfy` | `LatexValidate` | `validate_latex`: brace balance plus a stack matcher over `\begin`/`\end` tokens, and the `ok` flag of the validate endpoint |
| `context_extract.dfy` | `ContextExtract` | `estimate_tokens`, `build_context`, `build_context_with_limits` and its truncation loop, the window of `extract_structured_context`, the fallback citation keys and the header-plus-snippet context |
| `context_api.dfy` | `ContextApi` | `_validate_bounds`, `_slice_window` and the selection/cursor normalisation of the context `build` endpoint |
| `model_router.dfy` | `ModelRouter` | `_select_backend`: the (type, provider) decision table |

Conventions:
- Strings are sequences of characters and integers are unbounded.
- Pixel widths and page numbers are integers, where JavaScript has doubles.
- Where the source has a loop, the loop is a method. That method is proved
  equal to a loop-free definition, and the properties are proved about the
  definition.

One consequence of the code that may surprise a reader:
- Applying `@@ -1,0 +1,1 @@` / `+Hello` to the empty text gives `Hello`
  followed by a line feed, not `Hello` alone.
- The reason is that `"".split("\n")` is `[""]`. The final
  `origLines.slice(index)` copies that empty line after the added one, so the
  join ends in `"\n"`.
- `UnifiedDiff.EmptyOriginalKeepsLine` proves this of `UnifiedDiff.Apply`.

## Model

| member | source | states |
|---|---|---|
| Text.Split | frontend/src/App.tsx:664-665 | `split` on one character always yields at least one piece and no piece contains the separator |
| Text.JoinSplit | frontend/src/App.tsx:710-711 | joining the pieces of a split with the same separator gives the text back, which is why an untouched original survives the applier |
| Text.SplitJoin | frontend/src/App.tsx:952-955 | splitting a join of separator-free pieces gives the pieces back |
| Text.Slice | frontend/src/App.tsx:690 | `slice(a, b)` never fails: in-range bounds give `s[a..b]`, negative bounds count from the end, crossed bounds give the empty sequence |
| Text.Take | backend/app/context/extract.py:208 | `s[:n]` is the prefix of length `min(n, len(s))` |
| Text.Lower | backend/app/modeling/router.py:31 | lower-casing keeps the length and folds each character on its own |
| Text.PyRStrip | backend/app/context/extract.py:181 | `rstrip()` keeps a prefix, everything it drops is white space, and the result does not end in white space |
| Text.LeadingSpace | backend/app/context/extract.py:95 | the white space `strip()` removes at the front is the maximal leading run |
| Text.PyStrip | backend/app/context/extract.py:95 | `strip()` is the piece of its input that starts right after the leading white space, is followed only by white space, and neither starts nor ends with white space |
| Text.Count | backend/app/latex/validate.py:11 | `count(c)` is the number of occurrences of `c`, its multiplicity in the text, so it is at most the length and zero exactly when `c` does not occur |
| Text.NatToDecimal | backend/app/context/extract.py:184 | `str(n)` is a non-empty run of decimal digits without a leading zero |
| UnifiedDiff.DigitRunMaximal | frontend/src/App.tsx:682 | the `\d+` run at a position consists of digits and stops at a non-digit or at the end |
| UnifiedDiff.RangeEnd | frontend/src/App.tsx:682 | a recognised `\d+(?:,\d+)?` range ends strictly after its start and within the line |
| UnifiedDiff.FindFirstIsLeftmost | frontend/src/App.tsx:682 | the unanchored search returns the match at the leftmost position that has one, and finds nothing exactly when no position matches |
| UnifiedDiff.Step | frontend/src/App.tsx:674-708 | one patch line never moves the cursor back, never retracts output and never decreases the counts |
| UnifiedDiff.OutsideBodyIgnored | frontend/src/App.tsx:674-681 | outside a hunk, `---`, `+++` and every line not starting with `@@` leave the state unchanged |
| UnifiedDiff.BodyLineStep | frontend/src/App.tsx:693-708 | inside a hunk, a context line copies the original line (or its own text past the end) and advances, `-` advances and counts a removal, `+` emits and counts an addition, anything else is ignored |
| UnifiedDiff.HeaderCopiesGap | frontend/src/App.tsx:686-692 | a hunk header opens a body, moves the cursor to `max(0, c-1)` when that is ahead, and copies the gap of original lines verbatim |
| UnifiedDiff.ApplyHunkBody | frontend/src/App.tsx:693-708 | the inner loop stops at the next `@@` line or the end, and its state is the fold of the lines read so far |
| UnifiedDiff.ApplyUnifiedDiff | frontend/src/App.tsx:663-712 | the source's two nested loops compute exactly the left fold `Apply` |
| UnifiedDiff.WalkWithoutHeaders | frontend/src/App.tsx:674-686 | a patch with no recognised hunk header leaves the applier in its initial state |
| UnifiedDiff.NoHunkIsIdentity | frontend/src/App.tsx:672-686 | a patch with no recognised header returns the original text with zero additions and removals |
| UnifiedDiff.AfterRecognisedHeader | frontend/src/App.tsx:682-692 | the line after a recognised header is inside a hunk body |
| UnifiedDiff.AfterBadHeader | frontend/src/App.tsx:683-686 | an `@@` line the pattern rejects leaves the applier outside a body |
| UnifiedDiff.AfterOtherLine | frontend/src/App.tsx:693 | a line not starting with `@@` neither opens nor closes a body |
| UnifiedDiff.WalkMode | frontend/src/App.tsx:674-708 | the applier is inside a body exactly when the last `@@` line seen was a recognised header |
| UnifiedDiff.WalkCounts | frontend/src/App.tsx:698-703 | `added` and `removed` count the `+` and `-` lines that lie inside hunk bodies, and nothing else |
| UnifiedDiff.CountsAreBodyLines | frontend/src/App.tsx:663-712 | the returned counts are the numbers of `+` and `-` body lines over the whole patch |
| UnifiedDiff.CursorNeverBacksUp | frontend/src/App.tsx:688-700 | along the patch the cursor never decreases and output is only ever appended to |
| UnifiedDiff.LeadingLinesCopied | frontend/src/App.tsx:686-691 | at the first recognised header, the output is exactly the original lines before the hunk's target |
| UnifiedDiff.LineBalance | frontend/src/App.tsx:695-703 | while the cursor stays within the original, emitted lines plus removals equal cursor plus additions |
| UnifiedDiff.ResultLineCount | frontend/src/App.tsx:689-711 | if the cursor never passes the end, the result has as many lines as the original less the removals plus the additions |
| UnifiedDiff.OutputLinesAreLines | frontend/src/App.tsx:695-703 | emitted lines never contain a line feed |
| UnifiedDiff.ContextPrefix | frontend/src/App.tsx:686-697 | after a recognised header, context lines that stay within the original copy it line by line: the output is the original up to the cursor |
| UnifiedDiff.ContextOnlyHunk | frontend/src/App.tsx:663-712 | one hunk of context lines inside the original gives the original text back with zero additions and removals |
| UnifiedDiff.EmptyOriginalKeepsLine | frontend/src/App.tsx:663-712 | `@@ -1,0 +1,1 @@` / `+Hello` applied to the empty text gives `Hello` and a line feed, with one addition and no removal |
| UnifiedDiff.TextSplitsIntoResultLines | frontend/src/App.tsx:710-711 | splitting the returned text on line feeds gives back the result lines |
| UnifiedDiff.RangeEndPair | frontend/src/App.tsx:682 | digits, a comma and digits form one range ending after the second run |
| UnifiedDiff.MatchAtOpening | frontend/src/App.tsx:682 | after `@@ -` and a range, the match depends only on the target part |
| UnifiedDiff.TargetRangeLayout | frontend/src/App.tsx:682 | ` +C,D @@` yields the value of `C` |
| UnifiedDiff.HunkTargetAtStart | frontend/src/App.tsx:681-687 | an `@@` line whose first position matches yields that target |
| UnifiedDiff.DigitRunShift | frontend/src/App.tsx:682 | a digit run is unaffected by text before it |
| UnifiedDiff.HeaderRoundTrip | frontend/src/App.tsx:681-687 | the header `@@ -a,b +c,d @@` written in decimal is recognised, and its target is `c` |
| HunkPlacement.SourceAt | frontend/src/App.tsx:682 | the `-\d+(?:,\d+)?` part of the header pattern yields a range exactly at the positions where the whole pattern matches |
| HunkPlacement.SourceIffTarget | frontend/src/App.tsx:681-685 | a line has an original-side range exactly when the applier takes it for a hunk header |
| HunkPlacement.SourceRoundTrip | frontend/src/App.tsx:682 | the header `@@ -a,b +c,d @@` written in decimal yields the range `a,b` |
| HunkPlacement.FixedStep | frontend/src/App.tsx:686-708 | the corrected step never moves the cursor back, never retracts output and never decreases the counts; a header opens a body and counts nothing |
| HunkPlacement.FixedStepAgrees | frontend/src/App.tsx:682-708 | on a line whose `-a,b` range gives the same cursor as its `+c` start, or that is not a header, the corrected step is the step as written |
| HunkPlacement.RunAgrees | frontend/src/App.tsx:671-708 | on patch lines all placed alike, the corrected applier walks the patch to exactly the state the applier as written reaches |
| HunkPlacement.ApplyFixedAgrees | frontend/src/App.tsx:663-712 | the correction changes nothing where the code was already right: with every header placed alike by both ranges, both appliers return the same text and counts |
| HunkPlacement.BodyApplies | frontend/src/App.tsx:693-708 | a hunk body whose old side is what the original holds at the cursor moves the cursor over that side and emits the new side |
| HunkPlacement.HunksApply | frontend/src/App.tsx:672-711 | well-formed hunks read from a cursor emit, after the output so far, the new file from that cursor on |
| HunkPlacement.RoundTrip | frontend/src/App.tsx:663-712 | applying a generated patch (file headers and well-formed hunks) to the lines it was made from gives the new file |
| HunkPlacement.ApplyFixedRoundTrip | frontend/src/App.tsx:663-712 | the same on texts: the applier with hunks placed by their original-side range turns the original into the new file |
| HunkPlacement.SecondHunkMisplaced | frontend/src/App.tsx:687 | for `a b c` and a diff inserting `X` after `a` and replacing `c` by `C`, the applier as written gives `a X b c C` instead of `a X b C`, and placing hunks by their `-a,b` range gives `a X b C` |
| FormatLatex.TrimEnd | frontend/src/App.tsx:954 | `replace(/[ \t]+$/, "")` keeps a prefix, drops only spaces and tabs, and leaves no space or tab at the end |
| FormatLatex.TrimEndFixes | frontend/src/App.tsx:954 | trimming changes a line exactly when it ends in a space or tab |
| FormatLatex.TrimLines | frontend/src/App.tsx:952-954 | every line is trimmed on its own and the number of lines is kept |
| FormatLatex.LeadingBreaks | frontend/src/App.tsx:956 | the run of line feeds at the front is maximal |
| FormatLatex.Collapse | frontend/src/App.tsx:956 | `replace(/\n{3,}/g, "\n\n")` never lengthens, leaves no triple line feed, turns a leading run into at most two, keeps non-empty text non-empty and keeps a first character that is not a line feed |
| FormatLatex.CollapseRun | frontend/src/App.tsx:956 | a maximal run of `k` line feeds becomes `min(k, 2)` line feeds and the collapse carries on after it, so runs of one or two survive and longer runs become two |
| FormatLatex.CollapseChar | frontend/src/App.tsx:956 | a character other than a line feed is copied and the collapse carries on after it |
| FormatLatex.CollapseKeepsText | frontend/src/App.tsx:956 | the collapse removes only line feeds: every other character survives, in order |
| FormatLatex.CollapseKeepsTrimmed | frontend/src/App.tsx:956 | collapsing line feeds does not bring a blank before a line end |
| FormatLatex.CollapseFixes | frontend/src/App.tsx:956 | text without a triple line feed is left alone by the collapse |
| FormatLatex.JoinTrimmed | frontend/src/App.tsx:952-955 | joining trimmed lines gives text with no blank before any line feed or at the end |
| FormatLatex.JoinTrimmedShorter | frontend/src/App.tsx:952-955 | trimming the lines never lengthens the joined text |
| FormatLatex.SplitFirstEmpty | frontend/src/App.tsx:953 | the first piece of the split is empty exactly when the text is empty or starts with a line feed |
| FormatLatex.SplitTrimmed | frontend/src/App.tsx:953-954 | the lines of text without trailing blanks need no trimming |
| FormatLatex.FormatIsClean | frontend/src/App.tsx:951-957 | the output has no line ending in a space or tab and no run of three line feeds |
| FormatLatex.FormatShortens | frontend/src/App.tsx:951-957 | the output is never longer than the input |
| FormatLatex.FormatFixes | frontend/src/App.tsx:951-957 | formatting leaves text unchanged exactly when the text is already clean |
| FormatLatex.FormatIdempotent | frontend/src/App.tsx:951-957 | formatting twice is formatting once, the fixpoint the auto-format relies on |
| IgnoreFilter.GlobMatchesItself | frontend/src/App.tsx:900-903 | every `?`-free pattern matches its own text, so the early equality test never changes the answer |
| IgnoreFilter.LiteralGlob | frontend/src/App.tsx:901-903 | a star-free pattern matches exactly the names equal to it up to ASCII case |
| IgnoreFilter.StarThenLiteral | frontend/src/App.tsx:901-903 | `*` followed by literal text matches exactly the names that end with that text, ignoring case, with no line terminator before it |
| IgnoreFilter.GlobIgnoresCase | frontend/src/App.tsx:902 | the `i` flag: a name and its lower-case form match the same patterns |
| IgnoreFilter.ShouldIgnorePath | frontend/src/App.tsx:906-916 | the loop answers true exactly when some non-empty pattern matches a segment or is an extension pattern the last segment ends with |
| IgnoreFilter.EmptyAndExactPatterns | frontend/src/App.tsx:899-900 | an empty pattern hides nothing, and a pattern equal to some segment hides the path |
| IgnoreFilter.ExtensionPatternHides | frontend/src/App.tsx:910-913 | `*.ext` hides a path exactly when the last segment ends with `.ext` ignoring case, or some segment matches the glob |
| PageHistory.ClampPage | frontend/src/App.tsx:1218 | the clamped page never exceeds the count; for a non-empty document it lies in `[1, count]`, equals the request when that is in range, is 1 below the range and the count above it |
| PageHistory.GoToPage | frontend/src/App.tsx:1216-1225 | without a page count nothing changes; otherwise the page is clamped and, with history, the entries after the position are dropped, the page is appended and the position points at it |
| PageHistory.UndoPage | frontend/src/App.tsx:1227-1232 | at the first entry nothing changes; otherwise the position steps back and the page is read from history |
| PageHistory.RedoPage | frontend/src/App.tsx:1234-1239 | at the last entry nothing changes; otherwise the position steps forward and the page is read from history |
| PageHistory.DocumentLoaded | frontend/src/App.tsx:1258-1264 | loading records the page count; a page within it leaves everything else unchanged, and a page past the end resets to the last page with the history holding just that page at position 0 |
| PageHistory.UndoRedo | frontend/src/App.tsx:1227-1239 | undo then redo, and redo then undo, return to the same viewer when the page shown is the one at the position |
| PageHistory.UndoAfterGoTo | frontend/src/App.tsx:1216-1232 | after navigating with history, undo returns to the previous page and redo has nothing to redo |
| PageHistory.GoToKeepsPast | frontend/src/App.tsx:1221 | navigation never rewrites the history up to the current position |
| PageHistory.NavigationStaysInDocument | frontend/src/App.tsx:1216-1239 | when every recorded page is in the document, every navigation keeps it so |
| PaneLayout.Clamp | frontend/src/App.tsx:436-438 | `Math.max(min, Math.min(max, n))` is never below `min`, and is `n` when `n` is in range |
| PaneLayout.SidebarDrag | frontend/src/App.tsx:440-447 | the sidebar width stays in `[240, 520]` and follows the pointer inside that range |
| PaneLayout.Usable | frontend/src/App.tsx:463-465 | the usable width is at least three minimum panes, and without a host element it covers the starting panes |
| PaneLayout.LayoutDrag | frontend/src/App.tsx:467-483 | after either drag every pane is at least 280 pixels wide |
| PaneLayout.EditorAssistantFills | frontend/src/App.tsx:469-475 | the editor/assistant drag fills exactly the usable width and leaves room for two minimum panes beside each |
| PaneLayout.AssistantRightFills | frontend/src/App.tsx:476-482 | the assistant/right drag fills the usable width when the starting layout fits it |
| PaneLayout.AssistantRightTradesWidth | frontend/src/App.tsx:477-478 | within the limits, the assistant/right drag moves exactly `dx` pixels from one pane to the other |
| PaneLayout.DragWithoutHostKeepsTotal | frontend/src/App.tsx:464-482 | without a host element a drag keeps the total width of the panes |
| LatexValidate.Message | backend/app/latex/validate.py:12-29 | every error has a non-empty message; the four texts are the source's |
| LatexValidate.Step | backend/app/latex/validate.py:18-26 | one token adds at most one error or one stack entry and never rewrites earlier errors |
| LatexValidate.Run | backend/app/latex/validate.py:15-26 | the matcher only appends errors, and errors plus open environments grow by at most one per token |
| LatexValidate.RunSnoc | backend/app/latex/validate.py:15-26 | scanning one more token is one more step |
| LatexValidate.ScanTokens | backend/app/latex/validate.py:14-26 | the source's loop computes the fold of the steps |
| LatexValidate.ReportUnclosed | backend/app/latex/validate.py:28-29 | the unclosed errors name the stack from the top down |
| LatexValidate.ValidateLatex | backend/app/latex/validate.py:8-31 | the whole function returns the errors of the model |
| LatexValidate.BraceErrorIff | backend/app/latex/validate.py:11-12 | "Unbalanced brace count" is reported exactly when the counts of `{` and `}` differ, and then it comes first |
| LatexValidate.ErrorBound | backend/app/latex/validate.py:11-29 | there are at most one error plus one per token |
| LatexValidate.OkIff | backend/app/api/latex.py:24-27 | `ok` holds exactly when braces balance, no end is unexpected or mismatched, and nothing is left open |
| LatexValidate.RunBegins | backend/app/latex/validate.py:18-19 | begins only push, in order |
| LatexValidate.UnclosedInnermostFirst | backend/app/latex/validate.py:28-29 | begins left open are each reported once, innermost first |
| LatexValidate.EndAfterBegins | backend/app/latex/validate.py:20-26 | an end with nothing open is one "unexpected end" error; otherwise the top is popped and a different name is one "began ... ended ..." error |
| LatexValidate.RunAppend | backend/app/latex/validate.py:15-26 | scanning a concatenation is scanning the parts in turn |
| LatexValidate.NestedLeavesScan | backend/app/latex/validate.py:15-26 | a properly nested environment leaves the matcher as it found it |
| LatexValidate.NestedIsOk | backend/app/latex/validate.py:8-31 | properly nested environments with balanced braces give no errors |
| LatexValidate.EquationClosedByAlign | tests/test_latex_api.py:27-36 | `\begin{equation}...\end{align}` is exactly one environment mismatch with the source's message |
| ContextExtract.EstimateTokens | backend/app/context/extract.py:211-215 | zero exactly for empty text, otherwise the ceiling of a quarter of the length |
| ContextExtract.EstimateMonotone | backend/app/context/extract.py:211-215 | a longer text never has fewer estimated tokens |
| ContextExtract.EstimateFits | backend/app/context/extract.py:211-215 | a non-empty text fits `t` tokens exactly when it has at most `4t` characters |
| ContextExtract.ContextHeader | backend/app/context/extract.py:200-206 | the header starts with its title line and ends with the `---` line |
| ContextExtract.BuildContext | backend/app/context/extract.py:196-208 | empty for a non-positive limit, otherwise a prefix of header plus source within the limit |
| ContextExtract.BuildContextIsPrefix | backend/app/context/extract.py:207-208 | the result is exactly the first `max_chars` characters of header plus source |
| ContextExtract.Cut | backend/app/context/extract.py:223 | one round drops the last 100 characters, or everything when fewer remain |
| ContextExtract.TrimToTokens | backend/app/context/extract.py:222-223 | the loop's result is a prefix of its input whose estimate fits a non-negative budget |
| ContextExtract.TrimLoop | backend/app/context/extract.py:222-223 | the loop terminates, the text shrinking by 100 or to empty each round, and returns the loop-free result |
| ContextExtract.TrimLength | backend/app/context/extract.py:222-223 | the kept length is the original, or the original less the fewest hundreds that make it fit, floored at zero |
| ContextExtract.BuildContextWithLimits | backend/app/context/extract.py:218-224 | empty if either limit is non-positive, otherwise a prefix of `build_context` within both limits |
| ContextExtract.LimitsCutMinimally | backend/app/context/extract.py:222-223 | when truncation happened, one round less would not have fit (or the text was under 100 characters longer) |
| ContextExtract.WindowStart | backend/app/context/extract.py:80 | the window starts at `max(0, c - w)`: it is one of the two and at least both |
| ContextExtract.WindowEnd | backend/app/context/extract.py:81 | the window ends at `min(len, c + w)`: it is one of the two and at most both |
| ContextExtract.WindowBounds | backend/app/context/extract.py:80-82 | for a centre inside the source, `0 <= start <= c <= end <= len` |
| ContextExtract.StripAll | backend/app/context/extract.py:95 | every piece is stripped on its own |
| ContextExtract.StrippedKeysAreKeys | backend/app/context/extract.py:95 | the kept keys are non-empty, stripped and comma-free |
| ContextExtract.StrippedKeysContents | backend/app/context/extract.py:95 | the kept keys are, with multiplicity, exactly the stripped pieces less the blank ones |
| ContextExtract.StrippedKeysAppend | backend/app/context/extract.py:95 | the keys of consecutive pieces are the keys of each, in order, so the comprehension keeps the pieces' order |
| ContextExtract.CiteKeys | backend/app/context/extract.py:95 | the keys of one citation argument are non-empty, stripped and comma-free, and are, with multiplicity, its stripped non-blank comma pieces |
| ContextExtract.CiteKeysRoundTrip | backend/app/context/extract.py:95 | keys written comma-separated read back as the same keys in the same order |
| ContextExtract.FlattenCitations | backend/app/context/extract.py:93-95 | every flattened citation key is non-empty, stripped and comma-free, and the flattened list is the stripped non-blank comma pieces of all the arguments, in order |
| ContextExtract.ExtractStructured | backend/app/context/extract.py:80-102 | the first `min(50, n)` labels and citation keys and the first `min(10, n)` equations found, each equation stripped, the current section passed through, and the window's bounds |
| ContextExtract.StructuredHeader | backend/app/context/extract.py:179-187 | the structured header starts with its title line and ends with the `---` line |
| ContextExtract.BuildStructured | backend/app/context/extract.py:171-193 | the context respects both limits and is a prefix of the header, the structured header and the window's snippet |
| ContextApi.DefaultRequest | backend/app/api/context.py:13-18 | a request giving only the source, with the declared limits of 4000 characters and 1000 tokens, passes validation unchanged and is centred on the end of the source |
| ContextApi.ValidateBounds | backend/app/api/context.py:28-40 | a request that passes is returned unchanged |
| ContextApi.ValidationIff | backend/app/api/context.py:31-39 | a request is accepted exactly when admissible, and each rejection names the first failing check in source order |
| ContextApi.SliceWindow | backend/app/api/context.py:48-51 | the window is a contiguous piece of the source, at most `2w` long |
| ContextApi.ClampIndex | backend/app/api/context.py:59-60 | `max(0, min(i, n))` lies in `[0, n]` and is `i` for an index inside the source |
| ContextApi.NormalizeSelection | backend/app/api/context.py:58-64 | both ends are clamped, swapped into order, the text is the slice between them and the centre is `(start + end) // 2` |
| ContextApi.CursorOf | backend/app/api/context.py:85-86 | the cursor defaults to the end of the source and is clamped into it |
| ContextApi.Center | backend/app/api/context.py:58-86 | the window's centre lies inside the source in both modes |
| ContextApi.Build | backend/app/api/context.py:54-105 | the context respects both limits and its window is centred on the normalised selection or cursor |
| ContextApi.ValidatedNeedsNoClamp | backend/app/api/context.py:28-40 | for an accepted request the clamps change nothing |
| ContextApi.WindowInsideSource | backend/app/api/context.py:54-92 | the structured window always lies inside the source |
| ContextApi.SelectionExample | tests/test_context_api.py:20-29 | selecting 4..11 of "AAA BBB CCC DDD", in either order, gives "BBB CCC" |
| ModelRouter.SelectBackend | backend/app/modeling/router.py:29-44 | local backends only for type `local`, API backends only for type `api`, and "Unsupported model type" exactly for any other type |
| ModelRouter.SelectMatchesTable | backend/app/modeling/router.py:30-43 | dispatch agrees with the full table of accepted (type, provider) pairs, and a pair outside it gets its type's error |
| ModelRouter.ProviderCaseInsensitive | backend/app/modeling/router.py:31-38 | the provider is read ignoring case, and a missing provider is the empty one, which is always rejected (the 400 of tests/test_model_api.py) |
| ModelRouter.UpperCaseOllama | backend/app/modeling/router.py:31-33 | `OLLAMA` selects the local Ollama backend |
| ModelRouter.MixedCaseLlamaCpp | backend/app/modeling/router.py:31-35 | `Llama.CPP` selects the llama.cpp backend |
| ModelRouter.LocalProviderUnderApi | backend/app/modeling/router.py:37-43 | a local provider name under type `api` is rejected |
| ModelRouter.EchoRejected | backend/app/modeling/router.py:30-36 | a local request for the provider `echo` is rejected with the local-provider error |
| ModelRouter.SelectWithEcho | backend/app/modeling/router.py:29-44 | the router with a local echo row: `echo` under type `local`, in any ASCII case, is served by the local echo backend, and every other request is routed as before |
| ModelRouter.EchoServedLocally | tests/test_model_api.py:9-24 | with the echo row, the local `echo` request of the completion tests reaches the local echo backend; `echo` under type `api` is still rejected |

## Left out

- Rendering, React state, effects, timers, pointer events and the DOM are
  not modelled. The pane drags take the pointer offset and the host width
  (or its absence) as parameters.
- Floating point: pixel widths and page numbers are integers. The
  layout's `getBoundingClientRect().width` is an integer parameter.
- UnifiedDiff.ApplyUnifiedDiff: `Number.parseInt` is modelled as exact
  decimal value. JavaScript loses precision above 2^53, so a target line
  number that large is not modelled.
- Strings are sequences of Unicode scalar values, not UTF-16 code units.
  Lengths and indices differ from JavaScript's for characters outside the
  Basic Multilingual Plane.
- IgnoreFilter.MatchesIgnore: only patterns without `?` are modelled.
  The escape at App.tsx:901 leaves `?` unescaped, so it becomes a regular
  expression quantifier, or a syntax error that throws.
- IgnoreFilter.GlobIgnoresCase: case folding is ASCII only. JavaScript's `i`
  flag also folds non-ASCII letters.
- Text.Lower: folds only `A`-`Z`. JavaScript's `toLowerCase` and Python's
  `str.lower` also fold non-ASCII letters.
- IgnoreFilter.ShouldIgnorePath: the extension test lower-cases with ASCII
  folding only. JavaScript's `toLowerCase` folds non-ASCII letters too, so
  for the pattern `*.É` and the file `a.é` the source hides the file and the
  model does not.
- IgnoreFilter.ExtensionPatternHides: the same ASCII-only folding. Its
  "exactly when" holds for the model; for extensions with non-ASCII letters
  the source hides more.
- UnifiedDiff.HeaderRoundTrip: proved only for headers in the full
  `@@ -a,b +c,d @@` form. Generators also write `-a` and `+c` without a
  length; the pattern accepts those, but no round trip is proved for them.
- HunkPlacement.SourceRoundTrip: likewise only for the full `-a,b +c,d`
  form.
- LatexValidate.ValidateLatex: the regular-expression scan for
  `\begin{..}`/`\end{..}` is not modelled. The validator takes the token
  sequence it would produce as an input.
- The pylatexenc walk and the regex fallback of `parse_latex_to_ast` are not
  modelled. Their results (`LatexAst`, and `Found` for the structured
  extraction) are inputs. The pylatexenc branch of the structured extraction
  is not modelled either; only the fallback's truncation and citation
  splitting are.
- ContextApi.SliceWindow: `_slice_window` is never called in the source. The
  length bound is stated only for a non-negative window whose end does not
  wrap around as a negative Python index.
- ModelRouter.SelectBackend: `str.lower` is modelled as ASCII lower-casing.
  For these provider names the two agree, because no non-ASCII character
  lower-cases to an ASCII provider name except KELVIN SIGN, which becomes
  `k`, and no provider name contains `k`.
- The router modelled is the one in backend/app/modeling/router.py, whose
  constructor takes four backends. backend/app/wiring.py:21-28 passes six,
  among them a local and an API echo backend. The corrected router
  `SelectWithEcho` adds only the local echo row that the completion tests
  use; nothing in the tests shows how an API `echo` should be routed.
- The request models' pydantic typing is not modelled. A model type other
  than `local` or `api` is rejected at parse time, so the router's
  "Unsupported model type" branch is modelled but is not reachable through
  the API.
- The async timeout around completions, the backends themselves, JSON
  parsing of structured patches, persistence, search, the compiler and the
  zoom controls are not modelled. They are I/O, concurrency, floating point
  or calls into libraries.

## Findings

| source | as written | input that shows it | evidently intended | confidence | as-written member | corrected member |
|---|---|---|---|---|---|---|
| frontend/src/App.tsx:687 | each hunk is entered at `+c - 1`, a line number of the new file, used as a cursor into the original | original `a b c`; patch `@@ -1,0 +2,1 @@`, `+X`, `@@ -3,1 +4,1 @@`, `-c`, `+C` gives `a X b c C` | hunks are positioned by the `-a,b` range, which counts original lines, giving `a X b C` | not executed | HunkPlacement.SecondHunkMisplaced | HunkPlacement.ApplyFixedRoundTrip |
| backend/app/modeling/router.py:31-36 | type `local` accepts only `ollama` and the llama.cpp names | `{"type": "local", "provider": "echo"}` raises "Local modelConfig.provider must be 'ollama' or 'llamacpp'" | the local echo backend passed by backend/app/wiring.py:21-28 serves `echo`, as tests/test_model_api.py:9-24 expects | not executed | ModelRouter.EchoRejected | ModelRouter.SelectWithEcho |

`UnifiedDiff.Apply` and `ModelRouter.SelectBackend` remain the models of the
code as written, and every property in the "Model" table about them is about
that code. `HunkPlacement.ApplyFixed` is the corrected applier, and
`ModelRouter.SelectWithEcho` the corrected router; the evidently intended
properties are proved about those two. `HunkPlacement.ApplyFixedAgrees`
shows the correction only matters for patches in which some header's
`-a,b` and `+c,d` ranges place the hunk differently.
