# LogPane of GuiScannos, modelled in Dafny

GuiScannos shows the log that the ppscannos checker writes. `LogPane` is the
text pane that shows that log; the model takes it as read-only. Every line ppscannos prints for a suspected
scanno (a likely OCR error) has the shape

    "  Line #=<line>[-<line>] pos=<column> match=<token>"

The pane keeps the report under its cursor as its *current match*. Its
accessors read the source line, the 0-based column and the token from that
match. The up and down arrow keys jump to the previous or next report line and
select it.

The model has four modules:

- `LogPattern` (log_pattern.dfy) is the report pattern of textpane.py:128 as an
  exact grammar. `ReportLine` holds one matched line piece by piece, `Render`
  prints it, and `Scan` is the deterministic matcher. `Match` is
  `pattern.search`, with groups 1–3 in `LineMatch`. The module also has
  Python's `int()` on digit strings (`Value`) and the three accessors. The
  pattern's character classes are taken as Python 3 gives them: `\s` is space,
  tab, the line-break characters U+000A–U+000D and U+001C–U+001F; `\d` is
  `0`–`9`; `.` is any character but line feed; `$` matches at the end or before
  a final line feed.
- `LogPatternExamples` (log_pattern_examples.dfy) holds consequences of the
  grammar and worked lines.
- `Navigation` (navigation.dfy) holds the cursor, the Qt cursor operations the
  scans use, and the two arrow-key scan loops. The loops are methods with
  invariants, proved against the functions `DownTarget` and `UpTarget`.
- `LogView` (log_pane.dfy) holds class `LogPane`, with fields `pattern`, `doc`,
  `cursor` and `currentMatch`. Its methods are the constructor, `UpdateMatch`,
  `SetTextCursor` and `KeyPress`. The pure functions `Refresh`, `Notify` and
  `KeyResult` specify them.

Some Qt behaviour is part of the model, written as functions in `Navigation`
and `LogView`:

- `cursorPositionChanged` fires only when the cursor's position moves, and the
  constructor connects it to `updateMatch` (textpane.py:131). So
  `SetTextCursor` runs `UpdateMatch` exactly when the position changes.
- `movePosition(Down)` fails on the last line and leaves the cursor where it
  is; `movePosition(Up)` does the same on the first line.
- `select(LineUnderCursor)` puts the anchor at the start of the line and the
  position at its end.

Two behaviours of the code are easy to misread; the model follows the code:

- **The token keeps trailing whitespace.** Group 3 is `(.+)`, which is greedy,
  followed by `\s*$`. So spaces at the end of a line stay in the token:
  `"  Line #=42 pos=7 match=teh "` gives the token `"teh "`, not `"teh"`. This
  is `TehExample` and `TrailingWhitespaceJoinsToken`.
- **A line that is not a report clears the match.** `updateMatch` assigns the
  search result, so the current match becomes `None` on such a line
  (textpane.py:168). It is not left stale. `Refresh` and
  `LogPane.UpdateMatch` state this.

## Model

| member | source | states |
|---|---|---|
| LogPattern.Scan | textpane.py:128 | a line the matcher accepts is exactly the rendering of a well-formed report line: two whitespace characters, `Line`, whitespace, `#=`, digits, an optional `-digits`, whitespace, `pos=`, digits, whitespace, `match=`, a non-empty newline-free token, then only whitespace ending at the line end or at a line feed |
| LogPattern.ScanComplete | textpane.py:128 | every well-formed report line, once rendered, is accepted, and the matcher gives back exactly its pieces |
| LogPattern.Match | textpane.py:128 | a successful search gives a numeral as group 1, a numeral as group 2 and a non-empty newline-free token as group 3 |
| LogPattern.MatchSound | textpane.py:128 | a successful search comes from a well-formed report line whose groups it returns |
| LogPattern.MatchComplete | textpane.py:128 | the search finds the rendering of every well-formed report line, with that line's groups |
| LogPattern.MatchIff | textpane.py:128 | the search succeeds on a line if and only if the line is the rendering of some well-formed report line |
| LogPattern.EmptyLineIsNoReport | textpane.py:128 | the pattern never matches an empty line |
| LogPattern.Span | textpane.py:128 | the longest prefix whose characters all pass a test (the greedy `\d+` and `.+`) |
| LogPattern.SpanOf | textpane.py:128 | the greedy run stops exactly where the first failing character is |
| LogPattern.RenderSplit | textpane.py:128 | a rendered report line is its fixed preamble, then the token, then the trailing whitespace |
| LogPattern.ScanSpaced | textpane.py:128 | the pattern's one-whitespace-then-literal pieces (`\sLine`, `\spos=`, `\smatch=` and the others) are recognised exactly |
| LogPattern.ScanSpacedOf | textpane.py:128 | a whitespace character followed by the literal is always recognised |
| LogPattern.ScanNumeral | textpane.py:128 | `(\d+)` takes the longest run of digits and fails when there is no digit |
| LogPattern.ScanNumeralOf | textpane.py:128 | a numeral followed by a non-digit is taken whole |
| LogPattern.ScanRange | textpane.py:128 | the optional `(?:-\d+)` takes a dash with its digits, or nothing |
| LogPattern.ScanRangeOf | textpane.py:128 | a range part, present or absent, is read back exactly |
| LogPattern.ScanToken | textpane.py:128 | `(.+)\s*$` takes the whole newline-free rest of the line as the token, and accepts only when that rest is non-empty and what follows it is whitespace |
| LogPattern.ScanTokenOf | textpane.py:128 | a token followed by whitespace that is empty or starts at a line feed is read back exactly |
| LogPattern.IsSpace | textpane.py:128 | `\s` is an ASCII control character or space, never a digit or a dash, so it ends a numeral and cannot start the range part |
| LogPattern.IsDigit | textpane.py:128 | a `\d` character is never a line feed, a dash or whitespace |
| LogPattern.NotNewline | textpane.py:128 | the only character `.` refuses is whitespace, where the trailing `\s*$` takes over |
| LogPattern.Value | textpane.py:180-186 | `int()` of a digit string is zero exactly when every digit is zero |
| LogPattern.DigitValue | textpane.py:180 | the value of a digit character is below ten |
| LogPattern.Decimal | textpane.py:180 | the decimal numeral of a number is a non-empty digit string |
| LogPattern.ValueOfDecimal | textpane.py:180 | `int()` of the decimal numeral of `n` is `n` |
| LogPattern.ValueIgnoresLeadingZero | textpane.py:180 | `int()` ignores leading zeros |
| LogPattern.SrcLineNum | textpane.py:177-180 | -1 exactly when there is no current match, otherwise the value of group 1 |
| LogPattern.SrcColNum | textpane.py:182-186 | -1 when there is no match, otherwise one less than the value of group 2, so never below -1 |
| LogPattern.SrcScanno | textpane.py:188-191 | None exactly when there is no match, otherwise group 3 |
| LogPattern.AccessorsOfReport | textpane.py:177-191 | on a report line the accessors give the line value, the column value less one, and the token |
| LogPattern.AccessorsOfNonReport | textpane.py:177-191 | on any other line they give -1, -1 and None |
| LogPattern.ReportRoundTrip | textpane.py:177-191 | reading back a report line printed from a line number, a column and a token gives that line number, that column less one, and that token |
| LogPatternExamples.LeadingWhitespaceRequired | textpane.py:128 | a line that does not start with two whitespace characters is never a report |
| LogPatternExamples.NoTrailingWithoutNewline | textpane.py:128 | on a line without a line feed, the trailing `\s*` matches nothing |
| LogPatternExamples.TrailingWhitespaceJoinsToken | textpane.py:128 | whitespace at the end of a report line becomes part of the token |
| LogPatternExamples.FinalNewlineKeepsMatch | textpane.py:128 | a report line followed by one line feed still matches, with the same groups |
| LogPatternExamples.FinalNewlineNeedsMatch | textpane.py:128 | a line that ends in a line feed matches only if the line without it matches, with the same groups |
| LogPatternExamples.TehExample | textpane.py:177-191 | `"  Line #=42 pos=7 match=teh "` gives line 42, column 6 and the token `"teh "` |
| LogPatternExamples.RangeExample | textpane.py:177-186 | `"  Line #=10-12 pos=3 match=foo"` gives line 10 and column 2 |
| LogPatternExamples.ColumnZeroExample | textpane.py:182-186 | a report with `pos=0` gives column -1, the value that also means "no match" |
| LogPatternExamples.NonReportExample | textpane.py:128 | `"hello world"` is not a report |
| Navigation.AtEnd | textpane.py:140 | `atEnd()` holds exactly when the cursor's position is the end of the last line |
| Navigation.AtStart | textpane.py:152 | `atStart()` holds exactly when the cursor's position is column 0 of the first line |
| Navigation.SelectLine | textpane.py:141 | `select(LineUnderCursor)` selects the whole line the cursor is on |
| Navigation.StartOfLine | textpane.py:147 | `movePosition(StartOfLine)` collapses the cursor at column 0 of its line |
| Navigation.ClearSelection | textpane.py:145 | clearing a selection leaves the cursor collapsed at the selection's position, on the same line |
| Navigation.MoveDown | textpane.py:146 | the step down succeeds exactly when a line below exists; otherwise the cursor does not move |
| Navigation.MoveUp | textpane.py:158 | the step up succeeds exactly when a line above exists; otherwise the cursor does not move |
| Navigation.FirstMatchFromIsFirst | textpane.py:140-147 | the line the downward search finds is the first report line at or after the start, and it finds none exactly when no line there is a report |
| Navigation.FirstMatchUpFromIsNearest | textpane.py:152-159 | the line the upward search finds is the nearest report line at or above the start, and it finds none exactly when no line in the range is a report |
| Navigation.DownTargetMeaning | textpane.py:139-148 | the down scan leaves a cursor already at the end where it is; otherwise it selects the first report line at or below the start, or stops at the document end when no line there is a report |
| Navigation.UpTargetMeaning | textpane.py:151-160 | the up scan leaves a cursor already at the start where it is; otherwise it selects the nearest report line at or above the start, never the first line unless the scan started on it, or stops at the document start |
| Navigation.ScanDown | textpane.py:139-148 | the down loop, with the failed step on the last line ending the scan, always ends, and ends on `DownTarget` |
| Navigation.ScanDownAsWritten | textpane.py:139-148 | the down loop as written ends on `DownTarget` from every starting point from which it ends |
| Navigation.DownStepAsWritten | textpane.py:145-147 | one pass of the down loop after a failed search lands on the start of the next line, or back on the start of the last line |
| Navigation.DownScanAsWrittenSpins | textpane.py:140-147 | from the start of a last line that is neither empty nor a report, any number of passes of the loop as written brings the cursor back to where it started, which is not the document end |
| Navigation.ScanUp | textpane.py:151-160 | the up loop always ends, and ends on `UpTarget` |
| LogView.Refresh | textpane.py:162-175 | `updateMatch` makes the current match the search result on the cursor's line, cleared to None on a line that is not a report; a report line is left selected, any other line leaves the cursor at its start |
| LogView.RefreshIdempotent | textpane.py:162-175 | `updateMatch` run again on the cursor it set changes nothing, so the nested notification its own `setTextCursor` triggers has no further effect |
| LogView.NotifyKeepsSync | textpane.py:131 | once the current match belongs to the cursor's line, setting the cursor keeps it so |
| LogView.KeyKeepsSync | textpane.py:133-160 | a key press keeps the current match equal to the search result on the cursor's line |
| LogView.DownKeySelectsNextReport | textpane.py:133-148 | the down arrow selects the first report line at or below the line the widget's own move reached, and makes it the current match; with none, the cursor rests at the start of the last line with no current match |
| LogView.UpKeySelectsPreviousReport | textpane.py:133-160 | the up arrow selects the nearest report line at or above the line the widget's own move reached, and makes it the current match; with none, the cursor rests on the first line, whose own search result becomes the current match |
| LogView.DownKeyAsWrittenHangs | textpane.py:140-147 | with the loop as written, the log `a`,`b` read from the start of its last line never leaves the loop |
| LogView.LogPane.constructor | textpane.py:123-131 | a new pane has its pattern, the cursor at the start and no current match |
| LogView.LogPane.UpdateMatch | textpane.py:162-175 | the cursor's line is selected and searched; the current match and the cursor become `Refresh` of the old cursor, and `lineMatchChanged` is emitted exactly on a match |
| LogView.LogPane.SetTextCursor | textpane.py:131 | the cursor is set, and `updateMatch` runs exactly when the position moved |
| LogView.LogPane.KeyPress | textpane.py:133-160 | the widget's own move, then for an arrow key the scan from where that move left the cursor and the move to its result; the new state is `KeyResult` |

## Left out

- Loading, saving, the encoding and the font size (textpane.py:1-116) are file
  I/O and Qt formatting, and are not part of the model. The pane's text is a
  constructor parameter instead.
- Qt's own handling of the key (`super().keyPressEvent`) is not modelled. The
  cursor it leaves is the parameter `moved` of `KeyPress`. The document is taken
  as read-only, so no key edits it.
- The model keeps the column on a step up or down when the line is long
  enough, and otherwise clamps it to the line's end. Qt's choice of column
  there (its remembered horizontal position) is not modelled. The scans reset
  the column with `StartOfLine` straight after, so their results do not depend
  on it.
- Line wrapping is not modelled: each line of the model is one whole text
  block. `LogPane.__init__` calls `super(TextPane, self).__init__`
  (textpane.py:124). That skips `TextPane.__init__` and its
  `setLineWrapMode(NoWrap)` (textpane.py:35), so the log pane wraps, and Qt's
  `LineUnderCursor`, `Down` and `Up` act on visual lines. The model is exact
  only while no log line is wider than the pane.
- How many times `lineMatchChanged` is emitted is not counted. `UpdateMatch`
  says whether it emits; a nested notification may emit a second time.
- `\s` covers only Python's ASCII whitespace characters (space, U+0009–U+000D,
  U+001C–U+001F). Other Unicode whitespace (U+0085, U+00A0 and others) is not
  modelled. Neither are digits outside `0`–`9`, which Python's `\d` and `int()`
  also accept.
- The scans and the functions in `LogView` take the search as a parameter.
  The pane's `pattern` is `LogPattern.Match` (stated by the constructor), and
  its `Valid()` keeps only the pattern's one property the down scan needs: an
  empty line is never a report.
- LogView.LogPane.KeyPress: runs the corrected down scan `ScanDown`. Where
  the loop as written does not end (`DownScanEnds` false, see Findings), the
  model leaves the cursor at the document end, while the handler as written
  never returns.
- LogView.DownKeySelectsNextReport: its case with no report below describes
  the corrected scan. With a last line that is neither empty nor a report, the
  handler as written never returns instead.
- LogView.LogPane.constructor: does not run `updateMatch`. A pane whose first
  line is a report therefore starts with no current match (out of `InSync`)
  until the cursor's position first moves. The key-press lemmas assume
  `InSync`.
- ScanDownAsWritten: requires that the loop ends (`DownScanEnds`). The
  starting points it excludes are those on which the loop as written does not
  end (see Findings).
- ScanDown: requires that the search rejects an empty line. The loop as
  written can stop on an empty last line without searching it, and the report
  pattern never matches an empty line (`EmptyLineIsNoReport`).

## Findings

| source | as written | input that shows it | evidently intended | confidence | as-written member | corrected member |
|---|---|---|---|---|---|---|
| textpane.py:140-147 | the down loop ignores that `movePosition(Down)` fails on the last line, and `StartOfLine` then puts the cursor back at column 0. When the last line is not empty and not a report, and no report lies below the scan's start, the cursor cycles between the start and the end of that line, and `atEnd()` is never true at the loop test | a log whose lines are `a` and `b` (no final line feed), with the cursor at the start of `a` and the down arrow pressed: the widget's own move puts the cursor at the start of `b` | the scan stops at the document end when there is no report below | not executed | Navigation.DownScanAsWrittenSpins, LogView.DownKeyAsWrittenHangs, Navigation.ScanDownAsWritten | Navigation.ScanDown |
