/**
 * The arrow-key scans of LogPane.keyPressEvent. The document is a sequence of
 * lines, each taken to be one whole text block shown on one row (no line
 * wrapping), and the cursor is either collapsed at a column or selects one
 * whole line, with its anchor at the line's start and its position at the
 * line's end.
 *
 * Each scan starts from the cursor the widget's own key handling left, and
 * repeats: select the line under the cursor, search it, stop on a match,
 * otherwise clear the selection and step one line, to its start. The down
 * scan stops at the document end, the up scan at the document start.
 *
 * The search is a parameter, `search`, so that the scans are stated for any
 * line test; the pane passes the report pattern of module LogPattern.
 */
module Navigation {
  import opened Wrappers

  type Document = seq<seq<char>>

  /** A text document always has at least one line. */
  predicate ValidDoc(doc: Document) {
    |doc| >= 1
  }

  datatype Cursor = At(line: nat, col: nat) | LineSelected(line: nat)

  predicate ValidCursor(doc: Document, c: Cursor) {
    c.line < |doc| && (c.At? ==> c.col <= |doc[c.line]|)
  }

  /** The column of the cursor's position (for a selected line, its end). */
  function Column(doc: Document, c: Cursor): nat
    requires ValidCursor(doc, c)
  {
    match c
    case At(_, col) => col
    case LineSelected(k) => |doc[k]|
  }

  /** The cursor collapsed at the end of the last line. */
  function DocEnd(doc: Document): (c: Cursor)
    requires ValidDoc(doc)
    ensures ValidCursor(doc, c) && c.At? && c.line == |doc| - 1 && c.col == |doc[c.line]|
  {
    At(|doc| - 1, |doc[|doc| - 1]|)
  }

  /** `atEnd()`: the position is the end of the document. */
  predicate AtEnd(doc: Document, c: Cursor)
    requires ValidCursor(doc, c)
    ensures AtEnd(doc, c) <==> ClearSelection(doc, c) == DocEnd(doc)
  {
    c.line == |doc| - 1 && Column(doc, c) == |doc[c.line]|
  }

  /** `atStart()`: the position is the start of the document. */
  predicate AtStart(doc: Document, c: Cursor)
    requires ValidCursor(doc, c)
    ensures AtStart(doc, c) <==> ClearSelection(doc, c) == At(0, 0)
  {
    c.line == 0 && Column(doc, c) == 0
  }

  /** `select(LineUnderCursor)`: the selection covers the whole line the
      cursor is on, wherever on it the cursor was. */
  function SelectLine(c: Cursor): (r: Cursor)
    ensures r.LineSelected? && r.line == c.line
  {
    LineSelected(c.line)
  }

  /** `clearSelection()`: the anchor joins the position. */
  function ClearSelection(doc: Document, c: Cursor): (r: Cursor)
    requires ValidCursor(doc, c)
    ensures ValidCursor(doc, r) && r.At? && r.line == c.line && r.col == Column(doc, c)
  {
    At(c.line, Column(doc, c))
  }

  /** Selecting a line and clearing the selection leaves the cursor at the
      end of that line, whatever column it started from. */
  lemma SelectThenClearIsLineEnd(doc: Document, c: Cursor)
    requires ValidCursor(doc, c)
    ensures ClearSelection(doc, SelectLine(c)) == At(c.line, |doc[c.line]|)
  {
  }

  /** `movePosition(Down)`: one line down, keeping the column where the line
      is long enough; on the last line it fails and the cursor stays. The
      flag is the call's boolean result. */
  function MoveDown(doc: Document, c: Cursor): (r: (Cursor, bool))
    requires ValidCursor(doc, c)
    ensures ValidCursor(doc, r.0)
    ensures r.1 <==> c.line + 1 < |doc|
    ensures r.1 ==> r.0.At? && r.0.line == c.line + 1
    ensures !r.1 ==> r.0 == c
  {
    if c.line + 1 < |doc| then
      var col := Column(doc, c);
      (At(c.line + 1, if col <= |doc[c.line + 1]| then col else |doc[c.line + 1]|), true)
    else (c, false)
  }

  /** `movePosition(Up)`: one line up; on the first line it fails and the cursor stays. */
  function MoveUp(doc: Document, c: Cursor): (r: (Cursor, bool))
    requires ValidCursor(doc, c)
    ensures ValidCursor(doc, r.0)
    ensures r.1 <==> c.line > 0
    ensures r.1 ==> r.0.At? && r.0.line == c.line - 1
    ensures !r.1 ==> r.0 == c
  {
    if c.line > 0 then
      var col := Column(doc, c);
      (At(c.line - 1, if col <= |doc[c.line - 1]| then col else |doc[c.line - 1]|), true)
    else (c, false)
  }

  /** `movePosition(StartOfLine)`: the cursor collapses at column 0 of its
      line, dropping any selection. */
  function StartOfLine(c: Cursor): (r: Cursor)
    ensures r.At? && r.line == c.line && r.col == 0
  {
    At(c.line, 0)
  }

  // ---------------------------------------------------------------------
  // Where the scans stop
  // ---------------------------------------------------------------------

  /** The first line at or after line `k` that the search accepts. */
  function FirstMatchFrom(doc: Document, search: seq<char> -> bool, k: nat): (r: Option<nat>)
    decreases |doc| - k
    ensures r.Some? ==> k <= r.value < |doc|
  {
    if k >= |doc| then None
    else if search(doc[k]) then Some(k)
    else FirstMatchFrom(doc, search, k + 1)
  }

  /** The first line the search accepts going up from line `k` to line `lo`. */
  function FirstMatchUpFrom(doc: Document, search: seq<char> -> bool, k: int, lo: nat): (r: Option<nat>)
    requires k < |doc|
    decreases k + 1
    ensures r.Some? ==> lo <= r.value <= k
  {
    if k < lo then None
    else if search(doc[k]) then Some(k)
    else FirstMatchUpFrom(doc, search, k - 1, lo)
  }

  /** `FirstMatchFrom` finds the first accepted line at or after `k`, and none
      when no line there is accepted. */
  lemma {:induction false} FirstMatchFromIsFirst(doc: Document, search: seq<char> -> bool, k: nat)
    decreases |doc| - k
    ensures FirstMatchFrom(doc, search, k).Some? ==>
      var j := FirstMatchFrom(doc, search, k).value;
      k <= j < |doc| && search(doc[j]) && forall i :: k <= i < j ==> !search(doc[i])
    ensures FirstMatchFrom(doc, search, k).None? <==> forall i :: k <= i < |doc| ==> !search(doc[i])
  {
    if k < |doc| && !search(doc[k]) {
      FirstMatchFromIsFirst(doc, search, k + 1);
    }
  }

  /** `FirstMatchUpFrom` finds the nearest accepted line in `lo..k` going up,
      and none when no line there is accepted. */
  lemma {:induction false} FirstMatchUpFromIsNearest(doc: Document, search: seq<char> -> bool, k: int, lo: nat)
    requires k < |doc|
    decreases k + 1
    ensures FirstMatchUpFrom(doc, search, k, lo).Some? ==>
      var j := FirstMatchUpFrom(doc, search, k, lo).value;
      lo <= j <= k && search(doc[j]) && forall i :: j < i <= k ==> !search(doc[i])
    ensures FirstMatchUpFrom(doc, search, k, lo).None? <==> forall i :: lo <= i <= k ==> !search(doc[i])
  {
    if k >= lo && !search(doc[k]) {
      FirstMatchUpFromIsNearest(doc, search, k - 1, lo);
    }
  }

  /** Where the down scan leaves the cursor: on the first accepted line at or
      below the starting line, with that line selected, or at the document end
      when there is none. A cursor already at the end does not move. */
  function DownTarget(doc: Document, search: seq<char> -> bool, start: Cursor): (r: Cursor)
    requires ValidDoc(doc) && ValidCursor(doc, start)
    ensures ValidCursor(doc, r)
  {
    if AtEnd(doc, start) then start
    else match FirstMatchFrom(doc, search, start.line)
      case Some(j) => LineSelected(j)
      case None => DocEnd(doc)
  }

  lemma DownTargetMeaning(doc: Document, search: seq<char> -> bool, start: Cursor)
    requires ValidDoc(doc) && ValidCursor(doc, start)
    ensures var r := DownTarget(doc, search, start);
      && (AtEnd(doc, start) ==> r == start)
      && (!AtEnd(doc, start) ==>
           || (&& r.LineSelected? && start.line <= r.line && search(doc[r.line])
               && forall i :: start.line <= i < r.line ==> !search(doc[i]))
           || (r == DocEnd(doc) && forall i :: start.line <= i < |doc| ==> !search(doc[i])))
  {
    FirstMatchFromIsFirst(doc, search, start.line);
  }

  /** The lowest line the up scan examines. Only a scan that starts on the
      first line examines it: from any lower line, stepping up onto the first
      line puts the cursor at the document start, which ends the scan. */
  function UpFloor(k: nat): nat {
    if k == 0 then 0 else 1
  }

  /** Where the up scan leaves the cursor: on the first accepted line met
      going up from the starting line (never the first line unless the scan
      started there), with that line selected, or at the document start. */
  function UpTarget(doc: Document, search: seq<char> -> bool, start: Cursor): (r: Cursor)
    requires ValidDoc(doc) && ValidCursor(doc, start)
    ensures ValidCursor(doc, r)
  {
    if AtStart(doc, start) then start
    else match FirstMatchUpFrom(doc, search, start.line, UpFloor(start.line))
      case Some(j) => LineSelected(j)
      case None => At(0, 0)
  }

  lemma UpTargetMeaning(doc: Document, search: seq<char> -> bool, start: Cursor)
    requires ValidDoc(doc) && ValidCursor(doc, start)
    ensures var r := UpTarget(doc, search, start);
      && (AtStart(doc, start) ==> r == start)
      && (!AtStart(doc, start) ==>
           || (&& r.LineSelected? && UpFloor(start.line) <= r.line <= start.line && search(doc[r.line])
               && forall i :: r.line < i <= start.line ==> !search(doc[i]))
           || (r == At(0, 0) && forall i :: UpFloor(start.line) <= i <= start.line ==> !search(doc[i])))
  {
    FirstMatchUpFromIsNearest(doc, search, start.line, UpFloor(start.line));
  }

  // ---------------------------------------------------------------------
  // The scans
  // ---------------------------------------------------------------------

  /** The down-arrow scan, with the step that fails on the last line handled:
      there the cursor goes to the document end and the scan stops. The
      report pattern never accepts an empty line, which is why an empty last
      line reached without being searched changes nothing. */
  method ScanDown(doc: Document, search: seq<char> -> bool, start: Cursor) returns (c: Cursor)
    requires ValidDoc(doc) && ValidCursor(doc, start) && !search([])
    ensures c == DownTarget(doc, search, start)
  {
    c := start;
    ghost var passed: nat := 0;
    while !AtEnd(doc, c)
      invariant ValidCursor(doc, c)
      invariant passed == 0 ==> c == start
      invariant passed > 0 ==> !AtEnd(doc, start) && c == At(start.line + passed, 0)
      invariant FirstMatchFrom(doc, search, start.line) == FirstMatchFrom(doc, search, start.line + passed)
      decreases |doc| - start.line - passed
    {
      c := SelectLine(c);
      if search(doc[c.line]) {
        break;
      }
      var step := MoveDown(doc, ClearSelection(doc, c));
      if !step.1 {
        c := DocEnd(doc);
        break;
      }
      c := StartOfLine(step.0);
      passed := passed + 1;
    }
  }

  /** The down-arrow scan as written ends only when the document end is
      reached or a line is accepted: from a starting point with neither ahead,
      on a last line that is not empty, it does not end. */
  predicate DownScanEnds(doc: Document, search: seq<char> -> bool, start: Cursor)
    requires ValidDoc(doc) && ValidCursor(doc, start)
  {
    AtEnd(doc, start) || FirstMatchFrom(doc, search, start.line).Some? || doc[|doc| - 1] == []
  }

  /** One pass of the as-written loop body after the search has failed: the
      result of the step down is ignored. */
  function DownStepAsWritten(doc: Document, c: Cursor): (r: Cursor)
    requires ValidCursor(doc, c)
    ensures ValidCursor(doc, r) && r.At? && r.col == 0
    ensures r.line == if c.line + 1 < |doc| then c.line + 1 else c.line
  {
    StartOfLine(MoveDown(doc, ClearSelection(doc, SelectLine(c))).0)
  }

  /** The down-arrow scan as written, from the starting points where it ends. */
  method ScanDownAsWritten(doc: Document, search: seq<char> -> bool, start: Cursor) returns (c: Cursor)
    requires ValidDoc(doc) && ValidCursor(doc, start) && !search([])
    requires DownScanEnds(doc, search, start)
    ensures c == DownTarget(doc, search, start)
  {
    c := start;
    ghost var passed: nat := 0;
    while !AtEnd(doc, c)
      invariant ValidCursor(doc, c)
      invariant passed == 0 ==> c == start
      invariant passed > 0 ==> !AtEnd(doc, start) && c == At(start.line + passed, 0)
      invariant start.line + passed < |doc|
      invariant FirstMatchFrom(doc, search, start.line) == FirstMatchFrom(doc, search, start.line + passed)
      decreases |doc| - start.line - passed
    {
      c := SelectLine(c);
      if search(doc[c.line]) {
        break;
      }
      c := DownStepAsWritten(doc, c);
      passed := passed + 1;
    }
  }

  /** The as-written down loop after at most `n` passes: the cursor it holds
      when it has ended, or after the `n`-th pass otherwise. */
  function DownPassesAsWritten(doc: Document, search: seq<char> -> bool, c: Cursor, n: nat): (r: Cursor)
    requires ValidCursor(doc, c)
    decreases n
    ensures ValidCursor(doc, r)
  {
    if n == 0 || AtEnd(doc, c) then c
    else if search(doc[c.line]) then SelectLine(c)
    else DownPassesAsWritten(doc, search, DownStepAsWritten(doc, c), n - 1)
  }

  /** The down loop as written never ends from the start of a non-empty last
      line that is not accepted: after any number of passes the cursor is back
      at the start of that line, which is not the document end, and the line
      is still not accepted. */
  lemma {:induction false} DownScanAsWrittenSpins(doc: Document, search: seq<char> -> bool, n: nat)
    requires ValidDoc(doc) && doc[|doc| - 1] != [] && !search(doc[|doc| - 1])
    ensures DownPassesAsWritten(doc, search, At(|doc| - 1, 0), n) == At(|doc| - 1, 0)
    ensures !AtEnd(doc, At(|doc| - 1, 0))
  {
    if n > 0 {
      DownScanAsWrittenSpins(doc, search, n - 1);
    }
  }

  /** The up-arrow scan. */
  method ScanUp(doc: Document, search: seq<char> -> bool, start: Cursor) returns (c: Cursor)
    requires ValidDoc(doc) && ValidCursor(doc, start)
    ensures c == UpTarget(doc, search, start)
  {
    ghost var floor := UpFloor(start.line);
    c := start;
    ghost var passed: nat := 0;
    while !AtStart(doc, c)
      invariant ValidCursor(doc, c)
      invariant passed == 0 ==> c == start
      invariant passed > 0 ==> !AtStart(doc, start) && c.At? && c.col == 0
      invariant passed > 0 ==> c.line == if start.line < passed then 0 else start.line - passed
      invariant passed <= start.line + 1 - floor
      invariant FirstMatchUpFrom(doc, search, start.line, floor)
             == FirstMatchUpFrom(doc, search, start.line - passed, floor)
      decreases start.line + 1 - passed
    {
      c := SelectLine(c);
      if search(doc[c.line]) {
        break;
      }
      c := StartOfLine(MoveUp(doc, ClearSelection(doc, c)).0);
      passed := passed + 1;
    }
  }
}
