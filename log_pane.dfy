/**
 * The log viewer: a text pane over the output of ppscannos, taken here as
 * read-only, that keeps the report under the cursor as its current match,
 * and whose arrow keys jump from report line to report line.
 *
 * The pane listens to its own cursor: whenever the cursor's position moves,
 * `updateMatch` runs. It selects the line under the cursor and searches it;
 * on a report it keeps the line selected and signals `lineMatchChanged`,
 * otherwise it puts the cursor at the start of the line. Both that state
 * update (`Refresh`) and the notification rule (`Notify`) are functions, and
 * the methods of class `LogPane` are proved against them.
 *
 * The functions here take the pattern's search as a parameter `find`; the
 * pane's own pattern is `LogPattern.Match`.
 */
module LogView {
  import opened Wrappers
  import opened LogPattern
  import opened Navigation

  type Search = seq<char> -> Option<LineMatch>

  datatype Key = KeyDown | KeyUp | OtherKey

  /** The line test the arrow-key scans use: the search finds something. */
  function Hits(find: Search): seq<char> -> bool {
    line => find(line).Some?
  }

  /** Qt emits `cursorPositionChanged` only when the position (not the anchor) moves. */
  function Position(doc: Document, c: Cursor): (nat, nat)
    requires ValidCursor(doc, c)
  {
    (c.line, Column(doc, c))
  }

  /** What `updateMatch` makes of cursor `c`: the current match becomes the
      search result on the line under the cursor; a report line is left
      selected and any other line leaves the cursor at its start. */
  function Refresh(doc: Document, find: Search, c: Cursor): (r: (Cursor, Option<LineMatch>))
    requires ValidCursor(doc, c)
    ensures ValidCursor(doc, r.0) && r.0.line == c.line
    ensures r.1 == find(doc[c.line])
    ensures r.1.Some? ==> r.0 == LineSelected(c.line)
    ensures r.1.None? ==> r.0 == At(c.line, 0)
  {
    var selected := SelectLine(c);
    var m := find(doc[selected.line]);
    if m.None? then (StartOfLine(ClearSelection(doc, selected)), None)
    else (selected, m)
  }

  /** The cursor `updateMatch` sets is one it would set again: a notification
      arriving from inside `updateMatch` (when its own `setTextCursor` moves
      the position) changes nothing more. */
  lemma RefreshIdempotent(doc: Document, find: Search, c: Cursor)
    requires ValidCursor(doc, c)
    ensures Refresh(doc, find, Refresh(doc, find, c).0) == Refresh(doc, find, c)
  {
  }

  /** `setTextCursor(after)` while the cursor is `before` and the current
      match `m`: a moved position runs `updateMatch`, an unmoved one changes
      only the cursor. */
  function Notify(doc: Document, find: Search, before: Cursor, after: Cursor, m: Option<LineMatch>): (r: (Cursor, Option<LineMatch>))
    requires ValidCursor(doc, before) && ValidCursor(doc, after)
    ensures ValidCursor(doc, r.0) && r.0.line == after.line
  {
    if Position(doc, before) != Position(doc, after) then Refresh(doc, find, after) else (after, m)
  }

  /** The current match is the search result on the line under the cursor. */
  predicate InSync(doc: Document, find: Search, c: Cursor, m: Option<LineMatch>)
    requires ValidCursor(doc, c)
  {
    m == find(doc[c.line])
  }

  /** Setting the cursor keeps the current match in step with the cursor's line. */
  lemma NotifyKeepsSync(doc: Document, find: Search, before: Cursor, after: Cursor, m: Option<LineMatch>)
    requires ValidCursor(doc, before) && ValidCursor(doc, after)
    requires InSync(doc, find, before, m)
    ensures var r := Notify(doc, find, before, after, m); InSync(doc, find, r.0, r.1)
  {
  }

  /** The pane after a key press: `moved` is the cursor the widget's own key
      handling leaves; then, for an arrow key, the scan runs from the cursor
      as that move left it, and its result is set. */
  function KeyResult(doc: Document, find: Search, key: Key, c: Cursor, m: Option<LineMatch>, moved: Cursor): (r: (Cursor, Option<LineMatch>))
    requires ValidDoc(doc) && ValidCursor(doc, c) && ValidCursor(doc, moved)
    ensures ValidCursor(doc, r.0)
  {
    var s := Notify(doc, find, c, moved, m);
    match key
    case KeyDown => Notify(doc, find, s.0, DownTarget(doc, Hits(find), s.0), s.1)
    case KeyUp => Notify(doc, find, s.0, UpTarget(doc, Hits(find), s.0), s.1)
    case OtherKey => s
  }

  /** A key press keeps the current match in step with the cursor's line. */
  lemma KeyKeepsSync(doc: Document, find: Search, key: Key, c: Cursor, m: Option<LineMatch>, moved: Cursor)
    requires ValidDoc(doc) && ValidCursor(doc, c) && ValidCursor(doc, moved)
    requires InSync(doc, find, c, m)
    ensures var r := KeyResult(doc, find, key, c, m, moved); InSync(doc, find, r.0, r.1)
  {
    var s := Notify(doc, find, c, moved, m);
    NotifyKeepsSync(doc, find, c, moved, m);
    match key
    case KeyDown => NotifyKeepsSync(doc, find, s.0, DownTarget(doc, Hits(find), s.0), s.1);
    case KeyUp => NotifyKeepsSync(doc, find, s.0, UpTarget(doc, Hits(find), s.0), s.1);
    case OtherKey =>
  }

  /** The down arrow selects the next report line at or below the line the
      widget's own move lands on, and makes it the current match; with none
      below, the cursor rests at the start of the last line with no match. */
  lemma DownKeySelectsNextReport(doc: Document, find: Search, c: Cursor, m: Option<LineMatch>, moved: Cursor)
    requires ValidDoc(doc) && ValidCursor(doc, c) && ValidCursor(doc, moved)
    requires InSync(doc, find, c, m)
    ensures var s := Notify(doc, find, c, moved, m).0;
      var r := KeyResult(doc, find, KeyDown, c, m, moved);
      !AtEnd(doc, s) ==>
        match FirstMatchFrom(doc, Hits(find), s.line)
        case Some(j) => r.0 == LineSelected(j) && r.1 == find(doc[j]) && r.1.Some?
        case None => r.0 == At(|doc| - 1, 0) && r.1 == None
  {
    var s := Notify(doc, find, c, moved, m);
    NotifyKeepsSync(doc, find, c, moved, m);
    FirstMatchFromIsFirst(doc, Hits(find), s.0.line);
  }

  /** The up arrow selects the nearest report line at or above the line the
      widget's own move lands on, never the first line unless the move lands
      there; with none, the cursor rests on the first line, and the
      notification that follows makes that line current after all when it is
      a report. */
  lemma UpKeySelectsPreviousReport(doc: Document, find: Search, c: Cursor, m: Option<LineMatch>, moved: Cursor)
    requires ValidDoc(doc) && ValidCursor(doc, c) && ValidCursor(doc, moved)
    requires InSync(doc, find, c, m)
    ensures var s := Notify(doc, find, c, moved, m).0;
      var r := KeyResult(doc, find, KeyUp, c, m, moved);
      !AtStart(doc, s) ==>
        match FirstMatchUpFrom(doc, Hits(find), s.line, UpFloor(s.line))
        case Some(j) => r.0 == LineSelected(j) && r.1 == find(doc[j]) && r.1.Some?
        case None => r.0.line == 0 && r.1 == find(doc[0])
  {
    var s := Notify(doc, find, c, moved, m);
    NotifyKeepsSync(doc, find, c, moved, m);
    FirstMatchUpFromIsNearest(doc, Hits(find), s.0.line, UpFloor(s.0.line));
  }

  /** With the down loop as written, a log whose last line is neither empty
      nor a report, read from the start of that line, never leaves the loop. */
  lemma DownKeyAsWrittenHangs(n: nat)
    ensures DownPassesAsWritten(["a", "b"], Hits(Match), At(1, 0), n) == At(1, 0)
    ensures !AtEnd(["a", "b"], At(1, 0))
  {
    assert Match("b") == None;
    DownScanAsWrittenSpins(["a", "b"], Hits(Match), n);
  }

  class LogPane {
    /** The compiled report pattern. */
    const pattern: Search
    var doc: Document
    var cursor: Cursor
    var currentMatch: Option<LineMatch>

    ghost predicate Valid()
      reads this
    {
      ValidDoc(doc) && ValidCursor(doc, cursor) && pattern([]) == None
    }

    /** A pane showing `text`, the cursor at its start and no current match. */
    constructor(text: Document)
      requires ValidDoc(text)
      ensures Valid() && pattern == Match
      ensures doc == text && cursor == At(0, 0) && currentMatch == None
    {
      pattern := Match;
      doc := text;
      cursor := At(0, 0);
      currentMatch := None;
      EmptyLineIsNoReport();
    }

    /** `updateMatch`; `emitted` tells whether `lineMatchChanged` is emitted. */
    method UpdateMatch() returns (emitted: bool)
      requires Valid()
      modifies this
      ensures Valid() && doc == old(doc)
      ensures (cursor, currentMatch) == Refresh(doc, pattern, old(cursor))
      ensures InSync(doc, pattern, cursor, currentMatch)
      ensures emitted <==> currentMatch.Some?
    {
      var selected := SelectLine(cursor);
      currentMatch := pattern(doc[selected.line]);
      if currentMatch.None? {
        cursor := StartOfLine(ClearSelection(doc, selected));
        return false;
      }
      cursor := selected;
      emitted := true;
    }

    /** `setTextCursor(c)`, with the notification it triggers. */
    method SetTextCursor(c: Cursor)
      requires Valid() && ValidCursor(doc, c)
      modifies this
      ensures Valid() && doc == old(doc)
      ensures (cursor, currentMatch) == Notify(doc, pattern, old(cursor), c, old(currentMatch))
    {
      var moves := Position(doc, cursor) != Position(doc, c);
      cursor := c;
      if moves {
        var _ := UpdateMatch();
      }
    }

    /** `keyPressEvent`: `moved` is where the widget's own handling of the key
        puts the cursor. */
    method KeyPress(key: Key, moved: Cursor)
      requires Valid() && ValidCursor(doc, moved)
      modifies this
      ensures Valid() && doc == old(doc)
      ensures (cursor, currentMatch) == KeyResult(doc, pattern, key, old(cursor), old(currentMatch), moved)
    {
      SetTextCursor(moved);
      if key == KeyDown {
        var target := ScanDown(doc, Hits(pattern), cursor);
        SetTextCursor(target);
      } else if key == KeyUp {
        var target := ScanUp(doc, Hits(pattern), cursor);
        SetTextCursor(target);
      }
    }
  }
}
