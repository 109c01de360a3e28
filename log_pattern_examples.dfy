/** Consequences of the pattern's anchors and greediness, and worked report lines. */
module LogPatternExamples {
  import opened Wrappers
  import opened LogPattern

  /** A line that does not begin with two whitespace characters is never a report line. */
  lemma LeadingWhitespaceRequired(line: seq<char>)
    requires !(|line| >= 2 && IsSpace(line[0]) && IsSpace(line[1]))
    ensures Match(line) == None
  {
  }

  /** A report line whose text has no line break has nothing after its token. */
  lemma NoTrailingWithoutNewline(p: ReportLine)
    requires WellFormed(p) && NoNewline(Render(p))
    ensures p.trailing == []
  {
    RenderSplit(p);
    assert Render(p)[|Render(p)| - |p.trailing|..] == p.trailing;
  }

  /** Whitespace appended to a report line joins the token: `(.+)` is greedy,
      so `\s*` matches the empty string. Line and column do not change. */
  lemma TrailingWhitespaceJoinsToken(p: ReportLine, ws: seq<char>)
    requires WellFormed(p) && NoNewline(Render(p))
    requires AllSpace(ws) && NoNewline(ws)
    ensures Match(Render(p) + ws) == Some(LineMatch(p.lineDigits, p.posDigits, p.token + ws))
  {
    NoTrailingWithoutNewline(p);
    var q := p.(token := p.token + ws);
    RenderSplit(p);
    RenderSplit(q);
    assert Preamble(q) == Preamble(p);
    assert Render(q) == Render(p) + ws;
    MatchComplete(q);
  }

  /** `$` also matches just before a final newline: a report line followed
      by a newline matches with the same groups. */
  lemma FinalNewlineKeepsMatch(p: ReportLine)
    requires WellFormed(p) && NoNewline(Render(p))
    ensures Match(Render(p) + "\n") == Some(Groups(p))
  {
    NoTrailingWithoutNewline(p);
    var q := p.(trailing := "\n");
    RenderSplit(p);
    RenderSplit(q);
    assert Preamble(q) == Preamble(p);
    assert Render(q) == Render(p) + "\n";
    MatchComplete(q);
  }

  /** Conversely, a line that is a report line once its final newline is
      added is one without it, with the same groups. */
  lemma FinalNewlineNeedsMatch(q: ReportLine, line: seq<char>)
    requires WellFormed(q) && NoNewline(line) && Render(q) == line + "\n"
    ensures Match(line) == Some(Groups(q))
  {
    var s := line + "\n";
    RenderSplit(q);
    assert s[|s| - 1] == '\n';
    assert s[|s| - 1 - |q.trailing|] == q.token[|q.token| - 1];
    assert NotNewline(q.token[|q.token| - 1]);
    assert q.trailing != [];
    assert s[|s| - |q.trailing|..] == q.trailing;
    assert s[|s| - |q.trailing|] == '\n';
    assert |q.trailing| == 1;
    assert q.trailing == "\n";
    var p := q.(trailing := "");
    RenderSplit(p);
    assert Preamble(q) == Preamble(p);
    assert Render(p) + "\n" == s;
    assert Render(p) == line;
    MatchComplete(p);
  }

  // Worked report lines

  /** `  Line #=42 pos=7 match=teh `: line 42, column 6, and the token keeps its trailing space. */
  lemma TehExample()
    ensures SrcLineNum(Match(ReportText(42, None, 7, "teh "))) == 42
    ensures SrcColNum(Match(ReportText(42, None, 7, "teh "))) == 6
    ensures SrcScanno(Match(ReportText(42, None, 7, "teh "))) == Some("teh ")
  {
    ReportRoundTrip(42, None, 7, "teh ");
  }

  /** `  Line #=10-12 pos=3 match=foo`: the range suffix is dropped, the source line is 10. */
  lemma RangeExample()
    ensures SrcLineNum(Match(ReportText(10, Some(12), 3, "foo"))) == 10
    ensures SrcColNum(Match(ReportText(10, Some(12), 3, "foo"))) == 2
  {
    ReportRoundTrip(10, Some(12), 3, "foo");
  }

  /** `  Line #=5 pos=0 match=x` is accepted, and its column is -1: the same
      value SrcColNum gives when there is no match. */
  lemma ColumnZeroExample()
    ensures Match(ReportText(5, None, 0, "x")).Some?
    ensures SrcColNum(Match(ReportText(5, None, 0, "x"))) == SrcColNum(None)
  {
    ReportRoundTrip(5, None, 0, "x");
  }

  /** `hello world` is not a report line. */
  lemma NonReportExample()
    ensures Match("hello world") == None
  {
    LeadingWhitespaceRequired("hello world");
  }
}
