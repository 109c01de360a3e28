/**
 * The line grammar LogPane recognises in a ppscannos report,
 *
 *     ^\s\sLine\s#=(\d+)(?:-\d+)?\spos=(\d+)\smatch=(.+)\s*$
 *
 * searched with Python's `re` (no flags), and the three accessors that read
 * the groups of the resulting match.
 *
 * The expression is deterministic: a digit run can only be followed by `-`
 * or whitespace, so neither `\d+` ever gives characters back, and `(.+)`,
 * which cannot cross a newline, is greedy, so it takes the whole newline-free
 * rest of the line and `\s*$` must then consume everything after it.
 * A match is therefore modelled by a scanner (Scan) that reads the line stage
 * by stage, and the grammar by a datatype of well-formed report lines with a
 * renderer (Render); Scan and Render are proved to be inverse.
 */
module LogPattern {
  import opened Wrappers

  /** `\s`: the ASCII members of Python's whitespace class
      (space, \t \n \v \f \r, and the separators 0x1C to 0x1F). A separator
      is never a digit or a dash, so it ends a numeral and cannot start the
      range part. */
  predicate IsSpace(c: char)
    ensures IsSpace(c) ==> c <= ' ' && !IsDigit(c) && c != '-'
  {
    c == ' ' || ('\t' <= c <= '\r') || ('\U{1C}' <= c <= '\U{1F}')
  }

  /** `\d`, restricted to ASCII digits. */
  predicate IsDigit(c: char)
    ensures IsDigit(c) ==> c != '\n' && c != '-' && c > ' '
  {
    '0' <= c <= '9'
  }

  /** `.`: any character except a newline; the one character it refuses is
      whitespace, where the trailing `\s*$` takes over. */
  predicate NotNewline(c: char)
    ensures !NotNewline(c) ==> IsSpace(c)
  {
    c != '\n'
  }

  /** `\d+` as a whole string. */
  predicate IsNumeral(s: seq<char>) {
    |s| > 0 && forall i :: 0 <= i < |s| ==> IsDigit(s[i])
  }

  predicate AllSpace(s: seq<char>) {
    forall i :: 0 <= i < |s| ==> IsSpace(s[i])
  }

  predicate NoNewline(s: seq<char>) {
    forall i :: 0 <= i < |s| ==> NotNewline(s[i])
  }

  /** The length of the longest prefix of `s` made of characters satisfying `p`,
      that is, how much a greedy `p*` consumes. */
  function Span(s: seq<char>, p: char -> bool): (n: nat)
    ensures n <= |s|
    ensures forall i :: 0 <= i < n ==> p(s[i])
    ensures n < |s| ==> !p(s[n])
  {
    if s == [] || !p(s[0]) then 0
    else
      var n := 1 + Span(s[1..], p);
      assert forall i :: 1 <= i < n ==> s[i] == s[1..][i - 1];
      n
  }

  /** A greedy `p*` stops exactly where `p` first fails. */
  lemma SpanOf(a: seq<char>, t: seq<char>, p: char -> bool)
    requires forall i :: 0 <= i < |a| ==> p(a[i])
    requires t == [] || !p(t[0])
    ensures Span(a + t, p) == |a|
  {
    assert forall i :: 0 <= i < |a| ==> (a + t)[i] == a[i];
    assert t != [] ==> (a + t)[|a|] == t[0];
  }

  // ---------------------------------------------------------------------
  // The grammar: a report line and its text
  // ---------------------------------------------------------------------

  /** A line the pattern accepts, split at every point the pattern
      distinguishes. The five separator characters are the five `\s`
      of the pattern; `rangeDigits` is the uncaptured `-\d+`; `trailing`
      is what `\s*$` consumes after the token. */
  datatype ReportLine = ReportLine(
    lead0: char, lead1: char, afterLine: char,
    lineDigits: seq<char>, rangeDigits: Option<seq<char>>,
    beforePos: char, posDigits: seq<char>,
    beforeMatch: char, token: seq<char>, trailing: seq<char>)

  /** The conditions under which the pattern yields exactly this split.
      Because `(.+)` is greedy, the trailing part is empty or begins at a
      newline: whitespace before the end of the line belongs to the token. */
  predicate WellFormed(p: ReportLine) {
    && IsSpace(p.lead0) && IsSpace(p.lead1) && IsSpace(p.afterLine)
    && IsNumeral(p.lineDigits)
    && (p.rangeDigits.Some? ==> IsNumeral(p.rangeDigits.value))
    && IsSpace(p.beforePos) && IsNumeral(p.posDigits)
    && IsSpace(p.beforeMatch)
    && p.token != [] && NoNewline(p.token)
    && AllSpace(p.trailing) && (p.trailing == [] || p.trailing[0] == '\n')
  }

  /** One `\s` followed by a literal word. */
  function Spaced(c: char, word: seq<char>): seq<char> {
    [c] + word
  }

  function RangeText(r: Option<seq<char>>): seq<char> {
    if r.Some? then "-" + r.value else ""
  }

  /** The text of a report line, nested the way the pattern reads it. */
  function Render(p: ReportLine): seq<char> {
    Spaced(p.lead0, "") + (Spaced(p.lead1, "Line") + (Spaced(p.afterLine, "#=") +
    (p.lineDigits + (RangeText(p.rangeDigits) +
    (Spaced(p.beforePos, "pos=") + (p.posDigits +
    (Spaced(p.beforeMatch, "match=") + (p.token + p.trailing))))))))
  }

  /** The text before the token: everything up to and including `match=`. */
  function Preamble(p: ReportLine): seq<char> {
    Spaced(p.lead0, "") + Spaced(p.lead1, "Line") + Spaced(p.afterLine, "#=") +
    p.lineDigits + RangeText(p.rangeDigits) +
    Spaced(p.beforePos, "pos=") + p.posDigits + Spaced(p.beforeMatch, "match=")
  }

  lemma RenderSplit(p: ReportLine)
    ensures Render(p) == Preamble(p) + p.token + p.trailing
  {
  }

  // ---------------------------------------------------------------------
  // The scanner: one stage per piece of the pattern
  // ---------------------------------------------------------------------

  /** `\s` followed by `word`; yields the whitespace character and the rest. */
  function ScanSpaced(s: seq<char>, word: seq<char>): (r: Option<(char, seq<char>)>)
    ensures r.Some? ==> IsSpace(r.value.0) && s == Spaced(r.value.0, word) + r.value.1
    ensures r.None? ==> !(|s| > |word| && IsSpace(s[0]) && s[1..|word| + 1] == word)
  {
    if |s| > |word| && IsSpace(s[0]) && s[1..|word| + 1] == word then
      assert s == [s[0]] + s[1..|word| + 1] + s[|word| + 1..];
      Some((s[0], s[|word| + 1..]))
    else None
  }

  /** `(\d+)`: the greedy digit run and the rest, which does not start with a digit. */
  function ScanNumeral(s: seq<char>): (r: Option<(seq<char>, seq<char>)>)
    ensures r.Some? ==> IsNumeral(r.value.0) && s == r.value.0 + r.value.1
                        && (r.value.1 == [] || !IsDigit(r.value.1[0]))
    ensures r.None? ==> s == [] || !IsDigit(s[0])
  {
    var n := Span(s, IsDigit);
    if n == 0 then None
    else
      assert s == s[..n] + s[n..];
      Some((s[..n], s[n..]))
  }

  /** `(?:-\d+)?`: a dash and a digit run if both are there, else nothing. */
  function ScanRange(s: seq<char>): (r: (Option<seq<char>>, seq<char>))
    ensures s == RangeText(r.0) + r.1
    ensures r.0.Some? ==> IsNumeral(r.0.value) && (r.1 == [] || !IsDigit(r.1[0]))
    ensures r.0.None? ==> r.1 == s
  {
    if |s| > 0 && s[0] == '-' then
      match ScanNumeral(s[1..])
      case Some((d, t)) =>
        assert s == "-" + s[1..];
        (Some(d), t)
      case None => (None, s)
    else (None, s)
  }

  /** `(.+)\s*$`: the newline-free rest of the line, if non-empty, provided
      only whitespace follows it. */
  function ScanToken(s: seq<char>): (r: Option<(seq<char>, seq<char>)>)
    ensures r.Some? ==> r.value.0 != [] && NoNewline(r.value.0) && s == r.value.0 + r.value.1
                        && AllSpace(r.value.1) && (r.value.1 == [] || r.value.1[0] == '\n')
  {
    var n := Span(s, NotNewline);
    if n > 0 && AllSpace(s[n..]) then
      assert s == s[..n] + s[n..];
      Some((s[..n], s[n..]))
    else None
  }

  /** The search, stage by stage; every stage has only one way to succeed. */
  function Scan(s: seq<char>): (r: Option<ReportLine>)
    ensures r.Some? ==> WellFormed(r.value) && Render(r.value) == s
  {
    match ScanSpaced(s, "")
    case None => None
    case Some((l0, s1)) =>
    match ScanSpaced(s1, "Line")
    case None => None
    case Some((l1, s2)) =>
    match ScanSpaced(s2, "#=")
    case None => None
    case Some((sl, s3)) =>
    match ScanNumeral(s3)
    case None => None
    case Some((line, s4)) =>
    var (range, s5) := ScanRange(s4);
    match ScanSpaced(s5, "pos=")
    case None => None
    case Some((sp, s6)) =>
    match ScanNumeral(s6)
    case None => None
    case Some((pos, s7)) =>
    match ScanSpaced(s7, "match=")
    case None => None
    case Some((sm, s8)) =>
    match ScanToken(s8)
    case None => None
    case Some((token, trailing)) =>
      Some(ReportLine(l0, l1, sl, line, range, sp, pos, sm, token, trailing))
  }

  // Completeness of each stage: it recovers the piece it was given.

  lemma ScanSpacedOf(c: char, word: seq<char>, rest: seq<char>)
    requires IsSpace(c)
    ensures ScanSpaced(Spaced(c, word) + rest, word) == Some((c, rest))
  {
    var s := Spaced(c, word) + rest;
    assert s[1..|word| + 1] == word;
    assert s[|word| + 1..] == rest;
  }

  lemma ScanNumeralOf(d: seq<char>, rest: seq<char>)
    requires IsNumeral(d)
    requires rest == [] || !IsDigit(rest[0])
    ensures ScanNumeral(d + rest) == Some((d, rest))
  {
    SpanOf(d, rest, IsDigit);
    assert (d + rest)[..|d|] == d;
    assert (d + rest)[|d|..] == rest;
  }

  lemma ScanRangeOf(r: Option<seq<char>>, rest: seq<char>)
    requires r.Some? ==> IsNumeral(r.value)
    requires rest != [] && IsSpace(rest[0])
    ensures ScanRange(RangeText(r) + rest) == (r, rest)
  {
    if r.Some? {
      var s := RangeText(r) + rest;
      assert s[0] == '-' && s[1..] == r.value + rest;
      ScanNumeralOf(r.value, rest);
      assert ScanNumeral(s[1..]) == Some((r.value, rest));
    } else {
      assert RangeText(r) + rest == rest;
    }
  }

  lemma ScanTokenOf(token: seq<char>, trailing: seq<char>)
    requires token != [] && NoNewline(token)
    requires AllSpace(trailing) && (trailing == [] || trailing[0] == '\n')
    ensures ScanToken(token + trailing) == Some((token, trailing))
  {
    SpanOf(token, trailing, NotNewline);
    var s := token + trailing;
    assert s[..|token|] == token;
    assert s[|token|..] == trailing;
  }

  /** Every well-formed report line is found by the search, split as it was built. */
  lemma ScanComplete(p: ReportLine)
    requires WellFormed(p)
    ensures Scan(Render(p)) == Some(p)
  {
    var tail8 := p.token + p.trailing;
    var tail7 := Spaced(p.beforeMatch, "match=") + tail8;
    var tail6 := p.posDigits + tail7;
    var tail5 := Spaced(p.beforePos, "pos=") + tail6;
    var tail4 := RangeText(p.rangeDigits) + tail5;
    var tail3 := p.lineDigits + tail4;
    var tail2 := Spaced(p.afterLine, "#=") + tail3;
    var tail1 := Spaced(p.lead1, "Line") + tail2;
    ScanSpacedOf(p.lead0, "", tail1);
    ScanSpacedOf(p.lead1, "Line", tail2);
    ScanSpacedOf(p.afterLine, "#=", tail3);
    ScanRangeOf(p.rangeDigits, tail5);
    assert tail4 != [] && !IsDigit(tail4[0]);
    ScanNumeralOf(p.lineDigits, tail4);
    ScanSpacedOf(p.beforePos, "pos=", tail6);
    ScanNumeralOf(p.posDigits, tail7);
    ScanSpacedOf(p.beforeMatch, "match=", tail8);
    ScanTokenOf(p.token, p.trailing);
  }

  // ---------------------------------------------------------------------
  // The match object and its groups
  // ---------------------------------------------------------------------

  /** Groups 1, 2 and 3 of a match: the source line digits, the 1-based
      column digits and the scanno token. */
  datatype LineMatch = LineMatch(lineDigits: seq<char>, posDigits: seq<char>, token: seq<char>)

  function Groups(p: ReportLine): LineMatch {
    LineMatch(p.lineDigits, p.posDigits, p.token)
  }

  /** `pattern.search(line)`. */
  function Match(line: seq<char>): (r: Option<LineMatch>)
    ensures r.Some? ==> IsNumeral(r.value.lineDigits) && IsNumeral(r.value.posDigits)
                        && r.value.token != [] && NoNewline(r.value.token)
  {
    match Scan(line)
    case None => None
    case Some(p) => Some(Groups(p))
  }

  /** An empty line is never a report: the pattern needs its two leading spaces. */
  lemma EmptyLineIsNoReport()
    ensures Match([]) == None
  {
  }

  lemma MatchSound(line: seq<char>)
    ensures Match(line).Some? ==>
      exists p :: WellFormed(p) && Render(p) == line && Groups(p) == Match(line).value
  {
    if Match(line).Some? {
      var p := Scan(line).value;
      assert WellFormed(p) && Render(p) == line && Groups(p) == Match(line).value;
    }
  }

  lemma MatchComplete(p: ReportLine)
    requires WellFormed(p)
    ensures Match(Render(p)) == Some(Groups(p))
  {
    ScanComplete(p);
  }

  /** A line is matched exactly when it is the text of a well-formed report
      line; the groups are then that report line's, so the range suffix is
      dropped and the token keeps its trailing whitespace. */
  lemma MatchIff(line: seq<char>)
    ensures Match(line).Some? <==> exists p :: WellFormed(p) && Render(p) == line
  {
    if Match(line).Some? {
      MatchSound(line);
    }
    if exists p :: WellFormed(p) && Render(p) == line {
      var p :| WellFormed(p) && Render(p) == line;
      MatchComplete(p);
    }
  }

  // ---------------------------------------------------------------------
  // Decimal numerals: Python's int() and the numerals ppscannos prints
  // ---------------------------------------------------------------------

  function DigitValue(c: char): (d: nat)
    ensures d < 10
  {
    if IsDigit(c) then c as int - '0' as int else 0
  }

  function DigitChar(d: nat): (c: char)
    requires d < 10
    ensures IsDigit(c) && DigitValue(c) == d
  {
    ('0' as int + d) as char
  }

  /** `int(digits)` on a digit string: most significant digit first. */
  function Value(ds: seq<char>): (v: nat)
    ensures v == 0 <==> forall i :: 0 <= i < |ds| ==> DigitValue(ds[i]) == 0
  {
    if ds == [] then 0 else 10 * Value(ds[..|ds| - 1]) + DigitValue(ds[|ds| - 1])
  }

  /** The decimal numeral of `n`, without leading zeros. */
  function Decimal(n: nat): (ds: seq<char>)
    ensures IsNumeral(ds)
  {
    if n < 10 then [DigitChar(n)] else Decimal(n / 10) + [DigitChar(n % 10)]
  }

  lemma {:induction false} ValueOfDecimal(n: nat)
    ensures Value(Decimal(n)) == n
  {
    if n >= 10 {
      ValueOfDecimal(n / 10);
      var ds := Decimal(n);
      assert ds[..|ds| - 1] == Decimal(n / 10);
    }
  }

  /** Leading zeros do not change the value: `pos=007` is column 7. */
  lemma {:induction false} ValueIgnoresLeadingZero(ds: seq<char>)
    ensures Value("0" + ds) == Value(ds)
  {
    if ds != [] {
      var zs := "0" + ds;
      assert zs[..|zs| - 1] == "0" + ds[..|ds| - 1];
      ValueIgnoresLeadingZero(ds[..|ds| - 1]);
    }
  }

  // ---------------------------------------------------------------------
  // The accessors srcLineNum, srcColNum and srcScanno
  // ---------------------------------------------------------------------

  /** The reported source line, or -1 with no current match. */
  function SrcLineNum(m: Option<LineMatch>): (r: int)
    ensures r == -1 <==> m.None?
    ensures m.Some? ==> r == Value(m.value.lineDigits)
  {
    if m.None? then -1 else Value(m.value.lineDigits)
  }

  /** The reported column converted from 1-based to 0-based, or -1 with no
      current match. */
  function SrcColNum(m: Option<LineMatch>): (r: int)
    ensures r >= -1
    ensures m.None? ==> r == -1
    ensures m.Some? ==> r + 1 == Value(m.value.posDigits)
  {
    if m.None? then -1 else Value(m.value.posDigits) - 1
  }

  /** The scanno token, or nothing with no current match. */
  function SrcScanno(m: Option<LineMatch>): (r: Option<seq<char>>)
    ensures r.None? <==> m.None?
    ensures m.Some? ==> r.value == m.value.token
  {
    if m.None? then None else Some(m.value.token)
  }

  /** What the accessors report for a well-formed line: the leading line
      number whatever the range suffix, the column minus one, and the token
      with any trailing whitespace. */
  lemma AccessorsOfReport(p: ReportLine)
    requires WellFormed(p)
    ensures SrcLineNum(Match(Render(p))) == Value(p.lineDigits)
    ensures SrcColNum(Match(Render(p))) == Value(p.posDigits) - 1
    ensures SrcScanno(Match(Render(p))) == Some(p.token)
  {
    MatchComplete(p);
  }

  /** On a line the pattern rejects all three accessors give their sentinels. */
  lemma AccessorsOfNonReport(line: seq<char>)
    requires !(exists p :: WellFormed(p) && Render(p) == line)
    ensures SrcLineNum(Match(line)) == -1 && SrcColNum(Match(line)) == -1
    ensures SrcScanno(Match(line)) == None
  {
    MatchIff(line);
  }

  /** The line ppscannos prints for a scanno at source line `lineNo` (or a
      range of lines ending at `rangeEnd`) and 1-based column `pos`. */
  function ReportText(lineNo: nat, rangeEnd: Option<nat>, pos: nat, token: seq<char>): seq<char> {
    var range := if rangeEnd.Some? then Some(Decimal(rangeEnd.value)) else None;
    Render(ReportLine(' ', ' ', ' ', Decimal(lineNo), range, ' ', Decimal(pos), ' ', token, ""))
  }

  /** Reading back a printed report gives the numbers and token it was printed from. */
  lemma ReportRoundTrip(lineNo: nat, rangeEnd: Option<nat>, pos: nat, token: seq<char>)
    requires token != [] && NoNewline(token)
    ensures SrcLineNum(Match(ReportText(lineNo, rangeEnd, pos, token))) == lineNo
    ensures SrcColNum(Match(ReportText(lineNo, rangeEnd, pos, token))) == pos - 1
    ensures SrcScanno(Match(ReportText(lineNo, rangeEnd, pos, token))) == Some(token)
  {
    var range := if rangeEnd.Some? then Some(Decimal(rangeEnd.value)) else None;
    AccessorsOfReport(ReportLine(' ', ' ', ' ', Decimal(lineNo), range, ' ', Decimal(pos), ' ', token, ""));
    ValueOfDecimal(lineNo);
    ValueOfDecimal(pos);
  }
}
