/** The CSV writer of the exports and the CSV reader of the import dialog. */
module Csv {
  import opened Text

  datatype Delimiter = Comma | Semicolon | Tab {
    function Char(): (c: char)
      ensures c != DQUOTE && c != '\n' && c != '\r' && (IsSpace(c) <==> Tab?)
    {
      match this
      case Comma => ','
      case Semicolon => ';'
      case Tab => '\t'
    }
  }

  const DQUOTE := '"'

  datatype Parsed = Parsed(headers: seq<string>, rows: seq<seq<string>>, totalRows: nat)

  // ---------- reading one line ----------

  /** The quote-aware state machine, from a state: text left, field so far, inside quotes or not. */
  function Fields(s: string, current: string, inQuotes: bool, d: char): (r: seq<string>)
    ensures |r| >= 1
    decreases |s|
  {
    if s == "" then [Trim(current)]
    else if s[0] == DQUOTE && !inQuotes then Fields(s[1..], current, true, d)
    else if s[0] == DQUOTE then
      if |s| > 1 && s[1] == DQUOTE then Fields(s[2..], current + [DQUOTE], true, d)
      else Fields(s[1..], current, false, d)
    else if s[0] == d && !inQuotes then [Trim(current)] + Fields(s[1..], "", false, d)
    else Fields(s[1..], current + [s[0]], inQuotes, d)
  }

  function LineCells(line: string, d: Delimiter): seq<string> { Fields(line, "", false, d.Char()) }

  method ParseLine(line: string, d: Delimiter) returns (result: seq<string>)
    ensures result == LineCells(line, d)
  {
    result := [];
    var current, inQuotes, i := "", false, 0;
    while i < |line|
      invariant 0 <= i <= |line|
      invariant result + Fields(line[i..], current, inQuotes, d.Char()) == LineCells(line, d)
    {
      var ch := line[i];
      ghost var here := line[i..];
      assert here[1..] == line[i + 1..];
      if ch == DQUOTE && !inQuotes {
        inQuotes := true;
      } else if ch == DQUOTE && inQuotes {
        if i + 1 < |line| && line[i + 1] == DQUOTE {
          assert here[2..] == line[i + 2..];
          current := current + [DQUOTE];
          i := i + 1;
        } else {
          inQuotes := false;
        }
      } else if ch == d.Char() && !inQuotes {
        result := result + [Trim(current)];
        current := "";
      } else {
        current := current + [ch];
      }
      i := i + 1;
    }
    result := result + [Trim(current)];
  }

  // ---------- what a line says, whatever its quotes ----------

  /** The line cut at each delimiter with an even number of quotes before it. */
  function Segments(s: string, odd: bool, d: char): (r: seq<string>)
    ensures |r| >= 1
  {
    if s == "" then [""]
    else if s[0] == d && !odd then [""] + Segments(s[1..], false, d)
    else
      var r := Segments(s[1..], odd != (s[0] == DQUOTE), d);
      [[s[0]] + r[0]] + r[1..]
  }

  /** A segment without its quotes, but for each quote of odd number with another one right behind it. */
  function Unquoted(seg: string, odd: bool): string {
    if seg == "" then ""
    else if seg[0] != DQUOTE then [seg[0]] + Unquoted(seg[1..], odd)
    else (if odd && |seg| > 1 && seg[1] == DQUOTE then [DQUOTE] else "") + Unquoted(seg[1..], !odd)
  }

  function Contents(segs: seq<string>): (r: seq<string>)
    ensures |r| == |segs| && forall i :: 0 <= i < |segs| ==> r[i] == Trim(Unquoted(segs[i], false))
  {
    seq(|segs|, i requires 0 <= i < |segs| => Trim(Unquoted(segs[i], false)))
  }

  /** From a state on: the open field takes in the first segment. */
  function Rest(current: string, segs: seq<string>, odd: bool): seq<string>
    requires segs != []
  {
    [Trim(current + Unquoted(segs[0], odd))] + Contents(segs[1..])
  }

  lemma FromTheStart(segs: seq<string>)
    requires segs != []
    ensures Rest("", segs, false) == Contents(segs)
  {
    assert "" + Unquoted(segs[0], false) == Unquoted(segs[0], false);
  }

  lemma CutHere(s: string, current: string, d: char)
    requires s != "" && s[0] == d && d != DQUOTE
    ensures Rest(current, Segments(s, false, d), false)
         == [Trim(current)] + Rest("", Segments(s[1..], false, d), false)
  {
    var r := Segments(s[1..], false, d);
    assert Segments(s, false, d)[1..] == r && current + "" == current;
    FromTheStart(r);
  }

  lemma GoOn(s: string, odd: bool, d: char)
    requires s != "" && !(s[0] == d && !odd)
    ensures var r := Segments(s[1..], odd != (s[0] == DQUOTE), d);
            Segments(s, odd, d)[0] == [s[0]] + r[0] && Segments(s, odd, d)[1..] == r[1..]
  {}

  lemma TakeChar(s: string, current: string, odd: bool, d: char)
    requires s != "" && s[0] != DQUOTE && !(s[0] == d && !odd)
    ensures Rest(current, Segments(s, odd, d), odd) == Rest(current + [s[0]], Segments(s[1..], odd, d), odd)
  {
    GoOn(s, odd, d);
    var seg := Segments(s[1..], odd, d)[0];
    Cons(s[0], seg);
    Regroup(current, [s[0]], Unquoted(seg, odd));
  }

  lemma FirstIsQuote(s: string, odd: bool, d: char)
    requires d != DQUOTE
    ensures (s != "" && s[0] == DQUOTE) <==>
            (Segments(s, odd, d)[0] != "" && Segments(s, odd, d)[0][0] == DQUOTE)
  {}

  /** An opening quote, or a closing one with no quote behind it. */
  lemma TurnQuote(s: string, current: string, odd: bool, d: char)
    requires s != "" && s[0] == DQUOTE && d != DQUOTE && (odd ==> |s| == 1 || s[1] != DQUOTE)
    ensures Rest(current, Segments(s, odd, d), odd) == Rest(current, Segments(s[1..], !odd, d), !odd)
  {
    GoOn(s, odd, d);
    FirstIsQuote(s[1..], !odd, d);
    var seg := Segments(s[1..], !odd, d)[0];
    Cons(s[0], seg);
    assert "" + Unquoted(seg, !odd) == Unquoted(seg, !odd);
  }

  /** Two quotes inside quotes. */
  lemma DoubleQuote(s: string, current: string, d: char)
    requires |s| > 1 && s[0] == DQUOTE && s[1] == DQUOTE && d != DQUOTE
    ensures Rest(current, Segments(s, true, d), true) == Rest(current + [DQUOTE], Segments(s[2..], true, d), true)
  {
    var t := s[1..];
    GoOn(s, true, d);
    GoOn(t, false, d);
    assert t[1..] == s[2..];
    var seg := Segments(s[2..], true, d)[0];
    Cons2(DQUOTE, DQUOTE, seg);
    Cons(DQUOTE, seg);
    Cons(DQUOTE, [DQUOTE] + seg);
    assert Unquoted([DQUOTE] + seg, false) == Unquoted(seg, true) by {
      assert "" + Unquoted(seg, true) == Unquoted(seg, true);
    }
    assert Segments(s, true, d)[0] == [DQUOTE] + ([DQUOTE] + seg);
    Regroup(current, [DQUOTE], Unquoted(seg, true));
  }

  lemma {:induction false} FieldsAre(s: string, current: string, inQuotes: bool, d: char)
    requires d != DQUOTE
    ensures Fields(s, current, inQuotes, d) == Rest(current, Segments(s, inQuotes, d), inQuotes)
    decreases |s|
  {
    if s == "" {
      assert current + "" == current && [""][1..] == [];
    } else if s[0] == DQUOTE {
      if inQuotes && |s| > 1 && s[1] == DQUOTE {
        DoubleQuote(s, current, d);
        FieldsAre(s[2..], current + [DQUOTE], true, d);
      } else {
        TurnQuote(s, current, inQuotes, d);
        FieldsAre(s[1..], current, !inQuotes, d);
      }
    } else if s[0] == d && !inQuotes {
      CutHere(s, current, d);
      FieldsAre(s[1..], "", false, d);
    } else {
      TakeChar(s, current, inQuotes, d);
      FieldsAre(s[1..], current + [s[0]], inQuotes, d);
    }
  }

  /** Every line, also one whose quotes are not closed or stand inside a field: it is cut at the delimiters
      with an even number of quotes before them, and each piece is read without its quotes, a doubled one
      inside quotes counting as one, and trimmed. */
  lemma AnyLine(line: string, d: Delimiter, c: char)
    requires c == (match d case Comma => ',' case Semicolon => ';' case Tab => '\t')
    ensures LineCells(line, d) == Contents(Segments(line, false, c))
  {
    FieldsAre(line, "", false, c);
    FromTheStart(Segments(line, false, c));
  }

  /** The pieces are the line. */
  lemma {:induction false} SegmentsJoin(s: string, odd: bool, d: char)
    ensures Join(Segments(s, odd, d), [d]) == s
  {
    if s != "" {
      var next := if s[0] == d && !odd then false else odd != (s[0] == DQUOTE);
      var r := Segments(s[1..], next, d);
      SegmentsJoin(s[1..], next, d);
      Uncons(s);
      if s[0] == d && !odd {
        assert ([""] + r)[1..] == r;
      } else {
        assert ([[s[0]] + r[0]] + r[1..])[1..] == r[1..];
        if |r| > 1 { Nest([s[0]], r[0], [d], Join(r[1..], [d]), ""); }
      }
    }
  }

  // ---------- reading a file ----------

  /** Splitting at `\r?\n` drops one carriage return before each line feed. */
  function DropReturns(pieces: seq<string>): seq<string>
    requires pieces != []
  {
    if |pieces| == 1 then pieces
    else
      var p := pieces[0];
      [if p != "" && p[|p| - 1] == '\r' then p[..|p| - 1] else p] + DropReturns(pieces[1..])
  }

  predicate Visible(line: string) { Trim(line) != "" }

  function Lines(text: string): seq<string> {
    Filter(Visible, DropReturns(Split(text, '\n')))
  }

  function GeneratedHeaders(n: nat): (r: seq<string>)
    ensures |r| == n && forall i :: 0 <= i < n ==> r[i] == "column_" + NatText(i + 1)
  {
    seq(n, i requires 0 <= i < n => "column_" + NatText(i + 1))
  }

  function CellsOf(lines: seq<string>, d: Delimiter): (r: seq<seq<string>>)
    ensures |r| == |lines| && forall i :: 0 <= i < |lines| ==> r[i] == LineCells(lines[i], d)
  {
    seq(|lines|, i requires 0 <= i < |lines| => LineCells(lines[i], d))
  }

  function ParseCSV(text: string, firstRowIsHeader: bool, d: Delimiter): Parsed {
    ParseLines(Lines(text), firstRowIsHeader, d)
  }

  function ParseLines(lines: seq<string>, firstRowIsHeader: bool, d: Delimiter): Parsed {
    if lines == [] then Parsed([], [], 0)
    else
      var firstRow := LineCells(lines[0], d);
      var headers := if firstRowIsHeader then firstRow else GeneratedHeaders(|firstRow|);
      var rows := CellsOf(lines[if firstRowIsHeader then 1 else 0..], d);
      Parsed(headers, rows, |rows|)
  }

  // ---------- writing ----------

  /** A spreadsheet reads a cell that starts this way as a formula. */
  predicate FormulaLead(s: string) {
    s != "" && (s[0] == '=' || s[0] == '+' || s[0] == '-' || s[0] == '@' || s[0] == '\t' || s[0] == '\r')
  }

  function SkipSign(s: string): string {
    if s != "" && (s[0] == '+' || s[0] == '-') then s[1..] else s
  }

  function DigitRun(s: string): (n: nat)
    ensures n <= |s|
  {
    if s != "" && IsDigit(s[0]) then 1 + DigitRun(s[1..]) else 0
  }

  /** `([eE][+-]?\d+)?$` */
  predicate ExponentTail(s: string) {
    s == "" || ((s[0] == 'e' || s[0] == 'E') && AllDigits(SkipSign(s[1..])))
  }

  /** `\d+(\.\d*)?|\.\d+`, then the exponent. */
  predicate UnsignedNumber(s: string) {
    var whole := DigitRun(s);
    if whole < |s| && s[whole] == '.' then
      var fraction := DigitRun(s[whole + 1..]);
      (whole > 0 || fraction > 0) && ExponentTail(s[whole + 1..][fraction..])
    else whole > 0 && ExponentTail(s[whole..])
  }

  /** A sign, digits with at most one point, and an exponent: nothing to evaluate. */
  predicate PlainNumber(s: string) { UnsignedNumber(SkipSign(s)) }

  predicate IsFormula(s: string) { FormulaLead(s) && !PlainNumber(s) }

  /** The repository's own export, or every field quoted (section 2 of RFC 4180). */
  datatype Style = Exported | AllQuoted

  function Quoted(content: string): string {
    [DQUOTE] + ReplaceAll(content, DQUOTE, [DQUOTE, DQUOTE]) + [DQUOTE]
  }

  predicate NeedsQuoting(s: string, d: Delimiter) {
    DQUOTE in s || '\r' in s || '\n' in s || d.Char() in s
  }

  /** What the field carries: the export puts an apostrophe before a formula. */
  function Content(cell: string, style: Style): string {
    if style == Exported && IsFormula(cell) then "'" + cell else cell
  }

  predicate IsQuoted(cell: string, d: Delimiter, style: Style) {
    style == AllQuoted || IsFormula(cell) || NeedsQuoting(cell, d)
  }

  /** A field as written: its content, and whether it stands in quotes. */
  datatype Piece = Piece(content: string, quoted: bool) {
    function Spelled(): string { if quoted then Quoted(content) else content }

    predicate Safe(d: char) {
      quoted || (DQUOTE !in content && d !in content && '\r' !in content)
    }
  }

  function PieceOf(cell: string, d: Delimiter, style: Style): (p: Piece)
    ensures p.Safe(d.Char())
  {
    Piece(Content(cell, style), IsQuoted(cell, d, style))
  }

  function Pieces(cells: seq<string>, d: Delimiter, style: Style): (r: seq<Piece>)
    ensures |r| == |cells| && forall i :: 0 <= i < |cells| ==> r[i] == PieceOf(cells[i], d, style)
  {
    seq(|cells|, i requires 0 <= i < |cells| => PieceOf(cells[i], d, style))
  }

  function Spell(pieces: seq<Piece>, d: char): string {
    if pieces == [] then ""
    else if |pieces| == 1 then pieces[0].Spelled()
    else pieces[0].Spelled() + ([d] + Spell(pieces[1..], d))
  }

  function CsvRow(cells: seq<string>, d: Delimiter, style: Style): string {
    Spell(Pieces(cells, d, style), d.Char())
  }

  function RowLines(rows: seq<seq<string>>, d: Delimiter, style: Style): (r: seq<string>)
    ensures |r| == |rows| && forall i :: 0 <= i < |rows| ==> r[i] == CsvRow(rows[i], d, style)
  {
    seq(|rows|, i requires 0 <= i < |rows| => CsvRow(rows[i], d, style))
  }

  datatype Eol = Lf | CrLf {
    function Text(): string { if Lf? then "\n" else "\r\n" }
  }

  /** `toCsv` of a header and its rows; the repository's own writer is `Exported` with `Lf`. */
  function WriteCsv(headers: seq<string>, rows: seq<seq<string>>, d: Delimiter, style: Style, eol: Eol): string {
    Join(RowLines([headers] + rows, d, style), eol.Text())
  }

  // ---------- which tables survive ----------

  predicate CellSurvives(cell: string, style: Style) {
    '\n' !in cell && TrimStable(cell) && (style == Exported ==> !IsFormula(cell))
  }

  /** The line of a row is blank, so the reader skips it. */
  predicate BlankRow(cells: seq<string>, d: Delimiter, style: Style) {
    cells == [] ||
    (style == Exported && (forall c :: c in cells ==> c == "") && (|cells| == 1 || d == Tab))
  }

  predicate RowSurvives(cells: seq<string>, d: Delimiter, style: Style) {
    !BlankRow(cells, d, style) && forall c :: c in cells ==> CellSurvives(c, style)
  }

  // ---------- one field, then one line ----------

  lemma {:induction false} QuotedContent(content: string, current: string, rest: string, d: char)
    requires rest == "" || rest[0] != DQUOTE
    ensures Fields(ReplaceAll(content, DQUOTE, [DQUOTE, DQUOTE]) + [DQUOTE] + rest, current, true, d)
         == Fields(rest, current + content, false, d)
  {
    if content == "" {
      var s := ReplaceAll(content, DQUOTE, [DQUOTE, DQUOTE]) + [DQUOTE] + rest;
      assert s == [DQUOTE] + rest && s[1..] == rest;
      assert current + content == current;
    } else {
      var head := if content[0] == DQUOTE then [DQUOTE, DQUOTE] else [content[0]];
      var tail := ReplaceAll(content[1..], DQUOTE, [DQUOTE, DQUOTE]) + [DQUOTE] + rest;
      assert ReplaceAll(content, DQUOTE, [DQUOTE, DQUOTE]) + [DQUOTE] + rest == head + tail;
      assert (head + tail)[|head|..] == tail;
      QuotedContent(content[1..], current + [content[0]], rest, d);
      assert current + [content[0]] + content[1..] == current + content;
    }
  }

  lemma {:induction false} BareContent(cell: string, current: string, rest: string, d: char)
    requires DQUOTE !in cell && d !in cell
    ensures Fields(cell + rest, current, false, d) == Fields(rest, current + cell, false, d)
  {
    if cell == "" {
      assert cell + rest == rest && current + cell == current;
    } else {
      BareContent(cell[1..], current + [cell[0]], rest, d);
      assert (cell + rest)[1..] == cell[1..] + rest;
      assert current + [cell[0]] + cell[1..] == current + cell;
    }
  }

  lemma PieceReadsBack(p: Piece, d: char, rest: string)
    requires p.Safe(d) && d != DQUOTE && (rest == "" || rest[0] == d)
    ensures Fields(p.Spelled() + rest, "", false, d) == Fields(rest, p.content, false, d)
  {
    assert "" + p.content == p.content;
    if p.quoted {
      var body := ReplaceAll(p.content, DQUOTE, [DQUOTE, DQUOTE]);
      Regroup4([DQUOTE], body, [DQUOTE], rest);
      Cons(DQUOTE, body + [DQUOTE] + rest);
      QuotedContent(p.content, "", rest, d);
    } else {
      BareContent(p.content, "", rest, d);
    }
  }

  lemma DelimiterEndsField(content: string, d: char, rest: string)
    requires d != DQUOTE
    ensures Fields([d] + rest, content, false, d) == [Trim(content)] + Fields(rest, "", false, d)
  {
    Cons(d, rest);
  }

  /** Every field of a written line is read back as its trimmed content, whatever it contains. */
  lemma {:induction false} LineReadsBack(pieces: seq<Piece>, d: char)
    requires pieces != [] && d != DQUOTE
    requires forall i :: 0 <= i < |pieces| ==> pieces[i].Safe(d)
    ensures var read := Fields(Spell(pieces, d), "", false, d);
            |read| == |pieces| && forall i :: 0 <= i < |pieces| ==> read[i] == Trim(pieces[i].content)
  {
    if |pieces| == 1 {
      PieceReadsBack(pieces[0], d, "");
      assert pieces[0].Spelled() + "" == pieces[0].Spelled();
    } else {
      LineReadsBack(pieces[1..], d);
      PieceReadsBack(pieces[0], d, [d] + Spell(pieces[1..], d));
      DelimiterEndsField(pieces[0].content, d, Spell(pieces[1..], d));
    }
  }

  // ---------- a line of a table without newlines stays one line ----------

  lemma DoubledKeeps(s: string)
    ensures forall c :: c in ReplaceAll(s, DQUOTE, [DQUOTE, DQUOTE]) ==> c in s
  {}

  /** No line feed inside, no carriage return at the end: the split cannot touch it. */
  predicate OneLine(s: string) { '\n' !in s && (s == "" || s[|s| - 1] != '\r') }

  lemma {:induction false} SpellIsOneLine(pieces: seq<Piece>, d: char)
    requires d != '\n' && d != '\r'
    requires forall i :: 0 <= i < |pieces| ==> pieces[i].Safe(d) && '\n' !in pieces[i].content
    ensures OneLine(Spell(pieces, d))
  {
    if pieces != [] {
      DoubledKeeps(pieces[0].content);
      SpellIsOneLine(pieces[1..], d);
    }
  }

  lemma RowIsOneLine(cells: seq<string>, d: Delimiter, style: Style)
    requires forall c :: c in cells ==> '\n' !in c
    ensures OneLine(CsvRow(cells, d, style))
  {
    var pieces := Pieces(cells, d, style);
    forall i | 0 <= i < |pieces| ensures '\n' !in pieces[i].content {
      assert cells[i] in cells;
    }
    SpellIsOneLine(pieces, d.Char());
  }

  /** `line` followed by an end of line and more text. */
  lemma SplitEol(line: string, rest: string, eol: Eol)
    requires OneLine(line)
    ensures var first := if eol.Lf? then line else line + "\r";
            Split(line + eol.Text() + rest, '\n') == [first] + Split(rest, '\n')
  {
    if eol.Lf? {
      SplitAt(line, rest, '\n');
    } else {
      SplitAt(line + "\r", rest, '\n');
      assert line + "\r\n" + rest == (line + "\r") + ['\n'] + rest;
    }
  }

  lemma DropReturnsCons(line: string, pieces: seq<string>, eol: Eol)
    requires OneLine(line) && pieces != []
    ensures DropReturns([if eol.Lf? then line else line + "\r"] + pieces) == [line] + DropReturns(pieces)
  {
    var first := if eol.Lf? then line else line + "\r";
    assert ([first] + pieces)[1..] == pieces;
    assert eol.CrLf? ==> first[..|first| - 1] == line;
  }

  lemma {:induction false} SplitWritten(lines: seq<string>, eol: Eol)
    requires lines != [] && forall i :: 0 <= i < |lines| ==> OneLine(lines[i])
    ensures DropReturns(Split(Join(lines, eol.Text()), '\n')) == lines
  {
    if |lines| == 1 {
      SplitNone(lines[0], '\n');
    } else {
      SplitWritten(lines[1..], eol);
      var rest := Join(lines[1..], eol.Text());
      SplitEol(lines[0], rest, eol);
      DropReturnsCons(lines[0], Split(rest, '\n'), eol);
    }
  }

  // ---------- blank lines ----------

  lemma {:induction false} BlankIffSpaces(s: string)
    ensures Trim(s) == "" <==> forall c :: c in s ==> IsSpace(c)
  {
    TrimStartBlank(s);
    TrimEndBlank(TrimStart(s));
    TrimStartStable(s);
  }

  lemma TrimEndBlank(s: string)
    ensures TrimEnd(s) == "" <==> forall c :: c in s ==> IsSpace(c)
  {
    if s != "" && IsSpace(s[|s| - 1]) {
      TrimEndBlank(s[..|s| - 1]);
      assert forall c :: c in s <==> c == s[|s| - 1] || c in s[..|s| - 1];
    }
  }

  lemma {:induction false} PieceInRow(pieces: seq<Piece>, i: nat, d: char)
    requires i < |pieces|
    ensures forall c :: c in pieces[i].Spelled() ==> c in Spell(pieces, d)
    ensures |pieces| > 1 ==> d in Spell(pieces, d)
  {
    if i > 0 {
      PieceInRow(pieces[1..], i - 1, d);
    }
  }

  lemma {:induction false} EmptyPiecesRow(pieces: seq<Piece>, d: char)
    requires forall i :: 0 <= i < |pieces| ==> pieces[i] == Piece("", false)
    ensures forall c :: c in Spell(pieces, d) ==> c == d
    ensures |pieces| <= 1 ==> Spell(pieces, d) == ""
  {
    if pieces != [] {
      EmptyPiecesRow(pieces[1..], d);
    }
  }

  lemma NonEmptyFieldIsVisible(cells: seq<string>, i: nat, d: Delimiter, style: Style)
    requires i < |cells| && TrimStable(cells[i]) && (cells[i] != "" || style == AllQuoted)
    ensures Visible(CsvRow(cells, d, style))
  {
    var pieces := Pieces(cells, d, style);
    PieceInRow(pieces, i, d.Char());
    BlankIffSpaces(CsvRow(cells, d, style));
    var p := pieces[i];
    assert p.Spelled()[0] == if p.quoted then DQUOTE else cells[i][0];
    assert p.Spelled()[0] in CsvRow(cells, d, style);
  }

  lemma EmptyCellsRow(cells: seq<string>, d: Delimiter)
    requires cells != [] && forall i :: 0 <= i < |cells| ==> cells[i] == ""
    ensures Visible(CsvRow(cells, d, Exported)) <==> |cells| > 1 && d != Tab
  {
    var pieces := Pieces(cells, d, Exported);
    BlankIffSpaces(CsvRow(cells, d, Exported));
    EmptyPiecesRow(pieces, d.Char());
    PieceInRow(pieces, 0, d.Char());
  }

  /** The reader skips exactly the blank rows. */
  lemma VisibleIffNotBlank(cells: seq<string>, d: Delimiter, style: Style)
    requires forall c :: c in cells ==> TrimStable(c)
    ensures Visible(CsvRow(cells, d, style)) <==> !BlankRow(cells, d, style)
  {
    if cells != [] && style == AllQuoted {
      NonEmptyFieldIsVisible(cells, 0, d, style);
    } else if i: nat :| i < |cells| && cells[i] != "" {
      assert cells[i] in cells;
      NonEmptyFieldIsVisible(cells, i, d, style);
    } else {
      assert forall c :: c in cells ==> c == "";
      if cells != [] {
        EmptyCellsRow(cells, d);
      }
    }
  }

  // ---------- the file round trip ----------

  lemma FilterAll(lines: seq<string>)
    ensures |Filter(Visible, lines)| == |lines| <==> forall l :: l in lines ==> Visible(l)
    ensures |Filter(Visible, lines)| == |lines| ==> Filter(Visible, lines) == lines
  {
    if lines != [] {
      FilterAll(lines[..|lines| - 1]);
      assert lines == lines[..|lines| - 1] + [lines[|lines| - 1]];
    }
  }

  predicate AllTrimmed(cells: seq<string>) { forall c :: c in cells ==> TrimStable(c) && '\n' !in c }

  lemma TrimmedFields(s: string, current: string, inQuotes: bool, d: char)
    requires '\n' !in s && '\n' !in current
    ensures AllTrimmed(Fields(s, current, inQuotes, d))
    decreases |s|
  {
    TrimIsStable(current);
  }

  /** A generated header is trimmed and free of line feeds as well. */
  lemma NumberedIsTrimmed(i: nat)
    ensures var h := "column_" + NatText(i); TrimStable(h) && '\n' !in h
  {
    var digits := NatText(i);
    var h := "column_" + digits;
    assert h[|h| - 1] == digits[|digits| - 1] && IsDigit(digits[|digits| - 1]);
    assert forall j :: 7 <= j < |h| ==> h[j] == digits[j - 7];
  }

  lemma GeneratedAreTrimmed(n: nat)
    ensures AllTrimmed(GeneratedHeaders(n))
  {
    forall i | 0 <= i < n ensures var h := GeneratedHeaders(n)[i]; TrimStable(h) && '\n' !in h {
      NumberedIsTrimmed(i + 1);
    }
  }

  lemma LineIsTrimmed(text: string, d: Delimiter, l: string)
    requires l in Lines(text)
    ensures AllTrimmed(LineCells(l, d))
  {
    SplitPieces(text, '\n');
    DroppedPieces(Split(text, '\n'));
    TrimmedFields(l, "", false, d.Char());
  }

  /** Whatever the file and however its first row is read, every header and cell the reader hands on is
      trimmed and free of line feeds. */
  lemma ParsedCellsAreTrimmed(text: string, firstRowIsHeader: bool, d: Delimiter)
    ensures var p := ParseCSV(text, firstRowIsHeader, d);
            AllTrimmed(p.headers) && forall i :: 0 <= i < |p.rows| ==> AllTrimmed(p.rows[i])
  {
    var lines := Lines(text);
    if lines != [] {
      LineIsTrimmed(text, d, lines[0]);
      GeneratedAreTrimmed(|LineCells(lines[0], d)|);
      var data := lines[if firstRowIsHeader then 1 else 0..];
      forall i | 0 <= i < |data| ensures AllTrimmed(CellsOf(data, d)[i]) {
        LineIsTrimmed(text, d, data[i]);
      }
    }
  }

  lemma DroppedPieces(pieces: seq<string>)
    requires pieces != [] && forall p :: p in pieces ==> '\n' !in p
    ensures forall p :: p in DropReturns(pieces) ==> '\n' !in p
  {
    if |pieces| > 1 {
      assert pieces[0] in pieces && forall p :: p in pieces[1..] ==> p in pieces;
      DroppedPieces(pieces[1..]);
    }
  }

  lemma SurvivingCell(c: string, style: Style)
    requires TrimStable(c) && '\n' !in c
    ensures Trim(Content(c, style)) == c <==> CellSurvives(c, style)
  {
    if style == Exported && IsFormula(c) {
      var s := "'" + c;
      assert TrimStart(s) == s;
      TrimEndStable(s);
      assert !IsSpace('\'');
      FirstStays(s);
    } else {
      TrimFixes(c);
    }
  }

  lemma FirstStays(s: string)
    requires s != "" && !IsSpace(s[0])
    ensures TrimEnd(s) != "" && TrimEnd(s)[0] == s[0]
  {}

  /** What reading back a written file yields: the visible lines, cell by cell. */
  lemma ReadOfWritten(headers: seq<string>, rows: seq<seq<string>>, d: Delimiter, style: Style, eol: Eol)
    requires forall row, c :: row in [headers] + rows && c in row ==> '\n' !in c
    ensures Lines(WriteCsv(headers, rows, d, style, eol))
         == Filter(Visible, RowLines([headers] + rows, d, style))
  {
    var all := [headers] + rows;
    forall i | 0 <= i < |all| ensures OneLine(CsvRow(all[i], d, style)) {
      assert all[i] in all;
      RowIsOneLine(all[i], d, style);
    }
    SplitWritten(RowLines(all, d, style), eol);
  }

  lemma RowReadsItself(cells: seq<string>, d: Delimiter, style: Style)
    requires cells != [] && forall c :: c in cells ==> TrimStable(c) && '\n' !in c
    ensures LineCells(CsvRow(cells, d, style), d) == cells
       <==> forall c :: c in cells ==> CellSurvives(c, style)
  {
    var read := LineCells(CsvRow(cells, d, style), d);
    LineReadsBack(Pieces(cells, d, style), d.Char());
    forall i | 0 <= i < |cells| ensures read[i] == cells[i] <==> CellSurvives(cells[i], style) {
      assert cells[i] in cells;
      SurvivingCell(cells[i], style);
    }
    if forall c :: c in cells ==> CellSurvives(c, style) {
      assert read == cells;
    }
  }

  /** A file of surviving rows is read line by line as written. */
  lemma SurvivingRowsRead(headers: seq<string>, rows: seq<seq<string>>, d: Delimiter, style: Style, eol: Eol)
    requires forall row :: row in [headers] + rows ==> RowSurvives(row, d, style)
    ensures var lines := Lines(WriteCsv(headers, rows, d, style, eol));
            |lines| == 1 + |rows| && CellsOf(lines, d) == [headers] + rows
  {
    var all := [headers] + rows;
    var written := RowLines(all, d, style);
    ReadOfWritten(headers, rows, d, style, eol);
    forall i | 0 <= i < |all| ensures Visible(written[i]) && LineCells(written[i], d) == all[i] {
      assert all[i] in all;
      VisibleIffNotBlank(all[i], d, style);
      RowReadsItself(all[i], d, style);
    }
    FilterAll(written);
    assert CellsOf(written, d) == all;
  }

  /** The lines of a file, cell by cell, are its header row and its rows. */
  lemma ParsedIsAllLines(lines: seq<string>, d: Delimiter)
    requires lines != []
    ensures var p := ParseLines(lines, true, d);
            [p.headers] + p.rows == CellsOf(lines, d) && p.totalRows == |p.rows|
  {}

  /** The rows of a table that came back unchanged are trimmed. */
  lemma UnchangedIsTrimmed(headers: seq<string>, rows: seq<seq<string>>, text: string, d: Delimiter)
    requires ParseCSV(text, true, d) == Parsed(headers, rows, |rows|)
    ensures forall i :: 0 <= i < 1 + |rows| ==> AllTrimmed(([headers] + rows)[i])
  {
    ParsedCellsAreTrimmed(text, true, d);
    forall i | 0 <= i < 1 + |rows| ensures AllTrimmed(([headers] + rows)[i]) {
      if i > 0 { assert ([headers] + rows)[i] == rows[i - 1]; }
    }
  }

  lemma OneLineCells(all: seq<seq<string>>)
    requires forall i :: 0 <= i < |all| ==> AllTrimmed(all[i])
    ensures forall row, c :: row in all && c in row ==> '\n' !in c
  {}

  /** Each of its written lines is read, as the row that was written. */
  lemma UnchangedLines(headers: seq<string>, rows: seq<seq<string>>, d: Delimiter, style: Style, eol: Eol,
                       written: seq<string>)
    requires headers != [] && written == RowLines([headers] + rows, d, style)
    requires ParseCSV(WriteCsv(headers, rows, d, style, eol), true, d) == Parsed(headers, rows, |rows|)
    ensures CellsOf(written, d) == [headers] + rows && forall l :: l in written ==> Visible(l)
  {
    var text := WriteCsv(headers, rows, d, style, eol);
    UnchangedIsTrimmed(headers, rows, text, d);
    OneLineCells([headers] + rows);
    ReadOfWritten(headers, rows, d, style, eol);
    ParsedIsAllLines(Lines(text), d);
    FilterAll(written);
    assert |Lines(text)| == |CellsOf(Lines(text), d)| == |written|;
  }

  lemma RowComesBack(row: seq<string>, d: Delimiter, style: Style)
    requires AllTrimmed(row) && Visible(CsvRow(row, d, style)) && LineCells(CsvRow(row, d, style), d) == row
    ensures RowSurvives(row, d, style)
  {
    VisibleIffNotBlank(row, d, style);
    RowReadsItself(row, d, style);
  }

  /** A row of a table that came back unchanged survives. */
  lemma UnchangedRowSurvives(headers: seq<string>, rows: seq<seq<string>>, d: Delimiter, style: Style, eol: Eol, i: nat)
    requires i < 1 + |rows| && headers != []
    requires ParseCSV(WriteCsv(headers, rows, d, style, eol), true, d) == Parsed(headers, rows, |rows|)
    ensures RowSurvives(([headers] + rows)[i], d, style)
  {
    var written := RowLines([headers] + rows, d, style);
    UnchangedIsTrimmed(headers, rows, WriteCsv(headers, rows, d, style, eol), d);
    UnchangedLines(headers, rows, d, style, eol, written);
    assert written[i] in written && CellsOf(written, d)[i] == LineCells(written[i], d);
    RowComesBack(([headers] + rows)[i], d, style);
  }

  lemma UnchangedTableSurvives(headers: seq<string>, rows: seq<seq<string>>, d: Delimiter, style: Style, eol: Eol)
    requires headers != []
    requires ParseCSV(WriteCsv(headers, rows, d, style, eol), true, d) == Parsed(headers, rows, |rows|)
    ensures forall row :: row in [headers] + rows ==> RowSurvives(row, d, style)
  {
    forall i | 0 <= i < 1 + |rows| ensures RowSurvives(([headers] + rows)[i], d, style) {
      UnchangedRowSurvives(headers, rows, d, style, eol, i);
    }
  }

  lemma SurvivingTableUnchanged(headers: seq<string>, rows: seq<seq<string>>, d: Delimiter, style: Style, eol: Eol)
    requires forall row :: row in [headers] + rows ==> RowSurvives(row, d, style)
    ensures ParseCSV(WriteCsv(headers, rows, d, style, eol), true, d) == Parsed(headers, rows, |rows|)
  {
    var lines := Lines(WriteCsv(headers, rows, d, style, eol));
    SurvivingRowsRead(headers, rows, d, style, eol);
    ParsedIsAllLines(lines, d);
    var p := ParseLines(lines, true, d);
    assert ([p.headers] + p.rows)[1..] == p.rows && ([headers] + rows)[1..] == rows;
  }

  /** Without headers the reader found no line, so there are no rows either; and an empty
      table is written as an empty file. */
  lemma EmptyTable(rows: seq<seq<string>>, d: Delimiter, style: Style, eol: Eol)
    ensures ParseCSV(WriteCsv([], rows, d, style, eol), true, d) == Parsed([], rows, |rows|) <==> rows == []
  {
    if rows == [] {
      assert RowLines([[]] + rows, d, style) == [""];
    }
  }

  /** A written table comes back unchanged exactly when it is empty or every row survives:
      cells trimmed and free of line feeds, none that the export defuses as a formula, and no
      row whose line is blank. Holds for both writers, all delimiters and both line endings. */
  lemma RoundTripIff(headers: seq<string>, rows: seq<seq<string>>, d: Delimiter, style: Style, eol: Eol)
    ensures ParseCSV(WriteCsv(headers, rows, d, style, eol), true, d) == Parsed(headers, rows, |rows|)
       <==> (headers == [] && rows == []) || forall row :: row in [headers] + rows ==> RowSurvives(row, d, style)
  {
    if headers == [] {
      EmptyTable(rows, d, style, eol);
      assert ([headers] + rows)[0] == [] && !RowSurvives([], d, style);
    } else if forall row :: row in [headers] + rows ==> RowSurvives(row, d, style) {
      SurvivingTableUnchanged(headers, rows, d, style, eol);
    } else if ParseCSV(WriteCsv(headers, rows, d, style, eol), true, d) == Parsed(headers, rows, |rows|) {
      UnchangedTableSurvives(headers, rows, d, style, eol);
    }
  }

  /** Read without a header row, a surviving table gives numbered headers and keeps its first row. */
  lemma RoundTripWithoutHeader(first: seq<string>, rows: seq<seq<string>>, d: Delimiter, style: Style, eol: Eol)
    requires forall row :: row in [first] + rows ==> RowSurvives(row, d, style)
    ensures ParseCSV(WriteCsv(first, rows, d, style, eol), false, d)
         == Parsed(GeneratedHeaders(|first|), [first] + rows, 1 + |rows|)
  {
    SurvivingRowsRead(first, rows, d, style, eol);
    var lines := Lines(WriteCsv(first, rows, d, style, eol));
    assert lines[0..] == lines && LineCells(lines[0], d) == ([first] + rows)[0];
  }

  /** The defused formula is the visible loss of the repository's own round trip. */
  lemma FormulaDoesNotSurvive(headers: seq<string>, d: Delimiter)
    ensures ParseCSV(WriteCsv(headers, [["=A1"]], d, Exported, Lf), true, d) != Parsed(headers, [["=A1"]], 1)
  {
    var cell := "=A1";
    assert FormulaLead(cell) && SkipSign(cell) == cell && DigitRun(cell) == 0;
    assert !RowSurvives([cell], d, Exported) by { assert cell in [cell]; }
    if ParseCSV(WriteCsv(headers, [[cell]], d, Exported, Lf), true, d) == Parsed(headers, [[cell]], 1) &&
        headers != [] {
      UnchangedRowSurvives(headers, [[cell]], d, Exported, Lf, 1);
    }
  }
}
