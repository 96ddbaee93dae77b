/** The README guard: finding the markdown tables, and comparing the translations with the original. */
module Readme {
  import opened Text

  // ---------- tables ----------

  datatype Table = Table(header: seq<string>, rows: seq<seq<string>>)

  /** `cells`: the trimmed cells of a row, without the outer pipes. */
  function Cells(line: string): (r: seq<string>)
    ensures |r| >= 1
  {
    var t := Trim(line);
    var u := if t != "" && t[0] == '|' then t[1..] else t;
    var v := if u != "" && u[|u| - 1] == '|' then u[..|u| - 1] else u;
    Map(Trim, Split(v, '|'))
  }

  predicate IsPipeLine(line: string) { StartsWith(Trim(line), "|") }

  /** `/^[\s|:-]+$/` with a dash in it. */
  predicate IsDelimiter(line: string) {
    && line != "" && '-' in line
    && forall i :: 0 <= i < |line| ==> IsSpace(line[i]) || line[i] == '|' || line[i] == ':' || line[i] == '-'
  }

  function Flushed(block: seq<string>): seq<Table> {
    if |block| >= 3 && IsDelimiter(block[1]) then [Table(Cells(block[0]), Map(Cells, block[2..]))] else []
  }

  datatype Parse = Parse(block: seq<string>, tables: seq<Table>)

  function Read(s: Parse, line: string): Parse {
    if IsPipeLine(line) then s.(block := s.block + [line]) else Parse([], s.tables + Flushed(s.block))
  }

  function ReadAll(s: Parse, lines: seq<string>): Parse {
    if lines == [] then s else Read(ReadAll(s, lines[..|lines| - 1]), lines[|lines| - 1])
  }

  function Tables(markdown: string): seq<Table> {
    var s := ReadAll(Parse([], []), Split(markdown, '\n'));
    s.tables + Flushed(s.block)
  }

  /** `parseTables` */
  method ParseTables(markdown: string) returns (tables: seq<Table>)
    ensures tables == Tables(markdown)
  {
    tables := [];
    var lines := Split(markdown, '\n');
    var block: seq<string> := [];
    var i := 0;
    while i < |lines|
      invariant 0 <= i <= |lines|
      invariant Parse(block, tables) == ReadAll(Parse([], []), lines[..i])
    {
      assert lines[..i + 1][..i] == lines[..i];
      if IsPipeLine(lines[i]) {
        block := block + [lines[i]];
      } else {
        tables := tables + Flushed(block);
        block := [];
      }
      i := i + 1;
    }
    assert lines[..i] == lines;
    tables := tables + Flushed(block);
  }

  // ---------- rendered tables are recovered ----------

  /** Text that can stand in a cell. */
  predicate CellText(c: string) { TrimStable(c) && '|' !in c && '\n' !in c }

  predicate RowText(cs: seq<string>) { cs != [] && forall i :: 0 <= i < |cs| ==> CellText(cs[i]) }

  function Padded(c: string): string { " " + c + " " }

  function Row(cs: seq<string>): string { "|" + Join(Map(Padded, cs), "|") + "|" }

  lemma {:induction false} JoinClean(ps: seq<string>, sep: string, c: char)
    requires c !in sep && forall i :: 0 <= i < |ps| ==> c !in ps[i]
    ensures c !in Join(ps, sep)
  {
    if |ps| > 1 { JoinClean(ps[1..], sep, c); }
  }

  lemma TrimEndPadded(c: string)
    requires TrimStable(c)
    ensures Trim(Padded(c)) == c
  {
    var p, q := Padded(c), c + " ";
    assert p[0] == ' ' && p[1..] == q && IsSpace(' ');
    assert TrimStart(p) == TrimStart(q);
    if c == "" {
      assert q[0] == ' ' && q[1..] == "";
      assert TrimStart(q) == TrimStart("") == "";
    } else {
      assert q[0] == c[0] && q[|q| - 1] == ' ' && q[..|q| - 1] == c;
      assert TrimStart(q) == q && TrimEnd(q) == TrimEnd(c) == c;
    }
  }

  /** A rendered row gives its cells back. */
  lemma RowReads(cs: seq<string>)
    requires RowText(cs)
    ensures Cells(Row(cs)) == cs && IsPipeLine(Row(cs)) && '\n' !in Row(cs)
  {
    var ps := Map(Padded, cs);
    var inner := Join(ps, "|");
    var row := Row(cs);
    assert row[0] == '|' && row[|row| - 1] == '|';
    TrimFixes(row);
    assert row[1..] == inner + "|" && row[1..][..|inner|] == inner;
    SplitJoin(ps, '|');
    forall i | 0 <= i < |cs| ensures Trim(ps[i]) == cs[i] { TrimEndPadded(cs[i]); }
    assert Map(Trim, ps) == cs;
    JoinClean(ps, "|", '\n');
  }

  /** What may stand between tables: any line that does not start with a pipe. */
  datatype Segment = Prose(line: string) | Rendered(header: seq<string>, delimiter: string, rows: seq<seq<string>>)

  predicate SegmentOk(s: Segment) {
    match s
    case Prose(line) => !IsPipeLine(line) && '\n' !in line
    case Rendered(header, delimiter, rows) =>
      && RowText(header) && IsDelimiter(delimiter) && IsPipeLine(delimiter) && '\n' !in delimiter
      && rows != [] && forall i :: 0 <= i < |rows| ==> RowText(rows[i])
  }

  function SegmentLines(s: Segment): seq<string> {
    match s
    case Prose(line) => [line]
    case Rendered(header, delimiter, rows) => [Row(header), delimiter] + Map(Row, rows)
  }

  function SegmentTables(s: Segment): seq<Table> {
    if s.Prose? then [] else [Table(s.header, s.rows)]
  }

  function DocLines(doc: seq<Segment>): seq<string> {
    if doc == [] then [] else DocLines(doc[..|doc| - 1]) + SegmentLines(doc[|doc| - 1])
  }

  function DocTables(doc: seq<Segment>): seq<Table> {
    if doc == [] then [] else DocTables(doc[..|doc| - 1]) + SegmentTables(doc[|doc| - 1])
  }

  /** Tables do not touch. */
  predicate DocOk(doc: seq<Segment>) {
    && (forall i :: 0 <= i < |doc| ==> SegmentOk(doc[i]))
    && forall i :: 0 < i < |doc| ==> doc[i].Prose? || doc[i - 1].Prose?
  }

  lemma {:induction false} ReadPipes(s: Parse, ls: seq<string>)
    requires forall i :: 0 <= i < |ls| ==> IsPipeLine(ls[i])
    ensures ReadAll(s, ls) == s.(block := s.block + ls)
  {
    if ls == [] {
      assert s.block + [] == s.block;
    } else {
      ReadPipes(s, ls[..|ls| - 1]);
      Regroup(s.block, ls[..|ls| - 1], [ls[|ls| - 1]]);
      assert ls[..|ls| - 1] + [ls[|ls| - 1]] == ls;
    }
  }

  lemma {:induction false} ReadAppend(s: Parse, a: seq<string>, b: seq<string>)
    ensures ReadAll(s, a + b) == ReadAll(ReadAll(s, a), b)
    decreases |b|
  {
    if b == [] {
      assert a + b == a;
    } else {
      ReadAppend(s, a, b[..|b| - 1]);
      assert (a + b)[..|a + b| - 1] == a + b[..|b| - 1] && (a + b)[|a + b| - 1] == b[|b| - 1];
    }
  }

  /** The lines of a rendered table form one block, which is flushed as that table. */
  lemma RenderedFlushes(seg: Segment)
    requires SegmentOk(seg) && seg.Rendered?
    ensures forall i :: 0 <= i < |SegmentLines(seg)| ==> IsPipeLine(SegmentLines(seg)[i])
    ensures Flushed(SegmentLines(seg)) == [Table(seg.header, seg.rows)]
  {
    var ls := SegmentLines(seg);
    RowReads(seg.header);
    forall i | 0 <= i < |seg.rows| ensures Cells(Row(seg.rows[i])) == seg.rows[i] && IsPipeLine(Row(seg.rows[i])) {
      RowReads(seg.rows[i]);
    }
    assert ls[2..] == Map(Row, seg.rows);
    assert Map(Cells, Map(Row, seg.rows)) == seg.rows;
    assert ls[0] == Row(seg.header) && ls[1] == seg.delimiter;
  }

  /** Reading a document of segments: the tables so far are flushed or in the block. */
  lemma {:induction false} DocReads(doc: seq<Segment>)
    requires DocOk(doc)
    ensures var s := ReadAll(Parse([], []), DocLines(doc));
            s.tables + Flushed(s.block) == DocTables(doc) && (doc == [] || doc[|doc| - 1].Prose? ==> s.block == [])
    decreases |doc|
  {
    if doc != [] {
      var front, seg := doc[..|doc| - 1], doc[|doc| - 1];
      DocReads(front);
      var s := ReadAll(Parse([], []), DocLines(front));
      ReadAppend(Parse([], []), DocLines(front), SegmentLines(seg));
      SegmentReads(s, seg);
      Regroup(s.tables, Flushed(s.block), SegmentTables(seg));
    }
  }

  lemma ProseReads(s: Parse, line: string)
    requires !IsPipeLine(line)
    ensures ReadAll(s, [line]) == Parse([], s.tables + Flushed(s.block))
  {
    assert [line][..0] == [];
  }

  lemma SegmentReads(s: Parse, seg: Segment)
    requires SegmentOk(seg) && (seg.Rendered? ==> s.block == [])
    ensures var t := ReadAll(s, SegmentLines(seg));
            t.tables + Flushed(t.block) == s.tables + Flushed(s.block) + SegmentTables(seg) &&
                (seg.Prose? ==> t.block == [])
  {
    if seg.Prose? {
      ProseReads(s, seg.line);
      assert Flushed([]) == [];
    } else {
      BlockReads(s.tables, seg);
    }
  }

  lemma BlockReads(tables: seq<Table>, seg: Segment)
    requires SegmentOk(seg) && seg.Rendered?
    ensures ReadAll(Parse([], tables), SegmentLines(seg)) == Parse(SegmentLines(seg), tables)
    ensures Flushed(SegmentLines(seg)) == SegmentTables(seg) && Flushed([]) == []
  {
    RenderedFlushes(seg);
    ReadPipes(Parse([], tables), SegmentLines(seg));
    assert [] + SegmentLines(seg) == SegmentLines(seg);
  }

  lemma {:induction false} DocClean(doc: seq<Segment>)
    requires forall i :: 0 <= i < |doc| ==> SegmentOk(doc[i])
    ensures forall i :: 0 <= i < |DocLines(doc)| ==> '\n' !in DocLines(doc)[i]
    decreases |doc|
  {
    if doc != [] {
      DocClean(doc[..|doc| - 1]);
      SegmentClean(doc[|doc| - 1]);
    }
  }

  lemma SegmentClean(seg: Segment)
    requires SegmentOk(seg)
    ensures forall i :: 0 <= i < |SegmentLines(seg)| ==> '\n' !in SegmentLines(seg)[i]
  {
    if seg.Rendered? {
      RowReads(seg.header);
      forall i | 0 <= i < |seg.rows| ensures '\n' !in Row(seg.rows[i]) { RowReads(seg.rows[i]); }
    }
  }

  /** `parseTables` recovers any rendered tables, in order, whatever text stands between them. */
  lemma TablesRecovered(doc: seq<Segment>)
    requires DocOk(doc) && doc != []
    ensures Tables(Join(DocLines(doc), "\n")) == DocTables(doc)
  {
    DocReads(doc);
    DocClean(doc);
    assert SegmentLines(doc[|doc| - 1]) != [];
    SplitJoin(DocLines(doc), '\n');
  }

  // ---------- the checks ----------

  /** The table with a row whose first cell is the bold PostgreSQL. */
  predicate IsEngineTable(t: Table) {
    exists i :: 0 <= i < |t.rows| && t.rows[i] != [] && t.rows[i][0] == "**PostgreSQL**"
  }

  predicate IsInstallTable(t: Table) {
    exists i, j :: 0 <= i < |t.rows| && 0 <= j < |t.rows[i]| && Includes(t.rows[i][j], "docker run")
  }

  function FindEngineTable(ts: seq<Table>): (r: Option<Table>)
    ensures r == None <==> forall i :: 0 <= i < |ts| ==> !IsEngineTable(ts[i])
    ensures r.Some? ==> IsEngineTable(r.value)
  {
    if ts == [] then None else if IsEngineTable(ts[0]) then Some(ts[0]) else FindEngineTable(ts[1..])
  }

  function FindInstallTable(ts: seq<Table>): (r: Option<Table>)
    ensures r == None <==> forall i :: 0 <= i < |ts| ==> !IsInstallTable(ts[i])
    ensures r.Some? ==> IsInstallTable(r.value)
  {
    if ts == [] then None else if IsInstallTable(ts[0]) then Some(ts[0]) else FindInstallTable(ts[1..])
  }

  predicate LineEnd(c: char) { c == '\n' || c == '\r' || c as int == 0x2028 || c as int == 0x2029 }

  /** `/^\*\*(.+?)\*\*$/`: the match can only end at the cell's end. */
  function BoldName(cell: string): Option<string> {
    if |cell| >= 5 && StartsWith(cell, "**") && EndsWith(cell, "**") && forall i :: 2 <= i < |cell| - 2 ==>
        !LineEnd(cell[i]) then
      Some(cell[2..|cell| - 2])
    else None
  }

  function NamesOf(rows: seq<seq<string>>): seq<string> {
    if rows == [] then []
    else
      var name := if rows[0] == [] then None else BoldName(rows[0][0]);
      (if name.Some? then [name.value] else []) + NamesOf(rows[1..])
  }

  function EngineNames(t: Table): seq<string> { NamesOf(t.rows) }

  function IndexOf(s: string, c: char): (n: nat)
    ensures n <= |s| && (n < |s| ==> s[n] == c)
  {
    if s == "" || s[0] == c then 0 else 1 + IndexOf(s[1..], c)
  }

  /** The matches of a code span pattern: a backtick, at least one other character, a backtick. */
  function Spans(s: string): seq<string>
    decreases |s|
  {
    if s == "" then []
    else
      var n := IndexOf(s[1..], '`');
      if s[0] == '`' && 0 < n < |s| - 1 then [s[1..n + 1]] + Spans(s[n + 2..]) else Spans(s[1..])
  }

  function SpansOf(row: seq<string>): seq<string> { if |row| > 1 then Spans(row[1]) else [] }

  function CommandSpansOf(rows: seq<seq<string>>): seq<string> {
    if rows == [] then [] else CommandSpansOf(rows[..|rows| - 1]) + SpansOf(rows[|rows| - 1])
  }

  /** `commandSpans`: the code spans of the second column, in document order. */
  method CommandSpans(t: Table) returns (spans: seq<string>)
    ensures spans == CommandSpansOf(t.rows)
  {
    spans := [];
    var i := 0;
    while i < |t.rows|
      invariant 0 <= i <= |t.rows|
      invariant spans == CommandSpansOf(t.rows[..i])
    {
      assert t.rows[..i + 1][..i] == t.rows[..i];
      if |t.rows[i]| > 1 { spans := spans + Spans(t.rows[i][1]); }
      i := i + 1;
    }
    assert t.rows[..i] == t.rows;
  }

  const WARNING_VARIABLE := "AUTH_COOKIE_SECURE"
  const BANNER_TARGET := "(README.md)"

  predicate Quotes(line: string, word: string) { StartsWith(TrimStart(line), ">") && Includes(line, word) }

  predicate HasPlainHttpWarning(text: string) {
    var lines := Split(text, '\n'); exists i :: 0 <= i < |lines| && Quotes(lines[i], WARNING_VARIABLE)
  }

  /** The banner stands before the first heading of the second level. */
  predicate HasTranslationBanner(text: string) {
    var lines := Split(text, '\n');
    exists i :: 0 <= i < |lines| && Quotes(lines[i], BANNER_TARGET) && forall j :: 0 <= j <= i ==>
        !StartsWith(lines[j], "## ")
  }

  datatype Violation =
    | NoEngineTable(file: string)
    | NoInstallTable(file: string)
    | NoWarning(file: string)
    | NoBanner(file: string)
    | EnginesDiffer(file: string, missing: seq<string>, extra: seq<string>)
    | UnknownCommand(file: string, command: string)

  const CANONICAL := "README.md"

  datatype File = File(name: string, text: string)

  function Without(xs: seq<string>, ys: seq<string>): seq<string> {
    if xs == [] then [] else (if xs[0] in ys then [] else [xs[0]]) + Without(xs[1..], ys)
  }

  function UnknownCommands(name: string, commands: seq<string>, known: seq<string>): seq<Violation> {
    if commands == [] then []
    else
      UnknownCommands(name, commands[..|commands| - 1], known)
      + (if commands[|commands| - 1] in known then [] else [UnknownCommand(name, commands[|commands| - 1])])
  }

  /** What the checks read off a file: its engines and commands if it has those tables, and the two quotes. */
  datatype Facts = Facts(engines: Option<seq<string>>, commands: Option<seq<string>>, warning: bool, banner: bool)

  function FactsOf(text: string): Facts {
    var engineTable, installTable := FindEngineTable(Tables(text)), FindInstallTable(Tables(text));
    Facts(if engineTable.Some? then Some(EngineNames(engineTable.value)) else None,
          if installTable.Some? then Some(CommandSpansOf(installTable.value.rows)) else None,
          HasPlainHttpWarning(text), HasTranslationBanner(text))
  }

  /** What is said about one translation. */
  function Findings(name: string, f: Facts, engines: seq<string>, commands: seq<string>): seq<Violation> {
    if f.engines == None then [NoEngineTable(name)]
    else if f.commands == None then [NoInstallTable(name)]
    else
      var missing, extra := Without(engines, f.engines.value), Without(f.engines.value, engines);
      (if f.warning then [] else [NoWarning(name)])
      + (if f.banner then [] else [NoBanner(name)])
      + (if missing != [] || extra != [] then [EnginesDiffer(name, missing, extra)] else [])
      + UnknownCommands(name, f.commands.value, commands)
  }

  /** A translation as it was read. */
  datatype Translation = Translation(name: string, facts: Facts)

  function ReadFile(f: File): Translation { Translation(f.name, FactsOf(f.text)) }

  function AllFindings(ts: seq<Translation>, engines: seq<string>, commands: seq<string>): seq<Violation> {
    if ts == [] then []
    else
      var last := ts[|ts| - 1];
      AllFindings(ts[..|ts| - 1], engines, commands) + Findings(last.name, last.facts, engines, commands)
  }

  /** What is said about the original. */
  function CanonicalFindings(f: Facts): seq<Violation> {
    if f.engines == None then [NoEngineTable(CANONICAL)]
    else if f.commands == None then [NoInstallTable(CANONICAL)]
    else if f.warning then []
    else [NoWarning(CANONICAL)]
  }

  /** Without its tables the original is all that is looked at. */
  function Violations(canonical: Facts, localized: seq<Translation>): seq<Violation> {
    CanonicalFindings(canonical)
    + (if HasTables(canonical) then AllFindings(localized, canonical.engines.value, canonical.commands.value) else [])
  }

  predicate HasTables(f: Facts) { f.engines.Some? && f.commands.Some? }

  method Gather(text: string) returns (f: Facts)
    ensures f == FactsOf(text)
  {
    var tables := ParseTables(text);
    var engineTable, installTable := FindEngineTable(tables), FindInstallTable(tables);
    var engines: Option<seq<string>>, commands: Option<seq<string>> := None, None;
    if engineTable.Some? { engines := Some(EngineNames(engineTable.value)); }
    if installTable.Some? {
      var spans := CommandSpans(installTable.value);
      commands := Some(spans);
    }
    f := Facts(engines, commands, HasPlainHttpWarning(text), HasTranslationBanner(text));
  }

  method CheckCommands(name: string, spans: seq<string>, commands: seq<string>) returns (violations: seq<Violation>)
    ensures violations == UnknownCommands(name, spans, commands)
  {
    violations := [];
    var i := 0;
    while i < |spans|
      invariant 0 <= i <= |spans|
      invariant violations == UnknownCommands(name, spans[..i], commands)
    {
      assert spans[..i + 1][..i] == spans[..i];
      if spans[i] !in commands { violations := violations + [UnknownCommand(name, spans[i])]; }
      i := i + 1;
    }
    assert spans[..i] == spans;
  }

  /** The violations of one translation, pushed one after the other. */
  method CheckLocalized(name: string, f: Facts, engines: seq<string>,
                        commands: seq<string>) returns (violations: seq<Violation>)
    ensures violations == Findings(name, f, engines, commands)
  {
    violations := [];
    if f.engines == None { return [NoEngineTable(name)]; }
    if f.commands == None { return [NoInstallTable(name)]; }
    if !f.warning { violations := violations + [NoWarning(name)]; }
    assert violations == if f.warning then [] else [NoWarning(name)];
    ghost var first := violations;
    if !f.banner { violations := violations + [NoBanner(name)]; }
    assert violations == first + (if f.banner then [] else [NoBanner(name)]);
    ghost var second := violations;
    var missing, extra := Without(engines, f.engines.value), Without(f.engines.value, engines);
    if missing != [] || extra != [] { violations := violations + [EnginesDiffer(name, missing, extra)]; }
    assert violations == second + (if missing != [] || extra != [] then [EnginesDiffer(name, missing, extra)] else []);
    var unknown := CheckCommands(name, f.commands.value, commands);
    violations := violations + unknown;
  }

  /** `checkReadmes` */
  method CheckReadmes(canonical: string, localized: seq<File>) returns (violations: seq<Violation>)
    ensures violations == Violations(FactsOf(canonical), Map(ReadFile, localized))
  {
    var facts := Gather(canonical);
    violations := CheckCanonical(facts);
    if HasTables(facts) {
      var more := CheckAll(localized, facts.engines.value, facts.commands.value);
      violations := violations + more;
    }
  }

  /** The part before the loop over the translations. */
  method CheckCanonical(facts: Facts) returns (violations: seq<Violation>)
    ensures violations == CanonicalFindings(facts)
  {
    violations := [];
    if facts.engines == None {
      violations := [NoEngineTable(CANONICAL)];
    } else if facts.commands == None {
      violations := [NoInstallTable(CANONICAL)];
    } else if !facts.warning {
      violations := violations + [NoWarning(CANONICAL)];
    }
  }

  method CheckAll(localized: seq<File>, engines: seq<string>,
                  commands: seq<string>) returns (violations: seq<Violation>)
    ensures violations == AllFindings(Map(ReadFile, localized), engines, commands)
  {
    violations := [];
    var i := 0;
    while i < |localized|
      invariant 0 <= i <= |localized|
      invariant violations == AllFindings(Map(ReadFile, localized[..i]), engines, commands)
    {
      var facts := Gather(localized[i].text);
      MapPrefix(ReadFile, localized, i);
      FindingsSnoc(Map(ReadFile, localized[..i]), ReadFile(localized[i]), engines, commands);
      var more := CheckLocalized(localized[i].name, facts, engines, commands);
      violations := violations + more;
      i := i + 1;
    }
    assert localized[..i] == localized;
  }

  lemma MapPrefix<A, B>(f: A -> B, xs: seq<A>, i: nat)
    requires i < |xs|
    ensures Map(f, xs[..i + 1]) == Map(f, xs[..i]) + [f(xs[i])]
  {}

  lemma FindingsSnoc(ts: seq<Translation>, t: Translation, engines: seq<string>, commands: seq<string>)
    ensures AllFindings(ts + [t], engines, commands) ==
            AllFindings(ts, engines, commands) + Findings(t.name, t.facts, engines, commands)
  {
    assert (ts + [t])[..|ts|] == ts;
  }

  // ---------- what no violation means ----------

  predicate AllIn(xs: seq<string>, ys: seq<string>) { forall i :: 0 <= i < |xs| ==> xs[i] in ys }

  predicate SameSet(xs: seq<string>, ys: seq<string>) { AllIn(xs, ys) && AllIn(ys, xs) }

  /** A translation in step with the original. */
  predicate InStep(canonical: Facts, f: Facts) {
    && HasTables(canonical) && HasTables(f) && f.warning && f.banner
    && SameSet(f.engines.value, canonical.engines.value) && AllIn(f.commands.value, canonical.commands.value)
  }

  lemma {:induction false} WithoutIff(xs: seq<string>, ys: seq<string>)
    ensures Without(xs, ys) == [] <==> AllIn(xs, ys)
  {
    if xs != [] {
      WithoutIff(xs[1..], ys);
      assert AllIn(xs, ys) ==> AllIn(xs[1..], ys) && xs[0] in ys;
      if xs[0] in ys && AllIn(xs[1..], ys) {
        forall i | 0 <= i < |xs| ensures xs[i] in ys { if i > 0 { assert xs[1..][i - 1] == xs[i]; } }
      }
    }
  }

  lemma {:induction false} UnknownIff(name: string, commands: seq<string>, known: seq<string>)
    ensures UnknownCommands(name, commands, known) == [] <==> AllIn(commands, known)
    decreases |commands|
  {
    if commands != [] {
      var front := commands[..|commands| - 1];
      UnknownIff(name, front, known);
      assert AllIn(commands, known) <==> AllIn(front, known) && commands[|commands| - 1] in known;
    }
  }

  lemma NoFindingsIff(name: string, canonical: Facts, f: Facts)
    requires HasTables(canonical)
    ensures Findings(name, f, canonical.engines.value, canonical.commands.value) == [] <==> InStep(canonical, f)
  {
    if HasTables(f) {
      WithoutIff(canonical.engines.value, f.engines.value);
      WithoutIff(f.engines.value, canonical.engines.value);
      UnknownIff(name, f.commands.value, canonical.commands.value);
    }
  }

  lemma {:induction false} AllFindingsIff(ts: seq<Translation>, canonical: Facts)
    requires HasTables(canonical)
    ensures AllFindings(ts, canonical.engines.value, canonical.commands.value) == [] <==> AllInStep(ts, canonical)
    decreases |ts|
  {
    if ts != [] {
      AllFindingsIff(ts[..|ts| - 1], canonical);
      NoFindingsIff(ts[|ts| - 1].name, canonical, ts[|ts| - 1].facts);
      LastFindings(ts, canonical.engines.value, canonical.commands.value);
    }
  }

  lemma LastFindings(ts: seq<Translation>, engines: seq<string>, commands: seq<string>)
    requires ts != []
    ensures AllFindings(ts, engines, commands) == [] <==>
              AllFindings(ts[..|ts| - 1], engines, commands) == [] &&
              Findings(ts[|ts| - 1].name, ts[|ts| - 1].facts, engines, commands) == []
  {}

  predicate AllInStep(ts: seq<Translation>, canonical: Facts) {
    ts == [] || (AllInStep(ts[..|ts| - 1], canonical) && InStep(canonical, ts[|ts| - 1].facts))
  }

  lemma {:induction false} AllInStepIs(ts: seq<Translation>, canonical: Facts)
    ensures AllInStep(ts, canonical) <==> forall i :: 0 <= i < |ts| ==> InStep(canonical, ts[i].facts)
    decreases |ts|
  {
    if ts != [] {
      var front := ts[..|ts| - 1];
      AllInStepIs(front, canonical);
      assert forall i :: 0 <= i < |front| ==> front[i] == ts[i];
    }
  }

  /** `checkReadmes` is silent if and only if the original has both tables and its warning, and every
      translation has both tables, the warning, the banner, the same set of engines, and only install
      commands of the original. */
  lemma SilentIff(canonical: string, localized: seq<File>)
    ensures var c := FactsOf(canonical);
            Violations(c, Map(ReadFile, localized)) == [] <==>
              HasTables(c) && c.warning && forall i :: 0 <= i < |localized| ==> InStep(c, ReadFile(localized[i]).facts)
  {
    SilentFor(FactsOf(canonical), Map(ReadFile, localized));
  }

  lemma SilentFor(c: Facts, ts: seq<Translation>)
    ensures Violations(c, ts) == [] <==>
            HasTables(c) && c.warning && forall i :: 0 <= i < |ts| ==> InStep(c, ts[i].facts)
  {
    AllInStepIs(ts, c);
    if HasTables(c) { AllFindingsIff(ts, c); }
  }
}
