/** The two fixture readers: line-buffer statement splitters, one with a rule for trigger bodies. */
module Fixtures {
  import opened Text

  // ---------- the trigger rule ----------

  predicate StartsWithI(s: string, p: string) { |p| <= |s| && Upper(s[..|p|]) == p }

  /** `TRIGGER\b` */
  predicate TriggerWord(s: string) { StartsWithI(s, "TRIGGER") && (|s| == 7 || !IsWord(s[7])) }

  /** `\s+` after the first n characters, then the trigger word. */
  predicate SpacedTrigger(s: string, n: nat) {
    |s| > n && IsSpace(s[n]) && TriggerWord(TrimStart(s[n..]))
  }

  /** `(TEMP\s+|TEMPORARY\s+)?TRIGGER\b` */
  predicate TempTrigger(s: string) {
    || TriggerWord(s)
    || (StartsWithI(s, "TEMP") && SpacedTrigger(s, 4))
    || (StartsWithI(s, "TEMPORARY") && SpacedTrigger(s, 9))
  }

  /** `/^\s*CREATE\s+(TEMP\s+|TEMPORARY\s+)?TRIGGER\b/i` */
  predicate Opens(s: string) {
    var t := TrimStart(s);
    StartsWithI(t, "CREATE") && |t| > 6 && IsSpace(t[6]) && TempTrigger(TrimStart(t[6..]))
  }

  /** `/\bEND\s*$/i` */
  predicate Closes(s: string) { EndWord(TrimEnd(s)) }

  predicate EndWord(t: string) {
    |t| >= 3 && Upper(t[|t| - 3..]) == "END" && (|t| == 3 || !IsWord(t[|t| - 4]))
  }

  // ---------- the splitters ----------

  datatype State = State(buffer: string, statements: seq<string>)

  predicate IsComment(line: string) { StartsWith(Trim(line), "--") }

  predicate EndsStatement(line: string) { var body := TrimEnd(line); body != "" && body[|body| - 1] == ';' }

  /** The line without trailing blanks and without its semicolon. */
  function Body(line: string): string
    requires EndsStatement(line)
  {
    var body := TrimEnd(line);
    body[..|body| - 1]
  }

  /** One line; `triggers` says whether the trigger rule applies. */
  function Take(s: State, line: string, triggers: bool): State {
    if IsComment(line) then s
    else if !EndsStatement(line) then s.(buffer := s.buffer + line + "\n")
    else
      var candidate := s.buffer + Body(line);
      if triggers && Opens(candidate) && !Closes(candidate) then s.(buffer := s.buffer + line + "\n")
      else State("", if Trim(candidate) != "" then s.statements + [Trim(candidate)] else s.statements)
  }

  function TakeAll(s: State, lines: seq<string>, triggers: bool): State {
    if lines == [] then s else Take(TakeAll(s, lines[..|lines| - 1], triggers), lines[|lines| - 1], triggers)
  }

  const START := State("", [])

  function Statements(text: string, triggers: bool): seq<string> {
    TakeAll(START, Split(text, '\n'), triggers).statements
  }

  datatype Result = Ok(statements: seq<string>) | NoStatement | BlankWarehouse | NoSubstitution

  function SqliteSpec(text: string): Result {
    if Statements(text, true) == [] then NoStatement else Ok(Statements(text, true))
  }

  /** The SQLite fixture reader. */
  method ReadSqlite(text: string) returns (r: Result)
    ensures r == SqliteSpec(text)
  {
    var lines := Split(text, '\n');
    var statements: seq<string>, buffer := [], "";
    var i := 0;
    while i < |lines|
      invariant 0 <= i <= |lines|
      invariant State(buffer, statements) == TakeAll(START, lines[..i], true)
    {
      var line := lines[i];
      assert lines[..i + 1][..i] == lines[..i];
      i := i + 1;
      if IsComment(line) { continue; }
      if !EndsStatement(line) {
        buffer := buffer + line + "\n";
        continue;
      }
      var candidate := buffer + Body(line);
      if Opens(candidate) && !Closes(candidate) {
        buffer := buffer + line + "\n";
        continue;
      }
      if Trim(candidate) != "" { statements := statements + [Trim(candidate)]; }
      buffer := "";
    }
    assert lines[..i] == lines;
    r := if statements == [] then NoStatement else Ok(statements);
  }

  const PLACEHOLDER := "{{warehouse}}"

  /** `s.split(p).join(w)` */
  function Substitute(s: string, p: string, w: string): string
    requires p != ""
  {
    if |s| < |p| then s
    else if s[..|p|] == p then w + Substitute(s[|p|..], p, w)
    else [s[0]] + Substitute(s[1..], p, w)
  }

  function Substituted(statements: seq<string>, w: string): (r: seq<string>)
    ensures |r| == |statements| && forall i :: 0 <= i < |r| ==> r[i] == Substitute(statements[i], PLACEHOLDER, w)
  {
    seq(|statements|, i requires 0 <= i < |statements| => Substitute(statements[i], PLACEHOLDER, w))
  }

  function DuckdbSpec(text: string, warehouse: string): Result {
    var statements := Statements(text, false);
    if Trim(warehouse) == "" then BlankWarehouse
    else if statements == [] then NoStatement
    else if Substituted(statements, warehouse) == statements then NoSubstitution
    else Ok(Substituted(statements, warehouse))
  }

  /** The DuckDB fixture reader. */
  method ReadDuckdb(text: string, warehouse: string) returns (r: Result)
    ensures r == DuckdbSpec(text, warehouse)
  {
    if Trim(warehouse) == "" { return BlankWarehouse; }
    var lines := Split(text, '\n');
    var statements: seq<string>, buffer := [], "";
    var i := 0;
    while i < |lines|
      invariant 0 <= i <= |lines|
      invariant State(buffer, statements) == TakeAll(START, lines[..i], false)
    {
      var line := lines[i];
      assert lines[..i + 1][..i] == lines[..i];
      i := i + 1;
      if IsComment(line) { continue; }
      if !EndsStatement(line) {
        buffer := buffer + line + "\n";
        continue;
      }
      var statement := Trim(buffer + Body(line));
      if statement != "" { statements := statements + [statement]; }
      buffer := "";
    }
    assert lines[..i] == lines;
    if statements == [] { return NoStatement; }
    var substituted := Substituted(statements, warehouse);
    if substituted == statements { return NoSubstitution; }
    r := Ok(substituted);
  }

  // ---------- when a reader refuses ----------

  lemma {:induction false} SubstituteLength(s: string, p: string, w: string)
    requires p != ""
    ensures |w| >= |p| ==> |Substitute(s, p, w)| >= |s|
    ensures |w| <= |p| ==> |Substitute(s, p, w)| <= |s|
    decreases |s|
  {
    if |s| >= |p| {
      if s[..|p|] == p { SubstituteLength(s[|p|..], p, w); } else { SubstituteLength(s[1..], p, w); }
    }
  }

  lemma {:induction false} NotInShort(s: string, p: string)
    requires |s| < |p|
    ensures !Includes(s, p)
  {
    if s != "" { NotInShort(s[1..], p); }
  }

  /** Replacing changes a string exactly when the pattern occurs in it and is not replaced by itself. */
  lemma {:induction false} SubstituteKeepsIff(s: string, p: string, w: string)
    requires p != ""
    ensures Substitute(s, p, w) == s <==> w == p || !Includes(s, p)
    decreases |s|
  {
    if |s| < |p| {
      NotInShort(s, p);
    } else if s[..|p|] == p {
      assert StartsWith(s, p);
      var rest := s[|p|..];
      SubstituteLength(rest, p, w);
      if w == p {
        SubstituteKeepsIff(rest, p, w);
      } else if |w| == |p| {
        assert Substitute(s, p, w)[..|p|] == w;
      }
    } else {
      SubstituteKeepsIff(s[1..], p, w);
      Uncons(s);
      Cons(s[0], Substitute(s[1..], p, w));
      assert !StartsWith(s, p);
    }
  }

  lemma NotYet(a: string, b: string, p: string)
    requires p != "" && a != "" && !Includes(a + p[..|p| - 1], p)
    ensures var s := a + p + b; s[0] == a[0] && s[1..] == a[1..] + p + b && s[..|p|] != p
    ensures !Includes(a[1..] + p[..|p| - 1], p)
  {
    var s, near := a + p + b, a + p[..|p| - 1];
    assert near[1..] == a[1..] + p[..|p| - 1] && near != "";
    assert |p| <= |near| && s[..|p|] == near[..|p|];
    assert !StartsWith(near, p) && !Includes(near[1..], p);
  }

  /** Replacing, from left to right: the first occurrence is replaced, and what follows it is replaced on. */
  lemma {:induction false} SubstituteFirst(a: string, b: string, p: string, w: string)
    requires p != "" && !Includes(a + p[..|p| - 1], p)
    ensures Substitute(a + p + b, p, w) == a + w + Substitute(b, p, w)
  {
    var s := a + p + b;
    if a == "" {
      assert s == p + b && s[..|p|] == p && s[|p|..] == b;
      assert "" + w == w;
    } else {
      NotYet(a, b, p);
      SubstituteFirst(a[1..], b, p, w);
      Regroup([a[0]], a[1..], w);
      Regroup([a[0]], a[1..] + w, Substitute(b, p, w));
      Uncons(a);
    }
  }

  /** Where the placeholder does not occur nothing is replaced. */
  lemma SubstituteNone(s: string, p: string, w: string)
    requires p != "" && !Includes(s, p)
    ensures Substitute(s, p, w) == s
  {
    SubstituteKeepsIff(s, p, w);
  }

  /** The DuckDB reader answers exactly when the target is not blank, the file has a statement, and one
      of them names the placeholder, which the target itself is not. */
  lemma DuckdbAnswersIff(text: string, warehouse: string)
    ensures var sts := Statements(text, false);
            DuckdbSpec(text, warehouse).Ok? <==>
            && Trim(warehouse) != "" && warehouse != PLACEHOLDER
            && exists i :: 0 <= i < |sts| && Includes(sts[i], PLACEHOLDER)
  {
    var sts := Statements(text, false);
    var out := Substituted(sts, warehouse);
    forall i | 0 <= i < |sts| ensures out[i] == sts[i] <==> warehouse == PLACEHOLDER || !Includes(sts[i], PLACEHOLDER) {
      SubstituteKeepsIff(sts[i], PLACEHOLDER, warehouse);
    }
    if out != sts {
      var i :| 0 <= i < |sts| && out[i] != sts[i];
      assert Includes(sts[i], PLACEHOLDER);
    }
  }

  // ---------- the two splitters ----------

  lemma {:induction false} TrimEndGrows(x: string, y: string)
    ensures |TrimEnd(x + y)| >= |TrimEnd(x)|
    decreases |y|
  {
    if y == "" {
      assert x + y == x;
    } else {
      var s := x + y;
      TrimEndShort(x);
      if IsSpace(s[|s| - 1]) {
        assert s[..|s| - 1] == x + y[..|y| - 1];
        TrimEndGrows(x, y[..|y| - 1]);
      }
    }
  }

  lemma {:induction false} TrimEndShort(x: string)
    ensures |TrimEnd(x)| <= |x|
  {
    if x != "" && IsSpace(x[|x| - 1]) { TrimEndShort(x[..|x| - 1]); }
  }

  lemma {:induction false} TrimStartAppend(x: string, y: string)
    ensures TrimStart(x + y) == if TrimStart(x) == "" then TrimStart(y) else TrimStart(x) + y
    decreases |x|
  {
    if x == "" {
      assert x + y == y;
    } else if IsSpace(x[0]) {
      TrimStartAppend(x[1..], y);
      assert (x + y)[0] == x[0] && (x + y)[1..] == x[1..] + y;
    } else {
      assert (x + y)[0] == x[0];
    }
  }

  /** Adding text never makes the trimmed text shorter. */
  lemma TrimGrows(x: string, y: string)
    ensures |Trim(x + y)| >= |Trim(x)|
  {
    TrimStartAppend(x, y);
    if TrimStart(x) != "" { TrimEndGrows(TrimStart(x), y); }
  }

  /** A semicolon behind it makes it longer. */
  lemma TrimWithSemicolon(c: string)
    ensures |Trim(c + ";")| > |Trim(c)|
  {
    TrimStartAppend(c, ";");
    TrimEndShort(TrimStart(c));
    var t := TrimStart(c) + ";";
    assert t[|t| - 1] == ';' && !IsSpace(';');
    assert TrimEnd(t) == t;
    if TrimStart(c) == "" { assert TrimStart(";") == ";" == t; }
  }

  predicate AllSpaces(s: string) { forall i :: 0 <= i < |s| ==> IsSpace(s[i]) }

  /** Text that ends in a character. */
  predicate Firm(s: string) { s == "" || !IsSpace(s[|s| - 1]) }

  lemma {:induction false} TrimEndSplits(s: string) returns (blanks: string)
    ensures s == TrimEnd(s) + blanks && AllSpaces(blanks) && Firm(TrimEnd(s))
    decreases |s|
  {
    if s != "" && IsSpace(s[|s| - 1]) {
      var more := TrimEndSplits(s[..|s| - 1]);
      blanks := more + [s[|s| - 1]];
      Regroup(TrimEnd(s), more, [s[|s| - 1]]);
    } else {
      blanks := "";
      assert s + "" == s;
    }
  }

  lemma {:induction false} TrimStartSplits(s: string) returns (blanks: string)
    ensures s == blanks + TrimStart(s) && AllSpaces(blanks)
    decreases |s|
  {
    if s != "" && IsSpace(s[0]) {
      var more := TrimStartSplits(s[1..]);
      blanks := [s[0]] + more;
      Regroup([s[0]], more, TrimStart(s));
      Uncons(s);
    } else {
      blanks := "";
      assert "" + s == s;
    }
  }

  // ---------- the trigger rule on trimmed text ----------

  predicate NoSpaces(p: string) { forall i :: 0 <= i < |p| ==> !IsSpace(p[i]) }

  lemma StartsFirm(u: string, ws: string, p: string)
    requires AllSpaces(ws) && NoSpaces(p)
    ensures StartsWithI(u + ws, p) == StartsWithI(u, p)
  {
    var t := u + ws;
    if |p| <= |u| {
      assert t[..|p|] == u[..|p|];
    } else if |t| >= |p| {
      var up := Upper(t[..|p|]);
      assert up[|u|] == UpperChar(ws[0]) == ws[0];
      assert IsSpace(up[|u|]) && !IsSpace(p[|u|]);
    }
  }

  lemma TriggerFirm(u: string, ws: string)
    requires AllSpaces(ws)
    ensures TriggerWord(u + ws) == TriggerWord(u)
  {
    StartsFirm(u, ws, "TRIGGER");
    if |u| == 7 && ws != "" { assert (u + ws)[7] == ws[0]; }
    if |u| > 7 { assert (u + ws)[7] == u[7]; }
  }

  lemma {:induction false} TrimStartFirm(u: string)
    requires Firm(u)
    ensures Firm(TrimStart(u)) && (u != "" ==> TrimStart(u) != "")
    decreases |u|
  {
    if u != "" && IsSpace(u[0]) { TrimStartFirm(u[1..]); }
  }

  /** What follows n characters, with the blanks behind it. */
  lemma TailFirm(u: string, ws: string, n: nat)
    requires Firm(u) && AllSpaces(ws) && n <= |u + ws|
    ensures |u| <= n ==> TrimStart((u + ws)[n..]) == ""
    ensures |u| > n ==> Firm(TrimStart(u[n..])) && TrimStart((u + ws)[n..]) == TrimStart(u[n..]) + ws
    ensures |u| > n ==> (u + ws)[n] == u[n]
  {
    if |u| <= n {
      assert (u + ws)[n..] == ws[n - |u|..];
      TrimStartBlank(ws[n - |u|..]);
    } else {
      assert (u + ws)[n..] == u[n..] + ws;
      TrimStartFirm(u[n..]);
      TrimStartAppend(u[n..], ws);
    }
  }

  lemma SpacedFirm(u: string, ws: string, n: nat)
    requires Firm(u) && AllSpaces(ws)
    ensures SpacedTrigger(u + ws, n) == SpacedTrigger(u, n)
  {
    if |u + ws| > n {
      TailFirm(u, ws, n);
      if |u| > n { TriggerFirm(TrimStart(u[n..]), ws); }
    }
  }

  lemma TempFirm(u: string, ws: string)
    requires Firm(u) && AllSpaces(ws)
    ensures TempTrigger(u + ws) == TempTrigger(u)
  {
    TriggerFirm(u, ws);
    StartsFirm(u, ws, "TEMP");
    StartsFirm(u, ws, "TEMPORARY");
    SpacedFirm(u, ws, 4);
    SpacedFirm(u, ws, 9);
  }

  predicate OpensAt(t: string) {
    StartsWithI(t, "CREATE") && |t| > 6 && IsSpace(t[6]) && TempTrigger(TrimStart(t[6..]))
  }

  lemma OpensFirm(u: string, ws: string)
    requires Firm(u) && AllSpaces(ws)
    ensures OpensAt(u + ws) == OpensAt(u)
  {
    StartsFirm(u, ws, "CREATE");
    if |u + ws| > 6 {
      TailFirm(u, ws, 6);
      if |u| > 6 { TempFirm(TrimStart(u[6..]), ws); }
    }
  }

  /** Trimming does not change whether a trigger is opened. */
  lemma OpensTrimmed(c: string)
    ensures Opens(Trim(c)) == Opens(c)
  {
    var t := TrimStart(c);
    TrimStartStable(c);
    var ws := TrimEndSplits(t);
    OpensFirm(TrimEnd(t), ws);
    TrimEndStable(t);
    assert TrimStart(Trim(c)) == Trim(c);
  }

  lemma {:induction false} TrimEndBehind(lead: string, t: string)
    requires TrimEnd(t) != ""
    ensures TrimEnd(lead + t) == lead + TrimEnd(t)
    decreases |t|
  {
    var s := lead + t;
    assert t != "" && s[|s| - 1] == t[|t| - 1];
    if IsSpace(t[|t| - 1]) {
      assert s[..|s| - 1] == lead + t[..|t| - 1];
      TrimEndBehind(lead, t[..|t| - 1]);
    }
  }

  lemma EndWordBehind(lead: string, v: string)
    requires AllSpaces(lead) && v != ""
    ensures EndWord(lead + v) == EndWord(v)
  {
    var s := lead + v;
    if |v| >= 3 {
      assert s[|s| - 3..] == v[|v| - 3..];
      if |v| > 3 { assert s[|s| - 4] == v[|v| - 4]; } else if lead != "" { assert s[|s| - 4] == lead[|lead| - 1]; }
    } else if |s| >= 3 {
      var up := Upper(s[|s| - 3..]);
      var i := 2 - |v|;
      assert up[i] == UpperChar(lead[|lead| - 1]) && IsSpace(up[i]);
      assert !IsSpace("END"[i]);
    }
  }

  /** Nor whether its body is closed. */
  lemma ClosesTrimmed(c: string)
    requires Trim(c) != ""
    ensures Closes(Trim(c)) == Closes(c)
  {
    var lead := TrimStartSplits(c);
    TrimEndBehind(lead, TrimStart(c));
    EndWordBehind(lead, Trim(c));
    TrimIsStable(c);
    assert TrimEnd(Trim(c)) == Trim(c);
  }

  // ---------- the two splitters ----------

  /** A statement that opens a trigger and does not close its body. */
  predicate Unclosed(s: string) { Opens(s) && !Closes(s) }

  lemma UnclosedTrimmed(c: string)
    ensures Unclosed(c) ==> Trim(c) != ""
    ensures Trim(c) != "" ==> Unclosed(Trim(c)) == Unclosed(c)
  {
    OpensTrimmed(c);
    if Trim(c) != "" { ClosesTrimmed(c); } else { assert !Opens(""); }
  }

  /** From statement k on the two differ: DuckDB's is an unclosed trigger, SQLite's is longer or still in the buffer. */
  predicate Differ(a: State, b: State, k: nat) {
    && k < |b.statements| && Unclosed(b.statements[k]) && k <= |a.statements|
    && if |a.statements| == k then |Trim(a.buffer)| > |b.statements[k]| else |a.statements[k]| > |b.statements[k]|
  }

  predicate NoneUnclosed(sts: seq<string>) { forall i :: 0 <= i < |sts| ==> !Unclosed(sts[i]) }

  lemma DifferStep(a: State, b: State, k: nat, line: string)
    requires Differ(a, b, k)
    ensures Differ(Take(a, line, true), Take(b, line, false), k)
  {
    if |a.statements| == k {
      Regroup(a.buffer, line, "\n");
      TrimGrows(a.buffer, line + "\n");
      if EndsStatement(line) { TrimGrows(a.buffer, Body(line)); }
    }
  }

  lemma LineOfBody(line: string) returns (blanks: string)
    requires EndsStatement(line)
    ensures line == Body(line) + ";" + blanks
  {
    blanks := TrimEndSplits(line);
    var body := TrimEnd(line);
    assert body == body[..|body| - 1] + ";";
  }

  lemma SameStep(s: State, line: string)
    requires NoneUnclosed(s.statements)
    ensures var a, b := Take(s, line, true), Take(s, line, false);
            (a == b && NoneUnclosed(b.statements)) || Differ(a, b, |s.statements|)
  {
    if !IsComment(line) && EndsStatement(line) {
      var c := s.buffer + Body(line);
      UnclosedTrimmed(c);
      if Unclosed(c) {
        var blanks := LineOfBody(line);
        Nest(s.buffer, Body(line), ";", blanks, "\n");
        Regroup(s.buffer, line, "\n");
        Regroup(Body(line) + ";", blanks, "\n");
        Regroup(Body(line), ";", blanks + "\n");
        Regroup(s.buffer, Body(line), ";" + (blanks + "\n"));
        Regroup(c, ";", blanks + "\n");
        TrimWithSemicolon(c);
        TrimGrows(c + ";", blanks + "\n");
      }
    }
  }

  lemma {:induction false} Track(lines: seq<string>) returns (k: nat)
    ensures var a, b := TakeAll(START, lines, true), TakeAll(START, lines, false);
            (a == b && NoneUnclosed(b.statements)) || Differ(a, b, k)
    decreases |lines|
  {
    k := 0;
    if lines != [] {
      var front, line := lines[..|lines| - 1], lines[|lines| - 1];
      k := Track(front);
      var a, b := TakeAll(START, front, true), TakeAll(START, front, false);
      if Differ(a, b, k) {
        DifferStep(a, b, k, line);
      } else {
        SameStep(a, line);
        k := |a.statements|;
      }
    }
  }

  /** On a file the two splitters find the same statements if and only if every statement the DuckDB
      one finds that opens a trigger also ends in END; on trigger-free files they agree. */
  lemma SplittersAgreeIff(text: string)
    ensures Statements(text, true) == Statements(text, false) <==>
            forall i :: 0 <= i < |Statements(text, false)| && Opens(Statements(text, false)[i]) ==>
                Closes(Statements(text, false)[i])
  {
    var k := Track(Split(text, '\n'));
    var sts := Statements(text, false);
    assert NoneUnclosed(sts) <==> forall i :: 0 <= i < |sts| && Opens(sts[i]) ==> Closes(sts[i]);
  }

  // ---------- printing and reading back ----------

  /** Lines with their line feeds. */
  function Lines(ls: seq<string>): string {
    if ls == [] then "" else Lines(ls[..|ls| - 1]) + ls[|ls| - 1] + "\n"
  }

  /** A statement's lines, the last with the semicolon. */
  function Printed(st: string): seq<string> {
    var ls := Split(st, '\n');
    ls[..|ls| - 1] + [ls[|ls| - 1] + ";"]
  }

  /** An inner line the reader keeps for later: no comment, and without a semicolon at its end unless the
      text up to there is a trigger whose body is open. */
  predicate Kept(before: string, line: string, triggers: bool) {
    !IsComment(line) && (EndsStatement(line) ==> triggers && Unclosed(before + Body(line)))
  }

  /** A statement the reader can find again in its printed form. */
  predicate Readable(st: string, triggers: bool) {
    var ls := Split(st, '\n');
    var last := |ls| - 1;
    && st != "" && TrimStable(st) && !IsComment(ls[last] + ";") && !(triggers && Unclosed(st))
    && forall i :: 0 <= i < last ==> Kept(Lines(ls[..i]), ls[i], triggers)
  }

  /** A file: statements in printed form, with comment lines anywhere between the lines. */
  datatype Item = Comment(line: string) | Code(line: string)

  function FileLines(items: seq<Item>): (r: seq<string>)
    ensures |r| == |items|
  {
    if items == [] then [] else FileLines(items[..|items| - 1]) + [items[|items| - 1].line]
  }

  function CodeLines(items: seq<Item>): seq<string> {
    if items == [] then []
    else CodeLines(items[..|items| - 1]) + (if items[|items| - 1].Code? then [items[|items| - 1].line] else [])
  }

  function AllPrinted(sts: seq<string>): seq<string> {
    if sts == [] then [] else AllPrinted(sts[..|sts| - 1]) + Printed(sts[|sts| - 1])
  }

  predicate Commented(items: seq<Item>) {
    forall i :: 0 <= i < |items| ==> '\n' !in items[i].line && (items[i].Comment? ==> IsComment(items[i].line))
  }

  lemma {:induction false} TakeAllAppend(s: State, a: seq<string>, b: seq<string>, triggers: bool)
    ensures TakeAll(s, a + b, triggers) == TakeAll(TakeAll(s, a, triggers), b, triggers)
    decreases |b|
  {
    if b == [] {
      assert a + b == a;
    } else {
      TakeAllAppend(s, a, b[..|b| - 1], triggers);
      assert (a + b)[..|a + b| - 1] == a + b[..|b| - 1] && (a + b)[|a + b| - 1] == b[|b| - 1];
    }
  }

  lemma TakeOne(s: State, line: string, triggers: bool)
    ensures TakeAll(s, [line], triggers) == Take(s, line, triggers)
  {
    assert [line][..0] == [];
  }

  /** Comment lines have no effect. */
  lemma {:induction false} CommentsDrop(items: seq<Item>, triggers: bool)
    requires Commented(items)
    ensures TakeAll(START, FileLines(items), triggers) == TakeAll(START, CodeLines(items), triggers)
    decreases |items|
  {
    if items != [] {
      var front, item := items[..|items| - 1], items[|items| - 1];
      CommentsDrop(front, triggers);
      TakeAllAppend(START, FileLines(front), [item.line], triggers);
      TakeOne(TakeAll(START, FileLines(front), triggers), item.line, triggers);
      if item.Code? {
        TakeAllAppend(START, CodeLines(front), [item.line], triggers);
      } else {
        assert CodeLines(front) + [] == CodeLines(front);
      }
    }
  }

  /** The kept lines are in the buffer. */
  lemma {:induction false} KeptLines(done: seq<string>, ls: seq<string>, triggers: bool)
    requires forall i :: 0 <= i < |ls| ==> Kept(Lines(ls[..i]), ls[i], triggers)
    ensures TakeAll(State("", done), ls, triggers) == State(Lines(ls), done)
    decreases |ls|
  {
    if ls != [] {
      var front := ls[..|ls| - 1];
      forall i | 0 <= i < |front| ensures Kept(Lines(front[..i]), front[i], triggers) {
        assert front[..i] == ls[..i] && Kept(Lines(ls[..i]), ls[i], triggers);
      }
      KeptLines(done, front, triggers);
      assert Kept(Lines(ls[..|front|]), ls[|front|], triggers);
    }
  }

  lemma {:induction false} JoinIsLines(ls: seq<string>, last: string)
    ensures Join(ls + [last], "\n") == Lines(ls) + last
    decreases |ls|
  {
    if ls == [] {
      assert [] + [last] == [last] && "" + last == last;
    } else {
      var front := ls[..|ls| - 1];
      JoinIsLines(front, ls[|ls| - 1]);
      assert front + [ls[|ls| - 1]] == ls;
      JoinAppend(ls, last, "\n");
    }
  }

  lemma StatementIsLines(st: string)
    ensures var ls := Split(st, '\n'); st == Lines(ls[..|ls| - 1]) + ls[|ls| - 1]
  {
    var ls := Split(st, '\n');
    JoinIsLines(ls[..|ls| - 1], ls[|ls| - 1]);
    assert ls[..|ls| - 1] + [ls[|ls| - 1]] == ls;
    JoinSplit(st, '\n');
  }

  lemma BodyOfLast(last: string)
    ensures EndsStatement(last + ";") && Body(last + ";") == last
  {
    var line := last + ";";
    assert line[|line| - 1] == ';' && !IsSpace(';');
    assert TrimEnd(line) == line && line[..|line| - 1] == last;
  }

  /** A readable statement is found. */
  lemma FindsStatement(done: seq<string>, st: string, triggers: bool)
    requires Readable(st, triggers)
    ensures TakeAll(State("", done), Printed(st), triggers) == State("", done + [st])
  {
    var ls := Split(st, '\n');
    var front, last := ls[..|ls| - 1], ls[|ls| - 1];
    forall i | 0 <= i < |front| ensures Kept(Lines(front[..i]), front[i], triggers) {
      assert front[..i] == ls[..i] && Kept(Lines(ls[..i]), ls[i], triggers);
    }
    KeptLines(done, front, triggers);
    TakeAllAppend(State("", done), front, [last + ";"], triggers);
    TakeOne(State(Lines(front), done), last + ";", triggers);
    StatementIsLines(st);
    BodyOfLast(last);
    TrimFixes(st);
  }

  lemma FindsNext(ls: seq<string>, done: seq<string>, st: string, triggers: bool)
    requires TakeAll(START, ls, triggers) == State("", done) && Readable(st, triggers)
    ensures TakeAll(START, ls + Printed(st), triggers) == State("", done + [st])
  {
    FindsStatement(done, st, triggers);
    TakeAllAppend(START, ls, Printed(st), triggers);
  }

  lemma PrintedSnoc(front: seq<string>, st: string)
    ensures AllPrinted(front + [st]) == AllPrinted(front) + Printed(st)
  {
    assert (front + [st])[..|front|] == front;
  }

  lemma FindsSnoc(front: seq<string>, st: string, sts: seq<string>, triggers: bool)
    requires front + [st] == sts && Readable(st, triggers)
    requires TakeAll(START, AllPrinted(front), triggers) == State("", front)
    ensures TakeAll(START, AllPrinted(sts), triggers) == State("", sts)
  {
    FindsNext(AllPrinted(front), front, st, triggers);
    PrintedSnoc(front, st);
  }

  lemma FindsNothing(sts: seq<string>, triggers: bool)
    requires sts == []
    ensures TakeAll(START, AllPrinted(sts), triggers) == State("", sts)
  {}

  predicate AllReadable(sts: seq<string>, triggers: bool) {
    sts == [] || (AllReadable(sts[..|sts| - 1], triggers) && Readable(sts[|sts| - 1], triggers))
  }

  lemma {:induction false} FindsAll(sts: seq<string>, triggers: bool)
    requires AllReadable(sts, triggers)
    ensures TakeAll(START, AllPrinted(sts), triggers) == State("", sts)
    decreases |sts|
  {
    if sts == [] {
      FindsNothing(sts, triggers);
    } else {
      FindsAll(sts[..|sts| - 1], triggers);
      Unsnoc(sts);
      FindsSnoc(sts[..|sts| - 1], sts[|sts| - 1], sts, triggers);
    }
  }

  lemma TextSplits(ls: seq<string>)
    requires forall i :: 0 <= i < |ls| ==> '\n' !in ls[i]
    ensures Split(Lines(ls), '\n') == ls + [""]
  {
    assert "\n" == ['\n'];
    JoinIsLines(ls, "");
    assert Lines(ls) + "" == Lines(ls);
    SplitJoin(ls + [""], '\n');
  }

  lemma BlankEnd(ls: seq<string>, triggers: bool)
    ensures TakeAll(START, ls + [""], triggers).statements == TakeAll(START, ls, triggers).statements
  {
    TakeAllAppend(START, ls, [""], triggers);
    TakeOne(TakeAll(START, ls, triggers), "", triggers);
    assert Trim("") == "";
  }

  /** Round trip: a file of readable statements, each ended by a semicolon and a line feed, with comment
      lines anywhere between the lines, yields those statements, in order. */
  lemma FileReadsBack(items: seq<Item>, sts: seq<string>, triggers: bool)
    requires Commented(items) && CodeLines(items) == AllPrinted(sts) && AllReadable(sts, triggers)
    ensures Statements(Lines(FileLines(items)), triggers) == sts
  {
    FileLinesAre(items);
    TextSplits(FileLines(items));
    BlankEnd(FileLines(items), triggers);
    CommentsDrop(items, triggers);
    FindsAll(sts, triggers);
  }

  lemma {:induction false} FileLinesAre(items: seq<Item>)
    ensures forall i :: 0 <= i < |items| ==> FileLines(items)[i] == items[i].line
    decreases |items|
  {
    if items != [] { FileLinesAre(items[..|items| - 1]); }
  }

  // ---------- exactly the readable statements ----------

  /** What the lines weigh, and what a state holds of them: a statement has lost a semicolon and a line feed. */
  function Weight(sts: seq<string>): nat {
    if sts == [] then 0 else Weight(sts[..|sts| - 1]) + |sts[|sts| - 1]| + 2
  }

  lemma TrimShort(s: string)
    ensures |Trim(s)| <= |s| && (|Trim(s)| == |s| ==> Trim(s) == s)
  {
    var lead := TrimStartSplits(s);
    var tail := TrimEndSplits(TrimStart(s));
    if |Trim(s)| == |s| {
      assert lead == "" && tail == "";
      assert "" + TrimStart(s) == TrimStart(s) && Trim(s) + "" == Trim(s);
    }
  }

  lemma WeightSnoc(sts: seq<string>, st: string)
    ensures Weight(sts + [st]) == Weight(sts) + |st| + 2
  {
    assert (sts + [st])[..|sts|] == sts;
  }

  lemma BodyShort(line: string)
    requires EndsStatement(line)
    ensures |Body(line)| < |line|
  {
    TrimEndShort(line);
  }

  /** A line adds at most its own length and a line feed, and a line that is not kept by an empty-handed
      reader adds less or completes a statement. */
  lemma StepWeight(s: State, line: string, triggers: bool)
    ensures var t := Take(s, line, triggers);
            && s.statements <= t.statements
            && |t.buffer| + Weight(t.statements) <= |s.buffer| + Weight(s.statements) + |line| + 1
            && (t.statements == s.statements && |t.buffer| == |s.buffer| + |line| + 1 ==>
                Kept(s.buffer, line, triggers) && t.buffer == s.buffer + line + "\n")
  {
    if !IsComment(line) && EndsStatement(line) {
      BodyShort(line);
      var c := s.buffer + Body(line);
      TrimShort(c);
      if Trim(c) != "" { WeightSnoc(s.statements, Trim(c)); }
    }
  }

  lemma {:induction false} TotalWeight(ls: seq<string>, triggers: bool)
    ensures var t := TakeAll(START, ls, triggers); |t.buffer| + Weight(t.statements) <= |Lines(ls)|
    decreases |ls|
  {
    if ls != [] {
      TotalWeight(ls[..|ls| - 1], triggers);
      StepWeight(TakeAll(START, ls[..|ls| - 1], triggers), ls[|ls| - 1], triggers);
    }
  }

  lemma {:induction false} LongestIsKept(ls: seq<string>, triggers: bool)
    requires var t := TakeAll(START, ls, triggers); t.statements == [] && |t.buffer| == |Lines(ls)|
    ensures TakeAll(START, ls, triggers).buffer == Lines(ls)
    ensures forall i :: 0 <= i < |ls| ==> Kept(Lines(ls[..i]), ls[i], triggers)
    decreases |ls|
  {
    if ls != [] {
      var front := ls[..|ls| - 1];
      var s := TakeAll(START, front, triggers);
      StepWeight(s, ls[|ls| - 1], triggers);
      TotalWeight(front, triggers);
      LongestIsKept(front, triggers);
      forall i | 0 <= i < |ls| ensures Kept(Lines(ls[..i]), ls[i], triggers) {
        if i < |front| {
          assert front[..i] == ls[..i] && front[i] == ls[i];
          assert Kept(Lines(front[..i]), front[i], triggers);
        }
      }
    }
  }

  lemma OneWeight(st: string)
    ensures Weight([st]) == |st| + 2
  {
    assert [st][..0] == [];
  }

  lemma PrefixOfOne(sts: seq<string>, st: string)
    requires sts <= [st] && Weight(sts) < |st| + 2
    ensures sts == []
  {
    OneWeight(st);
    assert sts == [] || sts == [st];
  }

  /** When a statement is found in its own printed form, all its lines but the last went to the buffer
      whole, and the last one completed it. */
  lemma FoundWhole(st: string, front: seq<string>, last: string, triggers: bool)
    requires TakeAll(START, front + [last + ";"], triggers).statements == [st] && |st| == |Lines(front)| + |last|
    ensures var s := TakeAll(START, front, triggers);
            s.statements == [] && |s.buffer| == |Lines(front)| && st == Trim(st)
            && !IsComment(last + ";") && !(triggers && Unclosed(s.buffer + last))
  {
    var s := TakeAll(START, front, triggers);
    TakeAllAppend(START, front, [last + ";"], triggers);
    TakeOne(s, last + ";", triggers);
    BodyOfLast(last);
    TotalWeight(front, triggers);
    StepWeight(s, last + ";", triggers);
    PrefixOfOne(s.statements, st);
    TrimShort(s.buffer + last);
    assert st == Trim(s.buffer + last);
  }

  /** No statement is blank. */
  lemma {:induction false} NoneBlank(ls: seq<string>, triggers: bool)
    ensures forall i :: 0 <= i < |TakeAll(START, ls, triggers).statements| ==>
            TakeAll(START, ls, triggers).statements[i] != ""
    decreases |ls|
  {
    if ls != [] { NoneBlank(ls[..|ls| - 1], triggers); }
  }

  lemma FoundNotBlank(st: string, triggers: bool)
    requires TakeAll(START, Printed(st), triggers).statements == [st]
    ensures st != ""
  {
    NoneBlank(Printed(st), triggers);
    assert TakeAll(START, Printed(st), triggers).statements[0] == st;
  }

  predicate AllKept(ls: seq<string>, triggers: bool) {
    forall i :: 0 <= i < |ls| ==> Kept(Lines(ls[..i]), ls[i], triggers)
  }

  lemma ReadableFrom(st: string, front: seq<string>, last: string, triggers: bool)
    requires Split(st, '\n') == front + [last] && AllKept(front, triggers)
    requires st != "" && TrimStable(st) && !IsComment(last + ";") && !(triggers && Unclosed(st))
    ensures Readable(st, triggers)
  {
    var ls := Split(st, '\n');
    forall i | 0 <= i < |front| ensures Kept(Lines(ls[..i]), ls[i], triggers) {
      assert front[..i] == ls[..i] && front[i] == ls[i] && Kept(Lines(front[..i]), front[i], triggers);
    }
  }

  lemma FoundLines(st: string, front: seq<string>, last: string, triggers: bool)
    requires Split(st, '\n') == front + [last] && st == Lines(front) + last && st != ""
    requires TakeAll(START, front + [last + ";"], triggers).statements == [st]
    ensures Readable(st, triggers)
  {
    FoundWhole(st, front, last, triggers);
    TrimIsStable(st);
    LongestIsKept(front, triggers);
    ReadableFrom(st, front, last, triggers);
  }

  /** A statement that is found in its own printed form is readable. */
  lemma FoundIsReadable(st: string, triggers: bool)
    requires TakeAll(START, Printed(st), triggers).statements == [st]
    ensures Readable(st, triggers)
  {
    var ls := Split(st, '\n');
    Unsnoc(ls);
    StatementIsLines(st);
    FoundNotBlank(st, triggers);
    FoundLines(st, ls[..|ls| - 1], ls[|ls| - 1], triggers);
  }

  /** A statement, printed alone, is read back if and only if it is readable. */
  lemma AloneIff(st: string, triggers: bool)
    ensures Statements(Lines(Printed(st)), triggers) == [st] <==> Readable(st, triggers)
  {
    SplitPieces(st, '\n');
    forall i | 0 <= i < |Printed(st)| ensures '\n' !in Printed(st)[i] {
      assert Split(st, '\n')[i] in Split(st, '\n');
    }
    TextSplits(Printed(st));
    BlankEnd(Printed(st), triggers);
    if Readable(st, triggers) {
      FindsStatement([], st, triggers);
      assert [] + [st] == [st];
    } else if Statements(Lines(Printed(st)), triggers) == [st] {
      FoundIsReadable(st, triggers);
    }
  }
}
