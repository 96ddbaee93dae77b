/** The import's script as one text: its statements joined, and what an engine reads from it. */
module ImportScript {
  import opened Text
  import opened Literals
  import opened ImportSql

  // ---------- the text ----------

  function StatementText(s: Statement): string { s.Text() }

  /** `statements.join("\n\n")` */
  function ScriptText(statements: seq<Statement>): string { Join(Map(StatementText, statements), "\n\n") }

  datatype Outcome = Refusal | Sql(text: string)

  function Spelled(r: Import): Outcome {
    match r
    case Nothing => Sql("")
    case Refused => Refusal
    case Script(statements) => Sql(ScriptText(statements))
  }

  /** `generateImportSQL` */
  method GenerateImportSQL(parsed: Option<Table>, target: Option<Target>, mapping: map<string, string>,
                           dialect: Option<Dialect>, caps: Option<Capabilities>) returns (r: Outcome)
    ensures r == Spelled(ImportSpec(parsed, target, mapping, dialect, caps))
  {
    var script := GenerateImport(parsed, target, mapping, dialect, caps);
    r := Spelled(script);
  }

  // ---------- reading one statement's values ----------

  datatype Cut = Cut(tokens: seq<Token>, rest: string)

  function PushCut(t: Token, c: Option<Cut>): Option<Cut> {
    match c
    case None => None
    case Some(Cut(ts, rest)) => Some(Cut([t] + ts, rest))
  }

  /** The tokens through the first semicolon that is one, and the text behind it. */
  function LexTo(s: string, e: Escape): Option<Cut>
    decreases |s|
  {
    if s == "" then None
    else if IsSpace(s[0]) then LexTo(s[1..], e)
    else if s[0] == ';' then Some(Cut([Semicolon], s[1..]))
    else if s[0] == '(' then PushCut(LParen, LexTo(s[1..], e))
    else if s[0] == ')' then PushCut(RParen, LexTo(s[1..], e))
    else if s[0] == ',' then PushCut(Comma, LexTo(s[1..], e))
    else if OpensLiteral(s, e) then
      match ReadLiteral(s, e)
      case None => None
      case Some(Read(v, rest)) => PushCut(Str(v), LexTo(rest, e))
    else PushCut(Word(s[..WordRun(s)]), LexTo(s[WordRun(s)..], e))
  }

  // ---------- what follows a statement does not change how it is read ----------

  /** The text ends in a semicolon. */
  predicate Ends(s: string) { s != "" && s[|s| - 1] == ';' }

  lemma EndsBehind(s: string, n: nat)
    requires Ends(s) && n < |s|
    ensures Ends(s[n..])
  {}

  /** A scanned literal leaves a piece of the text that ends as the text does. */
  lemma {:induction false} ScanEnds(s: string, e: Escape)
    requires Ends(s) && ScanBody(s, e).Some?
    ensures Ends(ScanBody(s, e).value.rest)
    decreases |s|
  {
    if s[0] == QUOTE && !(e.Doubles() && |s| > 1 && s[1] == QUOTE) {
      EndsBehind(s, 1);
    } else if s[0] == QUOTE || (e.Backslashes() && s[0] == SLASH && |s| > 1) {
      assert s[2..] != "";
      EndsBehind(s, 2);
      ScanEnds(s[2..], e);
    } else {
      assert s[1..] != "";
      EndsBehind(s, 1);
      ScanEnds(s[1..], e);
    }
  }

  lemma FrontStays(s: string, x: string, n: nat)
    requires n <= |s|
    ensures (s + x)[n..] == s[n..] + x && (s + x)[..n] == s[..n]
  {}

  /** A literal that closes before the end is read the same with more text behind it. */
  lemma {:induction false} ScanMore(s: string, e: Escape, x: string)
    requires ScanBody(s, e).Some? && ScanBody(s, e).value.rest != ""
    ensures ScanBody(s + x, e) == Some(Read(ScanBody(s, e).value.value, ScanBody(s, e).value.rest + x))
    decreases |s|
  {
    var t := s + x;
    FrontStays(s, x, 1);
    assert t[0] == s[0] && (|s| > 1 ==> t[1] == s[1]);
    if s[0] == QUOTE && e.Doubles() && |s| > 1 && s[1] == QUOTE {
      FrontStays(s, x, 2);
      ScanMore(s[2..], e, x);
    } else if s[0] == QUOTE {
      assert |s| > 1;
    } else if e.Backslashes() && s[0] == SLASH && |s| > 1 {
      FrontStays(s, x, 2);
      ScanMore(s[2..], e, x);
    } else {
      assert |s| > 1;
      ScanMore(s[1..], e, x);
    }
  }

  lemma LiteralMore(s: string, e: Escape, x: string)
    requires Ends(s) && OpensLiteral(s, e) && ReadLiteral(s, e).Some?
    ensures var r := ReadLiteral(s, e).value;
            OpensLiteral(s + x, e) && ReadLiteral(s + x, e) == Some(Read(r.value, r.rest + x)) && Ends(r.rest)
  {
    var n := if s[0] == QUOTE then 1 else 2;
    var t := s + x;
    assert t[0] == s[0] && (|s| > 1 ==> t[1] == s[1]);
    FrontStays(s, x, n);
    FrontStays(s, x, 1);
    assert s[n..] != "" && |s| > n;
    EndsBehind(s, n);
    assert n == 2 ==> s[1..][1..] == s[2..] && t[1..][1..] == t[2..];
    ScanEnds(s[n..], e);
    ScanMore(s[n..], e, x);
  }

  lemma {:induction false} WordMore(s: string, x: string)
    requires Ends(s)
    ensures WordRun(s) < |s| && WordRun(s + x) == WordRun(s)
  {
    var t := s + x;
    assert t[0] == s[0];
    if WordChar(s[0]) {
      assert |s| > 1;
      EndsBehind(s, 1);
      FrontStays(s, x, 1);
      WordMore(s[1..], x);
    }
  }

  /** A text that ends in a semicolon has a token. */
  lemma {:induction false} EndsHasToken(s: string, e: Escape)
    requires Ends(s)
    ensures Lex(s, e) != Some([])
    decreases |s|
  {
    if IsSpace(s[0]) {
      EndsBehind(s, 1);
      EndsHasToken(s[1..], e);
    }
  }

  /** One semicolon, at the end. */
  predicate OneEnd(ts: seq<Token>) {
    ts != [] && if ts[0] == Semicolon then |ts| == 1 else OneEnd(ts[1..])
  }

  lemma PushedCut(t: Token, ts: seq<Token>, more: Option<seq<Token>>)
    requires Push(t, more) == Some(ts)
    ensures more.Some? && ts[0] == t && ts[1..] == more.value
  {}

  lemma OnlySemicolon(s: string, e: Escape, ts: seq<Token>)
    requires Ends(s) && Lex(s, e) == Some(ts) && OneEnd(ts) && s[0] == ';'
    ensures s == ";" && ts == [Semicolon]
  {
    var more := Lex(s[1..], e);
    assert Push(Semicolon, more) == Some(ts);
    PushedCut(Semicolon, ts, more);
    assert more == Some([]);
    if |s| > 1 {
      EndsBehind(s, 1);
      EndsHasToken(s[1..], e);
    }
  }

  /** A statement's values are read the same in the script: through their last token, and what follows
      is left. */
  lemma {:induction false} LexesTo(s: string, e: Escape, ts: seq<Token>, x: string)
    requires Ends(s) && Lex(s, e) == Some(ts) && OneEnd(ts)
    ensures LexTo(s + x, e) == Some(Cut(ts, x))
    decreases |s|, 1
  {
    var t := s + x;
    assert t[0] == s[0];
    FrontStays(s, x, 1);
    if s[0] == ';' {
      OnlySemicolon(s, e, ts);
      assert s[1..] + x == x;
    } else {
      LexesPast(s, e, ts, x);
    }
  }

  lemma LexesPast(s: string, e: Escape, ts: seq<Token>, x: string)
    requires Ends(s) && Lex(s, e) == Some(ts) && OneEnd(ts) && s[0] != ';'
    ensures LexTo(s + x, e) == Some(Cut(ts, x))
    decreases |s|, 0
  {
    var t := s + x;
    assert t[0] == s[0];
    if IsSpace(s[0]) || s[0] == '(' || s[0] == ')' || s[0] == ',' {
      FrontStays(s, x, 1);
      assert |s| > 1;
      EndsBehind(s, 1);
      LexesTo(s[1..], e, if IsSpace(s[0]) then ts else ts[1..], x);
    } else if OpensLiteral(s, e) {
      LiteralMore(s, e, x);
      LexesTo(ReadLiteral(s, e).value.rest, e, ts[1..], x);
    } else {
      WordMore(s, x);
      var n := WordRun(s);
      FrontStays(s, x, n);
      EndsBehind(s, n);
      NoLiteral(s, e, x);
      LexesTo(s[n..], e, ts[1..], x);
    }
  }

  lemma NoLiteral(s: string, e: Escape, x: string)
    requires Ends(s) && !OpensLiteral(s, e)
    ensures !OpensLiteral(s + x, e)
  {
    var t := s + x;
    assert t[0] == s[0] && (|s| > 1 ==> t[1] == s[1]);
  }

  // ---------- the values of a batch ----------

  predicate NoEnd(ts: seq<Token>) { forall i :: 0 <= i < |ts| ==> ts[i] != Semicolon }

  lemma {:induction false} EndBehind(a: seq<Token>, b: seq<Token>)
    requires NoEnd(a) && OneEnd(b)
    ensures OneEnd(a + b)
    decreases |a|
  {
    if a == [] {
      assert a + b == b;
    } else {
      assert (a + b)[0] == a[0] && (a + b)[1..] == a[1..] + b;
      EndBehind(a[1..], b);
    }
  }

  lemma {:induction false} ValuesHaveNoEnd(row: seq<TypedCell>, e: Escape)
    requires row != []
    ensures NoEnd(ValueTokens(row, e))
  {
    if |row| > 1 { ValuesHaveNoEnd(row[1..], e); }
  }

  lemma RowHasNoEnd(row: seq<TypedCell>, e: Escape)
    ensures NoEnd(RowTokens(row, e)) && NoEnd([Comma])
  {
    if row != [] { ValuesHaveNoEnd(row, e); }
  }

  lemma {:induction false} BodyEnds(rows: seq<seq<TypedCell>>, e: Escape)
    requires rows != []
    ensures OneEnd(BodyTokens(rows, e))
  {
    RowHasNoEnd(rows[0], e);
    if |rows| == 1 {
      EndBehind(RowTokens(rows[0], e), [Semicolon]);
    } else {
      BodyEnds(rows[1..], e);
      EndBehind([Comma], BodyTokens(rows[1..], e));
      EndBehind(RowTokens(rows[0], e), [Comma] + BodyTokens(rows[1..], e));
    }
  }

  function Values(batch: seq<seq<string>>, types: seq<SqlType>, e: Escape): string {
    Join(RowTexts(TypedRows(batch, types), e), ",\n") + ";"
  }

  /** A batch's values are read in the script as its rows, and what follows is left. */
  lemma ValuesReadTo(batch: seq<seq<string>>, types: seq<SqlType>, e: Escape, x: string)
    requires batch != []
    ensures var rows := TypedRows(batch, types);
            LexTo(Values(batch, types, e) + x, e) == Some(Cut(BodyTokens(rows, e), x))
            && ReadRows(BodyTokens(rows, e)) == Some(RowMeanings(rows))
  {
    var rows := TypedRows(batch, types);
    BodyLexes(rows, e);
    BodyReads(rows, e);
    BodyEnds(rows, e);
    LexesTo(Values(batch, types, e), e, BodyTokens(rows, e), x);
  }

  // ---------- the script ----------

  /** Everything of an INSERT before its values; the names in it are unquoted and taken as they are. */
  function Header(table: string, columns: seq<string>): string {
    "INSERT INTO " + table + " (" + Join(columns, ", ") + ")\nVALUES\n"
  }

  const GAP := "\n\n"

  /** The rows of each INSERT of a script, one after the other up to the end. */
  function ReadInserts(s: string, header: string, e: Escape): Option<seq<seq<seq<Literal>>>>
    decreases |s|
  {
    match Expect(s, header)
    case None => None
    case Some(values) =>
      match LexTo(values, e)
      case None => None
      case Some(Cut(ts, rest)) =>
        match ReadRows(ts)
        case None => None
        case Some(rows) =>
          if rest == "" then Some([rows])
          else
            match Expect(rest, GAP)
            case None => None
            case Some(next) => if |next| < |s| then AddBatch(rows, ReadInserts(next, header, e)) else None
  }

  function AddBatch(rows: seq<seq<Literal>>, more: Option<seq<seq<seq<Literal>>>>): Option<seq<seq<seq<Literal>>>> {
    match more
    case None => None
    case Some(batches) => Some([rows] + batches)
  }

  /** The rows of each INSERT of a script that may begin with this CREATE TABLE. */
  function ReadImport(s: string, create: string, header: string, e: Escape): Option<seq<seq<seq<Literal>>>> {
    match Expect(s, create)
    case None => None
    case Some(rest) =>
      if rest == "" then Some([])
      else if create == "" then ReadInserts(rest, header, e)
      else
        match Expect(rest, GAP)
        case None => None
        case Some(inserts) => ReadInserts(inserts, header, e)
  }

  function BatchMeanings(batches: seq<seq<seq<string>>>, types: seq<SqlType>): (r: seq<seq<seq<Literal>>>)
    ensures |r| == |batches|
    ensures forall i :: 0 <= i < |batches| ==> r[i] == RowMeanings(TypedRows(batches[i], types))
  {
    seq(|batches|, i requires 0 <= i < |batches| => RowMeanings(TypedRows(batches[i], types)))
  }

  lemma BatchMeaningsCons(batches: seq<seq<seq<string>>>, types: seq<SqlType>)
    requires batches != []
    ensures BatchMeanings(batches, types) ==
            [RowMeanings(TypedRows(batches[0], types))] + BatchMeanings(batches[1..], types)
  {}

  /** The INSERT texts in a row, the first one in front. */
  function InsertsText(header: string, batches: seq<seq<seq<string>>>, types: seq<SqlType>, e: Escape): string
    requires batches != []
  {
    header + (Values(batches[0], types, e) + if |batches| == 1 then
        "" else GAP + InsertsText(header, batches[1..], types, e))
  }

  lemma OneBatchReads(header: string, batch: seq<seq<string>>, types: seq<SqlType>, e: Escape)
    requires batch != []
    ensures ReadInserts(header + (Values(batch, types, e) + ""), header, e) ==
            Some([RowMeanings(TypedRows(batch, types))])
  {
    Expected(header, Values(batch, types, e) + "");
    ValuesReadTo(batch, types, e, "");
  }

  lemma FirstBatchReads(header: string, batch: seq<seq<string>>, types: seq<SqlType>, e: Escape, more: string)
    requires batch != []
    ensures ReadInserts(header + (Values(batch, types, e) + (GAP + more)), header, e) ==
            AddBatch(RowMeanings(TypedRows(batch, types)), ReadInserts(more, header, e))
  {
    Expected(header, Values(batch, types, e) + (GAP + more));
    ValuesReadTo(batch, types, e, GAP + more);
    Expected(GAP, more);
  }

  lemma {:induction false} InsertsRead(header: string, batches: seq<seq<seq<string>>>, types: seq<SqlType>, e: Escape)
    requires batches != [] && forall i :: 0 <= i < |batches| ==> batches[i] != []
    ensures ReadInserts(InsertsText(header, batches, types, e), header, e) == Some(BatchMeanings(batches, types))
    decreases |batches|
  {
    if |batches| == 1 {
      OneBatchReads(header, batches[0], types, e);
      BatchMeaningsCons(batches, types);
      var first := RowMeanings(TypedRows(batches[0], types));
      assert BatchMeanings(batches[1..], types) == [] && [first] + [] == [first];
    } else {
      InsertsRead(header, batches[1..], types, e);
      BatchMeaningsCons(batches, types);
      FirstBatchReads(header, batches[0], types, e, InsertsText(header, batches[1..], types, e));
    }
  }

  lemma {:induction false} InsertsTextIs(table: string, columns: seq<string>, batches: seq<seq<seq<string>>>,
                                         types: seq<SqlType>, e: Escape)
    requires batches != []
    ensures ScriptText(InsertAll(table, columns, batches, types, e)) ==
            InsertsText(Header(table, columns), batches, types, e)
    decreases |batches|
  {
    var header, inserts := Header(table, columns), InsertAll(table, columns, batches, types, e);
    var values := Values(batches[0], types, e);
    MapTail(StatementText, inserts);
    assert inserts[1..] == InsertAll(table, columns, batches[1..], types, e);
    assert StatementText(inserts[0]) == header + values;
    if |batches| > 1 {
      InsertsTextIs(table, columns, batches[1..], types, e);
      Nest(header, values, GAP, ScriptText(inserts[1..]), "");
    } else {
      assert values + "" == values;
    }
  }

  lemma {:induction false} BatchesFlatten(batches: seq<seq<seq<string>>>, types: seq<SqlType>)
    ensures Flatten(BatchMeanings(batches, types)) == RowMeanings(TypedRows(Flatten(batches), types))
    decreases |batches|
  {
    if batches == [] {
      assert TypedRows([], types) == [];
    } else {
      BatchesFlatten(batches[1..], types);
      assert BatchMeanings(batches, types)[1..] == BatchMeanings(batches[1..], types);
      MeaningsConcat(batches[0], Flatten(batches[1..]), types);
    }
  }

  function CreateText(data: Table, target: Target, mapping: map<string, string>): string {
    ScriptText(Preamble(data, target, mapping))
  }

  /** The script is the CREATE TABLE, if there is one, and the INSERTs. */
  lemma ScriptShape(data: Table, target: Target, mapping: map<string, string>, e: Escape)
    ensures var create, inserts := CreateText(data, target, mapping), Inserts(data, target, mapping, e);
            ScriptText(Preamble(data, target, mapping) + inserts) ==
            if create == "" then ScriptText(inserts) else if inserts == [] then
                create else create + (GAP + ScriptText(inserts))
    ensures CreateText(data, target, mapping) == "" <==> Preamble(data, target, mapping) == []
  {
    var preamble, inserts := Preamble(data, target, mapping), Inserts(data, target, mapping, e);
    if preamble == [] {
      assert preamble + inserts == inserts;
    } else {
      var all := preamble + inserts;
      assert Map(StatementText, preamble) == [StatementText(preamble[0])];
      MapTail(StatementText, all);
      assert all[1..] == inserts;
      Regroup(StatementText(preamble[0]), GAP, ScriptText(inserts));
    }
  }

  /** The meaning of the generated script: read as one text, up to the unquoted names in front of each
      statement's values, it is the CREATE TABLE, if the target is new, and INSERTs of 1 to 100 rows that
      together insert every parsed row once and in order. No cell ends a statement or starts another. */
  lemma ScriptInsertsEveryRow(data: Table, target: Target, mapping: map<string, string>, dialect: Option<Dialect>,
                              caps: Option<Capabilities>)
    requires ImportSpec(Some(data), Some(target), mapping, dialect, caps).Script?
    ensures var sql := ScriptText(ImportSpec(Some(data), Some(target), mapping, dialect, caps).statements);
            var header := Header(TargetName(target), MappedHeaders(data.headers, mapping));
            var batches := ReadImport(sql, CreateText(data, target, mapping), header, EscapeOf(dialect));
            && batches.Some?
            && Flatten(batches.value) == RowMeanings(TypedRows(data.rows, ColumnTypes(|data.headers|, data.rows)))
            && forall i :: 0 <= i < |batches.value| ==> 1 <= |batches.value[i]| <= BATCH_SIZE
  {
    var types, e := ColumnTypes(|data.headers|, data.rows), EscapeOf(dialect);
    var table, columns := TargetName(target), MappedHeaders(data.headers, mapping);
    var batches := Batches(data.rows);
    BatchesCover(data.rows);
    BatchesFlatten(batches, types);
    ScriptShape(data, target, mapping, e);
    ImportReads(CreateText(data, target, mapping), table, columns, batches, types, e);
  }

  function Joined(create: string, inserts: string): string {
    if create == "" then inserts else if inserts == "" then create else create + (GAP + inserts)
  }

  lemma ImportReads(create: string, table: string, columns: seq<string>, batches: seq<seq<seq<string>>>,
                    types: seq<SqlType>, e: Escape)
    requires forall i :: 0 <= i < |batches| ==> batches[i] != []
    ensures ReadImport(Joined(create, ScriptText(InsertAll(table, columns, batches, types, e))), create,
            Header(table, columns), e) ==
            Some(BatchMeanings(batches, types))
  {
    var header, inserts := Header(table, columns), ScriptText(InsertAll(table, columns, batches, types, e));
    if batches == [] {
      assert InsertAll(table, columns, batches, types, e) == [];
      Expected(create, "");
      assert create + "" == create;
    } else {
      InsertsTextIs(table, columns, batches, types, e);
      InsertsRead(header, batches, types, e);
      assert inserts != "";
      if create == "" {
        Expected("", inserts);
        assert "" + inserts == inserts;
      } else {
        Expected(create, GAP + inserts);
        Expected(GAP, inserts);
      }
    }
  }
}
