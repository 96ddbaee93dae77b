/** The statements an import generates from a parsed file, and what an engine makes of them. */
module ImportSql {
  import opened Text
  import opened Literals

  // ---------- value shapes and column types ----------

  function SkipMinus(s: string): string { if s != "" && s[0] == '-' then s[1..] else s }

  /** `^-?\d+$` */
  predicate IntegerValue(s: string) { AllDigits(SkipMinus(s)) }

  /** `\d+(\.\d+)?$` */
  predicate UnsignedNumeric(s: string) {
    AllDigits(s) || exists i :: 0 < i < |s| && s[i] == '.' && AllDigits(s[..i]) && AllDigits(s[i + 1..])
  }

  /** `^-?\d+(\.\d+)?$` */
  predicate NumericValue(s: string) { UnsignedNumeric(SkipMinus(s)) }

  /** `^(true|false|0|1)$`, ignoring case. */
  predicate BooleanValue(s: string) { Truthy(s) || Upper(s) == "FALSE" || s == "0" }

  predicate Truthy(s: string) { Upper(s) == "TRUE" || s == "1" }

  predicate NullValue(s: string) { s == "" || s == "NULL" || s == "null" }

  datatype SqlType = TextType | IntegerType | NumericType | BooleanType

  /** The sampled values of one column; a row that is too short has none there. */
  function Sample(rows: seq<seq<string>>, column: nat): (r: seq<Option<string>>)
    ensures |r| == |rows| && forall i :: 0 <= i < |rows| ==>
              r[i] == if column < |rows[i]| then Some(rows[i][column]) else None
  {
    seq(|rows|, i requires 0 <= i < |rows| => if column < |rows[i]| then Some(rows[i][column]) else None)
  }

  predicate Every(values: seq<Option<string>>, shape: string -> bool) {
    forall i :: 0 <= i < |values| && values[i] != Some("") ==> values[i].Some? && shape(values[i].value)
  }

  function InferSqlType(values: seq<Option<string>>): SqlType {
    if forall i :: 0 <= i < |values| ==> values[i] == Some("") then TextType
    else if Every(values, IntegerValue) then IntegerType
    else if Every(values, NumericValue) then NumericType
    else if Every(values, BooleanValue) then BooleanType
    else TextType
  }

  const SAMPLE_SIZE := 100
  const BATCH_SIZE := 100

  function Take<T>(xs: seq<T>, n: nat): seq<T> { if |xs| <= n then xs else xs[..n] }

  /** One type per column, from the first 100 rows. */
  function ColumnTypes(columns: nat, rows: seq<seq<string>>): (r: seq<SqlType>)
    ensures |r| == columns
  {
    seq(columns, c requires 0 <= c < columns => InferSqlType(Sample(Take(rows, SAMPLE_SIZE), c)))
  }

  // ---------- writing ----------

  /** The literal a cell is written as, tested again against its column's type. */
  function RenderCell(val: string, ty: Option<SqlType>, e: Escape): string {
    if NullValue(val) then "NULL"
    else if ty == Some(BooleanType) && BooleanValue(val) then (if Truthy(val) then "TRUE" else "FALSE")
    else if ty == Some(IntegerType) && IntegerValue(val) then val
    else if ty == Some(NumericType) && NumericValue(val) then val
    else QuoteLiteral(val, e)
  }

  /** A cell with its column's type; a cell beyond the header has none. */
  datatype TypedCell = TypedCell(val: string, ty: Option<SqlType>)

  function TypedRow(row: seq<string>, types: seq<SqlType>): (r: seq<TypedCell>)
    ensures |r| == |row|
    ensures forall i :: 0 <= i < |row| ==> r[i] == TypedCell(row[i], if i < |types| then Some(types[i]) else None)
  {
    seq(|row|, i requires 0 <= i < |row| => TypedCell(row[i], if i < |types| then Some(types[i]) else None))
  }

  function TypedRows(rows: seq<seq<string>>, types: seq<SqlType>): (r: seq<seq<TypedCell>>)
    ensures |r| == |rows| && forall i :: 0 <= i < |rows| ==> r[i] == TypedRow(rows[i], types)
  {
    seq(|rows|, i requires 0 <= i < |rows| => TypedRow(rows[i], types))
  }

  function CellTexts(row: seq<TypedCell>, e: Escape): (r: seq<string>)
    ensures |r| == |row| && forall i :: 0 <= i < |row| ==> r[i] == RenderCell(row[i].val, row[i].ty, e)
  {
    seq(|row|, i requires 0 <= i < |row| => RenderCell(row[i].val, row[i].ty, e))
  }

  function RowText(row: seq<TypedCell>, e: Escape): string {
    "  (" + (Join(CellTexts(row, e), ", ") + ")")
  }

  function RowTexts(rows: seq<seq<TypedCell>>, e: Escape): (r: seq<string>)
    ensures |r| == |rows| && forall i :: 0 <= i < |rows| ==> r[i] == RowText(rows[i], e)
  {
    seq(|rows|, i requires 0 <= i < |rows| => RowText(rows[i], e))
  }

  /** `values` is the text after the VALUES keyword, through the closing semicolon. */
  datatype Statement =
    | CreateTable(table: string, definitions: seq<string>)
    | Insert(table: string, columns: seq<string>, values: string)
  {
    function Text(): string {
      match this
      case CreateTable(t, defs) => "CREATE TABLE " + t + " (\n" + Join(defs, ",\n") + "\n);"
      case Insert(t, cols, vals) => "INSERT INTO " + t + " (" + Join(cols, ", ") + ")\nVALUES\n" + vals
    }
  }

  function InsertBatch(table: string, columns: seq<string>, batch: seq<seq<string>>, types: seq<SqlType>,
                       e: Escape): Statement {
    Insert(table, columns, Join(RowTexts(TypedRows(batch, types), e), ",\n") + ";")
  }

  /** Rows cut into runs of at most 100. */
  function Batches(rows: seq<seq<string>>): (r: seq<seq<seq<string>>>) {
    if rows == [] then [] else [Take(rows, BATCH_SIZE)] + Batches(rows[|Take(rows, BATCH_SIZE)|..])
  }

  function InsertAll(table: string, columns: seq<string>, batches: seq<seq<seq<string>>>, types: seq<SqlType>,
                     e: Escape): (r: seq<Statement>)
    ensures |r| == |batches|
    ensures forall i :: 0 <= i < |batches| ==> r[i] == InsertBatch(table, columns, batches[i], types, e)
  {
    seq(|batches|, i requires 0 <= i < |batches| => InsertBatch(table, columns, batches[i], types, e))
  }

  /** An existing object is given as the statement spells it; a new table as the operator typed it. */
  datatype Target = Existing(spelled: string) | NewTable(name: string)

  /** What the provider declares: whether it can create a table, and whether any kind of object takes rows. */
  datatype Capabilities = Capabilities(supportsCreateTable: Option<bool>, acceptsRowWrites: bool)

  predicate OffersNewTable(caps: Option<Capabilities>) {
    caps == None || caps.value.supportsCreateTable != Some(false)
  }

  predicate RefusesImports(caps: Option<Capabilities>) {
    !OffersNewTable(caps) && !caps.value.acceptsRowWrites
  }

  datatype Import = Nothing | Refused | Script(statements: seq<Statement>)

  function TargetName(target: Target): string {
    match target
    case Existing(spelled) => spelled
    case NewTable(name) => if name == "" then "imported_data" else name
  }

  /** The one key an assignment to a plain object does not create; read without an entry it gives the
      prototype, which is spelled as an object. */
  const PROTO := "__proto__"
  const OBJECT_TEXT := "[object Object]"

  /** The target column typed for a header, or the header itself. */
  function Mapped(header: string, mapping: map<string, string>): string {
    if header in mapping then (if mapping[header] != "" then mapping[header] else header)
    else if header == PROTO then OBJECT_TEXT
    else header
  }

  function MappedHeaders(headers: seq<string>, mapping: map<string, string>): (r: seq<string>)
    ensures |r| == |headers| && forall i :: 0 <= i < |headers| ==> r[i] == Mapped(headers[i], mapping)
  {
    seq(|headers|, i requires 0 <= i < |headers| => Mapped(headers[i], mapping))
  }

  function TypeName(t: SqlType): string {
    match t
    case TextType => "TEXT"
    case IntegerType => "INTEGER"
    case NumericType => "NUMERIC"
    case BooleanType => "BOOLEAN"
  }

  function ColumnDefinitions(columns: seq<string>, types: seq<SqlType>): (r: seq<string>)
    requires |columns| == |types|
    ensures |r| == |columns| && forall i :: 0 <= i < |columns| ==> r[i] == "  " + columns[i] + " " + TypeName(types[i])
  {
    seq(|columns|, i requires 0 <= i < |columns| => "  " + columns[i] + " " + TypeName(types[i]))
  }

  datatype Table = Table(headers: seq<string>, rows: seq<seq<string>>)

  /** The statements before the INSERTs. */
  function Preamble(data: Table, target: Target, mapping: map<string, string>): seq<Statement> {
    if target.Existing? then []
    else [CreateTable(TargetName(target),
        ColumnDefinitions(MappedHeaders(data.headers, mapping), ColumnTypes(|data.headers|, data.rows)))]
  }

  function Inserts(data: Table, target: Target, mapping: map<string, string>, e: Escape): seq<Statement> {
    InsertAll(TargetName(target), MappedHeaders(data.headers, mapping), Batches(data.rows),
        ColumnTypes(|data.headers|, data.rows), e)
  }

  function ImportSpec(parsed: Option<Table>, target: Option<Target>, mapping: map<string, string>,
                      dialect: Option<Dialect>, caps: Option<Capabilities>): Import
  {
    if parsed == None || target == None then Nothing
    else if RefusesImports(caps) || (target.value.NewTable? && !OffersNewTable(caps)) then Refused
    else Script(Preamble(parsed.value, target.value, mapping)
                + Inserts(parsed.value, target.value, mapping, EscapeOf(dialect)))
  }

  function Min(a: nat, b: nat): nat { if a < b then a else b }

  /** The INSERT statements still to be generated from row `i` on. */
  function InsertsFrom(table: string, columns: seq<string>, rows: seq<seq<string>>, i: nat, types: seq<SqlType>,
                       e: Escape): seq<Statement> {
    InsertAll(table, columns, Batches(rows[Min(i, |rows|)..]), types, e)
  }

  lemma NextBatch(rows: seq<seq<string>>, i: nat)
    requires i < |rows|
    ensures Batches(rows[i..])
         == [rows[i..Min(i + BATCH_SIZE, |rows|)]] + Batches(rows[Min(i + BATCH_SIZE, |rows|)..])
  {
    var next := Min(i + BATCH_SIZE, |rows|);
    assert rows[i..next] == Take(rows[i..], BATCH_SIZE);
    assert rows[i..][next - i..] == rows[next..];
  }

  lemma InsertAllCons(table: string, columns: seq<string>, batch: seq<seq<string>>, batches: seq<seq<seq<string>>>,
                      types: seq<SqlType>, e: Escape)
    ensures InsertAll(table, columns, [batch] + batches, types, e)
         == [InsertBatch(table, columns, batch, types, e)] + InsertAll(table, columns, batches, types, e)
  {}

  lemma FirstInsert(table: string, columns: seq<string>, rows: seq<seq<string>>, types: seq<SqlType>, e: Escape)
    ensures InsertsFrom(table, columns, rows, 0, types, e) == InsertAll(table, columns, Batches(rows), types, e)
  {
    assert rows[0..] == rows;
  }

  lemma NextInsert(table: string, columns: seq<string>, rows: seq<seq<string>>, i: nat, types: seq<SqlType>, e: Escape)
    requires i < |rows|
    ensures InsertsFrom(table, columns, rows, i, types, e)
         == [InsertBatch(table, columns, rows[i..Min(i + BATCH_SIZE, |rows|)], types, e)]
              + InsertsFrom(table, columns, rows, i + BATCH_SIZE, types, e)
  {
    var next := Min(i + BATCH_SIZE, |rows|);
    NextBatch(rows, i);
    InsertAllCons(table, columns, rows[i..next], Batches(rows[next..]), types, e);
  }

  lemma NoInsertLeft(table: string, columns: seq<string>, rows: seq<seq<string>>, i: nat, types: seq<SqlType>,
                     e: Escape)
    requires i >= |rows|
    ensures InsertsFrom(table, columns, rows, i, types, e) == []
  {}

  /** The batch loop of `generateImportSQL`. */
  method InsertLoop(table: string, columns: seq<string>, rows: seq<seq<string>>, types: seq<SqlType>, e: Escape,
                    prefix: seq<Statement>)
    returns (statements: seq<Statement>)
    ensures statements == prefix + InsertAll(table, columns, Batches(rows), types, e)
  {
    statements := prefix;
    var i := 0;
    FirstInsert(table, columns, rows, types, e);
    ghost var all := prefix + InsertAll(table, columns, Batches(rows), types, e);
    while i < |rows|
      invariant statements + InsertsFrom(table, columns, rows, i, types, e) == all
    {
      var batch := rows[i..Min(i + BATCH_SIZE, |rows|)];
      NextInsert(table, columns, rows, i, types, e);
      Regroup(statements, [InsertBatch(table, columns, batch, types, e)],
              InsertsFrom(table, columns, rows, i + BATCH_SIZE, types, e));
      statements := statements + [InsertBatch(table, columns, batch, types, e)];
      i := i + BATCH_SIZE;
    }
    NoInsertLeft(table, columns, rows, i, types, e);
  }

  method GenerateImport(parsed: Option<Table>, target: Option<Target>, mapping: map<string, string>,
                        dialect: Option<Dialect>, caps: Option<Capabilities>) returns (r: Import)
    ensures r == ImportSpec(parsed, target, mapping, dialect, caps)
  {
    if parsed == None || target == None {
      return Nothing;
    }
    if RefusesImports(caps) || (target.value.NewTable? && !OffersNewTable(caps)) {
      return Refused;
    }
    var name, rows := TargetName(target.value), parsed.value.rows;
    var types := ColumnTypes(|parsed.value.headers|, rows);
    var columns := MappedHeaders(parsed.value.headers, mapping);
    var statements: seq<Statement> := [];
    if target.value.NewTable? {
      statements := statements + [CreateTable(name, ColumnDefinitions(columns, types))];
    }
    assert statements == Preamble(parsed.value, target.value, mapping);
    statements := InsertLoop(name, columns, rows, types, EscapeOf(dialect), statements);
    r := Script(statements);
  }

  // ---------- reading: the engine's tokens ----------

  datatype Token = LParen | RParen | Comma | Semicolon | Word(text: string) | Str(value: string)

  predicate WordChar(c: char) {
    !IsSpace(c) && c != '(' && c != ')' && c != ',' && c != ';' && c != QUOTE
  }

  function WordRun(s: string): (n: nat)
    ensures n <= |s|
  {
    if s != "" && WordChar(s[0]) then 1 + WordRun(s[1..]) else 0
  }

  function Push(t: Token, r: Option<seq<Token>>): Option<seq<Token>> {
    match r
    case None => None
    case Some(ts) => Some([t] + ts)
  }

  predicate OpensLiteral(s: string, e: Escape) {
    s != "" && (s[0] == QUOTE || (e.Unicode? && s[0] == 'N' && |s| > 1 && s[1] == QUOTE))
  }

  function Lex(s: string, e: Escape): Option<seq<Token>>
    decreases |s|
  {
    if s == "" then Some([])
    else if IsSpace(s[0]) then Lex(s[1..], e)
    else if s[0] == '(' then Push(LParen, Lex(s[1..], e))
    else if s[0] == ')' then Push(RParen, Lex(s[1..], e))
    else if s[0] == ',' then Push(Comma, Lex(s[1..], e))
    else if s[0] == ';' then Push(Semicolon, Lex(s[1..], e))
    else if OpensLiteral(s, e) then
      match ReadLiteral(s, e)
      case None => None
      case Some(Read(v, rest)) => Push(Str(v), Lex(rest, e))
    else Push(Word(s[..WordRun(s)]), Lex(s[WordRun(s)..], e))
  }

  /** What a value position may hold. */
  datatype Literal = LNull | LBool(b: bool) | LNumber(text: string) | LString(value: string)

  function TokenLiteral(t: Token): Option<Literal> {
    match t
    case Word(text) =>
      if text == "NULL" then Some(LNull)
      else if text == "TRUE" then Some(LBool(true))
      else if text == "FALSE" then Some(LBool(false))
      else if NumericValue(text) then Some(LNumber(text))
      else None
    case Str(v) => Some(LString(v))
    case _ => None
  }

  datatype Row = Row(values: seq<Literal>, rest: seq<Token>)

  function ReadValues(ts: seq<Token>): (r: Option<Row>)
    ensures r.Some? ==> |r.value.rest| < |ts|
  {
    if |ts| < 2 || TokenLiteral(ts[0]) == None then None
    else if ts[1] == RParen then Some(Row([TokenLiteral(ts[0]).value], ts[2..]))
    else if ts[1] == Comma then
      match ReadValues(ts[2..])
      case None => None
      case Some(Row(vs, rest)) => Some(Row([TokenLiteral(ts[0]).value] + vs, rest))
    else None
  }

  function ReadRow(ts: seq<Token>): (r: Option<Row>)
    ensures r.Some? ==> |r.value.rest| < |ts|
  {
    if |ts| < 2 || ts[0] != LParen then None
    else if ts[1] == RParen then Some(Row([], ts[2..]))
    else ReadValues(ts[1..])
  }

  /** One or more rows, then the semicolon that ends the statement and the text. */
  function ReadRows(ts: seq<Token>): Option<seq<seq<Literal>>>
    decreases |ts|
  {
    match ReadRow(ts)
    case None => None
    case Some(Row(vs, rest)) =>
      if rest == [Semicolon] then Some([vs])
      else if |rest| > 1 && rest[0] == Comma then
        match ReadRows(rest[1..])
        case None => None
        case Some(more) => Some([vs] + more)
      else None
  }

  /** The rows one INSERT adds. */
  function InsertedBy(values: string, e: Escape): Option<seq<seq<Literal>>> {
    match Lex(values, e)
    case None => None
    case Some(ts) => ReadRows(ts)
  }

  /** The rows a script adds, in order; none if some statement cannot be read. */
  function Inserted(statements: seq<Statement>, e: Escape): Option<seq<seq<Literal>>> {
    if statements == [] then Some([])
    else
      var first := if statements[0].Insert? then InsertedBy(statements[0].values, e) else Some([]);
      var more := Inserted(statements[1..], e);
      if first.Some? && more.Some? then Some(first.value + more.value) else None
  }

  // ---------- what a cell means ----------

  /** A literal says what the file says: nothing, a truth value, the written number or the text. */
  predicate Denotes(l: Literal, val: string) {
    match l
    case LNull => NullValue(val)
    case LBool(b) => !NullValue(val) && BooleanValue(val) && (b <==> Truthy(val))
    case LNumber(text) => !NullValue(val) && NumericValue(val) && text == val
    case LString(v) => !NullValue(val) && v == val
  }

  /** A literal of the column's own type. */
  predicate OfType(l: Literal, ty: SqlType) {
    match l
    case LNull => true
    case LBool(_) => ty == BooleanType
    case LNumber(text) => ty == NumericType || (ty == IntegerType && IntegerValue(text))
    case LString(_) => ty == TextType
  }

  function Meaning(val: string, ty: Option<SqlType>): Literal {
    if NullValue(val) then LNull
    else if ty == Some(BooleanType) && BooleanValue(val) then LBool(Truthy(val))
    else if (ty == Some(IntegerType) && IntegerValue(val)) ||
        (ty == Some(NumericType) && NumericValue(val)) then LNumber(val)
    else LString(val)
  }

  function RowMeaning(row: seq<TypedCell>): (r: seq<Literal>)
    ensures |r| == |row| && forall i :: 0 <= i < |row| ==> r[i] == Meaning(row[i].val, row[i].ty)
  {
    seq(|row|, i requires 0 <= i < |row| => Meaning(row[i].val, row[i].ty))
  }

  function RowMeanings(rows: seq<seq<TypedCell>>): (r: seq<seq<Literal>>)
    ensures |r| == |rows| && forall i :: 0 <= i < |rows| ==> r[i] == RowMeaning(rows[i])
  {
    seq(|rows|, i requires 0 <= i < |rows| => RowMeaning(rows[i]))
  }

  // ---------- one cell is one token ----------

  predicate Delimited(rest: string) { rest != "" && (rest[0] == ',' || rest[0] == ')') }

  lemma {:induction false} WordRunStops(w: string, rest: string)
    requires forall i :: 0 <= i < |w| ==> WordChar(w[i])
    requires rest == "" || !WordChar(rest[0])
    ensures WordRun(w + rest) == |w|
  {
    if w == "" {
      assert w + rest == rest;
    } else {
      Uncons(w);
      Regroup([w[0]], w[1..], rest);
      Cons(w[0], w[1..] + rest);
      WordRunStops(w[1..], rest);
    }
  }

  lemma WordLexes(w: string, rest: string, e: Escape)
    requires w != "" && forall i :: 0 <= i < |w| ==> WordChar(w[i])
    requires Delimited(rest)
    ensures Lex(w + rest, e) == Push(Word(w), Lex(rest, e))
  {
    WordRunStops(w, rest);
    var s := w + rest;
    assert s[..|w|] == w && s[|w|..] == rest;
    assert s[0] == w[0] && |s| > 1 && s[1] != QUOTE;
  }

  lemma NumericIsWord(s: string)
    requires NumericValue(s)
    ensures s != "" && forall i :: 0 <= i < |s| ==> WordChar(s[i])
    ensures s != "NULL" && s != "TRUE" && s != "FALSE"
  {
    var t := SkipMinus(s);
    forall i | 0 <= i < |t| ensures IsDigit(t[i]) || t[i] == '.' {
      if !AllDigits(t) {
        var k :| 0 < k < |t| && t[k] == '.' && AllDigits(t[..k]) && AllDigits(t[k + 1..]);
        assert i < k ==> t[i] == t[..k][i];
        assert i > k ==> t[i] == t[k + 1..][i - k - 1];
      }
    }
    assert t != "";
    assert s == t || s == ['-'] + t;
    assert IsDigit(s[0]) || s[0] == '-' || s[0] == '.';
  }

  lemma LiteralLexes(val: string, rest: string, e: Escape)
    requires Delimited(rest)
    ensures Lex(QuoteLiteral(val, e) + rest, e) == Push(Str(val), Lex(rest, e))
  {
    QuotedValueIsOneToken(val, e, rest);
  }

  function CellToken(c: TypedCell, e: Escape): Token {
    if Meaning(c.val, c.ty).LString? then Str(c.val) else Word(RenderCell(c.val, c.ty, e))
  }

  lemma TokenMeans(c: TypedCell, e: Escape)
    ensures TokenLiteral(CellToken(c, e)) == Some(Meaning(c.val, c.ty))
  {
    if Meaning(c.val, c.ty).LNumber? { NumericIsWord(c.val); }
  }

  /** Whatever the cell holds, its text is lexed as one token. */
  lemma CellLexes(c: TypedCell, e: Escape, rest: string)
    requires Delimited(rest)
    ensures Lex(RenderCell(c.val, c.ty, e) + rest, e) == Push(CellToken(c, e), Lex(rest, e))
  {
    if Meaning(c.val, c.ty).LString? {
      LiteralLexes(c.val, rest, e);
    } else {
      if Meaning(c.val, c.ty).LNumber? { NumericIsWord(c.val); }
      WordLexes(RenderCell(c.val, c.ty, e), rest, e);
    }
  }

  // ---------- rows, statements, scripts ----------

  function Append(ts: seq<Token>, r: Option<seq<Token>>): Option<seq<Token>> {
    match r
    case None => None
    case Some(more) => Some(ts + more)
  }

  lemma AppendTwice(a: seq<Token>, b: seq<Token>, r: Option<seq<Token>>)
    ensures Append(a, Append(b, r)) == Append(a + b, r)
  {
    if r.Some? { assert a + b + r.value == a + (b + r.value); }
  }

  /** The values of one row with their separators, through the closing parenthesis. */
  function ValueTokens(row: seq<TypedCell>, e: Escape): seq<Token>
    requires row != []
  {
    if |row| == 1 then [CellToken(row[0], e), RParen]
    else [CellToken(row[0], e), Comma] + ValueTokens(row[1..], e)
  }

  function RowTokens(row: seq<TypedCell>, e: Escape): seq<Token> {
    [LParen] + if row == [] then [RParen] else ValueTokens(row, e)
  }

  lemma LexSpace(c: char, rest: string, e: Escape)
    requires IsSpace(c)
    ensures Lex([c] + rest, e) == Lex(rest, e)
  {
    Cons(c, rest);
  }

  lemma LexMark(c: char, t: Token, rest: string, e: Escape)
    requires (c, t) in {('(', LParen), (')', RParen), (',', Comma), (';', Semicolon)}
    ensures Lex([c] + rest, e) == Push(t, Lex(rest, e))
  {
    Cons(c, rest);
  }

  lemma PushIsAppend(t: Token, ts: seq<Token>, r: Option<seq<Token>>)
    ensures Push(t, Append(ts, r)) == Append([t] + ts, r)
  {
    AppendTwice([t], ts, r);
  }

  /** The text of a row's values, from the first cell through the closing parenthesis. */
  function ValuesText(row: seq<TypedCell>, e: Escape, rest: string): string
    requires row != []
  {
    RenderCell(row[0].val, row[0].ty, e)
    + if |row| == 1 then [')'] + rest else [','] + ([' '] + ValuesText(row[1..], e, rest))
  }

  lemma {:induction false} JoinedValues(row: seq<TypedCell>, e: Escape, rest: string)
    requires row != []
    ensures Join(CellTexts(row, e), ", ") + ([')'] + rest) == ValuesText(row, e, rest)
  {
    if |row| == 1 {
      assert CellTexts(row, e) == [RenderCell(row[0].val, row[0].ty, e)];
      assert Join(CellTexts(row, e), ", ") == RenderCell(row[0].val, row[0].ty, e);
      assert ValuesText(row, e, rest) == RenderCell(row[0].val, row[0].ty, e) + ([')'] + rest);
    } else {
      JoinedValues(row[1..], e, rest);
      assert CellTexts(row, e)[1..] == CellTexts(row[1..], e);
      var text, tail := RenderCell(row[0].val, row[0].ty, e), Join(CellTexts(row[1..], e), ", ");
      Regroup4(text, ", ", tail, [')'] + rest);
      Regroup([','], [' '], tail + ([')'] + rest));
      assert [','] + [' '] == ", ";
      Regroup(", ", tail, [')'] + rest);
    }
  }

  lemma {:induction false} ValuesLex(row: seq<TypedCell>, e: Escape, rest: string)
    requires row != []
    ensures Lex(ValuesText(row, e, rest), e) == Append(ValueTokens(row, e), Lex(rest, e))
  {
    if |row| == 1 {
      CellLexes(row[0], e, [')'] + rest);
      LexMark(')', RParen, rest, e);
      AppendTwice([CellToken(row[0], e)], [RParen], Lex(rest, e));
      assert [CellToken(row[0], e)] + [RParen] == ValueTokens(row, e);
    } else {
      ValuesLex(row[1..], e, rest);
      var tail := ValuesText(row[1..], e, rest);
      CellLexes(row[0], e, [','] + ([' '] + tail));
      LexMark(',', Comma, [' '] + tail, e);
      LexSpace(' ', tail, e);
      PushIsAppend(Comma, ValueTokens(row[1..], e), Lex(rest, e));
      PushIsAppend(CellToken(row[0], e), [Comma] + ValueTokens(row[1..], e), Lex(rest, e));
      assert [CellToken(row[0], e)] + ([Comma] + ValueTokens(row[1..], e)) == ValueTokens(row, e);
    }
  }

  lemma RowTextShape(row: seq<TypedCell>, e: Escape, rest: string)
    ensures RowText(row, e) + rest
         == [' '] + ([' '] + (['('] + if row == [] then [')'] + rest else ValuesText(row, e, rest)))
  {
    var inner := Join(CellTexts(row, e), ", ");
    assert RowText(row, e) + rest == [' '] + ([' '] + (['('] + (inner + ([')'] + rest))));
    if row == [] {
      assert inner + ([')'] + rest) == [')'] + rest;
    } else {
      JoinedValues(row, e, rest);
    }
  }

  lemma RowLexes(row: seq<TypedCell>, e: Escape, rest: string)
    ensures Lex(RowText(row, e) + rest, e) == Append(RowTokens(row, e), Lex(rest, e))
  {
    var inner := if row == [] then [')'] + rest else ValuesText(row, e, rest);
    RowTextShape(row, e, rest);
    LexSpace(' ', [' '] + (['('] + inner), e);
    LexSpace(' ', ['('] + inner, e);
    LexMark('(', LParen, inner, e);
    if row == [] {
      LexMark(')', RParen, rest, e);
      AppendTwice([LParen], [RParen], Lex(rest, e));
    } else {
      ValuesLex(row, e, rest);
      PushIsAppend(LParen, ValueTokens(row, e), Lex(rest, e));
    }
  }

  lemma ReadLast(t: Token, more: seq<Token>)
    requires TokenLiteral(t).Some?
    ensures ReadValues([t, RParen] + more) == Some(Row([TokenLiteral(t).value], more))
  {
    assert ([t, RParen] + more)[2..] == more;
  }

  lemma ReadNext(t: Token, more: seq<Token>, row: Row)
    requires TokenLiteral(t).Some? && ReadValues(more) == Some(row)
    ensures ReadValues([t, Comma] + more) == Some(Row([TokenLiteral(t).value] + row.values, row.rest))
  {
    assert ([t, Comma] + more)[2..] == more;
  }

  lemma ValueTokensCons(row: seq<TypedCell>, e: Escape, more: seq<Token>)
    requires row != []
    ensures |row| == 1 ==> ValueTokens(row, e) + more == [CellToken(row[0], e), RParen] + more
    ensures |row| > 1 ==>
              ValueTokens(row, e) + more == [CellToken(row[0], e), Comma] + (ValueTokens(row[1..], e) + more)
  {
    if |row| > 1 { Regroup([CellToken(row[0], e), Comma], ValueTokens(row[1..], e), more); }
  }

  lemma RowMeaningCons(row: seq<TypedCell>)
    requires row != []
    ensures |row| == 1 ==> RowMeaning(row) == [Meaning(row[0].val, row[0].ty)]
    ensures RowMeaning(row) == [Meaning(row[0].val, row[0].ty)] + RowMeaning(row[1..])
  {}

  lemma {:induction false} ValuesRead(row: seq<TypedCell>, e: Escape, more: seq<Token>)
    requires row != []
    ensures ReadValues(ValueTokens(row, e) + more) == Some(Row(RowMeaning(row), more))
  {
    TokenMeans(row[0], e);
    ValueTokensCons(row, e, more);
    RowMeaningCons(row);
    if |row| == 1 {
      ReadLast(CellToken(row[0], e), more);
    } else {
      ValuesRead(row[1..], e, more);
      ReadNext(CellToken(row[0], e), ValueTokens(row[1..], e) + more, Row(RowMeaning(row[1..]), more));
    }
  }

  lemma BehindParen(ts: seq<Token>)
    ensures ([LParen] + ts)[1..] == ts && forall i :: 0 <= i < |ts| ==> ([LParen] + ts)[i + 1] == ts[i]
  {}

  lemma RowReads(row: seq<TypedCell>, e: Escape, more: seq<Token>)
    ensures ReadRow(RowTokens(row, e) + more) == Some(Row(RowMeaning(row), more))
  {
    if row == [] {
      assert (RowTokens(row, e) + more)[2..] == more;
    } else {
      ValuesRead(row, e, more);
      ValueTokensCons(row, e, more);
      Regroup([LParen], ValueTokens(row, e), more);
      TokenMeans(row[0], e);
      BehindParen(ValueTokens(row, e) + more);
    }
  }

  function BodyTokens(rows: seq<seq<TypedCell>>, e: Escape): seq<Token>
    requires rows != []
  {
    if |rows| == 1 then RowTokens(rows[0], e) + [Semicolon]
    else RowTokens(rows[0], e) + ([Comma] + BodyTokens(rows[1..], e))
  }

  lemma {:induction false} BodyLexes(rows: seq<seq<TypedCell>>, e: Escape)
    requires rows != []
    ensures Lex(Join(RowTexts(rows, e), ",\n") + ";", e) == Some(BodyTokens(rows, e))
  {
    if |rows| == 1 {
      RowLexes(rows[0], e, ";");
      LexMark(';', Semicolon, "", e);
      assert [';'] + "" == ";" && [Semicolon] + [] == [Semicolon];
      assert Join(RowTexts(rows, e), ",\n") == RowText(rows[0], e);
      assert BodyTokens(rows, e) == RowTokens(rows[0], e) + [Semicolon];
    } else {
      BodyLexes(rows[1..], e);
      assert RowTexts(rows, e)[1..] == RowTexts(rows[1..], e);
      var tail := Join(RowTexts(rows[1..], e), ",\n");
      Regroup4(RowText(rows[0], e), ",\n", tail, ";");
      Regroup(",\n", tail, ";");
      Regroup([','], ['\n'], tail + ";");
      assert [','] + ['\n'] == ",\n";
      RowLexes(rows[0], e, [','] + (['\n'] + (tail + ";")));
      LexMark(',', Comma, ['\n'] + (tail + ";"), e);
      LexSpace('\n', tail + ";", e);
    }
  }

  lemma {:induction false} BodyReads(rows: seq<seq<TypedCell>>, e: Escape)
    requires rows != []
    ensures ReadRows(BodyTokens(rows, e)) == Some(RowMeanings(rows))
  {
    if |rows| == 1 {
      RowReads(rows[0], e, [Semicolon]);
      assert RowMeanings(rows) == [RowMeaning(rows[0])];
    } else {
      BodyReads(rows[1..], e);
      RowReads(rows[0], e, [Comma] + BodyTokens(rows[1..], e));
      assert RowMeanings(rows) == [RowMeaning(rows[0])] + RowMeanings(rows[1..]);
    }
  }

  /** One INSERT adds exactly its batch. */
  lemma BatchInserts(table: string, columns: seq<string>, batch: seq<seq<string>>, types: seq<SqlType>, e: Escape)
    requires batch != []
    ensures InsertedBy(InsertBatch(table, columns, batch, types, e).values, e) ==
            Some(RowMeanings(TypedRows(batch, types)))
  {
    BodyLexes(TypedRows(batch, types), e);
    BodyReads(TypedRows(batch, types), e);
  }

  /** The batches are the rows, in order, in runs of 1 to 100. */
  lemma {:induction false} BatchesCover(rows: seq<seq<string>>)
    ensures Flatten(Batches(rows)) == rows
    ensures forall i :: 0 <= i < |Batches(rows)| ==> 1 <= |Batches(rows)[i]| <= BATCH_SIZE
  {
    if rows != [] {
      var first := Take(rows, BATCH_SIZE);
      BatchesCover(rows[|first|..]);
      assert ([first] + Batches(rows[|first|..]))[1..] == Batches(rows[|first|..]);
      assert first + rows[|first|..] == rows;
    }
  }

  lemma {:induction false} InsertsAdd(table: string, columns: seq<string>, batches: seq<seq<seq<string>>>,
                                      types: seq<SqlType>, e: Escape)
    requires forall i :: 0 <= i < |batches| ==> batches[i] != []
    ensures Inserted(InsertAll(table, columns, batches, types, e), e) ==
            Some(RowMeanings(TypedRows(Flatten(batches), types)))
  {
    var inserts := InsertAll(table, columns, batches, types, e);
    if batches == [] {
      assert inserts == [];
    } else {
      InsertsAdd(table, columns, batches[1..], types, e);
      BatchInserts(table, columns, batches[0], types, e);
      assert inserts[1..] == InsertAll(table, columns, batches[1..], types, e);
      MeaningsConcat(batches[0], Flatten(batches[1..]), types);
    }
  }

  lemma MeaningsConcat(a: seq<seq<string>>, b: seq<seq<string>>, types: seq<SqlType>)
    ensures RowMeanings(TypedRows(a + b, types)) == RowMeanings(TypedRows(a, types)) + RowMeanings(TypedRows(b, types))
  {}

  /** The meaning of a generated import: read back token by token, its statements insert every
      parsed row once and in order, each cell one literal that denotes it. */
  lemma ImportInsertsEveryRow(data: Table, target: Target, mapping: map<string, string>, dialect: Option<Dialect>,
                              caps: Option<Capabilities>)
    requires ImportSpec(Some(data), Some(target), mapping, dialect, caps).Script?
    ensures Inserted(ImportSpec(Some(data), Some(target), mapping, dialect, caps).statements, EscapeOf(dialect))
         == Some(RowMeanings(TypedRows(data.rows, ColumnTypes(|data.headers|, data.rows))))
  {
    var types, e := ColumnTypes(|data.headers|, data.rows), EscapeOf(dialect);
    BatchesCover(data.rows);
    InsertsAdd(TargetName(target), MappedHeaders(data.headers, mapping), Batches(data.rows), types, e);
    PreambleAddsNothing(Preamble(data, target, mapping), Inserts(data, target, mapping, e), e);
  }

  lemma PreambleAddsNothing(preamble: seq<Statement>, inserts: seq<Statement>, e: Escape)
    requires |preamble| <= 1 && (|preamble| == 1 ==> preamble[0].CreateTable?)
    ensures Inserted(preamble + inserts, e) == Inserted(inserts, e)
  {
    assert (preamble + inserts)[|preamble|..] == inserts;
    if Inserted(inserts, e).Some? {
      assert [] + Inserted(inserts, e).value == Inserted(inserts, e).value;
    }
  }

  /** An INSERT of 1 to 100 rows into the target's mapped columns. */
  predicate InsertsSome(s: Statement, data: Table, target: Target, mapping: map<string, string>, e: Escape) {
    && s.Insert? && s.table == TargetName(target) && s.columns == MappedHeaders(data.headers, mapping)
    && InsertedBy(s.values, e).Some? && 1 <= |InsertedBy(s.values, e).value| <= BATCH_SIZE
  }

  lemma InsertShape(data: Table, target: Target, mapping: map<string, string>, e: Escape, i: nat)
    requires i < |Batches(data.rows)|
    ensures InsertsSome(Inserts(data, target, mapping, e)[i], data, target, mapping, e)
  {
    BatchesCover(data.rows);
    BatchInserts(TargetName(target), MappedHeaders(data.headers, mapping), Batches(data.rows)[i],
                 ColumnTypes(|data.headers|, data.rows), e);
  }

  /** The CREATE TABLE comes first exactly when the target is new; every other statement is an
      INSERT of 1 to 100 rows into that table and the mapped columns. */
  lemma ImportShape(data: Table, target: Target, mapping: map<string, string>, dialect: Option<Dialect>,
                    caps: Option<Capabilities>, i: nat)
    requires ImportSpec(Some(data), Some(target), mapping, dialect, caps).Script?
    requires i < |ImportSpec(Some(data), Some(target), mapping, dialect, caps).statements|
    ensures var s := ImportSpec(Some(data), Some(target), mapping, dialect, caps).statements[i];
            if i == 0 && target.NewTable? then s.CreateTable? && s.table == TargetName(target)
            else InsertsSome(s, data, target, mapping, EscapeOf(dialect))
  {
    var skipped := |Preamble(data, target, mapping)|;
    if i >= skipped {
      InsertShape(data, target, mapping, EscapeOf(dialect), i - skipped);
    }
  }

  /** The inferred type fits its evidence: within the first 100 rows every literal of a column is
      of the column's own type. Past them a cell of another shape becomes a string. */
  lemma SampleFitsItsType(data: Table, r: nat, c: nat)
    requires r < |data.rows| && r < SAMPLE_SIZE && c < |data.headers| && c < |data.rows[r]|
    ensures var ty := ColumnTypes(|data.headers|, data.rows)[c];
            OfType(Meaning(data.rows[r][c], Some(ty)), ty)
  {
    var sample := Sample(Take(data.rows, SAMPLE_SIZE), c);
    assert sample[r] == Some(data.rows[r][c]);
  }

  lemma MeaningDenotes(val: string, ty: Option<SqlType>)
    ensures Denotes(Meaning(val, ty), val)
    ensures ty.Some? ==> OfType(Meaning(val, ty), ty.value) || Meaning(val, ty) == LString(val)
  {}

  /** Cell by cell: the inserted rows have the shape of the file, each literal denotes its cell, and
      within the sample it is of its column's type; past the sample it may also be the quoted text,
      never anything that could be read as more than one value. */
  lemma ImportDenotesEveryCell(data: Table, target: Target, mapping: map<string, string>, dialect: Option<Dialect>,
                               caps: Option<Capabilities>, r: nat, c: nat)
    requires ImportSpec(Some(data), Some(target), mapping, dialect, caps).Script?
    requires r < |data.rows| && c < |data.rows[r]|
    ensures var inserted := Inserted(ImportSpec(Some(data), Some(target), mapping, dialect, caps).statements,
            EscapeOf(dialect));
            && inserted.Some? && |inserted.value| == |data.rows| && |inserted.value[r]| == |data.rows[r]|
            && Denotes(inserted.value[r][c], data.rows[r][c])
            && (c < |data.headers| ==>
                  var ty := ColumnTypes(|data.headers|, data.rows)[c];
                  OfType(inserted.value[r][c], ty) ||
                      (r >= SAMPLE_SIZE && inserted.value[r][c] == LString(data.rows[r][c])))
  {
    ImportInsertsEveryRow(data, target, mapping, dialect, caps);
    var types := ColumnTypes(|data.headers|, data.rows);
    var ty := if c < |types| then Some(types[c]) else None;
    assert RowMeanings(TypedRows(data.rows, types))[r][c] == Meaning(data.rows[r][c], ty);
    MeaningDenotes(data.rows[r][c], ty);
    if c < |data.headers| && r < SAMPLE_SIZE {
      SampleFitsItsType(data, r, c);
    }
  }
}
