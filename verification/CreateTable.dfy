/** The create-table form: its dialects, its edit steps, and the DDL it writes. */
module CreateTable {
  import opened Text

  // ---------- dialects ----------

  datatype Db = Postgres | Mysql | Mssql | Oracle | Sqlite | Libsql | Duckdb | Trino | Other(id: string)

  /** What may follow a column's type, each with a space in front. */
  datatype Qualifier = PrimaryKey | NotNull | Unique | AutoIncrementWord | AutoincrementSuffix | IdentityCall
                     | GeneratedIdentity | NextVal(sequence: string)

  function Phrase(q: Qualifier): string {
    match q
    case PrimaryKey => " PRIMARY KEY"
    case NotNull => " NOT NULL"
    case Unique => " UNIQUE"
    case AutoIncrementWord => " AUTO_INCREMENT"
    case AutoincrementSuffix => " AUTOINCREMENT"
    case IdentityCall => " IDENTITY(1,1)"
    case GeneratedIdentity => " GENERATED BY DEFAULT AS IDENTITY"
    case NextVal(sequence) => " DEFAULT nextval('" + sequence + "')"
  }

  function Concat<T>(text: T -> string, xs: seq<T>): string {
    if xs == [] then "" else text(xs[0]) + Concat(text, xs[1..])
  }

  lemma {:induction false} ConcatAppend<T>(text: T -> string, a: seq<T>, b: seq<T>)
    ensures Concat(text, a + b) == Concat(text, a) + Concat(text, b)
  {
    if a == [] {
      assert a + b == b;
    } else {
      ConcatAppend(text, a[1..], b);
      assert (a + b)[0] == a[0] && (a + b)[1..] == a[1..] + b;
      Regroup(text(a[0]), Concat(text, a[1..]), Concat(text, b));
    }
  }

  lemma ConcatOne<T>(text: T -> string, x: T)
    ensures Concat(text, [x]) == text(x)
  {
    assert [x][1..] == [];
    assert Concat(text, [x]) == text(x) + "";
  }

  function Phrases(qs: seq<Qualifier>): string { Concat(Phrase, qs) }

  /** Everything after the column name of an auto-increment key. */
  datatype Clause = Clause(base: string, quals: seq<Qualifier>) {
    function Text(): string { base + Phrases(quals) }
  }

  datatype Dialect = Dialect(autoIncrement: Option<Clause>, autoIncrementSequence: bool, supportsConstraints: bool,
                             keyType: string, types: seq<string>)

  function Sized(name: string, args: string): string { name + "(" + args + ")" }

  const SQLITE_DIALECT :=
    Dialect(Some(Clause("INTEGER", [PrimaryKey, AutoincrementSuffix])), false, true, "INTEGER",
            ["TEXT", "INTEGER", "REAL", "BLOB", "NUMERIC"])

  const POSTGRES_DIALECT :=
    Dialect(Some(Clause("INTEGER", [GeneratedIdentity, PrimaryKey])), false, true, "INTEGER",
            [Sized("VARCHAR", "255"), "TEXT", "INTEGER", "BIGINT", "BOOLEAN", "TIMESTAMP", "DATE", "JSONB", "UUID",
             Sized("DECIMAL", "10,2")])

  const MYSQL_DIALECT :=
    Dialect(Some(Clause("INT", [AutoIncrementWord, PrimaryKey])), false, true, "INT",
            [Sized("VARCHAR", "255"), "TEXT", "INT", "BIGINT", "BOOLEAN", "TIMESTAMP", "DATE", "JSON",
                Sized("CHAR", "36"),
             Sized("DECIMAL", "10,2")])

  const MSSQL_DIALECT :=
    Dialect(Some(Clause("INT", [IdentityCall, PrimaryKey])), false, true, "INT",
            [Sized("VARCHAR", "255"), Sized("NVARCHAR", "MAX"), "INT", "BIGINT", "BIT", "DATETIME2", "DATE",
             "UNIQUEIDENTIFIER", Sized("DECIMAL", "10,2")])

  const ORACLE_DIALECT :=
    Dialect(Some(Clause("NUMBER", [GeneratedIdentity, PrimaryKey])), false, true, "INTEGER",
            [Sized("VARCHAR2", "255"), "CLOB", "INTEGER", Sized("NUMBER", "19"), Sized("NUMBER", "1"), "TIMESTAMP",
                "DATE",
             Sized("RAW", "16"), Sized("NUMBER", "10,2")])

  const DUCKDB_DIALECT :=
    Dialect(Some(Clause("INTEGER", [PrimaryKey])), true, true, "INTEGER",
            [Sized("VARCHAR", "255"), "TEXT", "INTEGER", "BIGINT", "BOOLEAN", "TIMESTAMP", "DATE", "JSON", "UUID",
             Sized("DECIMAL", "10,2")])

  const TRINO_DIALECT :=
    Dialect(None, false, false, "INTEGER",
            [Sized("VARCHAR", "255"), "VARCHAR", "INTEGER", "BIGINT", "BOOLEAN", "TIMESTAMP", "DATE", "JSON", "UUID",
             Sized("DECIMAL", "10,2")])

  /** The row of the connected engine; PostgreSQL without one. */
  function ResolveDialect(db: Option<Db>): Dialect {
    match db
    case Some(Mysql) => MYSQL_DIALECT
    case Some(Mssql) => MSSQL_DIALECT
    case Some(Oracle) => ORACLE_DIALECT
    case Some(Sqlite) => SQLITE_DIALECT
    case Some(Libsql) => SQLITE_DIALECT
    case Some(Duckdb) => DUCKDB_DIALECT
    case Some(Trino) => TRINO_DIALECT
    case _ => POSTGRES_DIALECT
  }

  // ---------- the state and its edit steps ----------

  const AUTO_INCREMENT := "__auto_increment__"

  datatype Column = Column(name: string, typ: string, isPrimary: bool, isNullable: bool, isUnique: bool,
      defaultValue: string)

  datatype Form = Form(db: Option<Db>, tableName: string, columns: seq<Column>)

  function DefaultColumns(d: Dialect): seq<Column> {
    [Column("id", if d.autoIncrement.Some? then
        AUTO_INCREMENT else d.keyType, d.supportsConstraints, false, d.supportsConstraints, "")]
  }

  function Start(db: Option<Db>): Form { Form(db, "", DefaultColumns(ResolveDialect(db))) }

  /** `replace(/[^a-z0-9_]/g, "_")` on text that is in lower case already. */
  function Sanitize(lowered: string): (r: string)
    ensures |r| == |lowered|
  {
    seq(|lowered|, i requires 0 <= i < |lowered| =>
      if IsLower(lowered[i]) || IsDigit(lowered[i]) then lowered[i] else '_')
  }

  datatype Event =
    | SwitchDb(to: Option<Db>)
    | TypeTable(lowered: string)
    | AddColumn
    | RemoveColumn(index: nat)
    | TypeName(index: nat, lowered: string)
    | SelectType(index: nat, typ: string)
    | CheckPrimary(index: nat, checked: bool)
    | CheckNullable(index: nat, checked: bool)
    | CheckUnique(index: nat, checked: bool)
    | Create

  /** The controls that are on the screen; the create button needs a table name. */
  predicate Offered(s: Form, e: Event, d: Dialect) {
    match e
    case RemoveColumn(i) => i < |s.columns|
    case TypeName(i, _) => i < |s.columns|
    case SelectType(i, t) =>
      i < |s.columns| && (t in d.types || (t == AUTO_INCREMENT && s.columns[i].isPrimary && d.autoIncrement.Some?))
    case CheckPrimary(i, _) => i < |s.columns| && d.supportsConstraints
    case CheckNullable(i, _) => i < |s.columns|
    case CheckUnique(i, _) => i < |s.columns| && d.supportsConstraints
    case Create => s.tableName != ""
    case _ => true
  }

  predicate Blank(s: string) { Trim(s) == "" }

  /** `handleCreate` refuses a blank table name or column name. */
  predicate Complete(s: Form) {
    !Blank(s.tableName) && forall i :: 0 <= i < |s.columns| ==> !Blank(s.columns[i].name)
  }

  /** The edit operations, on the dialect that is shown. */
  function Edit(s: Form, e: Event, d: Dialect): Form
    requires Offered(s, e, d) && d.types != []
  {
    match e
    case SwitchDb(_) => s
    case TypeTable(lowered) => s.(tableName := Sanitize(lowered))
    case AddColumn => s.(columns := s.columns + [Column("", d.types[0], false, true, false, "")])
    case RemoveColumn(i) => if |s.columns| == 1 then s else s.(columns := s.columns[..i] + s.columns[i + 1..])
    case TypeName(i, lowered) => Update(s, i, s.columns[i].(name := Sanitize(lowered)))
    case SelectType(i, t) => Update(s, i, s.columns[i].(typ := t))
    case CheckPrimary(i, checked) => Update(s, i, WithPrimary(s.columns[i], checked, d))
    case CheckNullable(i, checked) => Update(s, i, s.columns[i].(isNullable := checked))
    case CheckUnique(i, checked) => Update(s, i, s.columns[i].(isUnique := checked))
    case Create => if Complete(s) then Form(s.db, "", DefaultColumns(d)) else s
  }

  /** A control that is not offered cannot be used; another engine resets the columns. */
  function Apply(s: Form, e: Event): Form {
    RowsOk(s.db);
    if e.SwitchDb? then
      if e.to != s.db then Form(e.to, s.tableName, DefaultColumns(ResolveDialect(e.to))) else s
    else if Offered(s, e, ResolveDialect(s.db)) then Edit(s, e, ResolveDialect(s.db))
    else s
  }

  function Update(s: Form, i: nat, col: Column): Form
    requires i < |s.columns|
  {
    s.(columns := s.columns[i := col])
  }

  /** Taking the key off takes the column off the auto-increment entry as well. */
  function WithPrimary(col: Column, checked: bool, d: Dialect): Column {
    col.(isPrimary := checked, isNullable := if checked then false else col.isNullable,
         typ := if !checked && col.typ == AUTO_INCREMENT then d.keyType else col.typ)
  }

  function RunAll(db: Option<Db>, events: seq<Event>): Form {
    if events == [] then Start(db)
    else Apply(RunAll(db, events[..|events| - 1]), events[|events| - 1])
  }

  // ---------- what every edit keeps ----------

  /** A name the inputs can hold. */
  predicate Name(s: string) { forall i :: 0 <= i < |s| ==> IsLower(s[i]) || IsDigit(s[i]) || s[i] == '_' }

  predicate ColumnOk(col: Column, d: Dialect) {
    && Name(col.name) && col.defaultValue == ""
    && (col.typ in d.types || col.typ == AUTO_INCREMENT)
    && (col.typ == AUTO_INCREMENT ==> col.isPrimary && d.autoIncrement.Some?)
    && (col.isPrimary || col.isUnique ==> d.supportsConstraints)
  }

  predicate OkFor(s: Form, d: Dialect) {
    && s.columns != [] && Name(s.tableName)
    && forall i :: 0 <= i < |s.columns| ==> ColumnOk(s.columns[i], d)
  }

  predicate Ok(s: Form) { OkFor(s, ResolveDialect(s.db)) }

  /** What the dialect rows have in common: the sentinel is no type of theirs. */
  predicate RowOk(d: Dialect) {
    && d.types != [] && d.keyType in d.types && AUTO_INCREMENT !in d.types
    && (d.autoIncrement.Some? ==> d.supportsConstraints)
  }

  lemma SentinelIsNoType(db: Option<Db>, i: nat)
    requires i < |ResolveDialect(db).types|
    ensures ResolveDialect(db).types[i] != AUTO_INCREMENT
  {
    var t := ResolveDialect(db).types[i];
    assert t[0] != '_';
    assert AUTO_INCREMENT[0] == '_';
  }

  lemma RowsOk(db: Option<Db>)
    ensures RowOk(ResolveDialect(db))
  {
    var d := ResolveDialect(db);
    forall i: nat | i < |d.types| ensures d.types[i] != AUTO_INCREMENT { SentinelIsNoType(db, i); }
    assert TRINO_DIALECT.types[2] == "INTEGER" && ORACLE_DIALECT.types[2] == "INTEGER" &&
        DUCKDB_DIALECT.types[2] == "INTEGER";
    assert MSSQL_DIALECT.types[2] == "INT" && MYSQL_DIALECT.types[2] == "INT";
    assert POSTGRES_DIALECT.types[2] == "INTEGER" && SQLITE_DIALECT.types[1] == "INTEGER";
  }

  lemma DefaultOk(s: Form, d: Dialect)
    requires Name(s.tableName) && RowOk(d) && s.columns == DefaultColumns(d)
    ensures OkFor(s, d)
  {
    assert Name("id");
  }

  lemma UpdateOk(s: Form, i: nat, col: Column, d: Dialect)
    requires OkFor(s, d) && i < |s.columns| && ColumnOk(col, d)
    ensures OkFor(Update(s, i, col), d)
  {}

  lemma RemoveOk(s: Form, i: nat, d: Dialect)
    requires OkFor(s, d) && i < |s.columns| && |s.columns| > 1
    ensures OkFor(s.(columns := s.columns[..i] + s.columns[i + 1..]), d)
  {
    var rest := s.columns[..i] + s.columns[i + 1..];
    forall j | 0 <= j < |rest| ensures ColumnOk(rest[j], d) {
      assert rest[j] == s.columns[if j < i then j else j + 1];
    }
  }

  lemma EditOk(s: Form, e: Event, d: Dialect)
    requires OkFor(s, d) && RowOk(d) && Offered(s, e, d)
    ensures OkFor(Edit(s, e, d), d) && Edit(s, e, d).db == s.db
  {
    match e {
      case RemoveColumn(i) => if |s.columns| > 1 { RemoveOk(s, i, d); }
      case Create => if Complete(s) { DefaultOk(Edit(s, e, d), d); }
      case TypeName(i, lowered) => UpdateOk(s, i, s.columns[i].(name := Sanitize(lowered)), d);
      case SelectType(i, t) => UpdateOk(s, i, s.columns[i].(typ := t), d);
      case CheckPrimary(i, checked) => UpdateOk(s, i, WithPrimary(s.columns[i], checked, d), d);
      case CheckNullable(i, checked) => UpdateOk(s, i, s.columns[i].(isNullable := checked), d);
      case CheckUnique(i, checked) => UpdateOk(s, i, s.columns[i].(isUnique := checked), d);
      case _ =>
    }
  }

  /** After any sequence of edits, dialect switches and creations: there is a column, every type is one
      of the dialect's or the sentinel, a sentinel column is a key on a dialect with an auto-increment
      clause, keys and unique columns exist only where the dialect has constraints, and names are plain. */
  lemma {:induction false} AlwaysOk(db: Option<Db>, events: seq<Event>)
    ensures Ok(RunAll(db, events))
    decreases |events|
  {
    if events == [] {
      RowsOk(db);
      DefaultOk(Start(db), ResolveDialect(db));
    } else {
      AlwaysOk(db, events[..|events| - 1]);
      ApplyOk(RunAll(db, events[..|events| - 1]), events[|events| - 1]);
    }
  }

  lemma ApplyOk(s: Form, e: Event)
    requires Ok(s)
    ensures Ok(Apply(s, e))
  {
    RowsOk(s.db);
    if e.SwitchDb? {
      RowsOk(e.to);
      if e.to != s.db { DefaultOk(Apply(s, e), ResolveDialect(e.to)); }
    } else if Offered(s, e, ResolveDialect(s.db)) {
      EditOk(s, e, ResolveDialect(s.db));
    }
  }

  // ---------- the DDL ----------

  predicate IsAuto(col: Column, d: Dialect) { col.typ == AUTO_INCREMENT && col.isPrimary && d.autoIncrement.Some? }

  function SequenceName(table: string, column: string): string { table + "_" + column + "_seq" }

  function Quals(col: Column, d: Dialect, table: string): seq<Qualifier> {
    if IsAuto(col, d) then
      d.autoIncrement.value.quals + (if d.autoIncrementSequence then [NextVal(SequenceName(table, col.name))] else [])
    else
      var isPrimary := col.isPrimary && d.supportsConstraints;
      (if isPrimary then [PrimaryKey] else []) + (if !col.isNullable && !isPrimary then [NotNull] else [])
      + (if col.isUnique && !isPrimary && d.supportsConstraints then [Unique] else [])
  }

  function BaseType(col: Column, d: Dialect): string {
    if IsAuto(col, d) then d.autoIncrement.value.base else if col.typ == AUTO_INCREMENT then d.keyType else col.typ
  }

  function ColumnDef(col: Column, d: Dialect, table: string): string {
    "  " + col.name + " " + BaseType(col, d) + Phrases(Quals(col, d, table))
    + (if !IsAuto(col, d) && col.defaultValue != "" then " DEFAULT " + col.defaultValue else "")
  }

  function ColumnDefs(cols: seq<Column>, d: Dialect, table: string): (r: seq<string>)
    ensures |r| == |cols|
  {
    if cols == [] then [] else ColumnDefs(cols[..|cols| - 1], d, table) + [ColumnDef(cols[|cols| - 1], d, table)]
  }

  /** The sequence a column defaults from, and those of all columns. */
  function SequenceOf(col: Column, d: Dialect, table: string): seq<string> {
    if IsAuto(col, d) && d.autoIncrementSequence then [SequenceName(table, col.name)] else []
  }

  function Sequences(cols: seq<Column>, d: Dialect, table: string): seq<string> {
    if cols == [] then [] else Sequences(cols[..|cols| - 1], d, table) + SequenceOf(cols[|cols| - 1], d, table)
  }

  function CreateSequence(name: string): string { "CREATE SEQUENCE IF NOT EXISTS " + name + ";" }

  function Prelude(names: seq<string>): seq<string> { Map(CreateSequence, names) }

  function CreateStatement(tableName: string, defs: seq<string>): string {
    "CREATE TABLE " + tableName + " (\n" + Join(defs, ",\n") + "\n);"
  }

  function WithPrelude(prelude: seq<string>, create: string): string {
    if prelude != [] then Join(prelude, "\n") + "\n" + create else create
  }

  function ScriptFor(tableName: string, columns: seq<Column>, d: Dialect): string {
    if Blank(tableName) then ""
    else WithPrelude(Prelude(Sequences(columns, d, tableName)),
        CreateStatement(tableName, ColumnDefs(columns, d, tableName)))
  }

  function Script(s: Form): string { ScriptFor(s.tableName, s.columns, ResolveDialect(s.db)) }

  /** The text of one column, built up as the source does, and the statement it needs first. */
  method GenerateColumn(col: Column, d: Dialect, tableName: string) returns (line: string, statements: seq<string>)
    ensures line == ColumnDef(col, d, tableName)
    ensures statements == Prelude(SequenceOf(col, d, tableName))
  {
    statements := [];
    if col.typ == AUTO_INCREMENT && col.isPrimary && d.autoIncrement.Some? {
      var quals := d.autoIncrement.value.quals;
      line := "  " + col.name + " " + d.autoIncrement.value.base + Phrases(quals);
      if d.autoIncrementSequence {
        var sequence := SequenceName(tableName, col.name);
        statements := [CreateSequence(sequence)];
        ConcatOne(Phrase, NextVal(sequence));
        ConcatAppend(Phrase, quals, [NextVal(sequence)]);
        Regroup("  " + col.name + " " + d.autoIncrement.value.base, Phrases(quals), Phrase(NextVal(sequence)));
        line := line + (" DEFAULT nextval('" + sequence + "')");
      } else {
        assert quals + [] == quals;
      }
      assert line + "" == line;
      return;
    }
    var typ := if col.typ == AUTO_INCREMENT then d.keyType else col.typ;
    var isPrimary := col.isPrimary && d.supportsConstraints;
    line := "  " + col.name + " " + typ;
    ghost var head, done := line, [];
    assert line == head + Phrases([]);
    if isPrimary {
      AppendPhrase(head, done, PrimaryKey);
      line, done := line + " PRIMARY KEY", done + [PrimaryKey];
    }
    if !col.isNullable && !isPrimary {
      AppendPhrase(head, done, NotNull);
      line, done := line + " NOT NULL", done + [NotNull];
    }
    if col.isUnique && !isPrimary && d.supportsConstraints {
      AppendPhrase(head, done, Unique);
      line, done := line + " UNIQUE", done + [Unique];
    }
    assert done == Quals(col, d, tableName);
    if col.defaultValue != "" { line := line + (" DEFAULT " + col.defaultValue); } else { assert line + "" == line; }
  }

  lemma AppendPhrase(head: string, done: seq<Qualifier>, q: Qualifier)
    ensures head + Phrases(done) + Phrase(q) == head + Phrases(done + [q])
  {
    ConcatOne(Phrase, q);
    ConcatAppend(Phrase, done, [q]);
    Regroup(head, Phrases(done), Phrase(q));
  }

  lemma ColumnDefsSnoc(cols: seq<Column>, col: Column, d: Dialect, table: string)
    ensures ColumnDefs(cols + [col], d, table) == ColumnDefs(cols, d, table) + [ColumnDef(col, d, table)]
  {
    assert (cols + [col])[..|cols|] == cols;
  }

  lemma SequencesSnoc(cols: seq<Column>, col: Column, d: Dialect, table: string)
    ensures Sequences(cols + [col], d, table) == Sequences(cols, d, table) + SequenceOf(col, d, table)
  {
    assert (cols + [col])[..|cols|] == cols;
  }

  lemma PreludeAppend(a: seq<string>, b: seq<string>)
    ensures Prelude(a + b) == Prelude(a) + Prelude(b)
  {}

  /** One pass over the columns collects their lines and the prelude. */
  method GenerateColumns(columns: seq<Column>, d: Dialect, tableName: string) returns (defs: seq<string>,
                         prelude: seq<string>)
    ensures defs == ColumnDefs(columns, d, tableName) && prelude == Prelude(Sequences(columns, d, tableName))
  {
    defs, prelude := [], [];
    var i := 0;
    while i < |columns|
      invariant 0 <= i <= |columns|
      invariant defs == ColumnDefs(columns[..i], d, tableName)
      invariant prelude == Prelude(Sequences(columns[..i], d, tableName))
    {
      var line, statements := GenerateColumn(columns[i], d, tableName);
      PrefixSnoc(columns, i);
      ColumnDefsSnoc(columns[..i], columns[i], d, tableName);
      SequencesSnoc(columns[..i], columns[i], d, tableName);
      PreludeAppend(Sequences(columns[..i], d, tableName), SequenceOf(columns[i], d, tableName));
      prelude := prelude + statements;
      defs := defs + [line];
      i := i + 1;
    }
    assert columns[..i] == columns;
  }

  /** `generateSQL` */
  method GenerateScript(tableName: string, columns: seq<Column>, d: Dialect) returns (sql: string)
    ensures sql == ScriptFor(tableName, columns, d)
  {
    if Blank(tableName) { return ""; }
    var defs, prelude := GenerateColumns(columns, d, tableName);
    sql := CreateStatement(tableName, defs);
    if prelude != [] { sql := Join(prelude, "\n") + "\n" + sql; }
  }

  /** The form as React state, each handler an update in place. */
  class Editor {
    var db: Option<Db>
    var tableName: string
    var columns: seq<Column>
    /** The scripts handed on so far. */
    var emitted: seq<string>

    constructor (db: Option<Db>)
      ensures State() == Start(db) && emitted == []
    {
      this.db, tableName, columns, emitted := db, "", DefaultColumns(ResolveDialect(db)), [];
    }

    function State(): Form
      reads this
    {
      Form(db, tableName, columns)
    }

    /** Rendering for another engine. */
    method Render(to: Option<Db>)
      modifies this`db, this`columns
      ensures State() == Apply(old(State()), SwitchDb(to))
    {
      if db != to {
        db := to;
        columns := DefaultColumns(ResolveDialect(to));
      }
    }

    method SetTableName(lowered: string)
      modifies this`tableName
      ensures State() == Apply(old(State()), TypeTable(lowered))
    {
      tableName := Sanitize(lowered);
    }

    method Append()
      modifies this`columns
      ensures State() == Apply(old(State()), AddColumn)
    {
      RowsOk(db);
      columns := columns + [Column("", ResolveDialect(db).types[0], false, true, false, "")];
    }

    method Remove(index: nat)
      modifies this`columns
      ensures State() == Apply(old(State()), RemoveColumn(index))
    {
      if |columns| == 1 || index >= |columns| { return; }
      columns := columns[..index] + columns[index + 1..];
    }

    /** `updateColumn`: an index that is not there changes nothing. */
    method UpdateColumn(index: nat, col: Column)
      modifies this`columns
      ensures columns == if index < |old(columns)| then old(columns)[index := col] else old(columns)
    {
      if index < |columns| { columns := columns[index := col]; }
    }

    method SetPrimary(index: nat, checked: bool)
      modifies this`columns
      ensures State() == Apply(old(State()), CheckPrimary(index, checked))
    {
      var d := ResolveDialect(db);
      if index < |columns| && d.supportsConstraints {
        UpdateColumn(index, WithPrimary(columns[index], checked, d));
      }
    }

    method SetName(index: nat, lowered: string)
      modifies this`columns
      ensures State() == Apply(old(State()), TypeName(index, lowered))
    {
      if index < |columns| { UpdateColumn(index, columns[index].(name := Sanitize(lowered))); }
    }

    method SetNullable(index: nat, checked: bool)
      modifies this`columns
      ensures State() == Apply(old(State()), CheckNullable(index, checked))
    {
      if index < |columns| { UpdateColumn(index, columns[index].(isNullable := checked)); }
    }

    method SetUnique(index: nat, checked: bool)
      modifies this`columns
      ensures State() == Apply(old(State()), CheckUnique(index, checked))
    {
      if index < |columns| && ResolveDialect(db).supportsConstraints {
        UpdateColumn(index, columns[index].(isUnique := checked));
      }
    }

    method SetType(index: nat, typ: string)
      modifies this`columns
      ensures State() == Apply(old(State()), SelectType(index, typ))
    {
      if Offered(State(), SelectType(index, typ), ResolveDialect(db)) {
        UpdateColumn(index, columns[index].(typ := typ));
      }
    }

    method GenerateSQL() returns (sql: string)
      ensures sql == Script(State())
    {
      sql := GenerateScript(tableName, columns, ResolveDialect(db));
    }

    /** `handleCreate`: a complete form is handed on as its script and starts over. */
    method HandleCreate() returns (error: string)
      modifies this
      ensures error == "" <==> Complete(old(State()))
      ensures emitted == old(emitted) + (if error == "" then [Script(old(State()))] else [])
      ensures State() == Apply(old(State()), Create)
    {
      RowsOk(db);
      assert Trim("") == "" && emitted + [] == emitted;
      if Blank(tableName) { return "Table name is required"; }
      if exists i :: 0 <= i < |columns| && Blank(columns[i].name) { return "All columns must have a name"; }
      var sql := GenerateSQL();
      emitted := emitted + [sql];
      tableName := "";
      columns := DefaultColumns(ResolveDialect(db));
      error := "";
    }
  }
}
