/** Reading the create-table form's DDL back. */
module CreateTableText {
  import opened Text
  import opened CreateTable

  // ---------- words and types ----------

  predicate Word(w: string) { w != "" && forall i :: 0 <= i < |w| ==> IsWord(w[i]) }

  /** The longest start made of word characters. */
  function TakeWord(s: string): (w: string)
    ensures w <= s
  {
    if s != "" && IsWord(s[0]) then [s[0]] + TakeWord(s[1..]) else ""
  }

  function TakeUntil(s: string, c: char): (w: string)
    ensures w <= s
  {
    if s != "" && s[0] != c then [s[0]] + TakeUntil(s[1..], c) else ""
  }

  lemma {:induction false} TakesWord(w: string, rest: string)
    requires forall i :: 0 <= i < |w| ==> IsWord(w[i])
    requires rest == "" || !IsWord(rest[0])
    ensures TakeWord(w + rest) == w && (w + rest)[|w|..] == rest
  {
    if w == "" {
      assert w + rest == rest;
    } else {
      TakesWord(w[1..], rest);
      assert (w + rest)[0] == w[0] && (w + rest)[1..] == w[1..] + rest;
    }
  }

  lemma {:induction false} TakesUntil(w: string, c: char, rest: string)
    requires c !in w
    ensures TakeUntil(w + [c] + rest, c) == w && (w + [c] + rest)[|w| + 1..] == rest
  {
    if w == "" {
      assert w + [c] + rest == [c] + rest;
    } else {
      TakesUntil(w[1..], c, rest);
      assert (w + [c] + rest)[0] == w[0] && (w + [c] + rest)[1..] == w[1..] + [c] + rest;
    }
  }

  /** A type name: a word, perhaps with arguments in parentheses. */
  ghost predicate Spelled(t: string) {
    exists name, args :: SpelledAs(t, name, args)
  }

  predicate SpelledAs(t: string, name: string, args: Option<string>) {
    Word(name) && if args == None then t == name else ')' !in args.value && t == Sized(name, args.value)
  }

  datatype Token = Token(text: string, rest: string)

  function ReadWord(s: string): Option<Token> {
    var w := TakeWord(s);
    if w == "" then None else Some(Token(w, s[|w|..]))
  }

  function ReadType(s: string): Option<Token> {
    match ReadWord(s)
    case None => None
    case Some(Token(name, rest)) =>
      if rest == "" || rest[0] != '(' then Some(Token(name, rest))
      else
        var args := TakeUntil(rest[1..], ')');
        if |rest| < |args| + 2 then None else Some(Token(Sized(name, args), rest[|args| + 2..]))
  }

  lemma WordReads(w: string, rest: string)
    requires Word(w) && (rest == "" || !IsWord(rest[0]))
    ensures ReadWord(w + rest) == Some(Token(w, rest))
  {
    TakesWord(w, rest);
  }

  lemma TypeReads(t: string, rest: string)
    requires Spelled(t) && (rest == "" || (!IsWord(rest[0]) && rest[0] != '('))
    ensures ReadType(t + rest) == Some(Token(t, rest))
  {
    var name, args :| SpelledAs(t, name, args);
    if args == None { WordReads(name, rest); } else { SizedReads(name, args.value, rest); }
  }

  lemma SizedReads(name: string, args: string, rest: string)
    requires Word(name) && ')' !in args
    ensures ReadType(Sized(name, args) + rest) == Some(Token(Sized(name, args), rest))
  {
    var tail := "(" + (args + ")" + rest);
    Regroup4(name, "(", args + ")", rest);
    Regroup(name + "(", args, ")");
    Regroup("(", args + ")", rest);
    assert Sized(name, args) + rest == name + tail;
    WordReads(name, tail);
    TakesUntil(args, ')', rest);
    assert tail[1..] == args + ")" + rest;
    assert tail[|args| + 2..] == tail[1..][|args| + 1..];
  }

  // ---------- qualifiers ----------

  datatype QualToken = QualToken(qual: Qualifier, rest: string)

  function Fixed(q: Qualifier, s: string): Option<QualToken> {
    match Expect(s, Phrase(q))
    case None => None
    case Some(rest) => Some(QualToken(q, rest))
  }

  function ReadNextVal(s: string): Option<QualToken> {
    match Expect(s, " DEFAULT nextval('")
    case None => None
    case Some(s1) =>
      match ReadWord(s1)
      case None => None
      case Some(Token(name, s2)) =>
        match Expect(s2, "')")
        case None => None
        case Some(rest) => Some(QualToken(NextVal(name), rest))
  }

  function ReadQual(s: string): Option<QualToken> {
    if |s| < 6 || s[0] != ' ' then None
    else if s[1] == 'P' then Fixed(PrimaryKey, s)
    else if s[1] == 'N' then Fixed(NotNull, s)
    else if s[1] == 'U' then Fixed(Unique, s)
    else if s[1] == 'A' && s[5] == '_' then Fixed(AutoIncrementWord, s)
    else if s[1] == 'A' then Fixed(AutoincrementSuffix, s)
    else if s[1] == 'I' then Fixed(IdentityCall, s)
    else if s[1] == 'G' then Fixed(GeneratedIdentity, s)
    else ReadNextVal(s)
  }

  predicate QualOk(q: Qualifier) { q.NextVal? ==> Word(q.sequence) }

  lemma FixedReads(q: Qualifier, rest: string)
    ensures Fixed(q, Phrase(q) + rest) == Some(QualToken(q, rest))
  {
    Expected(Phrase(q), rest);
  }

  /** The characters that tell the phrases apart. */
  lemma PhraseStarts(q: Qualifier)
    ensures |Phrase(q)| >= 6 && Phrase(q)[0] == ' '
    ensures Phrase(q)[1] == (match q
                             case PrimaryKey => 'P'
                             case NotNull => 'N'
                             case Unique => 'U'
                             case AutoIncrementWord => 'A'
                             case AutoincrementSuffix => 'A'
                             case IdentityCall => 'I'
                             case GeneratedIdentity => 'G'
                             case NextVal(_) => 'D')
    ensures q.AutoIncrementWord? ==> Phrase(q)[5] == '_'
    ensures q.AutoincrementSuffix? ==> Phrase(q)[5] != '_'
  {}

  lemma QualReads(q: Qualifier, rest: string)
    requires QualOk(q)
    ensures ReadQual(Phrase(q) + rest) == Some(QualToken(q, rest))
  {
    if q.NextVal? {
      NextValReads(q.sequence, rest);
    } else {
      PhraseStarts(q);
      FixedReads(q, rest);
      var p := Phrase(q);
      var s := p + rest;
      assert s[0] == p[0] && s[1] == p[1] && s[5] == p[5];
    }
  }

  lemma NextValReads(name: string, rest: string)
    requires Word(name)
    ensures ReadQual(Phrase(NextVal(name)) + rest) == Some(QualToken(NextVal(name), rest))
  {
    var s := " DEFAULT nextval('" + (name + ("')" + rest));
    Nest(" DEFAULT nextval('", name, "')", rest, "");
    assert Phrase(NextVal(name)) + rest == s;
    assert |s| >= 6 && s[0] == ' ' && s[1] == 'D';
    NextValRest(name, rest);
  }

  lemma NextValRest(name: string, rest: string)
    requires Word(name)
    ensures ReadNextVal(" DEFAULT nextval('" + (name + ("')" + rest))) == Some(QualToken(NextVal(name), rest))
  {
    Expected(" DEFAULT nextval('", name + ("')" + rest));
    WordReads(name, "')" + rest);
    Expected("')", rest);
  }

  datatype QualList = QualList(quals: seq<Qualifier>, rest: string)

  function ReadQuals(s: string): QualList {
    match ReadQual(s)
    case Some(QualToken(q, rest)) =>
      if |rest| < |s| then var more := ReadQuals(rest); QualList([q] + more.quals, more.rest) else QualList([], s)
    case None => QualList([], s)
  }

  lemma {:induction false} QualsRead(qs: seq<Qualifier>, rest: string)
    requires forall i :: 0 <= i < |qs| ==> QualOk(qs[i])
    requires rest == "" || rest[0] != ' '
    ensures ReadQuals(Phrases(qs) + rest) == QualList(qs, rest)
  {
    if qs == [] {
      assert Phrases(qs) + rest == rest;
    } else {
      var more := Phrases(qs[1..]) + rest;
      Regroup(Phrase(qs[0]), Phrases(qs[1..]), rest);
      QualReads(qs[0], more);
      PhraseIsLong(qs[0]);
      QualsRead(qs[1..], rest);
    }
  }

  lemma PhraseIsLong(q: Qualifier)
    ensures |Phrase(q)| > 0
  {}

  // ---------- columns ----------

  datatype Col = Col(name: string, typ: string, quals: seq<Qualifier>)

  function Line(c: Col): string { "  " + c.name + " " + c.typ + Phrases(c.quals) }

  ghost predicate ColOk(c: Col) { Word(c.name) && Spelled(c.typ) && forall i :: 0 <= i < |c.quals| ==>
      QualOk(c.quals[i]) }

  datatype ColToken = ColToken(col: Col, rest: string)

  function ReadColumn(s: string): Option<ColToken> {
    match Expect(s, "  ")
    case None => None
    case Some(s1) =>
      match ReadWord(s1)
      case None => None
      case Some(Token(name, s2)) =>
        match Expect(s2, " ")
        case None => None
        case Some(s3) =>
          match ReadType(s3)
          case None => None
          case Some(Token(typ, s4)) =>
            var q := ReadQuals(s4);
            Some(ColToken(Col(name, typ, q.quals), q.rest))
  }

  lemma AfterType(qs: seq<Qualifier>, rest: string)
    requires rest != "" && !IsWord(rest[0]) && rest[0] != '('
    ensures var t := Phrases(qs) + rest; t != "" && !IsWord(t[0]) && t[0] != '('
  {
    if qs != [] { FirstOfPhrase(qs[0]); }
  }

  lemma FirstOfPhrase(q: Qualifier)
    ensures Phrase(q) != "" && Phrase(q)[0] == ' '
  {}

  lemma ColumnReads(c: Col, rest: string)
    requires ColOk(c) && rest != "" && rest[0] in ",\n"
    ensures ReadColumn(Line(c) + rest) == Some(ColToken(c, rest))
  {
    var s4 := Phrases(c.quals) + rest;
    var s3 := c.typ + s4;
    var s2 := " " + s3;
    var s1 := c.name + s2;
    LineSplits(c, rest);
    Expected("  ", s1);
    WordReads(c.name, s2);
    Expected(" ", s3);
    AfterType(c.quals, rest);
    TypeReads(c.typ, s4);
    QualsRead(c.quals, rest);
  }

  lemma LineSplits(c: Col, rest: string)
    ensures Line(c) + rest == "  " + (c.name + (" " + (c.typ + (Phrases(c.quals) + rest))))
  {
    Nest("  ", c.name, " ", c.typ, Phrases(c.quals) + rest);
    Regroup("  " + c.name + " " + c.typ, Phrases(c.quals), rest);
  }

  function ReadColumns(s: string): Option<seq<Col>>
    decreases |s|
  {
    match ReadColumn(s)
    case None => None
    case Some(ColToken(col, s1)) =>
      match Expect(s1, ",\n")
      case None => if s1 == "\n);" then Some([col]) else None
      case Some(s2) =>
        if |s2| >= |s| then None
        else
          match ReadColumns(s2)
          case None => None
          case Some(cols) => Some([col] + cols)
  }

  const TABLE_END := "\n);"

  /** The column lines and the end of the statement. */
  function LinesText(cs: seq<Col>): string
    requires cs != []
  {
    Line(cs[0]) + (if |cs| == 1 then TABLE_END else ",\n" + LinesText(cs[1..]))
  }

  lemma {:induction false} LinesTextIs(cs: seq<Col>)
    requires cs != []
    ensures LinesText(cs) == Join(Map(Line, cs), ",\n") + TABLE_END
    decreases |cs|
  {
    MapTail(Line, cs);
    if |cs| > 1 {
      LinesTextIs(cs[1..]);
      Nest(Line(cs[0]), ",\n", Join(Map(Line, cs[1..]), ",\n"), TABLE_END, "");
    }
  }

  lemma LastColumn(c: Col)
    requires ColOk(c)
    ensures ReadColumns(LinesText([c])) == Some([c])
  {
    ColumnReads(c, TABLE_END);
    NotExpected(TABLE_END, ",\n", 0);
  }

  lemma FirstColumn(c: Col, more: string, cs: seq<Col>)
    requires ColOk(c) && ReadColumns(more) == Some(cs)
    ensures ReadColumns(Line(c) + (",\n" + more)) == Some([c] + cs)
  {
    ColumnReads(c, ",\n" + more);
    Expected(",\n", more);
  }

  lemma {:induction false} ColumnsRead(cs: seq<Col>)
    requires cs != [] && forall i :: 0 <= i < |cs| ==> ColOk(cs[i])
    ensures ReadColumns(LinesText(cs)) == Some(cs)
    decreases |cs|
  {
    if |cs| == 1 {
      LastColumn(cs[0]);
      assert cs == [cs[0]];
    } else {
      ColumnsRead(cs[1..]);
      FirstColumn(cs[0], LinesText(cs[1..]), cs[1..]);
      assert cs == [cs[0]] + cs[1..];
    }
  }

  // ---------- the script ----------

  datatype NameList = NameList(names: seq<string>, rest: string)

  function ReadSequences(s: string): Option<NameList> {
    match Expect(s, "CREATE SEQUENCE IF NOT EXISTS ")
    case None => Some(NameList([], s))
    case Some(s1) =>
      match ReadWord(s1)
      case None => None
      case Some(Token(name, s2)) =>
        match Expect(s2, ";\n")
        case None => None
        case Some(s3) =>
          if |s3| >= |s| then None
          else
            match ReadSequences(s3)
            case None => None
            case Some(NameList(names, rest)) => Some(NameList([name] + names, rest))
  }

  lemma {:induction false} SequencesRead(names: seq<string>, create: string)
    requires forall i :: 0 <= i < |names| ==> Word(names[i])
    requires Expect(create, "CREATE SEQUENCE IF NOT EXISTS ") == None
    ensures ReadSequences(WithPrelude(Prelude(names), create)) == Some(NameList(names, create))
    decreases |names|
  {
    if names != [] {
      var more := WithPrelude(Prelude(names[1..]), create);
      PreludeCons(names, create);
      var tail := ";\n" + more;
      Expected("CREATE SEQUENCE IF NOT EXISTS ", names[0] + tail);
      WordReads(names[0], tail);
      Expected(";\n", more);
      SequencesRead(names[1..], create);
      assert names == [names[0]] + names[1..];
    }
  }

  lemma PreludeCons(names: seq<string>, create: string)
    requires names != []
    ensures WithPrelude(Prelude(names), create) ==
            "CREATE SEQUENCE IF NOT EXISTS " + (names[0] + (";\n" + WithPrelude(Prelude(names[1..]), create)))
  {
    var more := WithPrelude(Prelude(names[1..]), create);
    var p := Prelude(names);
    MapTail(CreateSequence, names);
    JoinFirst(p, create);
    SequenceText(names[0], more);
  }

  /** Joined statements and what follows, one statement at a time. */
  lemma JoinFirst(p: seq<string>, create: string)
    requires p != []
    ensures WithPrelude(p, create) == p[0] + ("\n" + WithPrelude(p[1..], create))
  {
    if |p| > 1 {
      Nest(p[0], "\n", Join(p[1..], "\n"), "\n", create);
      Regroup(Join(p[1..], "\n"), "\n", create);
    } else {
      Regroup(p[0], "\n", create);
    }
  }

  lemma SequenceText(name: string, more: string)
    ensures CreateSequence(name) + ("\n" + more) == "CREATE SEQUENCE IF NOT EXISTS " + (name + (";\n" + more))
  {
    Nest("CREATE SEQUENCE IF NOT EXISTS ", name, ";", "\n" + more, "");
    Regroup(";", "\n", more);
    assert ";" + "\n" == ";\n";
  }

  datatype Table = Table(sequences: seq<string>, name: string, columns: seq<Col>)

  function ReadCreate(s: string, sequences: seq<string>): Option<Table> {
    match Expect(s, "CREATE TABLE ")
    case None => None
    case Some(s1) =>
      match ReadWord(s1)
      case None => None
      case Some(Token(name, s2)) =>
        match Expect(s2, " (\n")
        case None => None
        case Some(s3) =>
          match ReadColumns(s3)
          case None => None
          case Some(cols) => Some(Table(sequences, name, cols))
  }

  function ReadScript(s: string): Option<Table> {
    match ReadSequences(s)
    case None => None
    case Some(NameList(names, rest)) => ReadCreate(rest, names)
  }

  lemma CreateSplits(name: string, cs: seq<Col>)
    requires cs != []
    ensures CreateStatement(name, Map(Line, cs)) == "CREATE TABLE " + (name + (" (\n" + LinesText(cs)))
  {
    LinesTextIs(cs);
    Nest("CREATE TABLE ", name, " (\n", Join(Map(Line, cs), ",\n"), TABLE_END);
  }

  lemma CreateReads(name: string, body: string, cs: seq<Col>, sequences: seq<string>)
    requires Word(name) && ReadColumns(body) == Some(cs)
    ensures ReadCreate("CREATE TABLE " + (name + (" (\n" + body)), sequences) == Some(Table(sequences, name, cs))
  {
    Expected("CREATE TABLE ", name + (" (\n" + body));
    WordReads(name, " (\n" + body);
    Expected(" (\n", body);
  }

  lemma NoSequence(rest: string)
    ensures Expect("CREATE TABLE " + rest, "CREATE SEQUENCE IF NOT EXISTS ") == None
  {
    assert ("CREATE TABLE " + rest)[7] == 'T';
    assert "CREATE SEQUENCE IF NOT EXISTS "[7] == 'S';
    NotExpected("CREATE TABLE " + rest, "CREATE SEQUENCE IF NOT EXISTS ", 7);
  }

  /** A script of these parts is read back. */
  lemma ScriptReads(name: string, cs: seq<Col>, names: seq<string>)
    requires Word(name) && cs != [] && (forall i :: 0 <= i < |cs| ==> ColOk(cs[i])) && forall i :: 0 <= i < |names| ==>
            Word(names[i])
    ensures ReadScript(WithPrelude(Prelude(names), CreateStatement(name, Map(Line, cs)))) ==
            Some(Table(names, name, cs))
  {
    var body := LinesText(cs);
    ColumnsRead(cs);
    CreateSplits(name, cs);
    NoSequence(name + (" (\n" + body));
    CreateReads(name, body, cs, names);
    SequencesRead(names, CreateStatement(name, Map(Line, cs)));
  }

  // ---------- what the form means, and what the script says ----------

  /** A column as the form shows it: its effective type and flags, whether it numbers itself, and from
      which sequence. A key is not null and unique. */
  datatype Meaning = Meaning(name: string, typ: string, keys: nat, notNull: bool, unique: bool, auto: bool,
      sequence: Option<string>)

  function Intended(col: Column, d: Dialect, table: string): Meaning {
    var key := col.isPrimary && d.supportsConstraints;
    Meaning(col.name, BaseType(col, d), if key then 1 else 0, key || !col.isNullable,
            key || (col.isUnique && d.supportsConstraints), IsAuto(col, d),
            if IsAuto(col, d) && d.autoIncrementSequence then Some(SequenceName(table, col.name)) else None)
  }

  function Count(qs: seq<Qualifier>, q: Qualifier): nat {
    if qs == [] then 0 else (if qs[0] == q then 1 else 0) + Count(qs[1..], q)
  }

  predicate Numbers(q: Qualifier) {
    q.AutoIncrementWord? || q.AutoincrementSuffix? || q.IdentityCall? || q.GeneratedIdentity? || q.NextVal?
  }

  function SequenceIn(qs: seq<Qualifier>): Option<string> {
    if qs == [] then None else if qs[0].NextVal? then Some(qs[0].sequence) else SequenceIn(qs[1..])
  }

  /** What a column clause says, read by the same rules for every engine. */
  function Says(c: Col): Meaning {
    var keys := Count(c.quals, PrimaryKey);
    Meaning(c.name, c.typ, keys, keys > 0 || NotNull in c.quals, keys > 0 || Unique in c.quals,
            exists i :: 0 <= i < |c.quals| && Numbers(c.quals[i]), SequenceIn(c.quals))
  }

  function ColOf(col: Column, d: Dialect, table: string): Col { Col(col.name, BaseType(col, d), Quals(col, d, table)) }

  /** The auto-increment clauses: exactly one key among the qualifiers, nothing the checkboxes say, and
      either a numbering word or, for DuckDB, the sequence that is added. */
  predicate ClauseOk(d: Dialect) {
    d.autoIncrement.Some? ==>
      var qs := d.autoIncrement.value.quals;
      && Word(d.autoIncrement.value.base) && d.autoIncrement.value.base[0] != '_' && d.supportsConstraints
      && 1 <= |qs| <= 2 && Count(qs, PrimaryKey) == 1
      && (forall i :: 0 <= i < |qs| ==> !qs[i].NextVal? && qs[i] != NotNull && qs[i] != Unique)
      && (d.autoIncrementSequence || |qs| == 2)
  }

  lemma ClausesOk(db: Option<Db>)
    ensures ClauseOk(ResolveDialect(db))
  {
    CountTwo(PrimaryKey, AutoincrementSuffix);
    CountTwo(GeneratedIdentity, PrimaryKey);
    CountTwo(AutoIncrementWord, PrimaryKey);
    CountTwo(IdentityCall, PrimaryKey);
    CountOne(PrimaryKey);
    BasesAreWords();
  }

  lemma BasesAreWords()
    ensures Word("INTEGER") && Word("INT") && Word("NUMBER")
  {}

  lemma CountOne(x: Qualifier)
    ensures Count([x], PrimaryKey) == if x == PrimaryKey then 1 else 0
  {
    assert [x][1..] == [];
  }

  lemma CountTwo(x: Qualifier, y: Qualifier)
    ensures Count([x, y], PrimaryKey) == (if x == PrimaryKey then 1 else 0) + (if y == PrimaryKey then 1 else 0)
  {
    assert [x, y][1..] == [y];
    CountOne(y);
  }

  lemma PlainMeaning(col: Column, d: Dialect, table: string)
    requires !IsAuto(col, d)
    ensures Says(ColOf(col, d, table)) == Intended(col, d, table)
  {
    var key := col.isPrimary && d.supportsConstraints;
    var qs := Quals(col, d, table);
    assert forall i :: 0 <= i < |qs| ==> qs[i] in {PrimaryKey, NotNull, Unique};
    SequenceAppend(qs, []);
    assert qs + [] == qs;
    if key {
      assert qs == [PrimaryKey];
      CountOne(PrimaryKey);
    } else {
      assert |qs| <= 2 && forall i :: 0 <= i < |qs| ==> qs[i] in {NotNull, Unique};
      if |qs| == 2 { CountTwo(qs[0], qs[1]); assert qs == [qs[0], qs[1]]; }
      if |qs| == 1 { CountOne(qs[0]); assert qs == [qs[0]]; }
      assert NotNull in qs <==> !col.isNullable;
      assert Unique in qs <==> col.isUnique && d.supportsConstraints;
    }
  }

  lemma {:induction false} CountAppend(a: seq<Qualifier>, b: seq<Qualifier>, q: Qualifier)
    ensures Count(a + b, q) == Count(a, q) + Count(b, q)
  {
    if a == [] {
      assert a + b == b;
    } else {
      CountAppend(a[1..], b, q);
      assert (a + b)[0] == a[0] && (a + b)[1..] == a[1..] + b;
    }
  }

  lemma {:induction false} SequenceAppend(a: seq<Qualifier>, b: seq<Qualifier>)
    requires forall i :: 0 <= i < |a| ==> !a[i].NextVal?
    ensures SequenceIn(a + b) == SequenceIn(b)
  {
    if a == [] {
      assert a + b == b;
    } else {
      SequenceAppend(a[1..], b);
      assert (a + b)[0] == a[0] && (a + b)[1..] == a[1..] + b;
    }
  }

  lemma AutoMeaning(col: Column, d: Dialect, table: string)
    requires IsAuto(col, d) && ClauseOk(d)
    ensures Says(ColOf(col, d, table)) == Intended(col, d, table)
  {
    var qs := d.autoIncrement.value.quals;
    var more := if d.autoIncrementSequence then [NextVal(SequenceName(table, col.name))] else [];
    var all := Quals(col, d, table);
    assert all == qs + more;
    CountAppend(qs, more, PrimaryKey);
    SequenceAppend(qs, more);
    if d.autoIncrementSequence {
      CountOne(more[0]);
      assert all[|qs|] == more[0] && Numbers(all[|qs|]);
    } else {
      assert qs == [qs[0], qs[1]];
      CountTwo(qs[0], qs[1]);
      assert all[0] == qs[0] && all[1] == qs[1];
      assert Numbers(all[0]) || Numbers(all[1]);
    }
  }

  // ---------- every reachable form ----------

  lemma NameIsWord(s: string)
    requires Name(s) && s != ""
    ensures Word(s)
  {}

  lemma WordSpelled(t: string)
    requires Word(t)
    ensures Spelled(t)
  {
    assert SpelledAs(t, t, None);
  }

  lemma SizedSpelled(name: string, args: string)
    requires Word(name) && ')' !in args
    ensures Spelled(Sized(name, args))
  {
    assert SpelledAs(Sized(name, args), name, Some(args));
  }

  /** A property of all words and all words with arguments. */
  ghost predicate Covers(p: string -> bool) {
    (forall w :: Word(w) ==> p(w)) && forall name, args :: Word(name) && ')' !in args ==> p(Sized(name, args))
  }

  ghost predicate All(p: string -> bool, ts: seq<string>) { forall i :: 0 <= i < |ts| ==> p(ts[i]) }

  lemma CommonWords()
    ensures Word("TEXT") && Word("INTEGER") && Word("BIGINT") && Word("BOOLEAN") && Word("TIMESTAMP") && Word("DATE")
    ensures Word("UUID") && Word("INT") && Word("JSON") && Word("VARCHAR") && Word("DECIMAL")
  {}

  lemma PostgresTypes(p: string -> bool)
    requires Covers(p)
    ensures All(p, POSTGRES_DIALECT.types)
  {
    CommonWords();
    assert Word("JSONB");
  }

  lemma DuckdbTypes(p: string -> bool)
    requires Covers(p)
    ensures All(p, DUCKDB_DIALECT.types) && All(p, TRINO_DIALECT.types)
  {
    CommonWords();
  }

  lemma MysqlTypes(p: string -> bool)
    requires Covers(p)
    ensures All(p, MYSQL_DIALECT.types)
  {
    CommonWords();
    assert Word("CHAR");
  }

  lemma MssqlTypes(p: string -> bool)
    requires Covers(p)
    ensures All(p, MSSQL_DIALECT.types)
  {
    CommonWords();
    assert Word("NVARCHAR") && Word("BIT") && Word("DATETIME2") && Word("UNIQUEIDENTIFIER");
  }

  lemma OracleTypes(p: string -> bool)
    requires Covers(p)
    ensures All(p, ORACLE_DIALECT.types)
  {
    CommonWords();
    assert Word("VARCHAR2") && Word("CLOB") && Word("NUMBER") && Word("RAW");
  }

  lemma SqliteTypes(p: string -> bool)
    requires Covers(p)
    ensures All(p, SQLITE_DIALECT.types)
  {
    CommonWords();
    assert Word("REAL") && Word("BLOB") && Word("NUMERIC");
  }

  lemma EveryType(p: string -> bool, db: Option<Db>)
    requires Covers(p)
    ensures All(p, ResolveDialect(db).types)
  {
    PostgresTypes(p);
    DuckdbTypes(p);
    MysqlTypes(p);
    MssqlTypes(p);
    OracleTypes(p);
    SqliteTypes(p);
  }

  lemma SequenceNameIsWord(table: string, column: string)
    requires Name(table) && Name(column)
    ensures Word(SequenceName(table, column))
  {}

  /** What reading needs of a dialect. */
  ghost predicate DialectReads(d: Dialect) {
    RowOk(d) && ClauseOk(d) && All(Spelled, d.types)
  }

  lemma EveryDialectReads(db: Option<Db>)
    ensures DialectReads(ResolveDialect(db))
  {
    RowsOk(db);
    ClausesOk(db);
    forall w | Word(w) ensures Spelled(w) { WordSpelled(w); }
    forall name, args | Word(name) && ')' !in args ensures Spelled(Sized(name, args)) { SizedSpelled(name, args); }
    EveryType(Spelled, db);
  }

  /** A column's line is that of a clause which can be read and says what the form shows. */
  ghost predicate Clear(c: Col, col: Column, d: Dialect, table: string) {
    && ColOk(c) && c.typ != AUTO_INCREMENT && ColumnDef(col, d, table) == Line(c)
    && Says(c) == Intended(col, d, table)
  }

  lemma ColumnReadable(col: Column, d: Dialect, table: string)
    requires ColumnOk(col, d) && DialectReads(d) && col.name != "" && Name(table)
    ensures Clear(ColOf(col, d, table), col, d, table)
  {
    NameIsWord(col.name);
    SequenceNameIsWord(table, col.name);
    ReadableFor(col, d, table);
    if IsAuto(col, d) {
      WordSpelled(BaseType(col, d));
      assert AUTO_INCREMENT[0] == '_';
    } else {
      var i :| 0 <= i < |d.types| && d.types[i] == col.typ;
    }
  }

  lemma ReadableFor(col: Column, d: Dialect, table: string)
    requires ColumnOk(col, d) && ClauseOk(d) && Word(SequenceName(table, col.name))
    ensures forall i :: 0 <= i < |Quals(col, d, table)| ==> QualOk(Quals(col, d, table)[i])
    ensures IsAuto(col, d) ==> Word(BaseType(col, d))
    ensures !IsAuto(col, d) ==> BaseType(col, d) == col.typ
    ensures ColumnDef(col, d, table) == Line(ColOf(col, d, table))
    ensures Says(ColOf(col, d, table)) == Intended(col, d, table)
  {
    if IsAuto(col, d) { AutoMeaning(col, d, table); } else { PlainMeaning(col, d, table); }
    var line := Line(ColOf(col, d, table));
    assert line + "" == line;
  }

  function Cols(cols: seq<Column>, d: Dialect, table: string): (r: seq<Col>)
    ensures |r| == |cols| && forall i :: 0 <= i < |cols| ==> r[i] == ColOf(cols[i], d, table)
  {
    seq(|cols|, i requires 0 <= i < |cols| => ColOf(cols[i], d, table))
  }

  lemma {:induction false} DefsAt(cols: seq<Column>, d: Dialect, table: string, i: nat)
    requires i < |cols|
    ensures ColumnDefs(cols, d, table)[i] == ColumnDef(cols[i], d, table)
    decreases |cols|
  {
    if i < |cols| - 1 { DefsAt(cols[..|cols| - 1], d, table, i); }
  }

  /** The sequences of the prelude are those of the columns. */
  lemma {:induction false} SequencesAre(cols: seq<Column>, d: Dialect, table: string)
    requires Name(table) && forall i :: 0 <= i < |cols| ==> Name(cols[i].name)
    ensures forall j :: 0 <= j < |Sequences(cols, d, table)| ==> Word(Sequences(cols, d, table)[j])
    ensures forall i :: 0 <= i < |cols| && IsAuto(cols[i], d) && d.autoIncrementSequence ==>
            SequenceName(table, cols[i].name) in Sequences(cols, d, table)
    decreases |cols|
  {
    if cols != [] {
      var front := cols[..|cols| - 1];
      SequencesAre(front, d, table);
      SequenceNameIsWord(table, cols[|cols| - 1].name);
      assert forall i :: 0 <= i < |front| ==> front[i] == cols[i];
    }
  }

  /** A form whose names are filled in. */
  predicate Named(s: Form) { s.tableName != "" && forall i :: 0 <= i < |s.columns| ==> s.columns[i].name != "" }

  /** Round trip: after any sequence of edits, the script of a form whose names are filled in reads back
      as a table of that name whose columns say, one by one, what the form shows: name, effective type,
      exactly one key clause if the column is a key and the dialect has constraints and none otherwise,
      not null, unique, and numbering. No type is the sentinel, and the sequences created before are
      exactly those that columns default from. */
  lemma RoundTrip(db: Option<Db>, events: seq<Event>)
    requires Named(RunAll(db, events))
    ensures var s := RunAll(db, events);
            var t := ReadScript(Script(s));
            t.Some? && ReadsBack(t.value, s, ResolveDialect(s.db))
  {
    AlwaysOk(db, events);
    EveryDialectReads(RunAll(db, events).db);
    FormReads(RunAll(db, events), ResolveDialect(RunAll(db, events).db));
  }

  predicate ReadsBack(t: Table, s: Form, d: Dialect) {
    && t.name == s.tableName && |t.columns| == |s.columns| && t.sequences == Sequences(s.columns, d, s.tableName)
    && forall i :: 0 <= i < |s.columns| ==> ColumnIsBack(t.columns[i], s.columns[i], d, s.tableName, t.sequences)
  }

  predicate ColumnIsBack(c: Col, col: Column, d: Dialect, table: string, sequences: seq<string>) {
    && c.typ != AUTO_INCREMENT && Says(c) == Intended(col, d, table)
    && (Says(c).sequence.Some? ==> Says(c).sequence.value in sequences)
  }

  lemma NotBlank(s: string)
    requires Name(s) && s != ""
    ensures !Blank(s)
  {
    assert !IsSpace(s[0]) && !IsSpace(s[|s| - 1]);
    TrimFixes(s);
  }

  /** The columns' lines are the lines of these clauses. */
  lemma DefsAreLines(columns: seq<Column>, d: Dialect, table: string)
    requires forall i :: 0 <= i < |columns| ==> Clear(ColOf(columns[i], d, table), columns[i], d, table)
    ensures ColumnDefs(columns, d, table) == Map(Line, Cols(columns, d, table))
  {
    var cs := Cols(columns, d, table);
    forall i | 0 <= i < |cs| ensures ColumnDefs(columns, d, table)[i] == Line(cs[i]) {
      DefsAt(columns, d, table, i);
      assert Clear(ColOf(columns[i], d, table), columns[i], d, table);
    }
  }

  lemma ClearColumnsRead(tableName: string, columns: seq<Column>, d: Dialect)
    requires Name(tableName) && tableName != "" && columns != [] && forall i :: 0 <= i < |columns| ==>
            Name(columns[i].name)
    requires forall i :: 0 <= i < |columns| ==> Clear(ColOf(columns[i], d, tableName), columns[i], d, tableName)
    ensures ReadScript(ScriptFor(tableName, columns, d)) ==
            Some(Table(Sequences(columns, d, tableName), tableName, Cols(columns, d, tableName)))
  {
    DefsAreLines(columns, d, tableName);
    SequencesAre(columns, d, tableName);
    NameIsWord(tableName);
    NotBlank(tableName);
    ScriptReads(tableName, Cols(columns, d, tableName), Sequences(columns, d, tableName));
  }

  lemma ClearIsBack(c: Col, col: Column, d: Dialect, table: string, sequences: seq<string>)
    requires Clear(c, col, d, table)
    requires IsAuto(col, d) && d.autoIncrementSequence ==> SequenceName(table, col.name) in sequences
    ensures ColumnIsBack(c, col, d, table, sequences)
  {}

  lemma FormReads(s: Form, d: Dialect)
    requires OkFor(s, d) && Named(s) && DialectReads(d)
    ensures var t := ReadScript(ScriptFor(s.tableName, s.columns, d)); t.Some? && ReadsBack(t.value, s, d)
  {
    var sequences := Sequences(s.columns, d, s.tableName);
    SequencesAre(s.columns, d, s.tableName);
    forall i | 0 <= i < |s.columns|
      ensures Clear(ColOf(s.columns[i], d, s.tableName), s.columns[i], d, s.tableName)
      ensures ColumnIsBack(ColOf(s.columns[i], d, s.tableName), s.columns[i], d, s.tableName, sequences)
    {
      ColumnReadable(s.columns[i], d, s.tableName);
      ClearIsBack(ColOf(s.columns[i], d, s.tableName), s.columns[i], d, s.tableName, sequences);
    }
    ClearColumnsRead(s.tableName, s.columns, d);
  }

  // ---------- how many keys ----------

  /** The key clauses of a table's columns. */
  function KeyClauses(cols: seq<Col>): nat {
    if cols == [] then 0 else KeyClauses(cols[..|cols| - 1]) + Says(cols[|cols| - 1]).keys
  }

  /** The columns that are checked as keys. */
  function Primaries(cols: seq<Column>): nat {
    if cols == [] then 0 else Primaries(cols[..|cols| - 1]) + if cols[|cols| - 1].isPrimary then 1 else 0
  }

  lemma {:induction false} ClausesOfColumns(cols: seq<Col>, columns: seq<Column>, d: Dialect, table: string)
    requires |cols| == |columns|
    requires forall i :: 0 <= i < |cols| ==> Says(cols[i]) == Intended(columns[i], d, table)
    ensures KeyClauses(cols) == if d.supportsConstraints then Primaries(columns) else 0
  {
    if cols != [] {
      var n := |cols| - 1;
      assert forall i :: 0 <= i < n ==> Says(cols[..n][i]) == Intended(columns[..n][i], d, table);
      ClausesOfColumns(cols[..n], columns[..n], d, table);
      assert Says(cols[n]) == Intended(columns[n], d, table);
    }
  }

  lemma {:induction false} PrimariesAtMostOneIff(cols: seq<Column>)
    ensures Primaries(cols) == 0 <==> forall i :: 0 <= i < |cols| ==> !cols[i].isPrimary
    ensures Primaries(cols) <= 1 <==> forall i, j :: 0 <= i < j < |cols| ==> !cols[i].isPrimary || !cols[j].isPrimary
  {
    if cols != [] {
      var front, last := cols[..|cols| - 1], cols[|cols| - 1];
      PrimariesAtMostOneIff(front);
      assert forall i :: 0 <= i < |front| ==> front[i] == cols[i];
      if Primaries(front) == 1 && last.isPrimary {
        var i :| 0 <= i < |front| && front[i].isPrimary;
        assert cols[i].isPrimary && cols[|front|].isPrimary;
      }
    }
  }

  /** After any sequence of edits, the script of a form whose names are filled in holds one key clause for
      every column checked as a key if the dialect has constraints, and none otherwise. So it holds more
      than one if and only if two columns are checked. */
  lemma KeyClausesAre(db: Option<Db>, events: seq<Event>)
    requires Named(RunAll(db, events))
    ensures var s := RunAll(db, events);
            var t := ReadScript(Script(s));
            && t.Some?
            && KeyClauses(t.value.columns) == (if ResolveDialect(s.db).supportsConstraints then
                Primaries(s.columns) else 0)
            && (KeyClauses(t.value.columns) > 1 <==>
                exists i, j :: 0 <= i < j < |s.columns| && s.columns[i].isPrimary && s.columns[j].isPrimary)
  {
    var s := RunAll(db, events);
    var d := ResolveDialect(s.db);
    RoundTrip(db, events);
    AlwaysOk(db, events);
    KeysOfForm(ReadScript(Script(s)).value, s, d);
  }

  lemma KeysOfForm(t: Table, s: Form, d: Dialect)
    requires ReadsBack(t, s, d) && OkFor(s, d)
    ensures KeyClauses(t.columns) == (if d.supportsConstraints then Primaries(s.columns) else 0)
    ensures KeyClauses(t.columns) > 1 <==>
            exists i, j :: 0 <= i < j < |s.columns| && s.columns[i].isPrimary && s.columns[j].isPrimary
  {
    forall i | 0 <= i < |s.columns| ensures Says(t.columns[i]) == Intended(s.columns[i], d, s.tableName) {
      assert ColumnIsBack(t.columns[i], s.columns[i], d, s.tableName, t.sequences);
    }
    ClausesOfColumns(t.columns, s.columns, d, s.tableName);
    PrimariesAtMostOneIff(s.columns);
    if !d.supportsConstraints {
      forall i | 0 <= i < |s.columns| ensures !s.columns[i].isPrimary { assert ColumnOk(s.columns[i], d); }
    }
  }

  /** Nothing keeps a second column from being made a key: a form reached by four edits whose script
      holds two key clauses. */
  lemma TwoKeysReachable()
    ensures var s := RunAll(Some(Postgres), [TypeTable("t"), AddColumn, TypeName(1, "b"), CheckPrimary(1, true)]);
            Named(s) && ReadScript(Script(s)).Some? && KeyClauses(ReadScript(Script(s)).value.columns) == 2
  {
    var events := [TypeTable("t"), AddColumn, TypeName(1, "b"), CheckPrimary(1, true)];
    var s := RunAll(Some(Postgres), events);
    TwoKeysForm(events);
    KeyClausesAre(Some(Postgres), events);
    assert s.columns[..1] == [s.columns[0]] && [s.columns[0]][..0] == [];
    assert Primaries([s.columns[0]]) == 1;
  }

  lemma TwoKeysForm(events: seq<Event>)
    requires events == [TypeTable("t"), AddColumn, TypeName(1, "b"), CheckPrimary(1, true)]
    ensures var s := RunAll(Some(Postgres), events);
            && s.db == Some(Postgres) && s.tableName == "t" && |s.columns| == 2
            && s.columns[0].name == "id" && s.columns[0].isPrimary && s.columns[1].name == "b" && s.columns[1].isPrimary
  {
    var none: seq<Event> := [];
    assert events[..3][..2] == events[..2] && events[..2][..1] == events[..1] && events[..1][..0] == none;
    var s0 := Start(Some(Postgres));
    var s1 := Apply(s0, events[0]);
    var s2 := Apply(s1, events[1]);
    var s3 := Apply(s2, events[2]);
    assert RunAll(Some(Postgres), none) == s0;
    assert RunAll(Some(Postgres), events[..1]) == s1;
    assert RunAll(Some(Postgres), events[..2]) == s2;
    assert RunAll(Some(Postgres), events[..3]) == s3;
    assert RunAll(Some(Postgres), events) == Apply(s3, events[3]);
    assert Sanitize("t") == "t" && Sanitize("b") == "b";
  }
}
