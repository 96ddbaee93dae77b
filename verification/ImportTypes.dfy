/** Which column type an import chooses, seen in the statements it generates. */
module ImportTypes {
  import opened Text
  import opened Literals
  import opened ImportSql

  // ---------- the shapes, by how such a text is put together ----------

  /** An integer is digits, with or without a minus sign. */
  lemma IntegerIff(s: string)
    ensures IntegerValue(s) <==> exists digits :: AllDigits(digits) && (s == digits || s == "-" + digits)
  {
    if IntegerValue(s) {
      assert s == SkipMinus(s) || s == "-" + SkipMinus(s);
    } else {
      forall digits | AllDigits(digits) ensures s != digits && s != "-" + digits {
        IntegerOfDigits(digits);
      }
    }
  }

  lemma IntegerOfDigits(digits: string)
    requires AllDigits(digits)
    ensures IntegerValue(digits) && IntegerValue("-" + digits)
  {
    assert IsDigit(digits[0]) && ("-" + digits)[1..] == digits;
  }

  /** The digits around a point. */
  lemma DigitsSplit(t: string) returns (whole: string, digits: string)
    requires UnsignedNumeric(t) && !AllDigits(t)
    ensures AllDigits(whole) && AllDigits(digits) && t == whole + "." + digits
  {
    var i :| 0 < i < |t| && t[i] == '.' && AllDigits(t[..i]) && AllDigits(t[i + 1..]);
    whole, digits := t[..i], t[i + 1..];
    assert t == t[..i] + [t[i]] + t[i + 1..];
  }

  lemma PointSplits(s: string) returns (whole: string, digits: string)
    requires NumericValue(s) && !IntegerValue(s)
    ensures IntegerValue(whole) && AllDigits(digits) && s == whole + "." + digits
  {
    whole, digits := DigitsSplit(SkipMinus(s));
    IntegerOfDigits(whole);
    if SkipMinus(s) != s {
      Regroup("-", whole, ".");
      Regroup("-", whole + ".", digits);
      assert s == "-" + SkipMinus(s);
      whole := "-" + whole;
    }
  }

  lemma PointedIsNumeric(whole: string, digits: string)
    requires IntegerValue(whole) && AllDigits(digits)
    ensures NumericValue(whole + "." + digits)
  {
    var s := whole + "." + digits;
    var w := SkipMinus(whole);
    assert SkipMinus(s) == w + "." + digits;
    var t := w + "." + digits;
    assert t[..|w|] == w && t[|w|] == '.' && t[|w| + 1..] == digits;
  }

  /** A number is an integer, or an integer, a point and digits. */
  lemma NumericIff(s: string)
    ensures NumericValue(s) <==>
            IntegerValue(s) ||
              exists whole, digits :: IntegerValue(whole) && AllDigits(digits) && s == whole + "." + digits
  {
    if NumericValue(s) && !IntegerValue(s) {
      var whole, digits := PointSplits(s);
    }
    if whole, digits :| IntegerValue(whole) && AllDigits(digits) && s == whole + "." + digits {
      PointedIsNumeric(whole, digits);
    }
  }

  // ---------- when there is a script ----------

  /** Without a file or a target there is nothing; a provider that declares it creates no tables is refused
      a new one, and everything if no kind of object takes rows either; every other import has a script. */
  lemma ScriptIff(parsed: Option<Table>, target: Option<Target>, mapping: map<string, string>,
                  dialect: Option<Dialect>, caps: Option<Capabilities>)
    ensures var r := ImportSpec(parsed, target, mapping, dialect, caps);
            && (r == Nothing <==> parsed == None || target == None)
            && (r == Refused <==>
                  parsed.Some? && target.Some? && caps.Some? && caps.value.supportsCreateTable == Some(false) &&
                  (target.value.NewTable? || !caps.value.acceptsRowWrites))
  {}

  // ---------- the evidence of a column ----------

  /** A sampled row that says something about the column: its cell is not empty. A row that is too short
      says that the column holds something else than values. */
  predicate Speaks(rows: seq<seq<string>>, c: nat, r: nat) {
    r < |rows| && r < 100 && (c < |rows[r]| ==> rows[r][c] != "")
  }

  /** Every row that speaks has a cell of the shape. */
  ghost predicate AllOf(rows: seq<seq<string>>, c: nat, shape: string -> bool) {
    forall r: nat :: Speaks(rows, c, r) ==> c < |rows[r]| && shape(rows[r][c])
  }

  ghost predicate AnySpeaks(rows: seq<seq<string>>, c: nat) { exists r: nat :: Speaks(rows, c, r) }

  ghost predicate Integers(rows: seq<seq<string>>, c: nat) { AnySpeaks(rows, c) && AllOf(rows, c, IntegerValue) }

  ghost predicate Numbers(rows: seq<seq<string>>, c: nat) { AnySpeaks(rows, c) && AllOf(rows, c, NumericValue) }

  ghost predicate Booleans(rows: seq<seq<string>>, c: nat) { AnySpeaks(rows, c) && AllOf(rows, c, BooleanValue) }

  lemma SampleSpeaks(rows: seq<seq<string>>, c: nat)
    ensures var sample := Sample(Take(rows, SAMPLE_SIZE), c);
            forall r: nat :: r < |sample| && sample[r] != Some("") <==> Speaks(rows, c, r)
  {}

  lemma EveryIs(rows: seq<seq<string>>, c: nat, shape: string -> bool)
    ensures Every(Sample(Take(rows, SAMPLE_SIZE), c), shape) <==> AllOf(rows, c, shape)
  {
    var sample := Sample(Take(rows, SAMPLE_SIZE), c);
    SampleSpeaks(rows, c);
    if AllOf(rows, c, shape) {
      forall i | 0 <= i < |sample| && sample[i] != Some("") ensures sample[i].Some? && shape(sample[i].value) {
        assert Speaks(rows, c, i);
      }
    }
    if Every(sample, shape) {
      forall r: nat | Speaks(rows, c, r) ensures c < |rows[r]| && shape(rows[r][c]) {
        assert r < |sample| && sample[r] != Some("");
      }
    }
  }

  lemma AnyIs(rows: seq<seq<string>>, c: nat)
    ensures var sample := Sample(Take(rows, SAMPLE_SIZE), c);
            (forall i :: 0 <= i < |sample| ==> sample[i] == Some("")) <==> !AnySpeaks(rows, c)
  {
    var sample := Sample(Take(rows, SAMPLE_SIZE), c);
    SampleSpeaks(rows, c);
    if i :| 0 <= i < |sample| && sample[i] != Some("") { assert Speaks(rows, c, i); }
    if r: nat :| Speaks(rows, c, r) { assert r < |sample| && sample[r] != Some(""); }
  }

  /** All integers are numbers. */
  lemma IntegersAreNumbers(rows: seq<seq<string>>, c: nat)
    requires Integers(rows, c)
    ensures Numbers(rows, c)
  {}

  /** The type of a column is the narrowest that all its evidence has. */
  lemma TypeIs(rows: seq<seq<string>>, headers: nat, c: nat, ty: SqlType)
    requires c < headers && ty == ColumnTypes(headers, rows)[c]
    ensures ty == IntegerType <==> Integers(rows, c)
    ensures ty == NumericType <==> Numbers(rows, c) && !Integers(rows, c)
    ensures ty == BooleanType <==> Booleans(rows, c) && !Numbers(rows, c)
    ensures ty == TextType <==> !Numbers(rows, c) && !Booleans(rows, c)
  {
    AnyIs(rows, c);
    EveryIs(rows, c, IntegerValue);
    EveryIs(rows, c, NumericValue);
    EveryIs(rows, c, BooleanValue);
    if Integers(rows, c) { IntegersAreNumbers(rows, c); }
  }

  // ---------- in the statements ----------

  lemma TypeNamesDiffer(column: string, a: SqlType, b: SqlType)
    ensures "  " + column + " " + TypeName(a) == "  " + column + " " + TypeName(b) <==> a == b
  {
    var front := "  " + column + " ";
    assert (front + TypeName(a))[|front|..] == TypeName(a) && (front + TypeName(b))[|front|..] == TypeName(b);
  }

  /** A new table's column is declared with the narrowest type of its evidence: INTEGER exactly if the
      non-empty cells among the first 100 rows are all integers and there is one, NUMERIC if they are all
      numbers and not all integers, BOOLEAN if they are all truth values and not all numbers, and TEXT
      exactly otherwise. */
  lemma DeclaredNarrowest(data: Table, target: Target, mapping: map<string, string>, dialect: Option<Dialect>,
                          caps: Option<Capabilities>, c: nat)
    requires ImportSpec(Some(data), Some(target), mapping, dialect, caps).Script?
    requires target.NewTable? && c < |data.headers|
    ensures var statements := ImportSpec(Some(data), Some(target), mapping, dialect, caps).statements;
            && statements != [] && statements[0].CreateTable? && |statements[0].definitions| == |data.headers|
            && var line, name := statements[0].definitions[c], "  " + MappedHeaders(data.headers, mapping)[c] + " ";
            && (line == name + "INTEGER" <==> Integers(data.rows, c))
            && (line == name + "NUMERIC" <==> Numbers(data.rows, c) && !Integers(data.rows, c))
            && (line == name + "BOOLEAN" <==> Booleans(data.rows, c) && !Numbers(data.rows, c))
            && (line == name + "TEXT" <==> !Numbers(data.rows, c) && !Booleans(data.rows, c))
  {
    var column := MappedHeaders(data.headers, mapping)[c];
    var ty := ColumnTypes(|data.headers|, data.rows)[c];
    TypeIs(data.rows, |data.headers|, c, ty);
    TypeNamesDiffer(column, ty, IntegerType);
    TypeNamesDiffer(column, ty, NumericType);
    TypeNamesDiffer(column, ty, BooleanType);
    TypeNamesDiffer(column, ty, TextType);
  }

  /** What a cell is inserted as, whatever the target: NULL for the three ways to write it; in a column of
      integers or numbers the number, in a column of truth values the truth value, and everywhere else its
      text. A cell behind the first 100 rows, or behind the headers, that is not of the column's shape is
      its text, too. */
  lemma InsertedNarrowest(data: Table, target: Target, mapping: map<string, string>, dialect: Option<Dialect>,
                          caps: Option<Capabilities>, r: nat, c: nat)
    requires ImportSpec(Some(data), Some(target), mapping, dialect, caps).Script?
    requires r < |data.rows| && c < |data.rows[r]|
    ensures var inserted := Inserted(ImportSpec(Some(data), Some(target), mapping, dialect, caps).statements,
                                     EscapeOf(dialect));
            && inserted.Some? && |inserted.value| == |data.rows| && |inserted.value[r]| == |data.rows[r]|
            && CellIs(inserted.value[r][c], data, r, c)
  {
    ImportInsertsEveryRow(data, target, mapping, dialect, caps);
    var types := ColumnTypes(|data.headers|, data.rows);
    var ty := if c < |types| then Some(types[c]) else None;
    assert RowMeanings(TypedRows(data.rows, types))[r][c] == Meaning(data.rows[r][c], ty);
    LiteralIs(data, r, c, ty);
  }

  /** The literal of a cell, from the file alone. */
  ghost predicate CellIs(l: Literal, data: Table, r: nat, c: nat)
    requires r < |data.rows| && c < |data.rows[r]|
  {
    var val := data.rows[r][c];
    && (l == LNull <==> val == "" || val == "NULL" || val == "null")
    && (l == LNumber(val) <==>
        l != LNull && c < |data.headers| &&
        ((Integers(data.rows, c) && IntegerValue(val)) ||
         (Numbers(data.rows, c) && !Integers(data.rows, c) && NumericValue(val))))
    && (l == LBool(Truthy(val)) <==>
        l != LNull && c < |data.headers| && Booleans(data.rows, c) && !Numbers(data.rows, c) && BooleanValue(val))
    && (l == LString(val) <==> l != LNull && l != LNumber(val) && l != LBool(Truthy(val)))
  }

  lemma LiteralIs(data: Table, r: nat, c: nat, ty: Option<SqlType>)
    requires r < |data.rows| && c < |data.rows[r]|
    requires ty == if c < |data.headers| then Some(ColumnTypes(|data.headers|, data.rows)[c]) else None
    ensures CellIs(Meaning(data.rows[r][c], ty), data, r, c)
  {
    if c < |data.headers| { TypeIs(data.rows, |data.headers|, c, ty.value); }
  }

  /** So in the sample: every cell that is not NULL is a number in a column of numbers, a truth value in
      a column of truth values, and its text in every other column. */
  lemma SampledNarrowest(l: Literal, data: Table, r: nat, c: nat)
    requires r < |data.rows| && r < 100 && c < |data.rows[r]| && c < |data.headers| && CellIs(l, data, r, c)
    requires !NullValue(data.rows[r][c])
    ensures Numbers(data.rows, c) ==> l == LNumber(data.rows[r][c])
    ensures Booleans(data.rows, c) && !Numbers(data.rows, c) ==> l == LBool(Truthy(data.rows[r][c]))
    ensures !Numbers(data.rows, c) && !Booleans(data.rows, c) ==> l == LString(data.rows[r][c])
  {
    assert Speaks(data.rows, c, r);
  }
}
