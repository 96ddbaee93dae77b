/** Every edit of the create-table form, seen in the script it leads to. */
module CreateTableEdits {
  import opened Text
  import opened CreateTable
  import opened CreateTableText

  /** What the script of a form says of column i, if its names are filled in. */
  function SaysAt(s: Form, i: nat): Meaning {
    var t := ReadScript(Script(s));
    if t.Some? && i < |t.value.columns| then Says(t.value.columns[i]) else Meaning("", "", 0, false, false, false, None)
  }

  lemma SaysAtIs(db: Option<Db>, events: seq<Event>, s: Form, i: nat)
    requires s == RunAll(db, events) && Named(s) && i < |s.columns|
    ensures ReadScript(Script(s)).Some? && |ReadScript(Script(s)).value.columns| == |s.columns|
    ensures SaysAt(s, i) == Intended(s.columns[i], ResolveDialect(s.db), s.tableName)
  {
    RoundTrip(db, events);
    BackIs(ReadScript(Script(s)).value, s, ResolveDialect(s.db), i);
  }

  lemma BackIs(t: Table, s: Form, d: Dialect, i: nat)
    requires ReadsBack(t, s, d) && i < |s.columns|
    ensures |t.columns| == |s.columns| && Says(t.columns[i]) == Intended(s.columns[i], d, s.tableName)
  {
    assert ColumnIsBack(t.columns[i], s.columns[i], d, s.tableName, t.sequences);
  }

  /** Small letters and digits are kept, and every other character becomes an underscore. */
  predicate Plainly(name: string, typed: string) {
    && |name| == |typed|
    && forall k :: 0 <= k < |typed| ==>
         name[k] == if 'a' <= typed[k] <= 'z' || '0' <= typed[k] <= '9' then typed[k] else '_'
  }

  /** The column an edit is about. */
  function ColumnOf(e: Event): Option<nat> {
    match e
    case TypeName(i, _) => Some(i)
    case SelectType(i, _) => Some(i)
    case CheckPrimary(i, _) => Some(i)
    case CheckNullable(i, _) => Some(i)
    case CheckUnique(i, _) => Some(i)
    case _ => None
  }

  /** What an edit makes of its own column. */
  predicate Entered(e: Event, c: Meaning) {
    match e
    case TypeName(_, typed) => Plainly(c.name, typed)
    case SelectType(_, typ) =>
      if typ == AUTO_INCREMENT then c.auto && c.keys == 1 else c.typ == typ && !c.auto
    case CheckPrimary(_, checked) =>
      c.keys == (if checked then 1 else 0) && (checked ==> c.notNull && c.unique) && (!checked ==> !c.auto)
    case CheckNullable(_, checked) => c.notNull <==> !checked || c.keys > 0
    case CheckUnique(_, checked) => c.unique <==> checked || c.keys > 0
    case _ => true
  }

  /** What it leaves of it. */
  predicate Kept(e: Event, before: Meaning, c: Meaning) {
    match e
    case TypeName(_, _) => c == before.(name := c.name, sequence := c.sequence)
    case SelectType(_, _) => c == before.(typ := c.typ, auto := c.auto, sequence := c.sequence)
    case CheckPrimary(_, _) => c.name == before.name && (!before.auto && !c.auto ==> c.typ == before.typ)
    case CheckNullable(_, _) => c == before.(notNull := c.notNull)
    case CheckUnique(_, _) => c == before.(unique := c.unique)
    case _ => true
  }

  lemma IntendedEntered(s: Form, e: Event, i: nat, d: Dialect, t: Form)
    requires OkFor(s, d) && RowOk(d) && Offered(s, e, d) && ColumnOf(e) == Some(i) && t == Edit(s, e, d)
    ensures i < |s.columns| == |t.columns| && t.tableName == s.tableName && t.db == s.db
    ensures Entered(e, Intended(t.columns[i], d, t.tableName))
    ensures Kept(e, Intended(s.columns[i], d, s.tableName), Intended(t.columns[i], d, t.tableName))
    ensures forall j :: 0 <= j < |s.columns| && j != i ==> t.columns[j] == s.columns[j]
  {
    assert ColumnOk(s.columns[i], d);
    if e.SelectType? && e.typ in d.types { assert e.typ != AUTO_INCREMENT; }
  }

  lemma EditIs(db: Option<Db>, events: seq<Event>, e: Event, s: Form, t: Form)
    requires s == RunAll(db, events) && t == RunAll(db, events + [e])
    requires ColumnOf(e).Some? && Offered(s, e, ResolveDialect(s.db))
    ensures RowOk(ResolveDialect(s.db)) && OkFor(s, ResolveDialect(s.db)) && t == Edit(s, e, ResolveDialect(s.db))
  {
    RowsOk(s.db);
    AlwaysOk(db, events);
    RunMore(db, events, e);
  }

  lemma RunMore(db: Option<Db>, events: seq<Event>, e: Event)
    ensures RunAll(db, events + [e]) == Apply(RunAll(db, events), e)
  {
    assert (events + [e])[..|events|] == events;
  }

  /** After any run, an edit of a column shows in the script exactly there: the column says what was
      entered, keeps what the edit is not about, and every other column says what it said before. */
  lemma EditShows(db: Option<Db>, events: seq<Event>, e: Event, i: nat, j: nat)
    requires ColumnOf(e) == Some(i) && Offered(RunAll(db, events), e, ResolveDialect(RunAll(db, events).db))
    requires Named(RunAll(db, events + [e])) && j < |RunAll(db, events).columns|
    ensures var s, t := RunAll(db, events), RunAll(db, events + [e]);
            && ReadScript(Script(t)).Some? && |ReadScript(Script(t)).value.columns| == |s.columns|
            && Entered(e, SaysAt(t, i))
            && (Named(s) ==> Kept(e, SaysAt(s, i), SaysAt(t, i)) && (j != i ==> SaysAt(t, j) == SaysAt(s, j)))
  {
    var s, t := RunAll(db, events), RunAll(db, events + [e]);
    EditIs(db, events, e, s, t);
    IntendedEntered(s, e, i, ResolveDialect(s.db), t);
    SaysAtIs(db, events + [e], t, i);
    SaysAtIs(db, events + [e], t, j);
    if Named(s) {
      SaysAtIs(db, events, s, i);
      SaysAtIs(db, events, s, j);
    }
  }

  /** A form that was just opened, or reset by another engine, once its table is named: one column "id", a key
      where there are constraints, not null, numbered where the engine can. */
  lemma DefaultShows(db: Option<Db>, name: string)
    requires name != ""
    ensures var t := RunAll(db, [TypeTable(name)]);
            var d := ResolveDialect(db);
            var c := SaysAt(t, 0);
            && |t.columns| == 1 && Plainly(t.tableName, name)
            && c.name == "id" && c.keys == (if d.supportsConstraints then 1 else 0) && c.notNull
            && (c.unique <==> d.supportsConstraints) && (c.auto <==> d.autoIncrement.Some?)
  {
    var none: seq<Event> := [];
    RunMore(db, none, TypeTable(name));
    assert none + [TypeTable(name)] == [TypeTable(name)];
    RowsOk(db);
    SaysAtIs(db, [TypeTable(name)], RunAll(db, [TypeTable(name)]), 0);
  }

  lemma IntendedAdded(s: Form, t: Form, d: Dialect, typed: string)
    requires RowOk(d) && |t.columns| == |s.columns| + 1
    requires t.columns[|s.columns|] == Column(Sanitize(typed), d.types[0], false, true, false, "")
    ensures var c := Intended(t.columns[|s.columns|], d, t.tableName);
            && Plainly(c.name, typed) && c.typ == d.types[0]
            && c.keys == 0 && !c.notNull && !c.unique && !c.auto
  {
    assert d.types[0] in d.types;
  }

  lemma AddIs(s: Form, d: Dialect, typed: string)
    requires d == ResolveDialect(s.db)
    ensures RowOk(d)
    ensures var n := |s.columns|;
            var t := Apply(Apply(s, AddColumn), TypeName(n, typed));
            && t.db == s.db && t.tableName == s.tableName
            && t.columns == s.columns + [Column(Sanitize(typed), d.types[0], false, true, false, "")]
  {
    RowsOk(s.db);
  }

  /** A column that was added and named: of the engine's first type, and nothing else. */
  lemma AddedShows(db: Option<Db>, events: seq<Event>, typed: string, s: Form, t: Form, d: Dialect)
    requires s == RunAll(db, events) && Named(s) && typed != "" && d == ResolveDialect(s.db)
    requires t == RunAll(db, events + [AddColumn] + [TypeName(|s.columns|, typed)])
    ensures var c := SaysAt(t, |s.columns|);
            && |t.columns| == |s.columns| + 1 && d.types != []
            && Plainly(c.name, typed) && c.typ == d.types[0] && c.keys == 0 && !c.notNull && !c.unique && !c.auto
  {
    var n := |s.columns|;
    var more := events + [AddColumn] + [TypeName(n, typed)];
    RunMore(db, events, AddColumn);
    RunMore(db, events + [AddColumn], TypeName(n, typed));
    AddIs(s, d, typed);
    IntendedAdded(s, t, d, typed);
    SaysAtIs(db, more, t, n);
  }

  lemma RemoveIs(s: Form, i: nat, t: Form)
    requires i < |s.columns| && t == Apply(s, RemoveColumn(i))
    ensures t.db == s.db && t.tableName == s.tableName
    ensures t.columns == if |s.columns| == 1 then s.columns else s.columns[..i] + s.columns[i + 1..]
  {
    RowsOk(s.db);
  }

  /** Where a column of the shorter form stood before. */
  function Before(n: nat, i: nat, j: nat): nat { if n == 1 || j < i then j else j + 1 }

  lemma SameColumn(db: Option<Db>, a: seq<Event>, b: seq<Event>, s: Form, t: Form, i: nat, j: nat)
    requires s == RunAll(db, a) && t == RunAll(db, b) && Named(s) && Named(t)
    requires s.db == t.db && s.tableName == t.tableName
    requires i < |s.columns| && j < |t.columns| && s.columns[i] == t.columns[j]
    ensures SaysAt(s, i) == SaysAt(t, j)
  {
    SaysAtIs(db, a, s, i);
    SaysAtIs(db, b, t, j);
  }

  lemma Shorter(s: Form, i: nat, t: Form, j: nat, k: nat)
    requires Named(s) && i < |s.columns| && t.tableName == s.tableName && k == Before(|s.columns|, i, j)
    requires t.columns == if |s.columns| == 1 then s.columns else s.columns[..i] + s.columns[i + 1..]
    ensures Named(t) && |t.columns| == (if |s.columns| == 1 then 1 else |s.columns| - 1)
    ensures j < |t.columns| ==> k < |s.columns| && t.columns[j] == s.columns[k]
  {}

  /** A removed column is gone from the script, and the others stay in order; the last one is not removed. */
  lemma RemovedShows(db: Option<Db>, events: seq<Event>, i: nat, s: Form, t: Form, j: nat)
    requires s == RunAll(db, events) && Named(s) && i < |s.columns| && t == RunAll(db, events + [RemoveColumn(i)])
    ensures Named(t) && |t.columns| == (if |s.columns| == 1 then 1 else |s.columns| - 1)
    ensures j < |t.columns| ==> SaysAt(s, Before(|s.columns|, i, j)) == SaysAt(t, j)
  {
    RunMore(db, events, RemoveColumn(i));
    RemoveIs(s, i, t);
    Shorter(s, i, t, j, Before(|s.columns|, i, j));
    if j < |t.columns| {
      SameColumn(db, events, events + [RemoveColumn(i)], s, t, Before(|s.columns|, i, j), j);
    }
  }
}
