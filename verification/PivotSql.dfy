/** The SQL query generated for a pivot table, its meaning, and exactly when it agrees with the table. */
module PivotSql {
  import opened Text
  import opened Pivot
  import C = Charts
  import G = Grouping

  // ---------- the query ----------

  /** A select item; an absent value is the constant 1 inside CASE, and `*` outside it. */
  datatype Item =
    | Name(field: string)
    | Cased(agg: Agg, colField: string, key: string, value: Option<string>, alias: string)
    | Plain(agg: Agg, value: Option<string>, alias: string)

  datatype Query = Query(select: seq<Item>, groupBy: string, orderBy: string)

  function Chosen(field: string): Option<string> { if field == "" then None else Some(field) }

  function AggName(agg: Agg): string {
    match agg case Count => "count" case Sum => "sum" case Avg => "avg" case Min => "min" case Max => "max"
  }

  function ColumnItem(cfg: Config, key: string): Item {
    Cased(cfg.agg, cfg.colField, key, Chosen(cfg.valueField), key)
  }

  /** One item per column key; the placeholder key is skipped. */
  function ColumnItems(cfg: Config, keys: seq<string>): seq<Item> {
    if keys == [] then []
    else ColumnItems(cfg, keys[..|keys| - 1])
         + if keys[|keys| - 1] == ALL then [] else [ColumnItem(cfg, keys[|keys| - 1])]
  }

  /** The items behind the row field. */
  function CellItems(cfg: Config, keys: seq<string>): seq<Item> {
    if cfg.colField != "" then ColumnItems(cfg, keys)
    else [Plain(cfg.agg, Chosen(cfg.valueField), AggName(cfg.agg) + "_value")]
  }

  function QuerySpec(cfg: Config, keys: seq<string>): Query {
    Query([Name(cfg.rowField)] + CellItems(cfg, keys), cfg.rowField, cfg.rowField)
  }

  method GenerateQuery(cfg: Config, keys: seq<string>) returns (q: Query)
    ensures q == QuerySpec(cfg, keys)
  {
    var select := [Name(cfg.rowField)];
    if cfg.colField != "" {
      for i := 0 to |keys|
        invariant select == [Name(cfg.rowField)] + ColumnItems(cfg, keys[..i])
      {
        assert keys[..i + 1][..i] == keys[..i];
        if keys[i] == ALL {
          continue;
        }
        select := select + [ColumnItem(cfg, keys[i])];
      }
      assert keys[..|keys|] == keys;
    } else {
      select := select + [Plain(cfg.agg, Chosen(cfg.valueField), AggName(cfg.agg) + "_value")];
    }
    q := Query(select, cfg.rowField, cfg.rowField);
  }

  // ---------- its meaning ----------

  /** A column as the engine sees it; an absent or null field is NULL. */
  function Column(row: C.Row, field: string): Option<string> {
    match C.FieldOf(row, field) case Value(text, _) => Some(text) case _ => None
  }

  /** `=` in three-valued logic: NULL compares as unknown. */
  function Equals(a: Option<string>, b: string): Option<bool> {
    if a == None then None else Some(a.value == b)
  }

  function NonNull(cell: C.Cell): Option<C.Cell> { if cell.Value? then Some(cell) else None }

  /** The argument of the aggregate on one row; CASE without a true branch is NULL. */
  function Argument(row: C.Row, item: Item): Option<C.Cell>
    requires !item.Name?
  {
    var v := if item.value.Some? then NonNull(C.FieldOf(row, item.value.value)) else Some(C.Value("1", Some(1.0)));
    if item.Cased? && Equals(Column(row, item.colField), item.key) != Some(true) then None else v
  }

  /** The non-null arguments of an item over the rows of one group. */
  function Arguments(rows: seq<C.Row>, groupBy: string, g: Option<string>, item: Item): seq<C.Cell>
    requires !item.Name?
  {
    if rows == [] then []
    else
      var row := rows[|rows| - 1];
      Arguments(rows[..|rows| - 1], groupBy, g, item)
        + if Column(row, groupBy) == g && Argument(row, item).Some? then [Argument(row, item).value] else []
  }

  /** SQL aggregates ignore NULL, and all but COUNT are NULL over nothing. */
  function SqlAggregate(agg: Agg, args: seq<C.Cell>): Shown {
    if agg == Count then Counted(|args|)
    else if args == [] then NoValue
    else
      var nums := Numbers(args);
      match agg
      case Avg => if nums == [] then NoValue else Computed(G.Total(nums) / |nums| as real)
      case Min => Extreme(G.Fold(G.Least, nums))
      case Max => Extreme(G.Fold(G.Greatest, nums))
      case _ => Extreme(G.Fold(G.Sum, nums))
  }

  function EvalItem(rows: seq<C.Row>, q: Query, g: Option<string>, item: Item): Shown
    requires !item.Name?
  {
    SqlAggregate(item.agg, Arguments(rows, q.groupBy, g, item))
  }

  /** A field of an answer's row: a column's text or NULL, or an aggregate. */
  datatype Value = Field(text: Option<string>) | Figure(shown: Shown)

  function ItemValue(rows: seq<C.Row>, q: Query, g: Option<string>, item: Item): Value {
    if item.Name? then Field(g) else Figure(EvalItem(rows, q, g, item))
  }

  /** The name of an output column. */
  function Heading(item: Item): string {
    match item case Name(field) => field case Cased(_, _, _, _, alias) => alias case Plain(_, _, alias) => alias
  }

  function Headings(items: seq<Item>): (r: seq<string>)
    ensures |r| == |items| && forall i :: 0 <= i < |items| ==> r[i] == Heading(items[i])
  {
    seq(|items|, i requires 0 <= i < |items| => Heading(items[i]))
  }

  /** A column is taken alone only if it is grouped by, and only COUNT takes `*`. */
  predicate ItemOk(item: Item, groupBy: string) {
    match item
    case Name(field) => field == groupBy
    case Plain(agg, value, _) => value.Some? || agg == Count
    case Cased(_, _, _, _, _) => true
  }

  /** What a name in ORDER BY means: the output column of that name, else a column of the table. */
  function Ordering(items: seq<Item>, name: string): Item {
    if items == [] then Name(name) else if Heading(items[0]) == name then items[0] else Ordering(items[1..], name)
  }

  /** All output columns of the name are the same. */
  predicate Clear(items: seq<Item>, name: string) {
    forall i :: 0 <= i < |items| && Heading(items[i]) == name ==> items[i] == Ordering(items, name)
  }

  predicate AllOk(items: seq<Item>, groupBy: string) {
    forall i :: 0 <= i < |items| ==> ItemOk(items[i], groupBy)
  }

  /** What an engine runs: every item is allowed, and the name it orders by is, too, and means one thing. */
  predicate Accepted(q: Query) {
    AllOk(q.select, q.groupBy) && ItemOk(Ordering(q.select, q.orderBy), q.groupBy) && Clear(q.select, q.orderBy)
  }

  function Columns(rows: seq<C.Row>, field: string): (r: seq<Option<string>>)
    ensures |r| == |rows| && forall i :: 0 <= i < |rows| ==> r[i] == Column(rows[i], field)
  {
    seq(|rows|, i requires 0 <= i < |rows| => Column(rows[i], field))
  }

  function Label(g: Option<string>): string { if g.Some? then g.value else "NULL" }

  // ---------- one cell ----------

  /** The engine sees the row's value in this cell: neither the pivot column nor the value is NULL. */
  predicate Seen(row: C.Row, cfg: Config) {
    (cfg.colField == "" || Column(row, cfg.colField).Some?) && ValueOf(row, cfg).Value?
  }

  /** The values of a cell that the engine sees, or (`seen` false) does not see. */
  function Part(rows: seq<C.Row>, cfg: Config, rk: string, ck: string, seen: bool): seq<C.Cell> {
    if rows == [] then []
    else
      var row := rows[|rows| - 1];
      Part(rows[..|rows| - 1], cfg, rk, ck, seen)
        + if RowKey(row, cfg) == rk && ColKey(row, cfg) == ck && Seen(row, cfg) == seen then [ValueOf(row, cfg)] else []
  }

  lemma NumbersSnoc(cells: seq<C.Cell>, cell: C.Cell)
    ensures Numbers(cells + [cell]) == Numbers(cells) + (if ToNumber(cell).Some? then [ToNumber(cell).value] else [])
  {
    assert (cells + [cell])[..|cells|] == cells;
  }

  lemma FoldParts(op: G.Op, all: seq<real>, a: seq<real>, b: seq<real>, x: Option<real>, left: bool)
    requires G.Fold(op, all) == G.Combine(op, G.Fold(op, a), G.Fold(op, b))
    ensures var e := if x.Some? then [x.value] else [];
            G.Fold(op, all + e) == G.Combine(op, G.Fold(op, if left then a + e else a),
                G.Fold(op, if left then b else b + e))
  {
    if x == None {
      assert all + [] == all && a + [] == a && b + [] == b;
    } else {
      G.FoldSnoc(op, all, x.value);
      G.FoldSnoc(op, a, x.value);
      G.FoldSnoc(op, b, x.value);
      G.CombineLaws(op, G.Fold(op, a), G.Fold(op, b), x);
      G.CombineLaws(op, G.Fold(op, a), x, G.Fold(op, b));
      G.CombineLaws(op, G.Fold(op, b), x, None);
    }
  }

  /** A cell's values are the seen and the unseen ones, and every aggregate splits along them. */
  lemma {:induction false} CellSplits(rows: seq<C.Row>, cfg: Config, rk: string, ck: string, op: G.Op)
    ensures var all, seen, unseen := CellValues(rows, cfg, rk, ck), Part(rows, cfg, rk, ck, true),
            Part(rows, cfg, rk, ck, false);
            && |all| == |seen| + |unseen| && |Numbers(all)| == |Numbers(seen)| + |Numbers(unseen)|
            && G.Fold(op, Numbers(all)) == G.Combine(op, G.Fold(op, Numbers(seen)), G.Fold(op, Numbers(unseen)))
  {
    if rows != [] {
      var init, row := rows[..|rows| - 1], rows[|rows| - 1];
      CellSplits(init, cfg, rk, ck, op);
      var all, seen, unseen := CellValues(init, cfg, rk, ck), Part(init, cfg, rk, ck, true),
          Part(init, cfg, rk, ck, false);
      var v := ValueOf(row, cfg);
      assert all + [] == all && seen + [] == seen && unseen + [] == unseen;
      if RowKey(row, cfg) == rk && ColKey(row, cfg) == ck {
        NumbersSnoc(all, v);
        NumbersSnoc(seen, v);
        NumbersSnoc(unseen, v);
        FoldParts(op, Numbers(all), Numbers(seen), Numbers(unseen), ToNumber(v), Seen(row, cfg));
      }
    }
  }

  /** When a cell agrees. Every value the engine does not see must be harmless for the aggregate:
      none at all for COUNT; zero in sum for SUM, the same mean for AVG, and no new extreme for MIN
      and MAX, provided the engine sees some number if there is one. The table counts a null as 0. */
  predicate Harmless(agg: Agg, seen: seq<C.Cell>, unseen: seq<C.Cell>) {
    var v, h := Numbers(seen), Numbers(unseen);
    if agg == Count then unseen == []
    else if v == [] then h == []
    else
      match agg
      case Avg => SameMean(G.Total(v), G.Total(h), |v|, |h|)
      case Min => NoNewExtreme(G.Least, v, h)
      case Max => NoNewExtreme(G.Greatest, v, h)
      case _ => G.Total(h) == 0.0
  }

  predicate AtLeastAsExtreme(op: G.Op, y: real, x: real) { if op == G.Least then y <= x else y >= x }

  /** Each of `h` is matched by some value of `v`. */
  predicate NoNewExtreme(op: G.Op, v: seq<real>, h: seq<real>) {
    forall x :: x in h ==> exists y :: y in v && AtLeastAsExtreme(op, y, x)
  }

  lemma MeanAgrees(sv: real, sh: real, v: nat, h: nat)
    requires v > 0
    ensures (sv + sh) / (v + h) as real == sv / v as real <==> sh * v as real == sv * h as real
  {
    var n, m := v as real, h as real;
    var a, b := (sv + sh) / (n + m), sv / n;
    assert (v + h) as real == n + m;
    assert a * (n + m) == sv + sh && b * n == sv;
    if a == b {
      assert a * (n + m) * n == sv * (n + m);
      assert (sv + sh) * n == sv * n + sh * n && sv * (n + m) == sv * n + sv * m;
    }
    if sh * n == sv * m {
      assert (sv + sh) * n == sv * (n + m);
      assert a * ((n + m) * n) == b * ((n + m) * n);
      assert (n + m) * n > 0.0;
    }
  }

  /** Combining with values that bring no new extreme changes nothing, and only with such values. */
  lemma ExtremeAgrees(op: G.Op, v: seq<real>, h: seq<real>)
    requires op != G.Sum && v != []
    ensures G.Combine(op, G.Fold(op, v), G.Fold(op, h)) == G.Fold(op, v) <==> NoNewExtreme(op, v, h)
  {
    G.ExtremeBounds(op, v);
    var m := G.Fold(op, v).value;
    if h != [] {
      G.ExtremeBounds(op, h);
      var n := G.Fold(op, h).value;
      if NoNewExtreme(op, v, h) {
        var y :| y in v && AtLeastAsExtreme(op, y, n);
        assert AtLeastAsExtreme(op, m, y);
      }
      if AtLeastAsExtreme(op, m, n) {
        forall x | x in h ensures exists y :: y in v && AtLeastAsExtreme(op, y, x) {
          assert AtLeastAsExtreme(op, m, x);
        }
      }
    }
  }

  /** `all` is made of the numbers of two parts, as far as `op` can tell. */
  ghost predicate Splits(op: G.Op, all: seq<real>, v: seq<real>, h: seq<real>) {
    |all| == |v| + |h| && G.Fold(op, all) == G.Combine(op, G.Fold(op, v), G.Fold(op, h))
  }

  lemma SumParts(all: seq<real>, v: seq<real>, h: seq<real>)
    requires Splits(G.Sum, all, v, h)
    ensures Extreme(G.Fold(G.Sum, all)) == Extreme(G.Fold(G.Sum, v)) <==> if v == [] then h == [] else G.Total(h) == 0.0
  {
    G.SumIsTotal(all);
    G.SumIsTotal(v);
    G.SumIsTotal(h);
  }

  function Mean(sum: real, n: nat): Shown { if n == 0 then NoValue else Computed(sum / n as real) }

  predicate SameMean(sv: real, sh: real, v: nat, h: nat) { sh * v as real == sv * h as real }

  lemma MeanParts(total: real, n: nat, sv: real, sh: real, v: nat, h: nat)
    requires total == sv + sh && n == v + h
    ensures Mean(total, n) == Mean(sv, v) <==> if v == 0 then h == 0 else SameMean(sv, sh, v, h)
  {
    if v > 0 {
      MeanAgrees(sv, sh, v, h);
    }
  }

  lemma ExtremeParts(op: G.Op, all: seq<real>, v: seq<real>, h: seq<real>)
    requires op != G.Sum && Splits(op, all, v, h)
    ensures Extreme(G.Fold(op, all)) == Extreme(G.Fold(op, v)) <==> if v == [] then h == [] else NoNewExtreme(op, v, h)
  {
    if v != [] {
      ExtremeAgrees(op, v, h);
    }
  }

  /** The operation behind an aggregate. */
  function OpOf(agg: Agg): G.Op { match agg case Min => G.Least case Max => G.Greatest case _ => G.Sum }

  lemma AvgIsMean(all: seq<C.Cell>)
    ensures Aggregate(all, Avg) == Mean(G.Total(Numbers(all)), |Numbers(all)|)
  {
    G.SumIsTotal(Numbers(all));
  }

  lemma SqlAvgIsMean(seen: seq<C.Cell>)
    requires |Numbers(seen)| == |seen|
    ensures SqlAggregate(Avg, seen) == Mean(G.Total(Numbers(seen)), |Numbers(seen)|)
  {}

  lemma SumSplits(all: seq<real>, v: seq<real>, h: seq<real>)
    requires Splits(G.Sum, all, v, h)
    ensures G.Total(all) == G.Total(v) + G.Total(h)
  {
    G.SumIsTotal(all);
    G.SumIsTotal(v);
    G.SumIsTotal(h);
  }

  lemma AvgAgrees(all: seq<C.Cell>, seen: seq<C.Cell>, unseen: seq<C.Cell>)
    requires |Numbers(seen)| == |seen| && Splits(G.Sum, Numbers(all), Numbers(seen), Numbers(unseen))
    ensures Aggregate(all, Avg) == SqlAggregate(Avg, seen) <==> Harmless(Avg, seen, unseen)
  {
    var n, v, h := Numbers(all), Numbers(seen), Numbers(unseen);
    SumSplits(n, v, h);
    AvgIsMean(all);
    SqlAvgIsMean(seen);
    MeanParts(G.Total(n), |n|, G.Total(v), G.Total(h), |v|, |h|);
  }

  /** The aggregates of the two parts, combined as the table combines them. */
  lemma PartsAgree(agg: Agg, all: seq<C.Cell>, seen: seq<C.Cell>, unseen: seq<C.Cell>)
    requires agg != Count && |Numbers(seen)| == |seen|
    requires Splits(OpOf(agg), Numbers(all), Numbers(seen), Numbers(unseen))
    ensures Aggregate(all, agg) == SqlAggregate(agg, seen) <==> Harmless(agg, seen, unseen)
  {
    var n, v, h := Numbers(all), Numbers(seen), Numbers(unseen);
    if agg == Avg {
      AvgAgrees(all, seen, unseen);
    } else if agg == Sum {
      SumParts(n, v, h);
    } else {
      ExtremeParts(OpOf(agg), n, v, h);
    }
  }

  /** The value of a cell in the table and in the query agree exactly when the unseen values are harmless. */
  lemma CellAgreesIff(rows: seq<C.Row>, cfg: Config, rk: string, ck: string)
    requires cfg.agg != Count ==> |Numbers(Part(rows, cfg, rk, ck, true))| == |Part(rows, cfg, rk, ck, true)|
    ensures Aggregate(CellValues(rows, cfg, rk, ck), cfg.agg) == SqlAggregate(cfg.agg, Part(rows, cfg, rk, ck, true))
       <==> Harmless(cfg.agg, Part(rows, cfg, rk, ck, true), Part(rows, cfg, rk, ck, false))
  {
    CellSplits(rows, cfg, rk, ck, OpOf(cfg.agg));
    if cfg.agg != Count {
      PartsAgree(cfg.agg, CellValues(rows, cfg, rk, ck), Part(rows, cfg, rk, ck, true), Part(rows, cfg, rk, ck, false));
    }
  }

  // ---------- the whole table ----------

  /** No row label stands both for a NULL and for the text "NULL". */
  predicate DistinctLabels(rows: seq<C.Row>, cfg: Config) {
    !(None in Columns(rows, cfg.rowField) && Some("NULL") in Columns(rows, cfg.rowField))
  }

  lemma LabelIsKey(rows: seq<C.Row>, cfg: Config, i: nat, j: nat)
    requires DistinctLabels(rows, cfg) && i < |rows| && j < |rows|
    ensures RowKey(rows[i], cfg) == Label(Column(rows[i], cfg.rowField))
    ensures RowKey(rows[i], cfg) == RowKey(rows[j], cfg) <==>
            Column(rows[i], cfg.rowField) == Column(rows[j], cfg.rowField)
  {
    var cs := Columns(rows, cfg.rowField);
    assert cs[i] in cs && cs[j] in cs;
  }

  /** The item of a column, or the only item when there is no column field. */
  function ItemFor(cfg: Config, ck: string): Item {
    if cfg.colField != "" then ColumnItem(cfg, ck) else
        Plain(cfg.agg, Chosen(cfg.valueField), AggName(cfg.agg) + "_value")
  }

  /** What the item aggregates in the group of a label is exactly what the engine sees in the cell. */
  lemma {:induction false} ArgumentsAreSeen(rows: seq<C.Row>, cfg: Config, g: Option<string>, rk: string, ck: string)
    requires forall i :: 0 <= i < |rows| ==> (Column(rows[i], cfg.rowField) == g <==> RowKey(rows[i], cfg) == rk)
    requires cfg.colField == "" ==> ck == ALL
    ensures Arguments(rows, cfg.rowField, g, ItemFor(cfg, ck)) == Part(rows, cfg, rk, ck, true)
  {
    if rows != [] {
      ArgumentsAreSeen(rows[..|rows| - 1], cfg, g, rk, ck);
    }
  }

  lemma {:induction false} AllItems(cfg: Config, keys: seq<string>)
    requires ALL !in keys
    ensures |ColumnItems(cfg, keys)| == |keys|
    ensures forall j :: 0 <= j < |keys| ==> ColumnItems(cfg, keys)[j] == ColumnItem(cfg, keys[j])
  {
    if keys != [] { AllItems(cfg, keys[..|keys| - 1]); }
  }

  lemma {:induction false} SkippedItems(cfg: Config, keys: seq<string>)
    ensures |ColumnItems(cfg, keys)| == |keys| <==> ALL !in keys
    ensures |ColumnItems(cfg, keys)| <= |keys|
  {
    if keys != [] {
      SkippedItems(cfg, keys[..|keys| - 1]);
      assert keys == keys[..|keys| - 1] + [keys[|keys| - 1]];
    }
  }

  /** Values are numbers wherever they are aggregated as such: the column has a numeric type. */
  predicate NumericValues(rows: seq<C.Row>, cfg: Config) {
    cfg.agg != Count ==> forall i :: 0 <= i < |rows| && ValueOf(rows[i], cfg).Value? ==>
        ValueOf(rows[i], cfg).number.Some?
  }

  lemma {:induction false} SeenAreNumbers(rows: seq<C.Row>, cfg: Config, rk: string, ck: string)
    requires NumericValues(rows, cfg) && cfg.agg != Count
    ensures |Numbers(Part(rows, cfg, rk, ck, true))| == |Part(rows, cfg, rk, ck, true)|
  {
    if rows != [] {
      var init, row := rows[..|rows| - 1], rows[|rows| - 1];
      SeenAreNumbers(init, cfg, rk, ck);
      NumbersSnoc(Part(init, cfg, rk, ck, true), ValueOf(row, cfg));
      assert Part(init, cfg, rk, ck, true) + [] == Part(init, cfg, rk, ck, true);
    }
  }

  /** The heading of a column: its key, or the aggregate's name when there is no column field. */
  function Title(cfg: Config, ck: string): string { if cfg.colField != "" then ck else AggName(cfg.agg) + "_value" }

  function Titles(cfg: Config, cols: seq<string>): (r: seq<string>)
    ensures |r| == |cols| && forall j :: 0 <= j < |cols| ==> r[j] == Title(cfg, cols[j])
  {
    seq(|cols|, j requires 0 <= j < |cols| => Title(cfg, cols[j]))
  }

  /** The query's rows are the groups of the row field; each shows its label and its items. It agrees
      with the table when it is accepted, its columns are the table's columns under their headings, its
      rows are the table's rows, and every cell shows the same value. */
  ghost predicate Agrees(rows: seq<C.Row>, cfg: Config, cols: seq<string>) {
    var q := QuerySpec(cfg, cols);
    && Accepted(q)
    && |q.select| == 1 + |cols| && Headings(q.select) == [cfg.rowField] + Titles(cfg, cols)
    && LabelsTellApart(rows, cfg)
    && CellsAgree(rows, cfg, q, cols)
  }

  /** Different groups have different labels. */
  ghost predicate LabelsTellApart(rows: seq<C.Row>, cfg: Config) {
    forall i, j :: 0 <= i < |rows| && 0 <= j < |rows| ==>
      Column(rows[i], cfg.rowField) != Column(rows[j], cfg.rowField) ==> RowKey(rows[i], cfg) != RowKey(rows[j], cfg)
  }

  ghost predicate CellsAgree(rows: seq<C.Row>, cfg: Config, q: Query, cols: seq<string>)
    requires |q.select| == 1 + |cols|
  {
    forall i, j :: 0 <= i < |rows| && 0 <= j < |cols| ==> CellAgrees(rows, cfg, q, cols, i, j)
  }

  /** The cell of the i-th row's group in the j-th column. */
  ghost predicate CellAgrees(rows: seq<C.Row>, cfg: Config, q: Query, cols: seq<string>, i: nat, j: nat)
    requires i < |rows| && j < |cols| && |q.select| == 1 + |cols|
  {
    ItemValue(rows, q, Column(rows[i], cfg.rowField), q.select[1 + j])
      == Figure(Aggregate(CellValues(rows, cfg, RowKey(rows[i], cfg), cols[j]), cfg.agg))
  }

  predicate HarmlessCell(rows: seq<C.Row>, cfg: Config, rk: string, ck: string) {
    Harmless(cfg.agg, Part(rows, cfg, rk, ck, true), Part(rows, cfg, rk, ck, false))
  }

  /** What a caller can check on the fields and the rows before generating the query. */
  ghost predicate Faithful(rows: seq<C.Row>, cfg: Config, cols: seq<string>) {
    && (cfg.colField != "" || cfg.valueField != "" || cfg.agg == Count)
    && (cfg.colField != "" ==> ALL !in cols)
    && cfg.rowField !in Titles(cfg, cols)
    && DistinctLabels(rows, cfg)
    && AllHarmless(rows, cfg, cols)
  }

  ghost predicate AllHarmless(rows: seq<C.Row>, cfg: Config, cols: seq<string>) {
    forall i, j :: 0 <= i < |rows| && 0 <= j < |cols| ==> HarmlessCell(rows, cfg, RowKey(rows[i], cfg), cols[j])
  }

  lemma Shape(cfg: Config, cols: seq<string>)
    requires cfg.colField == "" ==> cols == [ALL]
    ensures |QuerySpec(cfg, cols).select| == 1 + |cols| <==> (cfg.colField != "" ==> ALL !in cols)
    ensures |QuerySpec(cfg, cols).select| == 1 + |cols| ==>
              forall j :: 0 <= j < |cols| ==> QuerySpec(cfg, cols).select[1 + j] == ItemFor(cfg, cols[j])
  {
    if cfg.colField != "" {
      SkippedItems(cfg, cols);
      if ALL !in cols { AllItems(cfg, cols); }
    } else {
      var q := QuerySpec(cfg, cols);
      assert q.select[1] == ItemFor(cfg, ALL);
    }
  }

  /** Ordering by the name of the first column is clear exactly if no other column has that heading. */
  lemma OrderedByFirst(rest: seq<Item>, name: string)
    requires forall j :: 0 <= j < |rest| ==> !rest[j].Name?
    ensures Ordering([Name(name)] + rest, name) == Name(name)
    ensures Clear([Name(name)] + rest, name) <==> name !in Headings(rest)
  {
    var items := [Name(name)] + rest;
    if j :| 0 <= j < |rest| && Headings(rest)[j] == name {
      assert items[1 + j] == rest[j] && Heading(items[1 + j]) == name;
    } else {
      forall i | 0 < i < |items| ensures Heading(items[i]) != name {
        assert items[i] == rest[i - 1] && Headings(rest)[i - 1] != name;
      }
    }
  }

  lemma CellItemsAre(cfg: Config, cols: seq<string>)
    requires cfg.colField == "" ==> cols == [ALL]
    requires |CellItems(cfg, cols)| == |cols|
    ensures forall j :: 0 <= j < |cols| ==> !CellItems(cfg, cols)[j].Name?
    ensures Headings(CellItems(cfg, cols)) == Titles(cfg, cols)
    ensures AllOk(CellItems(cfg, cols), cfg.rowField) <==>
            cfg.colField != "" || cfg.valueField != "" || cfg.agg == Count
  {
    if cfg.colField != "" {
      SkippedItems(cfg, cols);
      AllItems(cfg, cols);
    } else {
      assert CellItems(cfg, cols)[0] == ItemFor(cfg, ALL);
    }
  }

  lemma AllOkCons(item: Item, rest: seq<Item>, groupBy: string)
    ensures AllOk([item] + rest, groupBy) <==> ItemOk(item, groupBy) && AllOk(rest, groupBy)
  {
    var items := [item] + rest;
    assert items[0] == item && forall j :: 0 <= j < |rest| ==> items[1 + j] == rest[j];
  }

  lemma HeadingsCons(item: Item, rest: seq<Item>)
    ensures Headings([item] + rest) == [Heading(item)] + Headings(rest)
  {}

  /** With one item per column, the query is run exactly when only COUNT is taken without a field and no
      column is headed like the row field; and then it orders by the row field. */
  lemma AcceptedIff(cfg: Config, cols: seq<string>, q: Query)
    requires cfg.colField == "" ==> cols == [ALL]
    requires q == QuerySpec(cfg, cols) && |q.select| == 1 + |cols|
    ensures Headings(q.select) == [cfg.rowField] + Titles(cfg, cols)
    ensures Ordering(q.select, q.orderBy) == q.select[0] == Name(cfg.rowField)
    ensures Accepted(q) <==>
            (cfg.colField != "" || cfg.valueField != "" || cfg.agg == Count) && cfg.rowField !in Titles(cfg, cols)
  {
    var rest := CellItems(cfg, cols);
    assert q.select == [Name(cfg.rowField)] + rest;
    CellItemsAre(cfg, cols);
    OrderedByFirst(rest, cfg.rowField);
    AllOkCons(Name(cfg.rowField), rest, cfg.rowField);
    HeadingsCons(Name(cfg.rowField), rest);
  }

  /** An item evaluated in a row's group aggregates what the engine sees of the row's cell. */
  lemma ItemSeesCell(rows: seq<C.Row>, cfg: Config, i: nat, ck: string)
    requires DistinctLabels(rows, cfg) && i < |rows| && (cfg.colField == "" ==> ck == ALL)
    ensures Arguments(rows, cfg.rowField, Column(rows[i], cfg.rowField), ItemFor(cfg, ck))
         == Part(rows, cfg, RowKey(rows[i], cfg), ck, true)
  {
    var g, rk := Column(rows[i], cfg.rowField), RowKey(rows[i], cfg);
    forall k | 0 <= k < |rows| ensures Column(rows[k], cfg.rowField) == g <==> RowKey(rows[k], cfg) == rk {
      LabelIsKey(rows, cfg, k, i);
    }
    ArgumentsAreSeen(rows, cfg, g, rk, ck);
  }

  lemma CellAgreesIffHarmless(rows: seq<C.Row>, cfg: Config, q: Query, cols: seq<string>, i: nat, j: nat)
    requires (cfg.colField == "" ==> cols == [ALL]) && NumericValues(rows, cfg) && DistinctLabels(rows, cfg)
    requires q.groupBy == cfg.rowField && |q.select| == 1 + |cols|
    requires i < |rows| && j < |cols| && q.select[1 + j] == ItemFor(cfg, cols[j])
    ensures CellAgrees(rows, cfg, q, cols, i, j) <==> HarmlessCell(rows, cfg, RowKey(rows[i], cfg), cols[j])
  {
    var rk, item := RowKey(rows[i], cfg), ItemFor(cfg, cols[j]);
    ItemSeesCell(rows, cfg, i, cols[j]);
    assert EvalItem(rows, q, Column(rows[i], cfg.rowField), item)
        == SqlAggregate(cfg.agg, Part(rows, cfg, rk, cols[j], true));
    if cfg.agg != Count { SeenAreNumbers(rows, cfg, rk, cols[j]); }
    CellAgreesIff(rows, cfg, rk, cols[j]);
  }

  lemma AmbiguousLabels(rows: seq<C.Row>, cfg: Config)
    ensures DistinctLabels(rows, cfg) <==> LabelsTellApart(rows, cfg)
  {
    var cs := Columns(rows, cfg.rowField);
    if DistinctLabels(rows, cfg) {
      forall i, j | 0 <= i < |rows| && 0 <= j < |rows| && Column(rows[i], cfg.rowField) != Column(rows[j], cfg.rowField)
        ensures RowKey(rows[i], cfg) != RowKey(rows[j], cfg)
      {
        LabelIsKey(rows, cfg, i, j);
      }
    } else {
      var i :| 0 <= i < |cs| && cs[i] == None;
      var j :| 0 <= j < |cs| && cs[j] == Some("NULL");
      assert RowKey(rows[i], cfg) == RowKey(rows[j], cfg);
    }
  }

  lemma CellsAgreeIff(rows: seq<C.Row>, cfg: Config, q: Query, cols: seq<string>)
    requires (cfg.colField == "" ==> cols == [ALL]) && NumericValues(rows, cfg) && DistinctLabels(rows, cfg)
    requires q.groupBy == cfg.rowField && |q.select| == 1 + |cols|
    requires forall j :: 0 <= j < |cols| ==> q.select[1 + j] == ItemFor(cfg, cols[j])
    ensures CellsAgree(rows, cfg, q, cols) <==> AllHarmless(rows, cfg, cols)
  {
    forall i, j | 0 <= i < |rows| && 0 <= j < |cols|
      ensures CellAgrees(rows, cfg, q, cols, i, j) <==> HarmlessCell(rows, cfg, RowKey(rows[i], cfg), cols[j])
    {
      CellAgreesIffHarmless(rows, cfg, q, cols, i, j);
    }
  }

  /** The generated query gives the table exactly when: only COUNT is taken without a field, no column
      key is the placeholder, no column is headed like the row field, no NULL label meets the text
      "NULL", and in every cell the values the engine does not see are harmless. */
  lemma QueryAgreesIff(rows: seq<C.Row>, cfg: Config, cols: seq<string>)
    requires (cfg.colField == "" ==> cols == [ALL]) && NumericValues(rows, cfg)
    ensures Agrees(rows, cfg, cols) <==> Faithful(rows, cfg, cols)
  {
    Shape(cfg, cols);
    AmbiguousLabels(rows, cfg);
    if |QuerySpec(cfg, cols).select| == 1 + |cols| {
      AcceptedIff(cfg, cols, QuerySpec(cfg, cols));
      if DistinctLabels(rows, cfg) { CellsAgreeIff(rows, cfg, QuerySpec(cfg, cols), cols); }
    }
  }

  // ---------- without NULLs ----------

  predicate NullFree(rows: seq<C.Row>, cfg: Config) {
    forall i :: 0 <= i < |rows| ==>
      && Column(rows[i], cfg.rowField).Some? && ValueOf(rows[i], cfg).Value?
      && (cfg.colField != "" ==> Column(rows[i], cfg.colField).Some?)
  }

  lemma {:induction false} NothingUnseen(rows: seq<C.Row>, cfg: Config, rk: string, ck: string)
    requires NullFree(rows, cfg)
    ensures Part(rows, cfg, rk, ck, false) == []
  {
    if rows != [] { NothingUnseen(rows[..|rows| - 1], cfg, rk, ck); }
  }

  lemma NothingHarms(rows: seq<C.Row>, cfg: Config, rk: string, ck: string)
    requires NullFree(rows, cfg)
    ensures HarmlessCell(rows, cfg, rk, ck)
  {
    NothingUnseen(rows, cfg, rk, ck);
  }

  lemma NullFreeLabels(rows: seq<C.Row>, cfg: Config)
    requires NullFree(rows, cfg)
    ensures DistinctLabels(rows, cfg)
  {
    assert None !in Columns(rows, cfg.rowField);
  }

  /** What remains on data without NULLs. */
  predicate WellShaped(cfg: Config, cols: seq<string>) {
    && (cfg.colField != "" || cfg.valueField != "" || cfg.agg == Count)
    && (cfg.colField != "" ==> ALL !in cols) && cfg.rowField !in Titles(cfg, cols)
  }

  /** On data without NULLs only the three shape conditions remain. */
  lemma NullFreeAgrees(rows: seq<C.Row>, cfg: Config, cols: seq<string>)
    requires (cfg.colField == "" ==> cols == [ALL]) && NumericValues(rows, cfg) && NullFree(rows, cfg)
    ensures Agrees(rows, cfg, cols) <==> WellShaped(cfg, cols)
  {
    assert Faithful(rows, cfg, cols) <==> WellShaped(cfg, cols) by {
      NullFreeLabels(rows, cfg);
      forall i, j | 0 <= i < |rows| && 0 <= j < |cols| ensures HarmlessCell(rows, cfg, RowKey(rows[i], cfg), cols[j]) {
        NothingHarms(rows, cfg, RowKey(rows[i], cfg), cols[j]);
      }
    }
    QueryAgreesIff(rows, cfg, cols);
  }

  // ---------- the answer of an engine ----------

  datatype Answer = Answer(headings: seq<string>, rows: seq<seq<Value>>)

  function GroupRow(rows: seq<C.Row>, q: Query, g: Option<string>): (r: seq<Value>)
    ensures |r| == |q.select| && forall j :: 0 <= j < |q.select| ==> r[j] == ItemValue(rows, q, g, q.select[j])
  {
    seq(|q.select|, j requires 0 <= j < |q.select| => ItemValue(rows, q, g, q.select[j]))
  }

  /** Texts are ordered as labels and figures as numbers; where a NULL stands is up to the engine. */
  predicate InOrder(a: Value, b: Value, le: Order) {
    match (a, b)
    case (Field(Some(x)), Field(Some(y))) => le(x, y)
    case (Figure(Counted(m)), Figure(Counted(n))) => m <= n
    case (Figure(Computed(x)), Figure(Computed(y))) => x <= y
    case _ => true
  }

  /** What a group is ordered by. */
  function OrderValue(rows: seq<C.Row>, q: Query, g: Option<string>): Value {
    ItemValue(rows, q, g, Ordering(q.select, q.orderBy))
  }

  /** An engine's answer to a query it runs: one row per group of the rows, in the order the query asks
      for, with the value of every item under its heading. `groups` are the groups in that order. */
  ghost predicate IsAnswer(rows: seq<C.Row>, q: Query, le: Order, groups: seq<Option<string>>, answer: Answer) {
    && Accepted(q) && answer.headings == Headings(q.select) && |answer.rows| == |groups|
    && (forall i :: 0 <= i < |groups| ==> answer.rows[i] == GroupRow(rows, q, groups[i]))
    && (forall i, j :: 0 <= i < j < |groups| ==>
          groups[i] != groups[j] && InOrder(OrderValue(rows, q, groups[i]), OrderValue(rows, q, groups[j]), le))
    && (forall g :: g in groups <==> g in Columns(rows, q.groupBy))
  }

  /** A row of the table as an answer shows it: the label, then the cells. */
  function TableRow(row: PivotRow): (r: seq<Value>)
    ensures |r| == 1 + |row.cells| && r[0] == Field(Some(row.rowKey))
    ensures forall j :: 0 <= j < |row.cells| ==> r[1 + j] == Figure(row.cells[j])
  {
    [Field(Some(row.rowKey))] + seq(|row.cells|, j requires 0 <= j < |row.cells| => Figure(row.cells[j]))
  }

  function TableRows(rows: seq<PivotRow>): (r: seq<seq<Value>>)
    ensures |r| == |rows| && forall i :: 0 <= i < |rows| ==> r[i] == TableRow(rows[i])
  {
    seq(|rows|, i requires 0 <= i < |rows| => TableRow(rows[i]))
  }

  /** The pivot table as an answer: headed by the row field and the column keys, or the aggregate's name. */
  function TableAnswer(cfg: Config, table: PivotData): Answer {
    Answer([cfg.rowField] + Titles(cfg, table.colKeys), TableRows(table.rows))
  }

  function LabelGroups(keys: seq<string>): (r: seq<Option<string>>)
    ensures |r| == |keys| && forall i :: 0 <= i < |keys| ==> r[i] == Some(keys[i])
  {
    seq(|keys|, i requires 0 <= i < |keys| => Some(keys[i]))
  }

  lemma LabelsIn(rows: seq<C.Row>, cfg: Config, g: Option<string>)
    requires NullFree(rows, cfg)
    ensures g in Columns(rows, cfg.rowField) <==> g.Some? && g.value in RowKeys(rows, cfg)
  {
    var all, columns := RowKeys(rows, cfg), Columns(rows, cfg.rowField);
    if g.Some? && g.value in all {
      var k :| 0 <= k < |all| && all[k] == g.value;
      assert columns[k] == g;
    }
    if k :| 0 <= k < |columns| && columns[k] == g { assert g.Some? && all[k] == g.value; }
  }

  function Labels(rows: seq<C.Row>, cfg: Config, le: Order): seq<string> { Sort(G.FirstSeen(RowKeys(rows, cfg)), le) }

  /** The labels of the pivot, sorted, are the groups of the rows. */
  lemma SortedLabels(rows: seq<C.Row>, cfg: Config, le: Order, g: Option<string>)
    requires TotalOrder(le) && NullFree(rows, cfg)
    ensures Sorted(Labels(rows, cfg, le), le)
    ensures g in LabelGroups(Labels(rows, cfg, le)) <==> g in Columns(rows, cfg.rowField)
  {
    var all, keys := RowKeys(rows, cfg), Labels(rows, cfg, le);
    G.FirstSeenIsKeySet(all);
    SortSorted(G.FirstSeen(all), le);
    LabelsIn(rows, cfg, g);
    var groups := LabelGroups(keys);
    if g.Some? && g.value in keys {
      var i :| 0 <= i < |keys| && keys[i] == g.value;
      assert groups[i] == g;
    }
  }

  function TextsOf(groups: seq<Option<string>>): (r: seq<string>)
    requires forall i :: 0 <= i < |groups| ==> groups[i].Some?
    ensures |r| == |groups| && forall i :: 0 <= i < |groups| ==> r[i] == groups[i].value
  {
    seq(|groups|, i requires 0 <= i < |groups| => groups[i].value)
  }

  /** Groups in label order are the pivot's labels: there is no other order. */
  lemma GroupsAreLabels(rows: seq<C.Row>, cfg: Config, le: Order, groups: seq<Option<string>>)
    requires TotalOrder(le) && NullFree(rows, cfg)
    requires forall g :: g in groups <==> g in Columns(rows, cfg.rowField)
    requires forall i, j :: 0 <= i < j < |groups| ==>
               groups[i] != groups[j] && InOrder(Field(groups[i]), Field(groups[j]), le)
    ensures groups == LabelGroups(Labels(rows, cfg, le))
  {
    forall i | 0 <= i < |groups| ensures groups[i].Some? {
      assert groups[i] in groups;
      LabelsIn(rows, cfg, groups[i]);
    }
    var keys, labels := TextsOf(groups), Labels(rows, cfg, le);
    SortedLabels(rows, cfg, le, None);
    forall x ensures x in keys <==> x in labels {
      SortedLabels(rows, cfg, le, Some(x));
      LabelIsIn(groups, x);
      LabelIsIn(LabelGroups(labels), x);
    }
    SortedUnique(keys, labels, le);
    assert groups == LabelGroups(keys);
  }

  lemma LabelIsIn(groups: seq<Option<string>>, x: string)
    requires forall i :: 0 <= i < |groups| ==> groups[i].Some?
    ensures x in TextsOf(groups) <==> Some(x) in groups
  {
    var keys := TextsOf(groups);
    if i :| 0 <= i < |keys| && keys[i] == x { assert groups[i] == Some(x); }
    if i :| 0 <= i < |groups| && groups[i] == Some(x) { assert keys[i] == x; }
  }

  /** A group's row in the answer is the pivot's row of that label. */
  lemma GroupRowIsTableRow(rows: seq<C.Row>, cfg: Config, cols: seq<string>, key: string)
    requires (cfg.colField == "" ==> cols == [ALL]) && NumericValues(rows, cfg) && NullFree(rows, cfg)
    requires WellShaped(cfg, cols) && Some(key) in Columns(rows, cfg.rowField)
    ensures GroupRow(rows, QuerySpec(cfg, cols), Some(key)) == TableRow(PivotRow(key, RowCells(rows, cfg, key, cols)))
  {
    var q := QuerySpec(cfg, cols);
    NullFreeAgrees(rows, cfg, cols);
    Shape(cfg, cols);
    AcceptedIff(cfg, cols, q);
    var k := RowOfKey(rows, cfg, key);
    RowIsTableRow(rows, cfg, q, cols, k, key);
  }

  lemma RowIsTableRow(rows: seq<C.Row>, cfg: Config, q: Query, cols: seq<string>, k: nat, key: string)
    requires |q.select| == 1 + |cols| && CellsAgree(rows, cfg, q, cols) && q.select[0].Name?
    requires k < |rows| && RowKey(rows[k], cfg) == key && Column(rows[k], cfg.rowField) == Some(key)
    ensures GroupRow(rows, q, Some(key)) == TableRow(PivotRow(key, RowCells(rows, cfg, key, cols)))
  {
    var row, cells := GroupRow(rows, q, Some(key)), RowCells(rows, cfg, key, cols);
    var table := TableRow(PivotRow(key, cells));
    forall i | 0 <= i < |row| ensures row[i] == table[i] {
      if i > 0 {
        CellIsFigure(rows, cfg, q, cols, k, i - 1, key);
        assert table[1 + (i - 1)] == Figure(cells[i - 1]);
      }
    }
  }

  lemma CellIsFigure(rows: seq<C.Row>, cfg: Config, q: Query, cols: seq<string>, k: nat, j: nat, key: string)
    requires k < |rows| && j < |cols| && |q.select| == 1 + |cols| && CellsAgree(rows, cfg, q, cols)
    requires RowKey(rows[k], cfg) == key && Column(rows[k], cfg.rowField) == Some(key)
    ensures ItemValue(rows, q, Some(key), q.select[1 + j]) == Figure(RowCells(rows, cfg, key, cols)[j])
  {
    assert CellAgrees(rows, cfg, q, cols, k, j);
  }

  /** On data without NULLs, an answer to the generated query is one exactly if the engine runs the query
      and the answer is the pivot table itself: headed by the row field and the column keys, the same rows
      in the same order, the same value in every cell, for all five aggregates. */
  lemma AnswerIsPivot(rows: seq<C.Row>, cfg: Config, le: Order, answer: Answer)
    requires TotalOrder(le) && rows != [] && cfg.rowField != ""
    requires NumericValues(rows, cfg) && NullFree(rows, cfg)
    requires cfg.colField != "" ==> ALL !in ColKeys(rows, cfg)
    ensures var q := QuerySpec(cfg, PivotColumns(rows, cfg, le));
            (exists groups :: IsAnswer(rows, q, le, groups, answer)) <==>
              Accepted(q) && answer == TableAnswer(cfg, PivotSpec(rows, cfg, le).value)
  {
    var cols := PivotColumns(rows, cfg, le);
    var q, groups := QuerySpec(cfg, cols), LabelGroups(Labels(rows, cfg, le));
    if cfg.colField != "" {
      SortKeepsKeys(G.FirstSeen(ColKeys(rows, cfg)), le);
      G.SeenIffPresent(ColKeys(rows, cfg), ALL);
    }
    Shape(cfg, cols);
    AcceptedIff(cfg, cols, q);
    if Accepted(q) {
      PivotAnswers(rows, cfg, le, cols);
      if gs :| IsAnswer(rows, q, le, gs, answer) {
        GroupsAreLabels(rows, cfg, le, gs);
        assert answer.rows == TableAnswer(cfg, PivotSpec(rows, cfg, le).value).rows;
      }
    }
  }

  /** The pivot table is an answer, its groups in label order. */
  lemma PivotAnswers(rows: seq<C.Row>, cfg: Config, le: Order, cols: seq<string>)
    requires TotalOrder(le) && rows != [] && cfg.rowField != "" && cols == PivotColumns(rows, cfg, le)
    requires NumericValues(rows, cfg) && NullFree(rows, cfg) && WellShaped(cfg, cols)
    ensures var table := TableAnswer(cfg, PivotSpec(rows, cfg, le).value);
            IsAnswer(rows, QuerySpec(cfg, cols), le, LabelGroups(Labels(rows, cfg, le)), table)
  {
    var q, keys := QuerySpec(cfg, cols), Labels(rows, cfg, le);
    var groups := LabelGroups(keys);
    Shape(cfg, cols);
    AcceptedIff(cfg, cols, q);
    SortedLabels(rows, cfg, le, None);
    forall g ensures g in groups <==> g in Columns(rows, cfg.rowField) {
      SortedLabels(rows, cfg, le, g);
    }
    forall i | 0 <= i < |keys|
      ensures GroupRow(rows, q, groups[i]) == TableRow(PivotRow(keys[i], RowCells(rows, cfg, keys[i], cols)))
    {
      assert groups[i] in groups;
      GroupRowIsTableRow(rows, cfg, cols, keys[i]);
    }
  }

  lemma RowOfKey(rows: seq<C.Row>, cfg: Config, key: string) returns (k: nat)
    requires NullFree(rows, cfg) && Some(key) in Columns(rows, cfg.rowField)
    ensures k < |rows| && RowKey(rows[k], cfg) == key && Column(rows[k], cfg.rowField) == Some(key)
  {
    k :| 0 <= k < |rows| && Columns(rows, cfg.rowField)[k] == Some(key);
  }

  lemma PartSnoc(rows: seq<C.Row>, row: C.Row, cfg: Config, rk: string, ck: string, seen: bool)
    ensures Part(rows + [row], cfg, rk, ck, seen) == Part(rows, cfg, rk, ck, seen)
              + if RowKey(row, cfg) == rk && ColKey(row, cfg) == ck &&
                  Seen(row, cfg) == seen then [ValueOf(row, cfg)] else []
  {
    assert (rows + [row])[..|rows|] == rows;
  }

  /** The values two rows with the same labels have in their cell. */
  lemma PartOfTwo(a: C.Row, b: C.Row, cfg: Config, rk: string, ck: string, seen: bool)
    requires RowKey(a, cfg) == RowKey(b, cfg) == rk && ColKey(a, cfg) == ColKey(b, cfg) == ck
    ensures Part([a, b], cfg, rk, ck, seen) ==
            (if Seen(a, cfg) == seen then [ValueOf(a, cfg)] else []) +
            (if Seen(b, cfg) == seen then [ValueOf(b, cfg)] else [])
  {
    assert [] + [a] == [a] && [a] + [b] == [a, b];
    PartSnoc([], a, cfg, rk, ck, seen);
    PartSnoc([a], b, cfg, rk, ck, seen);
  }

  lemma NullHarms(seen: seq<C.Cell>, unseen: seq<C.Cell>, text: string, v: real)
    requires v != 0.0 && seen == [C.Value(text, Some(v))] && unseen == [C.Null]
    ensures !Harmless(Avg, seen, unseen)
  {
    assert seen[..0] == [] && unseen[..0] == [];
    assert Numbers(seen) == [v] && Numbers(unseen) == [0.0];
    assert [v][..0] == [] && G.Total([v]) == v && G.Total([0.0]) == 0.0;
  }

  lemma HarmfulCell(rows: seq<C.Row>, cfg: Config, cols: seq<string>, i: nat, j: nat)
    requires i < |rows| && j < |cols| && !HarmlessCell(rows, cfg, RowKey(rows[i], cfg), cols[j])
    ensures !Faithful(rows, cfg, cols)
  {}

  /** The cell of a row whose value is NULL and a row whose value is not 0. */
  lemma NullCell(blank: C.Row, other: C.Row, cfg: Config, text: string, v: real, rk: string, ck: string)
    requires cfg.agg == Avg && cfg.colField != "" && v != 0.0
    requires RowKey(blank, cfg) == RowKey(other, cfg) == rk && ColKey(blank, cfg) == ColKey(other, cfg) == ck
    requires Column(blank, cfg.colField).Some? && Column(other, cfg.colField).Some?
    requires ValueOf(blank, cfg) == C.Null && ValueOf(other, cfg) == C.Value(text, Some(v)) && cfg.valueField != ""
    ensures !HarmlessCell([blank, other], cfg, rk, ck)
  {
    var seen, unseen := Part([blank, other], cfg, rk, ck, true), Part([blank, other], cfg, rk, ck, false);
    PartOfTwo(blank, other, cfg, rk, ck, true);
    PartOfTwo(blank, other, cfg, rk, ck, false);
    NullHarms(seen, unseen, text, v);
  }

  /** A row whose value is NULL and a row whose value is not 0, in a table of one cell: the table
      averages the NULL as 0. */
  lemma NullCountsAsZero(blank: C.Row, other: C.Row, cfg: Config, text: string, v: real)
    requires cfg.agg == Avg && cfg.colField != "" && cfg.valueField != "" && v != 0.0
    requires RowKey(blank, cfg) == RowKey(other, cfg) && ColKey(blank, cfg) == ColKey(other, cfg)
    requires Column(blank, cfg.colField).Some? && Column(other, cfg.colField).Some?
    requires ValueOf(blank, cfg) == C.Null && ValueOf(other, cfg) == C.Value(text, Some(v))
    ensures !Agrees([blank, other], cfg, [ColKey(blank, cfg)])
  {
    NullCell(blank, other, cfg, text, v, RowKey(blank, cfg), ColKey(blank, cfg));
    HarmfulCell([blank, other], cfg, [ColKey(blank, cfg)], 0, 0);
    QueryAgreesIff([blank, other], cfg, [ColKey(blank, cfg)]);
  }
}
