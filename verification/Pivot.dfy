/** The in-memory pivot table: rows grouped by row and column key, one aggregate per cell. */
module Pivot {
  import opened Text
  import C = Charts
  import G = Grouping

  datatype Agg = Count | Sum | Avg | Min | Max

  /** The chosen fields; an empty name is a field not chosen. */
  datatype Config = Config(rowField: string, colField: string, valueField: string, agg: Agg)

  const ALL := "__all__"

  /** `String(value ?? "NULL")` */
  function KeyText(cell: C.Cell): string {
    match cell case Value(text, _) => text case _ => "NULL"
  }

  function RowKey(row: C.Row, cfg: Config): string { KeyText(C.FieldOf(row, cfg.rowField)) }

  function ColKey(row: C.Row, cfg: Config): string {
    if cfg.colField != "" then KeyText(C.FieldOf(row, cfg.colField)) else ALL
  }

  function ValueOf(row: C.Row, cfg: Config): C.Cell {
    if cfg.valueField != "" then C.FieldOf(row, cfg.valueField) else C.Value("1", Some(1.0))
  }

  /** `Number(v)`: null is zero, an absent value is not a number. */
  function ToNumber(cell: C.Cell): Option<real> {
    match cell case Undefined => None case Null => Some(0.0) case Value(_, n) => n
  }

  function Numbers(cells: seq<C.Cell>): seq<real> {
    if cells == [] then []
    else
      var n := ToNumber(cells[|cells| - 1]);
      Numbers(cells[..|cells| - 1]) + if n.Some? then [n.value] else []
  }

  /** A cell before formatting: nothing to aggregate, a count, or a computed number. */
  datatype Shown = NoValue | Counted(n: nat) | Computed(x: real)

  function Aggregate(cells: seq<C.Cell>, agg: Agg): Shown {
    var nums := Numbers(cells);
    match agg
    case Count => Counted(|cells|)
    case Sum => Extreme(G.Fold(G.Sum, nums))
    case Avg => if nums == [] then NoValue else Computed(G.Fold(G.Sum, nums).value / |nums| as real)
    case Min => Extreme(G.Fold(G.Least, nums))
    case Max => Extreme(G.Fold(G.Greatest, nums))
  }

  function Extreme(r: Option<real>): Shown { match r case None => NoValue case Some(x) => Computed(x) }

  // ---------- grouping ----------

  /** The values of one pivot cell, in row order. */
  function CellValues(rows: seq<C.Row>, cfg: Config, rowKey: string, colKey: string): seq<C.Cell> {
    if rows == [] then []
    else
      var row := rows[|rows| - 1];
      CellValues(rows[..|rows| - 1], cfg, rowKey, colKey)
        + if RowKey(row, cfg) == rowKey && ColKey(row, cfg) == colKey then [ValueOf(row, cfg)] else []
  }

  function RowKeys(rows: seq<C.Row>, cfg: Config): (r: seq<string>)
    ensures |r| == |rows| && forall i :: 0 <= i < |rows| ==> r[i] == RowKey(rows[i], cfg)
  {
    seq(|rows|, i requires 0 <= i < |rows| => RowKey(rows[i], cfg))
  }

  function ColKeys(rows: seq<C.Row>, cfg: Config): (r: seq<string>)
    ensures |r| == |rows| && forall i :: 0 <= i < |rows| ==> r[i] == ColKey(rows[i], cfg)
  {
    seq(|rows|, i requires 0 <= i < |rows| => ColKey(rows[i], cfg))
  }

  /** The nested maps after the grouping loop. */
  ghost predicate Grouped(rows: seq<C.Row>, cfg: Config, groups: map<string, map<string, seq<C.Cell>>>) {
    && (forall rk :: rk in groups <==> rk in RowKeys(rows, cfg))
    && (forall rk, ck :: rk in groups && ck in groups[rk] ==> groups[rk][ck] == CellValues(rows, cfg, rk, ck))
    && (forall rk, ck :: rk in groups && ck !in groups[rk] ==> CellValues(rows, cfg, rk, ck) == [])
  }

  lemma NoRowNoValues(rows: seq<C.Row>, cfg: Config, rk: string, ck: string)
    requires rk !in RowKeys(rows, cfg)
    ensures CellValues(rows, cfg, rk, ck) == []
  {
    if rows != [] {
      assert RowKeys(rows, cfg) == RowKeys(rows[..|rows| - 1], cfg) + [RowKey(rows[|rows| - 1], cfg)];
    }
  }

  lemma CellValuesSnoc(rows: seq<C.Row>, row: C.Row, cfg: Config, rk: string, ck: string)
    ensures CellValues(rows + [row], cfg, rk, ck)
         == CellValues(rows, cfg, rk, ck) +
             (if RowKey(row, cfg) == rk && ColKey(row, cfg) == ck then [ValueOf(row, cfg)] else [])
  {
    assert (rows + [row])[..|rows|] == rows;
  }

  type Groups = map<string, map<string, seq<C.Cell>>>

  function Pushed(groups: Groups, rk: string, ck: string, v: C.Cell): Groups {
    var cols := if rk in groups then groups[rk] else map[];
    groups[rk := cols[ck := (if ck in cols then cols[ck] else []) + [v]]]
  }

  /** Creating the two levels of the Map where they are missing, then appending. */
  method PushValue(groups: Groups, rowKey: string, colKey: string, v: C.Cell) returns (after: Groups)
    ensures after == Pushed(groups, rowKey, colKey, v)
  {
    var colMap: map<string, seq<C.Cell>> := map[];
    if rowKey in groups {
      colMap := groups[rowKey];
    }
    var values: seq<C.Cell> := [];
    if colKey in colMap {
      values := colMap[colKey];
    }
    after := groups[rowKey := colMap[colKey := values + [v]]];
  }

  lemma GroupedCell(rows: seq<C.Row>, row: C.Row, cfg: Config, before: Groups, after: Groups, rk: string, ck: string)
    requires Grouped(rows, cfg, before) && rk in after
    requires after == Pushed(before, RowKey(row, cfg), ColKey(row, cfg), ValueOf(row, cfg))
    ensures ck in after[rk] ==> after[rk][ck] == CellValues(rows + [row], cfg, rk, ck)
    ensures ck !in after[rk] ==> CellValues(rows + [row], cfg, rk, ck) == []
  {
    CellValuesSnoc(rows, row, cfg, rk, ck);
    if rk !in before { NoRowNoValues(rows, cfg, rk, ck); }
  }

  /** One pass of the loop body over the nested maps. */
  lemma GroupedStep(rows: seq<C.Row>, row: C.Row, cfg: Config, before: Groups)
    requires Grouped(rows, cfg, before)
    ensures Grouped(rows + [row], cfg, Pushed(before, RowKey(row, cfg), ColKey(row, cfg), ValueOf(row, cfg)))
  {
    var after := Pushed(before, RowKey(row, cfg), ColKey(row, cfg), ValueOf(row, cfg));
    assert RowKeys(rows + [row], cfg) == RowKeys(rows, cfg) + [RowKey(row, cfg)];
    forall rk, ck | rk in after
      ensures ck in after[rk] ==> after[rk][ck] == CellValues(rows + [row], cfg, rk, ck)
      ensures ck !in after[rk] ==> CellValues(rows + [row], cfg, rk, ck) == []
    {
      GroupedCell(rows, row, cfg, before, after, rk, ck);
    }
  }

  lemma RowKeysSnoc(rows: seq<C.Row>, row: C.Row, cfg: Config)
    ensures RowKeys(rows + [row], cfg) == RowKeys(rows, cfg) + [RowKey(row, cfg)]
  {}

  lemma ColKeysSnoc(rows: seq<C.Row>, row: C.Row, cfg: Config)
    ensures ColKeys(rows + [row], cfg) == ColKeys(rows, cfg) + [ColKey(row, cfg)]
  {}

  /** The grouping loop: the Map of Maps, its row order, and the set of column keys in order. */
  method BuildGroups(rows: seq<C.Row>, cfg: Config) returns (order: seq<string>, groups: Groups, colValues: seq<string>)
    ensures order == G.FirstSeen(RowKeys(rows, cfg)) && Grouped(rows, cfg, groups)
    ensures colValues == if cfg.colField != "" then G.FirstSeen(ColKeys(rows, cfg)) else []
  {
    order, groups, colValues := [], map[], [];
    for i := 0 to |rows|
      invariant order == G.FirstSeen(RowKeys(rows[..i], cfg)) && Grouped(rows[..i], cfg, groups)
      invariant colValues == if cfg.colField != "" then G.FirstSeen(ColKeys(rows[..i], cfg)) else []
    {
      var row := rows[i];
      var rowKey, colKey := RowKey(row, cfg), ColKey(row, cfg);
      PrefixSnoc(rows, i);
      RowKeysSnoc(rows[..i], row, cfg);
      G.FirstSeenSnoc(RowKeys(rows[..i], cfg), rowKey);
      G.SeenIffPresent(RowKeys(rows[..i], cfg), rowKey);
      ColKeysSnoc(rows[..i], row, cfg);
      G.FirstSeenSnoc(ColKeys(rows[..i], cfg), colKey);
      GroupedStep(rows[..i], row, cfg, groups);
      if cfg.colField != "" && colKey !in colValues {
        colValues := colValues + [colKey];
      }
      if rowKey !in groups {
        order := order + [rowKey];
      }
      groups := PushValue(groups, rowKey, colKey, ValueOf(row, cfg));
    }
    assert rows[..|rows|] == rows;
  }

  // ---------- sorting by label ----------

  /** The label order that `localeCompare` and the engine's ORDER BY share. */
  type Order = (string, string) -> bool

  ghost predicate TotalOrder(le: Order) {
    && (forall a, b :: le(a, b) || le(b, a))
    && (forall a, b :: le(a, b) && le(b, a) ==> a == b)
    && (forall a, b, c :: le(a, b) && le(b, c) ==> le(a, c))
  }

  function Insert(k: string, ks: seq<string>, le: Order): seq<string> {
    if ks == [] || le(k, ks[0]) then [k] + ks else [ks[0]] + Insert(k, ks[1..], le)
  }

  function Sort(ks: seq<string>, le: Order): seq<string> {
    if ks == [] then [] else Insert(ks[0], Sort(ks[1..], le), le)
  }

  ghost predicate Sorted(ks: seq<string>, le: Order) {
    forall i, j :: 0 <= i < j < |ks| ==> ks[i] != ks[j] && le(ks[i], ks[j])
  }

  lemma {:induction false} InsertSorted(k: string, ks: seq<string>, le: Order)
    requires TotalOrder(le) && Sorted(ks, le) && k !in ks
    ensures Sorted(Insert(k, ks, le), le)
    ensures forall x :: x in Insert(k, ks, le) <==> x == k || x in ks
  {
    if ks != [] && !le(k, ks[0]) {
      InsertSorted(k, ks[1..], le);
      assert ks == [ks[0]] + ks[1..];
      var r := Insert(k, ks[1..], le);
      forall i | 0 <= i < |r| ensures ks[0] != r[i] && le(ks[0], r[i]) {
        assert r[i] in r;
      }
    } else if ks != [] {
      forall i | 0 <= i < |ks| ensures k != ks[i] && le(k, ks[i]) {
        assert ks[i] in ks;
      }
    }
  }

  lemma {:induction false} SortSorted(ks: seq<string>, le: Order)
    requires TotalOrder(le) && G.Distinct(ks)
    ensures Sorted(Sort(ks, le), le)
    ensures forall x :: x in Sort(ks, le) <==> x in ks
  {
    if ks != [] {
      SortSorted(ks[1..], le);
      assert ks == [ks[0]] + ks[1..];
      InsertSorted(ks[0], Sort(ks[1..], le), le);
    }
  }

  lemma BothEmpty(a: seq<string>, b: seq<string>)
    requires forall x :: x in a <==> x in b
    ensures a == [] <==> b == []
  {
    if a != [] { assert a[0] in a; }
    if b != [] { assert b[0] in b; }
  }

  /** There is only one sorted list of a set of labels, so any sort gives it. */
  lemma {:induction false} SortedUnique(a: seq<string>, b: seq<string>, le: Order)
    requires TotalOrder(le) && Sorted(a, le) && Sorted(b, le)
    requires forall x :: x in a <==> x in b
    ensures a == b
  {
    BothEmpty(a, b);
    if a != [] {
      assert a[0] in a && b[0] in b;
      assert a == [a[0]] + a[1..] && b == [b[0]] + b[1..];
      assert le(a[0], b[0]) && le(b[0], a[0]);
      assert a[0] == b[0];
      forall x ensures x in a[1..] <==> x in b[1..] {
        assert x in a[1..] ==> x in a && x != a[0];
        assert x in b[1..] ==> x in b && x != b[0];
      }
      SortedUnique(a[1..], b[1..], le);
    }
  }

  // ---------- the pivot ----------

  datatype PivotRow = PivotRow(rowKey: string, cells: seq<Shown>)

  datatype PivotData = PivotData(colKeys: seq<string>, rows: seq<PivotRow>)

  function PivotColumns(rows: seq<C.Row>, cfg: Config, le: Order): seq<string> {
    if cfg.colField != "" then Sort(G.FirstSeen(ColKeys(rows, cfg)), le) else [ALL]
  }

  function RowCells(rows: seq<C.Row>, cfg: Config, rowKey: string, cols: seq<string>): (r: seq<Shown>)
    ensures |r| == |cols| && forall j :: 0 <= j < |cols| ==>
            r[j] == Aggregate(CellValues(rows, cfg, rowKey, cols[j]), cfg.agg)
  {
    seq(|cols|, j requires 0 <= j < |cols| => Aggregate(CellValues(rows, cfg, rowKey, cols[j]), cfg.agg))
  }

  function PivotRows(rows: seq<C.Row>, cfg: Config, keys: seq<string>, cols: seq<string>): (r: seq<PivotRow>)
    ensures |r| == |keys| && forall i :: 0 <= i < |keys| ==>
            r[i] == PivotRow(keys[i], RowCells(rows, cfg, keys[i], cols))
  {
    seq(|keys|, i requires 0 <= i < |keys| => PivotRow(keys[i], RowCells(rows, cfg, keys[i], cols)))
  }

  function PivotSpec(rows: seq<C.Row>, cfg: Config, le: Order): Option<PivotData> {
    if cfg.rowField == "" || rows == [] then None
    else
      var cols := PivotColumns(rows, cfg, le);
      Some(PivotData(cols, PivotRows(rows, cfg, Sort(G.FirstSeen(RowKeys(rows, cfg)), le), cols)))
  }

  method ComputePivot(rows: seq<C.Row>, cfg: Config, le: Order) returns (data: Option<PivotData>)
    ensures data == PivotSpec(rows, cfg, le)
  {
    if cfg.rowField == "" || rows == [] {
      return None;
    }
    var order, groups, colValues := BuildGroups(rows, cfg);
    var cols := if cfg.colField != "" then Sort(colValues, le) else [ALL];
    SortKeepsKeys(order, le);
    G.FirstSeenIsKeySet(RowKeys(rows, cfg));
    var pivotRows := FillRows(rows, cfg, Sort(order, le), groups, cols);
    data := Some(PivotData(cols, pivotRows));
  }

  /** The pivot rows, in label order. */
  method FillRows(rows: seq<C.Row>, cfg: Config, keys: seq<string>, groups: Groups, cols: seq<string>)
    returns (pivotRows: seq<PivotRow>)
    requires Grouped(rows, cfg, groups) && forall i :: 0 <= i < |keys| ==> keys[i] in groups
    ensures pivotRows == PivotRows(rows, cfg, keys, cols)
  {
    pivotRows := [];
    for i := 0 to |keys|
      invariant |pivotRows| == i
      invariant forall k :: 0 <= k < i ==> pivotRows[k] == PivotRow(keys[k], RowCells(rows, cfg, keys[k], cols))
    {
      var cells := FillRow(rows, cfg, keys[i], groups[keys[i]], cols);
      pivotRows := pivotRows + [PivotRow(keys[i], cells)];
    }
  }

  /** One pivot row: a missing inner entry is an empty list of values. */
  method FillRow(rows: seq<C.Row>, cfg: Config, rowKey: string, colMap: map<string, seq<C.Cell>>, cols: seq<string>)
    returns (cells: seq<Shown>)
    requires forall ck :: CellValues(rows, cfg, rowKey, ck) == if ck in colMap then colMap[ck] else []
    ensures cells == RowCells(rows, cfg, rowKey, cols)
  {
    cells := [];
    for j := 0 to |cols|
      invariant |cells| == j
      invariant forall k :: 0 <= k < j ==> cells[k] == Aggregate(CellValues(rows, cfg, rowKey, cols[k]), cfg.agg)
    {
      var vals := if cols[j] in colMap then colMap[cols[j]] else [];
      cells := cells + [Aggregate(vals, cfg.agg)];
    }
  }

  lemma {:induction false} SortKeepsKeys(ks: seq<string>, le: Order)
    ensures forall x :: x in Sort(ks, le) <==> x in ks
  {
    if ks != [] {
      SortKeepsKeys(ks[1..], le);
      InsertKeeps(ks[0], Sort(ks[1..], le), le);
      assert ks == [ks[0]] + ks[1..];
    }
  }

  lemma {:induction false} InsertKeeps(k: string, ks: seq<string>, le: Order)
    ensures forall x :: x in Insert(k, ks, le) <==> x == k || x in ks
  {
    if ks != [] && !le(k, ks[0]) {
      InsertKeeps(k, ks[1..], le);
      assert ks == [ks[0]] + ks[1..];
    }
  }
}
