/** What a pivot table conserves, and its agreement with the chart's group-by. */
module PivotTotals {
  import opened Text
  import opened Pivot
  import C = Charts
  import G = Grouping
  import R = RollUp

  /** The number a cell contributes to a grand total. */
  function Amount(s: Shown): real {
    match s case NoValue => 0.0 case Counted(n) => n as real case Computed(x) => x
  }

  function RowAmount(cells: seq<Shown>): real {
    if cells == [] then 0.0 else RowAmount(cells[..|cells| - 1]) + Amount(cells[|cells| - 1])
  }

  function GrandTotal(rows: seq<PivotRow>): real {
    if rows == [] then 0.0 else GrandTotal(rows[..|rows| - 1]) + RowAmount(rows[|rows| - 1].cells)
  }

  /** What one value adds to its cell. */
  function ValueWeight(v: C.Cell, agg: Agg): real {
    if agg == Count then 1.0
    else match ToNumber(v) case None => 0.0 case Some(n) => n
  }

  function Weight(row: C.Row, cfg: Config): real { ValueWeight(ValueOf(row, cfg), cfg.agg) }

  function TotalWeight(rows: seq<C.Row>, cfg: Config): real {
    if rows == [] then 0.0 else TotalWeight(rows[..|rows| - 1], cfg) + Weight(rows[|rows| - 1], cfg)
  }

  predicate Additive(agg: Agg) { agg == Count || agg == Sum }

  lemma AmountSnoc(cells: seq<C.Cell>, v: C.Cell, agg: Agg)
    requires Additive(agg)
    ensures Amount(Aggregate(cells + [v], agg)) == Amount(Aggregate(cells, agg)) + ValueWeight(v, agg)
  {
    assert (cells + [v])[..|cells|] == cells;
    if ToNumber(v).Some? {
      G.FoldSnoc(G.Sum, Numbers(cells), ToNumber(v).value);
    } else {
      assert Numbers(cells) + [] == Numbers(cells);
    }
  }

  /** The cell's amount grows by the weight of the row that falls into it. */
  lemma CellSnoc(rows: seq<C.Row>, row: C.Row, cfg: Config, rk: string, ck: string)
    requires Additive(cfg.agg)
    ensures CellAmount(rows + [row], cfg, rk, ck)
         == CellAmount(rows, cfg, rk, ck) +
             (if RowKey(row, cfg) == rk && ColKey(row, cfg) == ck then Weight(row, cfg) else 0.0)
  {
    CellValuesSnoc(rows, row, cfg, rk, ck);
    AmountSnoc(CellValues(rows, cfg, rk, ck), ValueOf(row, cfg), cfg.agg);
    assert CellValues(rows, cfg, rk, ck) + [] == CellValues(rows, cfg, rk, ck);
  }

  function CellAmount(rows: seq<C.Row>, cfg: Config, rk: string, ck: string): real {
    Amount(Aggregate(CellValues(rows, cfg, rk, ck), cfg.agg))
  }

  function RowSum(rows: seq<C.Row>, cfg: Config, rk: string, cols: seq<string>): real {
    if cols == [] then 0.0 else RowSum(rows, cfg, rk, cols[..|cols| - 1]) + CellAmount(rows, cfg, rk, cols[|cols| - 1])
  }

  function GridSum(rows: seq<C.Row>, cfg: Config, keys: seq<string>, cols: seq<string>): real {
    if keys == [] then 0.0 else GridSum(rows, cfg, keys[..|keys| - 1], cols) + RowSum(rows, cfg, keys[|keys| - 1], cols)
  }

  lemma {:induction false} RowSumIsAmount(rows: seq<C.Row>, cfg: Config, rk: string, cols: seq<string>)
    ensures RowAmount(RowCells(rows, cfg, rk, cols)) == RowSum(rows, cfg, rk, cols)
  {
    if cols != [] {
      RowSumIsAmount(rows, cfg, rk, cols[..|cols| - 1]);
      assert RowCells(rows, cfg, rk, cols)[..|cols| - 1] == RowCells(rows, cfg, rk, cols[..|cols| - 1]);
    }
  }

  lemma {:induction false} GridSumIsTotal(rows: seq<C.Row>, cfg: Config, keys: seq<string>, cols: seq<string>)
    ensures GrandTotal(PivotRows(rows, cfg, keys, cols)) == GridSum(rows, cfg, keys, cols)
  {
    if keys != [] {
      GridSumIsTotal(rows, cfg, keys[..|keys| - 1], cols);
      RowSumIsAmount(rows, cfg, keys[|keys| - 1], cols);
      assert PivotRows(rows, cfg, keys, cols)[..|keys| - 1] == PivotRows(rows, cfg, keys[..|keys| - 1], cols);
    }
  }

  lemma LastOrFront(ks: seq<string>, k: string)
    requires ks != [] && G.Distinct(ks)
    ensures G.Distinct(ks[..|ks| - 1]) && ks[|ks| - 1] !in ks[..|ks| - 1]
    ensures k in ks <==> k in ks[..|ks| - 1] || k == ks[|ks| - 1]
  {
    assert ks == ks[..|ks| - 1] + [ks[|ks| - 1]];
  }

  lemma {:induction false} RowSnoc(rows: seq<C.Row>, row: C.Row, cfg: Config, rk: string, cols: seq<string>)
    requires Additive(cfg.agg) && G.Distinct(cols)
    ensures RowSum(rows + [row], cfg, rk, cols)
         == RowSum(rows, cfg, rk, cols) + (if RowKey(row, cfg) == rk &&
             ColKey(row, cfg) in cols then Weight(row, cfg) else 0.0)
  {
    if cols != [] {
      LastOrFront(cols, ColKey(row, cfg));
      RowSnoc(rows, row, cfg, rk, cols[..|cols| - 1]);
      CellSnoc(rows, row, cfg, rk, cols[|cols| - 1]);
    }
  }

  lemma {:induction false} GridSnoc(rows: seq<C.Row>, row: C.Row, cfg: Config, keys: seq<string>, cols: seq<string>)
    requires Additive(cfg.agg) && G.Distinct(cols) && G.Distinct(keys)
    ensures GridSum(rows + [row], cfg, keys, cols)
         == GridSum(rows, cfg, keys, cols) +
             (if RowKey(row, cfg) in keys && ColKey(row, cfg) in cols then Weight(row, cfg) else 0.0)
  {
    if keys != [] {
      LastOrFront(keys, RowKey(row, cfg));
      GridSnoc(rows, row, cfg, keys[..|keys| - 1], cols);
      RowSnoc(rows, row, cfg, keys[|keys| - 1], cols);
    }
  }

  lemma {:induction false} EmptyRow(cfg: Config, rk: string, cols: seq<string>)
    requires Additive(cfg.agg)
    ensures RowSum([], cfg, rk, cols) == 0.0
  {
    if cols != [] { EmptyRow(cfg, rk, cols[..|cols| - 1]); }
  }

  lemma {:induction false} EmptyGrid(cfg: Config, keys: seq<string>, cols: seq<string>)
    requires Additive(cfg.agg)
    ensures GridSum([], cfg, keys, cols) == 0.0
  {
    if keys != [] {
      EmptyGrid(cfg, keys[..|keys| - 1], cols);
      EmptyRow(cfg, keys[|keys| - 1], cols);
    }
  }

  lemma {:induction false} GridTotal(rows: seq<C.Row>, cfg: Config, keys: seq<string>, cols: seq<string>)
    requires Additive(cfg.agg) && G.Distinct(cols) && G.Distinct(keys)
    requires forall i :: 0 <= i < |rows| ==> RowKey(rows[i], cfg) in keys && ColKey(rows[i], cfg) in cols
    ensures GridSum(rows, cfg, keys, cols) == TotalWeight(rows, cfg)
  {
    if rows == [] {
      EmptyGrid(cfg, keys, cols);
    } else {
      var init, row := rows[..|rows| - 1], rows[|rows| - 1];
      assert rows == init + [row];
      GridTotal(init, cfg, keys, cols);
      GridSnoc(init, row, cfg, keys, cols);
    }
  }

  lemma SortedIsDistinct(ks: seq<string>, le: Order)
    requires TotalOrder(le)
    ensures G.Distinct(Sort(G.FirstSeen(ks), le))
    ensures forall x :: x in Sort(G.FirstSeen(ks), le) <==> x in ks
  {
    G.FirstSeenIsKeySet(ks);
    SortSorted(G.FirstSeen(ks), le);
  }

  /** Conservation: whatever the column field, the counts of all cells add up to the number of rows,
      and their unrounded sums to the total of the value field. */
  lemma PivotConserves(rows: seq<C.Row>, cfg: Config, le: Order)
    requires TotalOrder(le) && Additive(cfg.agg) && PivotSpec(rows, cfg, le).Some?
    ensures GrandTotal(PivotSpec(rows, cfg, le).value.rows)
         == if cfg.agg == Count then |rows| as real else TotalWeight(rows, cfg)
  {
    var keys, cols := Sort(G.FirstSeen(RowKeys(rows, cfg)), le), PivotColumns(rows, cfg, le);
    SortedIsDistinct(RowKeys(rows, cfg), le);
    SortedIsDistinct(ColKeys(rows, cfg), le);
    forall i | 0 <= i < |rows| ensures RowKey(rows[i], cfg) in keys && ColKey(rows[i], cfg) in cols {
      assert RowKeys(rows, cfg)[i] in RowKeys(rows, cfg) && ColKeys(rows, cfg)[i] in ColKeys(rows, cfg);
    }
    GridTotal(rows, cfg, keys, cols);
    GridSumIsTotal(rows, cfg, keys, cols);
    if cfg.agg == Count { CountsRows(rows, cfg); }
  }

  lemma {:induction false} CountsRows(rows: seq<C.Row>, cfg: Config)
    requires cfg.agg == Count
    ensures TotalWeight(rows, cfg) == |rows| as real
  {
    if rows != [] { CountsRows(rows[..|rows| - 1], cfg); }
  }

  // ---------- the chart's group-by ----------

  function ChartAggregation(agg: Agg): C.Aggregation {
    match agg
    case Count => C.CountAgg
    case Sum => C.SumAgg
    case Avg => C.AvgAgg
    case Min => C.MinAgg
    case Max => C.MaxAgg
  }

  predicate PlainRow(row: C.Row, cfg: Config) {
    C.FieldOf(row, cfg.rowField).Value? && ValueOf(row, cfg).Value? && ValueOf(row, cfg).number.Some?
  }

  /** Labels that are present, and values that are numbers. */
  predicate PlainRows(rows: seq<C.Row>, cfg: Config) {
    forall i :: 0 <= i < |rows| ==> PlainRow(rows[i], cfg)
  }

  /** The chart's numbers of one group. */
  function ChartNumbers(rows: seq<C.Row>, cfg: Config, host: C.Host, k: string): seq<real> {
    C.Numbers(G.Bucket(C.Keyed(rows, cfg.rowField, None, host), k), cfg.valueField)
  }

  lemma ChartSnoc(rows: seq<C.Row>, row: C.Row, cfg: Config, host: C.Host, k: string)
    requires cfg.colField == "" && cfg.valueField != "" && PlainRow(row, cfg)
    ensures ChartNumbers(rows + [row], cfg, host, k)
         == ChartNumbers(rows, cfg, host, k) +
             (if RowKey(row, cfg) == k then [ToNumber(ValueOf(row, cfg)).value] else [])
  {
    var es := C.Keyed(rows, cfg.rowField, None, host);
    var e := G.Entry(C.TextOf(row, cfg.rowField), row);
    assert C.Keyed(rows + [row], cfg.rowField, None, host) == es + [e];
    G.BucketSnoc(es, e, k);
    var group := G.Bucket(es, k);
    assert group + [] == group && C.Numbers(group, cfg.valueField) + [] == C.Numbers(group, cfg.valueField);
    R.NumbersSnoc(group, row, cfg.valueField);
  }

  lemma PivotSnoc(rows: seq<C.Row>, row: C.Row, cfg: Config, k: string)
    requires cfg.colField == "" && PlainRow(row, cfg)
    ensures Numbers(CellValues(rows + [row], cfg, k, ALL))
         == Numbers(CellValues(rows, cfg, k, ALL)) +
             (if RowKey(row, cfg) == k then [ToNumber(ValueOf(row, cfg)).value] else [])
    ensures |CellValues(rows + [row], cfg, k, ALL)| ==
            |CellValues(rows, cfg, k, ALL)| + (if RowKey(row, cfg) == k then 1 else 0)
  {
    CellValuesSnoc(rows, row, cfg, k, ALL);
    var cells := CellValues(rows, cfg, k, ALL);
    assert (cells + [ValueOf(row, cfg)])[..|cells|] == cells && cells + [] == cells;
    assert Numbers(cells) + [] == Numbers(cells);
  }

  lemma {:induction false} SameNumbers(rows: seq<C.Row>, cfg: Config, host: C.Host, k: string)
    requires cfg.colField == "" && cfg.valueField != "" && PlainRows(rows, cfg)
    ensures ChartNumbers(rows, cfg, host, k) == Numbers(CellValues(rows, cfg, k, ALL))
    ensures |ChartNumbers(rows, cfg, host, k)| == |CellValues(rows, cfg, k, ALL)|
  {
    if rows != [] {
      var init, row := rows[..|rows| - 1], rows[|rows| - 1];
      assert rows == init + [row];
      SameNumbers(init, cfg, host, k);
      ChartSnoc(init, row, cfg, host, k);
      PivotSnoc(init, row, cfg, k);
    }
  }

  /** The two aggregate the same numbers alike. */
  lemma SameAggregate(agg: Agg, cells: seq<C.Cell>, nums: seq<real>)
    requires nums != [] && nums == Numbers(cells) && |nums| == |cells|
    ensures !Aggregate(cells, agg).NoValue?
    ensures C.AggregateValues(ChartAggregation(agg), nums) == Amount(Aggregate(cells, agg))
  {}

  function ChartOf(rows: seq<C.Row>, cfg: Config, host: C.Host): seq<C.Row> {
    C.Aggregate(rows, cfg.rowField, [C.Metric(cfg.valueField, ChartAggregation(cfg.agg))], None, host)
  }

  /** Without a column field, on plain rows, the pivot is the chart's group-by: the same labels, which
      the chart lists in order of first appearance, and the same number for each, for every aggregate. */
  lemma PivotIsChart(rows: seq<C.Row>, cfg: Config, host: C.Host, i: nat)
    requires cfg.colField == "" && cfg.valueField != "" && cfg.valueField != cfg.rowField && PlainRows(rows, cfg)
    requires i < |G.FirstSeen(RowKeys(rows, cfg))|
    ensures |ChartOf(rows, cfg, host)| == |G.FirstSeen(RowKeys(rows, cfg))|
    ensures C.TextOf(ChartOf(rows, cfg, host)[i], cfg.rowField) == G.FirstSeen(RowKeys(rows, cfg))[i]
    ensures !Aggregate(CellValues(rows, cfg, G.FirstSeen(RowKeys(rows, cfg))[i], ALL), cfg.agg).NoValue?
    ensures C.NumberOf(ChartOf(rows, cfg, host)[i], cfg.valueField)
         == CellAmount(rows, cfg, G.FirstSeen(RowKeys(rows, cfg))[i], ALL)
  {
    var key := G.FirstSeen(RowKeys(rows, cfg))[i];
    ChartRow(rows, cfg, host, i);
    SameNumbers(rows, cfg, host, key);
    SameAggregate(cfg.agg, CellValues(rows, cfg, key, ALL), ChartNumbers(rows, cfg, host, key));
  }

  lemma ChartRow(rows: seq<C.Row>, cfg: Config, host: C.Host, i: nat)
    requires cfg.valueField != cfg.rowField && PlainRows(rows, cfg) && i < |G.FirstSeen(RowKeys(rows, cfg))|
    ensures var keys := G.FirstSeen(RowKeys(rows, cfg));
            && |ChartOf(rows, cfg, host)| == |keys| && ChartNumbers(rows, cfg, host, keys[i]) != []
            && C.TextOf(ChartOf(rows, cfg, host)[i], cfg.rowField) == keys[i]
            && C.NumberOf(ChartOf(rows, cfg, host)[i], cfg.valueField)
                 == C.AggregateValues(ChartAggregation(cfg.agg), ChartNumbers(rows, cfg, host, keys[i]))
  {
    var metrics, key := [C.Metric(cfg.valueField, ChartAggregation(cfg.agg))], G.FirstSeen(RowKeys(rows, cfg))[i];
    var es := C.Keyed(rows, cfg.rowField, None, host);
    assert G.KeysOf(es) == RowKeys(rows, cfg);
    assert !C.NothingToAggregate(metrics) by { assert metrics[0].aggregation != C.NoAgg; }
    C.OrderIsCovered(es);
    SingleMetric(cfg.valueField, ChartAggregation(cfg.agg), G.Bucket(es, key),
        map[cfg.rowField := C.TextCell(key, host)], host);
  }

  lemma SingleMetric(field: string, a: C.Aggregation, group: seq<C.Row>, base: C.Row, host: C.Host)
    requires group != []
    ensures C.Assigned([C.Metric(field, a)], group, base, host)
         == base[field := C.NumberCell(C.AggregateValues(a, C.Numbers(group, field)), host)]
  {
    assert [C.Metric(field, a)][..0] == [];
  }
}
