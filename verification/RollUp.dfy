/** Aggregating by day first and by week, month or year afterwards changes nothing. */
module RollUp {
  import opened Text
  import opened Calendar
  import G = Grouping
  import opened Charts

  // ---------- the fields of a group's result ----------

  predicate Measures(metrics: seq<Metric>, field: string) {
    exists i :: 0 <= i < |metrics| && metrics[i].field == field
  }

  /** The aggregation that ends up in the result: the last one listed for the field. */
  function LastFor(metrics: seq<Metric>, field: string): Aggregation
    requires Measures(metrics, field)
  {
    var m := metrics[|metrics| - 1];
    if m.field == field then m.aggregation else LastFor(metrics[..|metrics| - 1], field)
  }

  lemma {:induction false} AssignedField(metrics: seq<Metric>, rows: seq<Row>, base: Row, host: Host, field: string)
    requires rows != []
    ensures field in Assigned(metrics, rows, base, host) <==> field in base || Measures(metrics, field)
    ensures Measures(metrics, field) ==>
              Assigned(metrics, rows, base, host)[field]
                == NumberCell(AggregateValues(LastFor(metrics, field), Numbers(rows, field)), host)
    ensures !Measures(metrics, field) && field in base ==> Assigned(metrics, rows, base, host)[field] == base[field]
  {
    if metrics != [] {
      var init, m := metrics[..|metrics| - 1], metrics[|metrics| - 1];
      AssignedField(init, rows, base, host, field);
      if Measures(init, field) {
        var i :| 0 <= i < |init| && init[i].field == field;
        assert metrics[i].field == field;
      }
      if Measures(metrics, field) && m.field != field {
        var i :| 0 <= i < |metrics| && metrics[i].field == field;
        assert init[i].field == field;
      }
    }
  }

  // ---------- aggregates that can be rolled up ----------

  predicate RollsUp(a: Aggregation) { a.SumAgg? || a.MinAgg? || a.MaxAgg? }

  function OpOf(a: Aggregation): G.Op
    requires RollsUp(a)
  {
    match a case SumAgg => G.Sum case MinAgg => G.Least case MaxAgg => G.Greatest
  }

  function Project(es: seq<G.Entry<string, Row>>, field: string): (r: seq<G.Entry<string, real>>)
    ensures |r| == |es| && forall i :: 0 <= i < |es| ==> r[i] == G.Entry(es[i].key, NumberOf(es[i].item, field))
  {
    seq(|es|, i requires 0 <= i < |es| => G.Entry(es[i].key, NumberOf(es[i].item, field)))
  }

  lemma {:induction false} ProjectedBucket(es: seq<G.Entry<string, Row>>, field: string, k: string)
    ensures G.Bucket(Project(es, field), k) == Numbers(G.Bucket(es, k), field)
  {
    if es != [] {
      var init, e := es[..|es| - 1], es[|es| - 1];
      ProjectedBucket(init, field, k);
      assert Project(es, field)[..|es| - 1] == Project(init, field);
      assert Numbers([e.item], field) == [NumberOf(e.item, field)];
      assert Numbers(G.Bucket(init, k) + [e.item], field) ==
          Numbers(G.Bucket(init, k), field) + [NumberOf(e.item, field)];
      assert G.Bucket(init, k) + [] == G.Bucket(init, k);
    }
  }

  /** One row per fine key holding, in `field`, the aggregate of that key's rows. */
  ghost predicate Summarises(mid: seq<Row>, ks: seq<string>, es: seq<G.Entry<string, Row>>, field: string, op: G.Op) {
    |mid| == |ks| && forall i :: 0 <= i < |ks| ==>
      G.Fold(op, Numbers(G.Bucket(es, ks[i]), field)) == Some(NumberOf(mid[i], field))
  }

  /** Summary rows under their coarse keys. */
  function Summaries(mid: seq<Row>, ks: seq<string>, h: string -> string): (r: seq<G.Entry<string, Row>>)
    requires |mid| == |ks|
    ensures |r| == |ks| && forall i :: 0 <= i < |ks| ==> r[i] == G.Entry(h(ks[i]), mid[i])
  {
    seq(|ks|, i requires 0 <= i < |ks| => G.Entry(h(ks[i]), mid[i]))
  }

  lemma {:induction false} SummariesRoll(mid: seq<Row>, ks: seq<string>, es: seq<G.Entry<string, Row>>, field: string,
                                         op: G.Op, h: string -> string, kk: string)
    requires Summarises(mid, ks, es, field, op)
    ensures G.Fold(op, Numbers(G.Bucket(Summaries(mid, ks, h), kk), field)) ==
            G.Rolled(op, Project(es, field), ks, h, kk)
  {
    if ks != [] {
      var front, frontRows, k, row := ks[..|ks| - 1], mid[..|ks| - 1], ks[|ks| - 1], mid[|ks| - 1];
      SummariesRoll(frontRows, front, es, field, op, h, kk);
      ProjectedBucket(es, field, k);
      SummariesSnoc(mid, ks, h);
      G.BucketSnoc(Summaries(frontRows, front, h), G.Entry(h(k), row), kk);
      var b := G.Bucket(Summaries(frontRows, front, h), kk);
      if h(k) == kk {
        NumbersSnoc(b, row, field);
        G.FoldSnoc(op, Numbers(b, field), NumberOf(row, field));
      } else {
        assert b + [] == b;
      }
    }
  }

  lemma SummariesSnoc(mid: seq<Row>, ks: seq<string>, h: string -> string)
    requires |mid| == |ks| && ks != []
    ensures Summaries(mid, ks, h)
         == Summaries(mid[..|ks| - 1], ks[..|ks| - 1], h) + [G.Entry(h(ks[|ks| - 1]), mid[|ks| - 1])]
  {}

  lemma NumbersSnoc(rows: seq<Row>, row: Row, field: string)
    ensures Numbers(rows + [row], field) == Numbers(rows, field) + [NumberOf(row, field)]
  {}

  /** One coarse group: the aggregate of the summaries is the aggregate of the rows. */
  lemma GroupRollsUp(mid: seq<Row>, es: seq<G.Entry<string, Row>>, field: string, op: G.Op, h: string -> string,
                     kk: string)
    requires Summarises(mid, G.FirstSeen(G.KeysOf(es)), es, field, op)
    ensures G.Fold(op, Numbers(G.Bucket(Summaries(mid, G.FirstSeen(G.KeysOf(es)), h), kk), field))
         == G.Fold(op, Numbers(G.Bucket(G.Rekeyed(es, h), kk), field))
  {
    var ks, numbers := G.FirstSeen(G.KeysOf(es)), Project(es, field);
    SummariesRoll(mid, ks, es, field, op, h, kk);
    G.FirstSeenIsKeySet(G.KeysOf(es));
    forall i | 0 <= i < |numbers| ensures numbers[i].key in ks {
      assert G.KeysOf(es)[i] in G.KeysOf(es);
    }
    G.RollUp(op, numbers, ks, h, kk);
    assert G.Rekeyed(numbers, h) == Project(G.Rekeyed(es, h), field);
    ProjectedBucket(G.Rekeyed(es, h), field, kk);
  }

  // ---------- the theorem ----------

  predicate Rollable(metrics: seq<Metric>, groupField: string) {
    metrics != [] && forall i :: 0 <= i < |metrics| ==>
        RollsUp(metrics[i].aggregation) && metrics[i].field != groupField
  }

  lemma {:induction false} LastRolls(metrics: seq<Metric>, groupField: string, field: string)
    requires (metrics == [] || Rollable(metrics, groupField)) && Measures(metrics, field)
    ensures RollsUp(LastFor(metrics, field)) && field != groupField
  {
    if metrics[|metrics| - 1].field != field {
      LastRolls(metrics[..|metrics| - 1], groupField, field);
    }
  }

  lemma AggregateIsFold(a: Aggregation, values: seq<real>)
    requires RollsUp(a) && values != []
    ensures G.Fold(OpOf(a), values) == Some(AggregateValues(a, values))
  {}

  lemma {:induction false} LastIsListed(metrics: seq<Metric>, field: string)
    requires Measures(metrics, field)
    ensures Metric(field, LastFor(metrics, field)) in metrics
  {
    if metrics[|metrics| - 1].field != field {
      LastIsListed(metrics[..|metrics| - 1], field);
    }
  }

  /** The first pass leaves, for each day, the key and the aggregates of its rows. */
  lemma FirstPassSummarises(rows: seq<Row>, groupField: string, metrics: seq<Metric>, grouping: Option<DateGrouping>,
                            host: Host, field: string)
    requires Measures(metrics, field) && RollsUp(LastFor(metrics, field))
    ensures var es := Keyed(rows, groupField, grouping, host);
            Summarises(Aggregate(rows, groupField, metrics, grouping, host), G.FirstSeen(G.KeysOf(es)), es, field,
                OpOf(LastFor(metrics, field)))
  {
    var es := Keyed(rows, groupField, grouping, host);
    var order := G.FirstSeen(G.KeysOf(es));
    OrderIsCovered(es);
    LastIsListed(metrics, field);
    forall i | 0 <= i < |order|
      ensures G.Fold(OpOf(LastFor(metrics, field)), Numbers(G.Bucket(es, order[i]), field))
           == Some(NumberOf(Aggregate(rows, groupField, metrics, grouping, host)[i], field))
    {
      var group := G.Bucket(es, order[i]);
      AssignedField(metrics, group, map[groupField := TextCell(order[i], host)], host, field);
      AggregateIsFold(LastFor(metrics, field), Numbers(group, field));
    }
  }

  lemma FirstPassKeys(rows: seq<Row>, groupField: string, metrics: seq<Metric>, grouping: Option<DateGrouping>,
                      host: Host)
    requires Rollable(metrics, groupField)
    ensures var order := G.FirstSeen(G.KeysOf(Keyed(rows, groupField, grouping, host)));
            var mid := Aggregate(rows, groupField, metrics, grouping, host);
            |mid| == |order| && forall i :: 0 <= i < |order| ==> TextOf(mid[i], groupField) == order[i]
  {
    var es := Keyed(rows, groupField, grouping, host);
    var order := G.FirstSeen(G.KeysOf(es));
    OrderIsCovered(es);
    assert metrics[0].aggregation != NoAgg;
    forall i | 0 <= i < |order|
      ensures TextOf(Aggregate(rows, groupField, metrics, grouping, host)[i], groupField) == order[i]
    {
      AssignedField(metrics, G.Bucket(es, order[i]), map[groupField := TextCell(order[i], host)], host, groupField);
    }
  }

  ghost predicate SameFold(metrics: seq<Metric>, field: string, a: seq<Row>, b: seq<Row>)
    requires Measures(metrics, field)
  {
    && RollsUp(LastFor(metrics, field))
    && G.Fold(OpOf(LastFor(metrics, field)), Numbers(a, field)) ==
        G.Fold(OpOf(LastFor(metrics, field)), Numbers(b, field))
  }

  /** Two groups with the same aggregates have the same result row. */
  lemma SameResult(groupField: string, key: string, metrics: seq<Metric>, a: seq<Row>, b: seq<Row>, host: Host)
    requires a != [] && b != [] && Rollable(metrics, groupField)
    requires forall field :: Measures(metrics, field) ==> SameFold(metrics, field, a, b)
    ensures GroupResult(groupField, key, metrics, a, host) == GroupResult(groupField, key, metrics, b, host)
  {
    var base: Row := map[groupField := TextCell(key, host)];
    var ra, rb := Assigned(metrics, a, base, host), Assigned(metrics, b, base, host);
    forall field ensures (field in ra <==> field in rb) && (field in ra ==> ra[field] == rb[field]) {
      AssignedField(metrics, a, base, host, field);
      AssignedField(metrics, b, base, host, field);
      if Measures(metrics, field) {
        assert SameFold(metrics, field, a, b);
        AggregateIsFold(LastFor(metrics, field), Numbers(a, field));
        AggregateIsFold(LastFor(metrics, field), Numbers(b, field));
      }
    }
  }

  /** The second pass groups the summaries exactly as the coarse keys group the rows. */
  lemma SecondPassKeys(rows: seq<Row>, groupField: string, metrics: seq<Metric>, g: DateGrouping, host: Host,
                       h: string -> string)
    requires g != Hour && Rollable(metrics, groupField)
    requires forall k :: h(k) == GroupKey(k, Some(g), host)
    requires forall i :: 0 <= i < |rows| ==> KeyRollsUp(TextOf(rows[i], groupField), g, host)
    ensures var fine, mid := Keyed(rows, groupField, Some(Day), host),
            Aggregate(rows, groupField, metrics, Some(Day), host);
            && |mid| == |G.FirstSeen(G.KeysOf(fine))|
            && Keyed(mid, groupField, Some(g), host) == Summaries(mid, G.FirstSeen(G.KeysOf(fine)), h)
            && Keyed(rows, groupField, Some(g), host) == G.Rekeyed(fine, h)
            && G.FirstSeen(G.KeysOf(Summaries(mid, G.FirstSeen(G.KeysOf(fine)), h))) ==
                G.FirstSeen(G.KeysOf(G.Rekeyed(fine, h)))
  {
    var mid := Aggregate(rows, groupField, metrics, Some(Day), host);
    var fine, coarse := Keyed(rows, groupField, Some(Day), host), Keyed(rows, groupField, Some(g), host);
    var days := G.FirstSeen(G.KeysOf(fine));
    FirstPassKeys(rows, groupField, metrics, Some(Day), host);
    forall i | 0 <= i < |rows| ensures coarse[i] == G.Rekeyed(fine, h)[i] {
      DayKeyRollsUpIff(TextOf(rows[i], groupField), g, host);
    }
    assert coarse == G.Rekeyed(fine, h);
    assert G.KeysOf(coarse) == Map(h, G.KeysOf(fine)) && G.KeysOf(Summaries(mid, days, h)) == Map(h, days);
    G.CoarserOrder(G.KeysOf(fine), h);
  }

  /** One coarse group has the same result row either way. */
  lemma SameGroup(rows: seq<Row>, groupField: string, metrics: seq<Metric>, host: Host, h: string -> string, kk: string)
    requires Rollable(metrics, groupField)
    requires var fine, mid := Keyed(rows, groupField, Some(Day), host),
            Aggregate(rows, groupField, metrics, Some(Day), host);
             && |mid| == |G.FirstSeen(G.KeysOf(fine))|
             && G.Bucket(Summaries(mid, G.FirstSeen(G.KeysOf(fine)), h), kk) != []
             && G.Bucket(G.Rekeyed(fine, h), kk) != []
    ensures var fine, mid := Keyed(rows, groupField, Some(Day), host),
            Aggregate(rows, groupField, metrics, Some(Day), host);
            GroupResult(groupField, kk, metrics, G.Bucket(Summaries(mid, G.FirstSeen(G.KeysOf(fine)), h), kk), host) ==
            GroupResult(groupField, kk, metrics, G.Bucket(G.Rekeyed(fine, h), kk), host)
  {
    var fine, mid := Keyed(rows, groupField, Some(Day), host), Aggregate(rows, groupField, metrics, Some(Day), host);
    var a, b := G.Bucket(Summaries(mid, G.FirstSeen(G.KeysOf(fine)), h), kk), G.Bucket(G.Rekeyed(fine, h), kk);
    forall field | Measures(metrics, field) ensures SameFold(metrics, field, a, b) {
      LastRolls(metrics, groupField, field);
      FirstPassSummarises(rows, groupField, metrics, Some(Day), host, field);
      GroupRollsUp(mid, fine, field, OpOf(LastFor(metrics, field)), h, kk);
    }
    SameResult(groupField, kk, metrics, a, b, host);
  }

  /** Aggregating by day and then by a coarser size gives the same rows as aggregating directly. */
  predicate RollsUpDirectly(rows: seq<Row>, groupField: string, metrics: seq<Metric>, g: DateGrouping, host: Host) {
    Aggregate(Aggregate(rows, groupField, metrics, Some(Day), host), groupField, metrics, Some(g), host)
    == Aggregate(rows, groupField, metrics, Some(g), host)
  }

  /** Roll-up: for sums, minima and maxima, aggregating by day and then by week, month or year gives
      the same groups, in the same order, with the same values, as aggregating directly; rows whose
      key is empty or no date included. */
  lemma DayThenCoarser(rows: seq<Row>, groupField: string, metrics: seq<Metric>, g: DateGrouping, host: Host)
    requires g != Hour
    requires forall i :: 0 <= i < |metrics| ==> RollsUp(metrics[i].aggregation) && metrics[i].field != groupField
    requires forall i :: 0 <= i < |rows| ==> KeyRollsUp(TextOf(rows[i], groupField), g, host)
    ensures RollsUpDirectly(rows, groupField, metrics, g, host)
  {
    if metrics != [] {
      assert metrics[0].aggregation != NoAgg;
      var h := (k: string) => GroupKey(k, Some(g), host);
      SecondPassKeys(rows, groupField, metrics, g, host, h);
      var fine, mid := Keyed(rows, groupField, Some(Day), host), Aggregate(rows, groupField, metrics, Some(Day), host);
      var second, coarse := Summaries(mid, G.FirstSeen(G.KeysOf(fine)), h), G.Rekeyed(fine, h);
      OrderIsCovered(second);
      OrderIsCovered(coarse);
      var order := G.FirstSeen(G.KeysOf(coarse));
      forall i | 0 <= i < |order|
        ensures GroupResults(second, order, groupField, metrics, host)[i] ==
                GroupResults(coarse, order, groupField, metrics, host)[i]
      {
        SameGroup(rows, groupField, metrics, host, h, order[i]);
      }
    }
  }

  /** A table of one row has one group, labelled with that row's key. */
  lemma OneRowKey(row: Row, groupField: string, metrics: seq<Metric>, grouping: Option<DateGrouping>, host: Host)
    requires Rollable(metrics, groupField)
    ensures var result := Aggregate([row], groupField, metrics, grouping, host);
            |result| == 1 && TextOf(result[0], groupField) == GroupKey(TextOf(row, groupField), grouping, host)
  {
    FirstPassKeys([row], groupField, metrics, grouping, host);
    var es := Keyed([row], groupField, grouping, host);
    assert G.KeysOf(es) == [es[0].key] && [es[0].key][..0] == [];
    assert G.FirstSeen(G.KeysOf(es)) == [es[0].key];
  }

  /** The rows' keys are among these texts. */
  predicate KeysAmong(rows: seq<Row>, groupField: string, texts: seq<string>) {
    forall i :: 0 <= i < |rows| ==> TextOf(rows[i], groupField) in texts
  }

  /** Roll-up holds for every table with these key texts if and only if the runtime reads the day key of
      each of them back into the same bucket. */
  lemma DayThenCoarserIff(texts: seq<string>, groupField: string, metrics: seq<Metric>, g: DateGrouping, host: Host)
    requires g != Hour && Rollable(metrics, groupField)
    ensures (forall rows :: KeysAmong(rows, groupField, texts) ==> RollsUpDirectly(rows, groupField, metrics, g, host))
       <==> forall i :: 0 <= i < |texts| ==> KeyRollsUp(texts[i], g, host)
  {
    if forall rows :: KeysAmong(rows, groupField, texts) ==> RollsUpDirectly(rows, groupField, metrics, g, host) {
      forall i | 0 <= i < |texts| ensures KeyRollsUp(texts[i], g, host) {
        var row: Row := map[groupField := Value(texts[i], None)];
        assert KeysAmong([row], groupField, texts) && RollsUpDirectly([row], groupField, metrics, g, host);
        OneRowRollsUp(row, groupField, metrics, g, host);
      }
    }
    if forall i :: 0 <= i < |texts| ==> KeyRollsUp(texts[i], g, host) {
      forall rows | KeysAmong(rows, groupField, texts) ensures RollsUpDirectly(rows, groupField, metrics, g, host) {
        DayThenCoarser(rows, groupField, metrics, g, host);
      }
    }
  }

  lemma OneRowRollsUp(row: Row, groupField: string, metrics: seq<Metric>, g: DateGrouping, host: Host)
    requires g != Hour && Rollable(metrics, groupField) && RollsUpDirectly([row], groupField, metrics, g, host)
    ensures KeyRollsUp(TextOf(row, groupField), g, host)
  {
    var mid := Aggregate([row], groupField, metrics, Some(Day), host);
    OneRowKey(row, groupField, metrics, Some(Day), host);
    OneRowKey(row, groupField, metrics, Some(g), host);
    assert mid == [mid[0]];
    OneRowKey(mid[0], groupField, metrics, Some(g), host);
    DayKeyRollsUpIff(TextOf(row, groupField), g, host);
  }

  // ---------- conservation ----------

  lemma {:induction false} OneBucket(es: seq<G.Entry<string, Row>>, k: string)
    requires forall i :: 0 <= i < |es| ==> es[i].key == k
    ensures G.Bucket(es, k) == G.Items(es)
  {
    if es != [] {
      OneBucket(es[..|es| - 1], k);
      assert G.Items(es) == G.Items(es[..|es| - 1]) + [es[|es| - 1].item];
    }
  }

  /** Nothing is lost or counted twice: the sum of the group sums is the sum of the column, the least
      group minimum its minimum and the greatest group maximum its maximum, by any date grouping. */
  lemma GroupsConserve(rows: seq<Row>, groupField: string, metrics: seq<Metric>, grouping: Option<DateGrouping>,
                       host: Host, field: string)
    requires Measures(metrics, field) && RollsUp(LastFor(metrics, field))
    ensures G.Fold(OpOf(LastFor(metrics, field)), Numbers(Aggregate(rows, groupField, metrics, grouping, host), field))
         == G.Fold(OpOf(LastFor(metrics, field)), Numbers(rows, field))
  {
    var es := Keyed(rows, groupField, grouping, host);
    var mid := Aggregate(rows, groupField, metrics, grouping, host);
    var h := (k: string) => "";
    FirstPassSummarises(rows, groupField, metrics, grouping, host, field);
    GroupRollsUp(mid, es, field, OpOf(LastFor(metrics, field)), h, "");
    OneBucket(Summaries(mid, G.FirstSeen(G.KeysOf(es)), h), "");
    OneBucket(G.Rekeyed(es, h), "");
    assert G.Items(Summaries(mid, G.FirstSeen(G.KeysOf(es)), h)) == mid;
    assert G.Items(G.Rekeyed(es, h)) == rows;
  }

  /** The sizes of the buckets. */
  function Sizes(es: seq<G.Entry<string, Row>>, ks: seq<string>): (r: seq<real>)
    ensures |r| == |ks| && forall i :: 0 <= i < |ks| ==> r[i] == |G.Bucket(es, ks[i])| as real
  {
    seq(|ks|, i requires 0 <= i < |ks| => |G.Bucket(es, ks[i])| as real)
  }

  lemma {:induction false} SizesTotal(es: seq<G.Entry<string, Row>>, ks: seq<string>)
    ensures G.Total(Sizes(es, ks)) == |Flatten(G.Buckets(es, ks))| as real
  {
    if ks == [] {
      assert G.Buckets(es, ks) == [];
    } else {
      var front, k := ks[..|ks| - 1], ks[|ks| - 1];
      SizesTotal(es, front);
      assert Sizes(es, ks)[..|ks| - 1] == Sizes(es, front);
      assert G.Buckets(es, ks) == G.Buckets(es, front) + [G.Bucket(es, k)];
      FlattenAppend(G.Buckets(es, front), G.Bucket(es, k));
    }
  }

  /** The groups partition the rows. */
  lemma GroupsPartition(es: seq<G.Entry<string, Row>>)
    ensures multiset(Flatten(G.Buckets(es, G.FirstSeen(G.KeysOf(es))))) == multiset(G.Items(es))
  {
    var order := G.FirstSeen(G.KeysOf(es));
    G.FirstSeenIsKeySet(G.KeysOf(es));
    forall i | 0 <= i < |es| ensures es[i].key in order {
      assert G.KeysOf(es)[i] in G.KeysOf(es);
    }
    G.BucketsPartition(es, order);
  }

  /** A group's count is its size. */
  lemma GroupCount(es: seq<G.Entry<string, Row>>, order: seq<string>, groupField: string, metrics: seq<Metric>,
                   host: Host,
                   field: string, i: nat)
    requires Covered(es, order) && i < |order| && Measures(metrics, field) && LastFor(metrics, field) == CountAgg
    ensures NumberOf(GroupResults(es, order, groupField, metrics, host)[i], field) == |G.Bucket(es, order[i])| as real
  {
    AssignedField(metrics, G.Bucket(es, order[i]), map[groupField := TextCell(order[i], host)], host, field);
  }

  /** Counting: the groups partition the rows, so the counts add up to their number. */
  lemma CountsAddUp(rows: seq<Row>, groupField: string, metrics: seq<Metric>, grouping: Option<DateGrouping>,
                    host: Host,
                    field: string)
    requires Measures(metrics, field) && LastFor(metrics, field) == CountAgg
    ensures var es := Keyed(rows, groupField, grouping, host);
            multiset(Flatten(G.Buckets(es, G.FirstSeen(G.KeysOf(es))))) == multiset(rows)
    ensures G.Total(Numbers(Aggregate(rows, groupField, metrics, grouping, host), field)) == |rows| as real
  {
    var es := Keyed(rows, groupField, grouping, host);
    var order := G.FirstSeen(G.KeysOf(es));
    var result := Aggregate(rows, groupField, metrics, grouping, host);
    LastIsListed(metrics, field);
    OrderIsCovered(es);
    assert result == GroupResults(es, order, groupField, metrics, host);
    GroupsPartition(es);
    assert G.Items(es) == rows;
    SameSize(Flatten(G.Buckets(es, order)), rows);
    SizesTotal(es, order);
    forall i | 0 <= i < |order| ensures Numbers(result, field)[i] == Sizes(es, order)[i] {
      GroupCount(es, order, groupField, metrics, host, field, i);
    }
    assert Numbers(result, field) == Sizes(es, order);
  }

  lemma SameSize(a: seq<Row>, b: seq<Row>)
    requires multiset(a) == multiset(b)
    ensures |a| == |b|
  {
    assert |multiset(a)| == |a| && |multiset(b)| == |b|;
  }

  /** What each aggregation means of the values of a group; none at all shows the first of them. */
  predicate Figure(n: real, a: Aggregation, values: seq<real>) {
    match a
    case SumAgg => n == G.Total(values)
    case AvgAgg => n * |values| as real == G.Total(values)
    case CountAgg => n == |values| as real
    case MinAgg => n in values && forall i :: 0 <= i < |values| ==> n <= values[i]
    case MaxAgg => n in values && forall i :: 0 <= i < |values| ==> n >= values[i]
    case NoAgg => values != [] && n == values[0]
  }

  lemma ValuesFigure(a: Aggregation, values: seq<real>)
    requires values != []
    ensures Figure(AggregateValues(a, values), a, values)
  {
    G.SumIsTotal(values);
    match a {
      case AvgAgg => Divided(G.Total(values), |values|);
      case MinAgg => G.ExtremeBounds(G.Least, values);
      case MaxAgg => G.ExtremeBounds(G.Greatest, values);
      case _ =>
    }
  }

  lemma Divided(x: real, n: nat)
    requires n > 0
    ensures x / n as real * n as real == x
  {}

  /** Every figure of every group: of the aggregation listed last for the field, over the group's values. */
  lemma GroupFigures(rows: seq<Row>, groupField: string, metrics: seq<Metric>, grouping: Option<DateGrouping>,
                     host: Host, field: string, i: nat)
    requires Measures(metrics, field) && !NothingToAggregate(metrics)
    requires i < |G.FirstSeen(G.KeysOf(Keyed(rows, groupField, grouping, host)))|
    ensures var es := Keyed(rows, groupField, grouping, host);
            var result := Aggregate(rows, groupField, metrics, grouping, host);
            && |result| == |G.FirstSeen(G.KeysOf(es))|
            && Figure(NumberOf(result[i], field), LastFor(metrics, field),
                      Numbers(G.Bucket(es, G.FirstSeen(G.KeysOf(es))[i]), field))
  {
    var es := Keyed(rows, groupField, grouping, host);
    var order := G.FirstSeen(G.KeysOf(es));
    OrderIsCovered(es);
    var group := G.Bucket(es, order[i]);
    AssignedField(metrics, group, map[groupField := TextCell(order[i], host)], host, field);
    ValuesFigure(LastFor(metrics, field), Numbers(group, field));
  }

  /** A group's minimum and maximum belong to the group and bound it. */
  lemma GroupExtremes(rows: seq<Row>, groupField: string, metrics: seq<Metric>, grouping: Option<DateGrouping>,
                      host: Host, field: string, i: nat)
    requires Measures(metrics, field) && (LastFor(metrics, field) == MinAgg || LastFor(metrics, field) == MaxAgg)
    requires i < |G.FirstSeen(G.KeysOf(Keyed(rows, groupField, grouping, host)))|
    requires i < |Aggregate(rows, groupField, metrics, grouping, host)|
    ensures var es := Keyed(rows, groupField, grouping, host);
            var values := Numbers(G.Bucket(es, G.FirstSeen(G.KeysOf(es))[i]), field);
            var n := NumberOf(Aggregate(rows, groupField, metrics, grouping, host)[i], field);
            n in values && forall v :: v in values ==> if LastFor(metrics, field) == MinAgg then n <= v else n >= v
  {
    var es := Keyed(rows, groupField, grouping, host);
    FirstPassSummarises(rows, groupField, metrics, grouping, host, field);
    OrderIsCovered(es);
    G.ExtremeBounds(OpOf(LastFor(metrics, field)), Numbers(G.Bucket(es, G.FirstSeen(G.KeysOf(es))[i]), field));
  }

  // ---------- where roll-up stops ----------

  /** A runtime that reads "x" as this moment, and this text too if told so. */
  lemma HostReading(m: ValidMoment, day: string, knows: bool) returns (host: Host)
    requires day != "x"
    ensures ReadDate("x", host) == Some(m) && host.parse(day) == if knows then Some(m) else None
  {
    host := Host(_ => "", _ => None, (s: string) => if s == "x" || (knows && s == day) then Some(m) else None);
  }

  /** What a runtime makes of a five-digit year's day key is open: one that reads no date in it leaves
      the day a group of its own, one that reads it as that date rolls it up. */
  lemma FiveDigitYearBreaksRollUp(m: ValidMoment)
    requires m.date.year >= 10000
    ensures exists host: Host, text :: ReadDate(text, host) == Some(m) &&
              GroupKey(GroupKey(text, Some(Day), host), Some(Year), host) != GroupKey(text, Some(Year), host)
    ensures exists host: Host, text :: ReadDate(text, host) == Some(m) &&
              GroupKey(GroupKey(text, Some(Day), host), Some(Year), host) == GroupKey(text, Some(Year), host)
  {
    Pad2ReadsBack(m.date.day);
    assert |DayText(m.date)| > 1;
    var silent := HostReading(m, DayText(m.date), false);
    var knowing := HostReading(m, DayText(m.date), true);
    LongYearRollsUpIff("x", m, Year, silent);
    LongYearRollsUpIff("x", m, Year, knowing);
  }
}
