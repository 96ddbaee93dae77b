/** Chart data: group-by with calendar buckets, and its roll-up. */
module Charts {
  import opened Text
  import opened Calendar
  import opened Grouping

  type ValidMoment = m: Moment | m.Valid() witness Moment(Date(1970, 1, 1), 0)

  /** A field of a result row; `text` is what String() gives, `number` what Number() gives (none for NaN). */
  datatype Cell = Undefined | Null | Value(text: string, number: Option<real>)

  type Row = map<string, Cell>

  /** What the host supplies: spelling a number, reading a text as a number, and reading any text
      other than a calendar date as a moment in local time. */
  datatype Host = Host(spell: real -> string, read: string -> Option<real>, parse: string -> Option<ValidMoment>)

  function FieldOf(row: Row, field: string): Cell { if field in row then row[field] else Undefined }

  /** `String(row[field] ?? "")` */
  function TextOf(row: Row, field: string): string {
    match FieldOf(row, field) case Value(text, _) => text case _ => ""
  }

  /** `Number(row[field]) || 0` */
  function NumberOf(row: Row, field: string): real {
    match FieldOf(row, field) case Value(_, Some(n)) => n case _ => 0.0
  }

  function NumberCell(n: real, host: Host): Cell { Value(host.spell(n), Some(n)) }

  function TextCell(s: string, host: Host): Cell { Value(s, host.read(s)) }

  // ---------- date keys ----------

  /** `^\d{4}-\d{2}-\d{2}$` */
  predicate IsIsoDay(s: string) {
    |s| == 10 && AllDigits(s[..4]) && s[4] == '-' && AllDigits(s[5..7]) && s[7] == '-' && AllDigits(s[8..])
  }

  function IsoDate(s: string): Date
    requires IsIsoDay(s)
  {
    Date(NatValue(s[..4]), NatValue(s[5..7]), NatValue(s[8..]))
  }

  /** A bare calendar date is read as local midnight; any other text is read by the host. */
  function ReadDate(s: string, host: Host): Option<ValidMoment> {
    if IsIsoDay(s) && IsoDate(s).Valid() then Some(Moment(IsoDate(s), 0)) else host.parse(s)
  }

  /** `groupByDate` */
  function GroupByDate(s: string, g: DateGrouping, host: Host): string {
    match ReadDate(s, host)
    case None => s
    case Some(m) => BucketKey(m, g)
  }

  /** The key of a row's text: an empty text is not a date. */
  function GroupKey(text: string, grouping: Option<DateGrouping>, host: Host): string {
    if grouping.Some? && text != "" then GroupByDate(text, grouping.value, host) else text
  }

  lemma DayTextShape(d: Date)
    requires d.Valid() && 1000 <= d.year <= 9999
    ensures IsIsoDay(DayText(d)) && IsoDate(DayText(d)) == d
  {
    var s := DayText(d);
    NatTextLength(d.year);
    NatTextReadsBack(d.year);
    Pad2ReadsBack(d.month);
    Pad2ReadsBack(d.day);
    assert s[..4] == NatText(d.year) && s[4] == '-';
    assert s[5..7] == Pad2(d.month) && s[7] == '-';
    assert s[8..] == Pad2(d.day);
  }

  /** The labels of a bare calendar date are its own digits, at local midnight. */
  lemma IsoDayLabels(s: string, host: Host)
    requires IsIsoDay(s) && IsoDate(s).Valid() && s[0] != '0'
    ensures GroupByDate(s, Day, host) == s && GroupByDate(s, Hour, host) == s + " 00:00"
    ensures GroupByDate(s, Month, host) == s[..7] && GroupByDate(s, Year, host) == s[..4]
  {
    var y, m, d := s[..4], s[5..7], s[8..];
    assert y[0] == s[0];
    DigitsAreText(y);
    Pad2OfDigits(m);
    Pad2OfDigits(d);
    assert s[..7] == y + "-" + m && s == s[..7] + "-" + d;
    assert Pad2(0) == "00";
    assert s + " 00:00" == s + " " + "00" + ":00";
  }

  /** A text that reads as a date of a four-digit year, or does not read as a date. */
  predicate FourDigitYear(text: string, host: Host) {
    match ReadDate(text, host) case None => true case Some(m) => 1000 <= m.date.year <= 9999
  }

  /** The runtime reads the day key of a date back into the same bucket. */
  predicate KeyRollsUp(text: string, g: DateGrouping, host: Host) {
    text == "" ||
    match ReadDate(text, host)
    case None => true
    case Some(m) =>
      match ReadDate(DayText(m.date), host)
      case None => g == Day
      case Some(n) => SameBucket(n, m, g)
  }

  /** A day key is the label of no other size. */
  lemma DayTextIsNoOther(m: ValidMoment, g: DateGrouping)
    requires g != Hour && DayText(m.date) == BucketKey(m, g)
    ensures g == Day
  {
    Pad2ReadsBack(m.date.month);
    Pad2ReadsBack(m.date.day);
    assert DayText(m.date)[0] == YearText(m.date)[0] != 'W';
  }

  /** Bucketing a day key gives the bucket of the text it came from if and only if the text is empty or
      no date, or the runtime reads the date's day key back into that bucket. */
  lemma DayKeyRollsUpIff(text: string, g: DateGrouping, host: Host)
    requires g != Hour
    ensures GroupKey(GroupKey(text, Some(Day), host), Some(g), host) == GroupKey(text, Some(g), host)
       <==> KeyRollsUp(text, g, host)
  {
    if text != "" && ReadDate(text, host).Some? {
      var m := ReadDate(text, host).value;
      var day := DayText(m.date);
      assert GroupKey(text, Some(Day), host) == day && GroupKey(text, Some(g), host) == BucketKey(m, g);
      Pad2ReadsBack(m.date.day);
      assert day != "";
      match ReadDate(day, host)
      case None =>
        assert GroupKey(day, Some(g), host) == day;
        if day == BucketKey(m, g) { DayTextIsNoOther(m, g); }
      case Some(n) =>
        assert GroupKey(day, Some(g), host) == BucketKey(n, g);
        KeysAreExact(n, m, g);
    }
  }

  /** Four digits are enough: such a day key is a calendar date. */
  lemma FourDigitYearRollsUp(text: string, g: DateGrouping, host: Host)
    requires g != Hour && FourDigitYear(text, host)
    ensures KeyRollsUp(text, g, host)
  {
    match ReadDate(text, host)
    case None =>
    case Some(m) => DayTextShape(m.date);
  }

  /** So a bucket by day falls into the same week, month or year as the moment it came from. */
  lemma DayKeyKeepsBucket(text: string, g: DateGrouping, host: Host)
    requires g != Hour && FourDigitYear(text, host)
    ensures GroupKey(GroupKey(text, Some(Day), host), Some(g), host) == GroupKey(text, Some(g), host)
  {
    FourDigitYearRollsUp(text, g, host);
    DayKeyRollsUpIff(text, g, host);
  }

  lemma {:induction false} NatTextAtLeast(n: nat)
    requires n >= 10000
    ensures |NatText(n)| >= 5
  {
    assert |NatText(n / 10)| >= 4 by {
      if n / 10 >= 10000 { NatTextAtLeast(n / 10); } else { NatTextLength(n / 10); }
    }
  }

  lemma LongDayText(d: Date)
    requires d.Valid() && d.year >= 10000
    ensures |DayText(d)| > 10
  {
    NatTextAtLeast(d.year);
    Pad2ReadsBack(d.month);
    Pad2ReadsBack(d.day);
  }

  /** From the year 10000 on a day key is no calendar date of four digits, and reading it is up to the
      runtime: the date rolls up if and only if the runtime reads its key into the same bucket. */
  lemma LongYearRollsUpIff(text: string, m: ValidMoment, g: DateGrouping, host: Host)
    requires g != Hour && text != "" && ReadDate(text, host) == Some(m) && m.date.year >= 10000
    ensures GroupKey(GroupKey(text, Some(Day), host), Some(g), host) == GroupKey(text, Some(g), host)
       <==> match host.parse(DayText(m.date)) { case None => g == Day case Some(n) => SameBucket(n, m, g) }
  {
    LongDayText(m.date);
    DayKeyRollsUpIff(text, g, host);
  }

  // ---------- aggregation ----------

  datatype Aggregation = NoAgg | SumAgg | AvgAgg | CountAgg | MinAgg | MaxAgg

  datatype Metric = Metric(field: string, aggregation: Aggregation)

  function Numbers(rows: seq<Row>, field: string): (r: seq<real>)
    ensures |r| == |rows| && forall i :: 0 <= i < |rows| ==> r[i] == NumberOf(rows[i], field)
  {
    seq(|rows|, i requires 0 <= i < |rows| => NumberOf(rows[i], field))
  }

  function Result(op: Op, xs: seq<real>): real {
    match Fold(op, xs) case None => 0.0 case Some(x) => x
  }

  function AggregateValues(aggregation: Aggregation, values: seq<real>): real
    requires values != []
  {
    match aggregation
    case SumAgg => Result(Sum, values)
    case AvgAgg => Result(Sum, values) / |values| as real
    case CountAgg => |values| as real
    case MinAgg => Result(Least, values)
    case MaxAgg => Result(Greatest, values)
    case NoAgg => values[0]
  }

  /** The result fields of one group, assigned metric after metric. */
  function Assigned(metrics: seq<Metric>, rows: seq<Row>, base: Row, host: Host): Row
    requires rows != []
  {
    if metrics == [] then base
    else
      var m := metrics[|metrics| - 1];
      Assigned(metrics[..|metrics| - 1], rows, base, host)
        [m.field := NumberCell(AggregateValues(m.aggregation, Numbers(rows, m.field)), host)]
  }

  function GroupResult(groupField: string, key: string, metrics: seq<Metric>, rows: seq<Row>, host: Host): Row
    requires rows != []
  {
    Assigned(metrics, rows, map[groupField := TextCell(key, host)], host)
  }

  function Keyed(rows: seq<Row>, groupField: string, grouping: Option<DateGrouping>,
                 host: Host): (r: seq<Entry<string, Row>>)
    ensures |r| == |rows|
    ensures forall i :: 0 <= i < |rows| ==>
            r[i] == Entry(GroupKey(TextOf(rows[i], groupField), grouping, host), rows[i])
  {
    seq(|rows|, i requires 0 <= i < |rows| => Entry(GroupKey(TextOf(rows[i], groupField), grouping, host), rows[i]))
  }

  ghost predicate Covered(es: seq<Entry<string, Row>>, order: seq<string>) {
    forall i :: 0 <= i < |order| ==> Bucket(es, order[i]) != []
  }

  lemma OrderIsCovered(es: seq<Entry<string, Row>>)
    ensures Covered(es, FirstSeen(KeysOf(es)))
  {
    var order := FirstSeen(KeysOf(es));
    FirstSeenIsKeySet(KeysOf(es));
    forall i | 0 <= i < |order| ensures Bucket(es, order[i]) != [] {
      assert order[i] in order;
      var j :| 0 <= j < |es| && KeysOf(es)[j] == order[i];
      NonEmptyBucket(es, j);
    }
  }

  function GroupResults(es: seq<Entry<string, Row>>, order: seq<string>, groupField: string, metrics: seq<Metric>,
                        host: Host): (r: seq<Row>)
    requires Covered(es, order)
    ensures |r| == |order|
    ensures forall i :: 0 <= i < |order| ==>
            r[i] == GroupResult(groupField, order[i], metrics, Bucket(es, order[i]), host)
  {
    seq(|order|, i requires 0 <= i < |order| => GroupResult(groupField, order[i], metrics, Bucket(es, order[i]), host))
  }

  predicate NothingToAggregate(metrics: seq<Metric>) {
    forall i :: 0 <= i < |metrics| ==> metrics[i].aggregation == NoAgg
  }

  /** The declarative group-by that `aggregateData` computes. */
  function Aggregate(rows: seq<Row>, groupField: string, metrics: seq<Metric>, grouping: Option<DateGrouping>,
                     host: Host): seq<Row> {
    if NothingToAggregate(metrics) then rows
    else
      var es := Keyed(rows, groupField, grouping, host);
      OrderIsCovered(es);
      GroupResults(es, FirstSeen(KeysOf(es)), groupField, metrics, host)
  }

  method AggregateData(rows: seq<Row>, groupField: string, metrics: seq<Metric>, grouping: Option<DateGrouping>,
                       host: Host)
    returns (results: seq<Row>)
    ensures results == Aggregate(rows, groupField, metrics, grouping, host)
  {
    if NothingToAggregate(metrics) {
      return rows;
    }
    var es := Keyed(rows, groupField, grouping, host);
    OrderIsCovered(es);
    var order, groups := GroupEntries(es);
    results := [];
    for i := 0 to |order|
      invariant |results| == i
      invariant forall j :: 0 <= j < i ==>
              results[j] == GroupResult(groupField, order[j], metrics, Bucket(es, order[j]), host)
    {
      var result := AssignMetrics(groupField, order[i], metrics, groups[order[i]], host);
      results := results + [result];
    }
  }

  method AssignMetrics(groupField: string, key: string, metrics: seq<Metric>, rows: seq<Row>,
                       host: Host) returns (result: Row)
    requires rows != []
    ensures result == GroupResult(groupField, key, metrics, rows, host)
  {
    ghost var base: Row := map[groupField := TextCell(key, host)];
    result := map[groupField := TextCell(key, host)];
    for i := 0 to |metrics|
      invariant result == Assigned(metrics[..i], rows, base, host)
    {
      var m := metrics[i];
      assert metrics[..i + 1][..i] == metrics[..i];
      var values := Numbers(rows, m.field);
      result := result[m.field := NumberCell(AggregateValues(m.aggregation, values), host)];
    }
    assert metrics[..|metrics|] == metrics;
  }
}
