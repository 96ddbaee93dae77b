/** The bins of a histogram, in exact arithmetic. */
module Histogram {

  datatype Bin = Bin(count: nat, min: real, max: real)

  function Least(values: seq<real>): (m: real)
    requires values != []
    ensures m in values && forall i :: 0 <= i < |values| ==> m <= values[i]
  {
    if |values| == 1 then values[0]
    else
      var m := Least(values[1..]);
      if values[0] < m then values[0] else m
  }

  function Greatest(values: seq<real>): (m: real)
    requires values != []
    ensures m in values && forall i :: 0 <= i < |values| ==> values[i] <= m
  {
    if |values| == 1 then values[0]
    else
      var m := Greatest(values[1..]);
      if values[0] > m then values[0] else m
  }

  /** A value lies in bin `i` of `bins`: closed below, open above, the last bin closed on both sides. */
  predicate Holds(bins: seq<Bin>, i: nat, v: real)
    requires i < |bins|
  {
    bins[i].min <= v && (v < bins[i].max || (i == |bins| - 1 && v == bins[i].max))
  }

  /** How many of the values lie in bin `i`. */
  function Members(values: seq<real>, bins: seq<Bin>, i: nat): nat
    requires i < |bins|
  {
    if values == [] then 0
    else Members(values[..|values| - 1], bins, i) + if Holds(bins, i, values[|values| - 1]) then 1 else 0
  }

  /** The bins lie edge to edge from `lo` to `hi`, each of positive width. */
  predicate Tile(bins: seq<Bin>, lo: real, hi: real) {
    && bins != [] && bins[0].min == lo && bins[|bins| - 1].max == hi
    && (forall i :: 0 <= i < |bins| ==> bins[i].min < bins[i].max)
    && (forall i :: 0 < i < |bins| ==> bins[i - 1].max == bins[i].min)
  }

  function Counted(bins: seq<Bin>): nat {
    if bins == [] then 0 else Counted(bins[..|bins| - 1]) + bins[|bins| - 1].count
  }

  // ---------- placing one value ----------

  /** `floor((v - min) / width)`, with the greatest value pulled into the last bin. */
  function Place(v: real, lo: real, width: real, buckets: nat): int
    requires width > 0.0
  {
    var idx := ((v - lo) / width).Floor;
    if idx >= buckets then buckets - 1 else idx
  }

  lemma MulOrder(a: real, b: real, w: real)
    requires a <= b && w >= 0.0
    ensures a * w <= b * w
  {}

  lemma MulStrict(a: real, b: real, w: real)
    requires a < b && w > 0.0
    ensures a * w < b * w
  {}

  /** The lower edge of bin `i`, which is the upper edge of the bin before it. */
  function Edge(lo: real, width: real, i: nat): real { lo + i as real * width }

  function Edges(lo: real, width: real, buckets: nat): (r: seq<Bin>)
    ensures |r| == buckets
    ensures forall i :: 0 <= i < buckets ==> r[i] == Bin(0, Edge(lo, width, i), Edge(lo, width, i + 1))
  {
    seq(buckets, i requires 0 <= i < buckets => Bin(0, Edge(lo, width, i), Edge(lo, width, i + 1)))
  }

  lemma WidthFits(lo: real, hi: real, buckets: nat)
    requires buckets >= 1 && lo < hi
    ensures var width := (hi - lo) / buckets as real;
            width > 0.0 && Edge(lo, width, buckets) == hi && Edge(lo, width, 0) == lo
  {
    var n := buckets as real;
    assert n * ((hi - lo) / n) == hi - lo;
  }

  lemma EdgesApart(lo: real, width: real, i: nat)
    ensures Edge(lo, width, i + 1) - Edge(lo, width, i) == width
  {}

  lemma EdgeGrows(lo: real, width: real, i: nat)
    requires width > 0.0
    ensures Edge(lo, width, i) < Edge(lo, width, i + 1)
  {
    MulStrict(i as real, (i + 1) as real, width);
  }

  lemma Between(lo: real, width: real, v: real, q: real, i: nat)
    requires width > 0.0 && q * width == v - lo && i as real <= q < (i + 1) as real
    ensures Edge(lo, width, i) <= v < Edge(lo, width, i + 1)
  {
    MulOrder(i as real, q, width);
    MulStrict(q, (i + 1) as real, width);
  }

  lemma Steps(v: real, lo: real, width: real) returns (q: real)
    requires width > 0.0 && lo <= v
    ensures q == (v - lo) / width && q * width == v - lo && q >= 0.0
  {
    q := (v - lo) / width;
    if q < 0.0 { MulStrict(q, 0.0, width); }
  }

  /** Only the greatest value is as far up as the upper edge of the last bin. */
  lemma AtTop(v: real, lo: real, hi: real, width: real, q: real, n: nat)
    requires n >= 1 && width > 0.0 && q * width == v - lo && n as real <= q && v <= hi && Edge(lo, width, n) == hi
    ensures v == hi && Edge(lo, width, n - 1) <= v
  {
    MulOrder(n as real, q, width);
    MulOrder((n - 1) as real, n as real, width);
  }

  /** The index stays in range, and its bin's edges enclose the value. */
  lemma PlaceInRange(v: real, lo: real, hi: real, width: real, buckets: nat)
    requires buckets >= 1 && lo < hi && lo <= v <= hi && width > 0.0 && Edge(lo, width, buckets) == hi
    ensures var i := Place(v, lo, width, buckets);
            0 <= i < buckets && Edge(lo, width, i) <= v && (v < Edge(lo, width, i + 1) || (i == buckets - 1 && v == hi))
  {
    var q := Steps(v, lo, width);
    var f := q.Floor;
    if f >= buckets {
      AtTop(v, lo, hi, width, q, buckets);
    } else {
      Between(lo, width, v, q, f);
    }
  }

  // ---------- the bins ----------

  predicate SameEdges(a: seq<Bin>, b: seq<Bin>) {
    |a| == |b| && forall i :: 0 <= i < |a| ==> a[i].min == b[i].min && a[i].max == b[i].max
  }

  lemma EdgesTile(lo: real, hi: real, width: real, buckets: nat)
    requires buckets >= 1 && width > 0.0 && Edge(lo, width, buckets) == hi && Edge(lo, width, 0) == lo
    ensures Tile(Edges(lo, width, buckets), lo, hi)
  {
    var bins := Edges(lo, width, buckets);
    forall i | 0 <= i < buckets ensures bins[i].min < bins[i].max {
      EdgeGrows(lo, width, i);
    }
  }

  /** The bin `Place` selects is the bin that holds the value. */
  lemma PlacedBinHolds(v: real, lo: real, hi: real, width: real, buckets: nat)
    requires buckets >= 1 && lo < hi && lo <= v <= hi && width > 0.0 && Edge(lo, width, buckets) == hi
    ensures 0 <= Place(v, lo, width, buckets) < buckets
    ensures Holds(Edges(lo, width, buckets), Place(v, lo, width, buckets), v)
  {
    PlaceInRange(v, lo, hi, width, buckets);
  }

  lemma {:induction false} BinsInOrder(bins: seq<Bin>, lo: real, hi: real, i: nat, j: nat)
    requires Tile(bins, lo, hi) && i < j < |bins|
    ensures bins[i].max <= bins[j].min
    decreases j - i
  {
    if i + 1 < j {
      BinsInOrder(bins, lo, hi, i, j - 1);
      assert bins[j - 1].min < bins[j - 1].max && bins[j - 1].max == bins[j].min;
    }
  }

  /** No value lies in two bins. */
  lemma OneBinOnly(bins: seq<Bin>, lo: real, hi: real, i: nat, j: nat, v: real)
    requires Tile(bins, lo, hi) && i < |bins| && j < |bins| && Holds(bins, i, v) && Holds(bins, j, v)
    ensures i == j
  {
    if i < j { BinsInOrder(bins, lo, hi, i, j); }
    if j < i { BinsInOrder(bins, lo, hi, j, i); }
  }

  lemma {:induction false} MembersByEdges(values: seq<real>, a: seq<Bin>, b: seq<Bin>, i: nat)
    requires SameEdges(a, b) && i < |a|
    ensures Members(values, a, i) == Members(values, b, i)
  {
    if values != [] {
      MembersByEdges(values[..|values| - 1], a, b, i);
    }
  }

  lemma {:induction false} CountedUpdate(bins: seq<Bin>, i: nat, b: Bin)
    requires i < |bins| && b.count == bins[i].count + 1
    ensures Counted(bins[i := b]) == Counted(bins) + 1
  {
    var n := |bins| - 1;
    if i < n {
      CountedUpdate(bins[..n], i, b);
      assert bins[i := b][..n] == bins[..n][i := b];
    } else {
      assert bins[i := b][..n] == bins[..n];
    }
  }

  lemma {:induction false} CountedZero(bins: seq<Bin>)
    requires forall i :: 0 <= i < |bins| ==> bins[i].count == 0
    ensures Counted(bins) == 0
  {
    if bins != [] { CountedZero(bins[..|bins| - 1]); }
  }

  lemma OneMoreMember(values: seq<real>, v: real, bins: seq<Bin>, lo: real, hi: real, idx: nat, i: nat)
    requires Tile(bins, lo, hi) && idx < |bins| && Holds(bins, idx, v) && i < |bins|
    ensures Members(values + [v], bins, i) == Members(values, bins, i) + if i == idx then 1 else 0
  {
    assert (values + [v])[..|values|] == values;
    if Holds(bins, i, v) { OneBinOnly(bins, lo, hi, i, idx, v); }
  }

  /** Bins laid out from `lo` to `hi`, in which `Place` finds the bin of every value. */
  ghost predicate LaidOut(edges: seq<Bin>, lo: real, hi: real, width: real) {
    && width > 0.0 && Tile(edges, lo, hi)
    && (forall i :: 0 <= i < |edges| ==> edges[i].count == 0)
    && (forall v :: lo <= v <= hi ==>
          0 <= Place(v, lo, width, |edges|) < |edges| && Holds(edges, Place(v, lo, width, |edges|), v))
  }

  lemma EdgesLaidOut(lo: real, hi: real, buckets: nat)
    requires buckets >= 1 && lo < hi
    ensures LaidOut(Edges(lo, (hi - lo) / buckets as real, buckets), lo, hi, (hi - lo) / buckets as real)
  {
    var width := (hi - lo) / buckets as real;
    WidthFits(lo, hi, buckets);
    EdgesTile(lo, hi, width, buckets);
    var edges := Edges(lo, width, buckets);
    forall v | lo <= v <= hi
      ensures 0 <= Place(v, lo, width, |edges|) < |edges| && Holds(edges, Place(v, lo, width, |edges|), v)
    {
      PlacedBinHolds(v, lo, hi, width, buckets);
    }
  }

  method FindBin(v: real, lo: real, hi: real, width: real, edges: seq<Bin>) returns (idx: nat)
    requires LaidOut(edges, lo, hi, width) && lo <= v <= hi
    ensures idx < |edges| && Holds(edges, idx, v)
  {
    idx := Place(v, lo, width, |edges|);
  }

  lemma MembersStep(values: seq<real>, v: real, edges: seq<Bin>, lo: real, hi: real, idx: nat)
    requires Tile(edges, lo, hi) && idx < |edges| && Holds(edges, idx, v)
    ensures forall i :: 0 <= i < |edges| ==>
              Members(values + [v], edges, i) == Members(values, edges, i) + if i == idx then 1 else 0
  {
    forall i | 0 <= i < |edges|
      ensures Members(values + [v], edges, i) == Members(values, edges, i) + if i == idx then 1 else 0
    {
      OneMoreMember(values, v, edges, lo, hi, idx, i);
    }
  }

  method Increment(bins: array<Bin>, idx: nat)
    requires idx < bins.Length
    modifies bins
    ensures bins[..] == old(bins[..])[idx := old(bins[..])[idx].(count := old(bins[..])[idx].count + 1)]
  {
    bins[idx] := bins[idx].(count := bins[idx].count + 1);
  }

  /** The bins of `edges`, each with the number of values it holds. */
  ghost predicate Tallied(bins: seq<Bin>, values: seq<real>, edges: seq<Bin>) {
    && SameEdges(bins, edges) && Counted(bins) == |values|
    && forall i :: 0 <= i < |bins| ==> bins[i].count == Members(values, edges, i)
  }

  lemma NothingTallied(edges: seq<Bin>)
    requires forall i :: 0 <= i < |edges| ==> edges[i].count == 0
    ensures Tallied(edges, [], edges)
  {
    CountedZero(edges);
  }

  lemma OneMoreTallied(bins: seq<Bin>, values: seq<real>, v: real, edges: seq<Bin>, lo: real, hi: real, idx: nat,
                       more: seq<Bin>, all: seq<real>)
    requires Tallied(bins, values, edges) && Tile(edges, lo, hi) && idx < |bins| && Holds(edges, idx, v)
    requires more == bins[idx := bins[idx].(count := bins[idx].count + 1)] && all == values + [v]
    ensures Tallied(more, all, edges)
  {
    CountedUpdate(bins, idx, bins[idx].(count := bins[idx].count + 1));
    MembersStep(values, v, edges, lo, hi, idx);
  }

  /** The counting loop over bins that are already laid out. */
  method CountValues(values: seq<real>, lo: real, hi: real, width: real, edges: seq<Bin>) returns (result: seq<Bin>)
    requires LaidOut(edges, lo, hi, width)
    requires forall j :: 0 <= j < |values| ==> lo <= values[j] <= hi
    ensures Tallied(result, values, edges)
  {
    var bins := new Bin[|edges|](i requires 0 <= i < |edges| => edges[i]);
    assert bins[..] == edges && values[..0] == [];
    NothingTallied(edges);
    for j := 0 to |values|
      invariant Tallied(bins[..], values[..j], edges)
    {
      var v := values[j];
      var idx := FindBin(v, lo, hi, width, edges);
      assert values[..j + 1] == values[..j] + [v];
      ghost var before := bins[..];
      Increment(bins, idx);
      OneMoreTallied(before, values[..j], v, edges, lo, hi, idx, bins[..], values[..j + 1]);
    }
    assert values[..|values|] == values;
    result := bins[..];
  }

  /** All bins have this width. */
  predicate Even(bins: seq<Bin>, width: real) {
    forall i :: 0 <= i < |bins| ==> bins[i].max - bins[i].min == width
  }

  lemma EvenEdges(bins: seq<Bin>, lo: real, width: real, buckets: nat)
    requires SameEdges(bins, Edges(lo, width, buckets))
    ensures Even(bins, width)
  {
    forall i | 0 <= i < |bins| ensures bins[i].max - bins[i].min == width {
      EdgesApart(lo, width, i);
    }
  }

  lemma AllCounted(bins: seq<Bin>, values: seq<real>, edges: seq<Bin>)
    requires Tallied(bins, values, edges)
    ensures forall i :: 0 <= i < |bins| ==> bins[i].count == Members(values, bins, i)
  {
    forall i | 0 <= i < |bins| ensures bins[i].count == Members(values, bins, i) {
      MembersByEdges(values, bins, edges, i);
    }
  }

  /** The bins over a range that is not one point. */
  method BinValues(values: seq<real>, lo: real, hi: real, buckets: nat, width: real) returns (result: seq<Bin>)
    requires buckets >= 1 && lo < hi && width == (hi - lo) / buckets as real
    requires forall j :: 0 <= j < |values| ==> lo <= values[j] <= hi
    ensures |result| == buckets && Tile(result, lo, hi) && Even(result, width) && Counted(result) == |values|
    ensures forall i :: 0 <= i < |result| ==> result[i].count == Members(values, result, i)
  {
    EdgesLaidOut(lo, hi, buckets);
    var edges := Edges(lo, width, buckets);
    result := CountValues(values, lo, hi, width, edges);
    AllCounted(result, values, edges);
    EvenEdges(result, lo, width, buckets);
  }

  /** `computeHistogramBins`: the bins tile the range of the values in equal widths, each holds exactly the
      values between its edges, and together they count every value once. */
  method ComputeHistogramBins(values: seq<real>, buckets: nat) returns (result: seq<Bin>)
    requires buckets >= 1
    ensures values == [] ==> result == []
    ensures values != [] && Least(values) == Greatest(values) ==>
            result == [Bin(|values|, Least(values), Greatest(values))]
    ensures values != [] && Least(values) != Greatest(values) ==>
              |result| == buckets && Tile(result, Least(values), Greatest(values))
    ensures values != [] && Least(values) != Greatest(values) ==>
              Even(result, (Greatest(values) - Least(values)) / buckets as real)
    ensures forall i :: 0 <= i < |result| ==> result[i].count == Members(values, result, i)
    ensures Counted(result) == |values|
  {
    if values == [] {
      return [];
    }
    var lo, hi := Least(values), Greatest(values);
    if lo == hi {
      result := [Bin(|values|, lo, hi)];
      AllMembers(values, result);
      assert result[..0] == [];
      return;
    }
    result := BinValues(values, lo, hi, buckets, (hi - lo) / buckets as real);
  }

  lemma {:induction false} AllMembers(values: seq<real>, bins: seq<Bin>)
    requires |bins| == 1
    requires forall i :: 0 <= i < |values| ==> bins[0].min == values[i] == bins[0].max
    ensures Members(values, bins, 0) == |values|
  {
    if values != [] { AllMembers(values[..|values| - 1], bins); }
  }

  lemma {:induction false} HolderBefore(bins: seq<Bin>, lo: real, hi: real, v: real, n: nat) returns (i: nat)
    requires Tile(bins, lo, hi) && 1 <= n <= |bins| && lo <= v <= bins[n - 1].max &&
            (n < |bins| ==> v < bins[n - 1].max)
    ensures i < |bins| && Holds(bins, i, v)
  {
    if v >= bins[n - 1].min {
      i := n - 1;
    } else {
      assert n > 1;
      i := HolderBefore(bins, lo, hi, v, n - 1);
    }
  }

  /** In a tiling every value of the range lies in exactly one bin. */
  lemma ExactlyOneBin(bins: seq<Bin>, lo: real, hi: real, v: real)
    requires Tile(bins, lo, hi) && lo <= v <= hi
    ensures exists i :: 0 <= i < |bins| && Holds(bins, i, v) && forall j :: 0 <= j < |bins| && Holds(bins, j, v) ==>
            j == i
  {
    var i := HolderBefore(bins, lo, hi, v, |bins|);
    forall j | 0 <= j < |bins| && Holds(bins, j, v) ensures j == i {
      OneBinOnly(bins, lo, hi, i, j, v);
    }
  }
}
