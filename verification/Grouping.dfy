/** Grouping by key in order of first occurrence, and aggregates that may be rolled up. */
module Grouping {
  import opened Text

  datatype Entry<+K, +V> = Entry(key: K, item: V)

  function KeysOf<K, V>(es: seq<Entry<K, V>>): (r: seq<K>)
    ensures |r| == |es| && forall i :: 0 <= i < |es| ==> r[i] == es[i].key
  {
    seq(|es|, i requires 0 <= i < |es| => es[i].key)
  }

  /** The distinct keys in order of first occurrence: the key order of a JavaScript Map. */
  function FirstSeen<K(==)>(ks: seq<K>): seq<K> {
    if ks == [] then []
    else
      var r := FirstSeen(ks[..|ks| - 1]);
      if ks[|ks| - 1] in r then r else r + [ks[|ks| - 1]]
  }

  predicate Distinct<K(==)>(ks: seq<K>) { forall i, j :: 0 <= i < j < |ks| ==> ks[i] != ks[j] }

  /** The same keys, each once. */
  lemma {:induction false} FirstSeenIsKeySet<K>(ks: seq<K>)
    ensures Distinct(FirstSeen(ks))
    ensures forall k :: k in FirstSeen(ks) <==> k in ks
  {
    if ks != [] {
      FirstSeenIsKeySet(ks[..|ks| - 1]);
      assert ks == ks[..|ks| - 1] + [ks[|ks| - 1]];
    }
  }

  lemma {:induction false} SeenIffPresent<K>(ks: seq<K>, k: K)
    ensures k in FirstSeen(ks) <==> k in ks
  {
    if ks != [] {
      SeenIffPresent(ks[..|ks| - 1], k);
      assert ks == ks[..|ks| - 1] + [ks[|ks| - 1]];
    }
  }

  /** The items of one key, in their order. */
  function Bucket<K(==), V>(es: seq<Entry<K, V>>, k: K): seq<V> {
    if es == [] then []
    else
      var last := es[|es| - 1];
      Bucket(es[..|es| - 1], k) + if last.key == k then [last.item] else []
  }

  lemma FirstSeenSnoc<K>(ks: seq<K>, k: K)
    ensures FirstSeen(ks + [k]) == if k in FirstSeen(ks) then FirstSeen(ks) else FirstSeen(ks) + [k]
  {
    assert (ks + [k])[..|ks|] == ks;
  }

  lemma BucketSnoc<K, V>(es: seq<Entry<K, V>>, e: Entry<K, V>, k: K)
    ensures Bucket(es + [e], k) == Bucket(es, k) + if e.key == k then [e.item] else []
  {
    assert (es + [e])[..|es|] == es;
  }

  lemma KeysSnoc<K, V>(es: seq<Entry<K, V>>, e: Entry<K, V>)
    ensures KeysOf(es + [e]) == KeysOf(es) + [e.key]
  {}

  /** The loop that fills a Map of arrays. */
  method GroupEntries<K(==), V>(es: seq<Entry<K, V>>) returns (order: seq<K>, buckets: map<K, seq<V>>)
    ensures order == FirstSeen(KeysOf(es))
    ensures forall k :: k in buckets <==> k in order
    ensures forall k :: k in buckets ==> buckets[k] == Bucket(es, k)
  {
    order, buckets := [], map[];
    for i := 0 to |es|
      invariant order == FirstSeen(KeysOf(es[..i]))
      invariant forall k :: k in buckets <==> k in order
      invariant forall k :: k in buckets ==> buckets[k] == Bucket(es[..i], k)
    {
      var e := es[i];
      PrefixSnoc(es, i);
      KeysSnoc(es[..i], e);
      FirstSeenSnoc(KeysOf(es[..i]), e.key);
      forall k ensures Bucket(es[..i + 1], k) == Bucket(es[..i], k) + if e.key == k then [e.item] else [] {
        BucketSnoc(es[..i], e, k);
      }
      if e.key !in buckets {
        order := order + [e.key];
        buckets := buckets[e.key := []];
        SeenIffPresent(KeysOf(es[..i]), e.key);
        EmptyBucket(es[..i], e.key);
      }
      buckets := buckets[e.key := buckets[e.key] + [e.item]];
    }
    assert es[..|es|] == es;
  }

  lemma {:induction false} EmptyBucket<K, V>(es: seq<Entry<K, V>>, k: K)
    requires k !in KeysOf(es)
    ensures Bucket(es, k) == []
  {
    if es != [] {
      assert KeysOf(es)[|es| - 1] == es[|es| - 1].key;
      assert forall i :: 0 <= i < |es| - 1 ==> KeysOf(es)[i] == KeysOf(es[..|es| - 1])[i];
      EmptyBucket(es[..|es| - 1], k);
    }
  }

  lemma {:induction false} NonEmptyBucket<K, V>(es: seq<Entry<K, V>>, i: nat)
    requires i < |es|
    ensures Bucket(es, es[i].key) != []
  {
    if i < |es| - 1 {
      NonEmptyBucket(es[..|es| - 1], i);
    }
  }

  lemma MapSnoc<K, L>(ks: seq<K>, k: K, h: K -> L)
    ensures Map(h, ks + [k]) == Map(h, ks) + [h(k)]
  {}

  lemma MapHas<K, L>(ks: seq<K>, k: K, h: K -> L)
    requires k in ks
    ensures h(k) in Map(h, ks)
  {
    var i :| 0 <= i < |ks| && ks[i] == k;
    assert Map(h, ks)[i] == h(k);
  }

  /** Grouping again by a coarser key sees the coarse keys in the same order. */
  lemma {:induction false} CoarserOrder<K, L>(ks: seq<K>, h: K -> L)
    ensures FirstSeen(Map(h, FirstSeen(ks))) == FirstSeen(Map(h, ks))
  {
    if ks == [] {
      assert Map(h, ks) == [];
    } else {
      var init, last := ks[..|ks| - 1], ks[|ks| - 1];
      CoarserOrder(init, h);
      assert ks == init + [last];
      FirstSeenSnoc(init, last);
      MapSnoc(init, last, h);
      FirstSeenSnoc(Map(h, init), h(last));
      SeenIffPresent(init, last);
      if last in FirstSeen(init) {
        MapHas(init, last, h);
        SeenIffPresent(Map(h, init), h(last));
      } else {
        MapSnoc(FirstSeen(init), last, h);
        FirstSeenSnoc(Map(h, FirstSeen(init)), h(last));
      }
    }
  }

  lemma ItemsSnoc<K, V>(es: seq<Entry<K, V>>, e: Entry<K, V>)
    ensures multiset(Items(es + [e])) == multiset(Items(es)) + multiset{e.item}
  {
    assert Items(es + [e]) == Items(es) + [e.item];
  }

  /** Every item is in the bucket of its key and in no other. */
  lemma {:induction false} BucketsPartition<V>(es: seq<Entry<string, V>>, ks: seq<string>)
    requires Distinct(ks)
    requires forall i :: 0 <= i < |es| ==> es[i].key in ks
    ensures multiset(Flatten(Buckets(es, ks))) == multiset(Items(es))
  {
    if es == [] {
      AllEmpty(es, ks);
      assert Items(es) == [];
    } else {
      var init, e := es[..|es| - 1], es[|es| - 1];
      assert es == init + [e] && e.key in ks;
      BucketsPartition(init, ks);
      AddToBucket(init, e, ks);
      ItemsSnoc(init, e);
    }
  }

  function Items<K, V>(es: seq<Entry<K, V>>): (r: seq<V>)
    ensures |r| == |es| && forall i :: 0 <= i < |es| ==> r[i] == es[i].item
  {
    seq(|es|, i requires 0 <= i < |es| => es[i].item)
  }

  function Buckets<K(==), V>(es: seq<Entry<K, V>>, ks: seq<K>): (r: seq<seq<V>>)
    ensures |r| == |ks| && forall i :: 0 <= i < |ks| ==> r[i] == Bucket(es, ks[i])
  {
    seq(|ks|, i requires 0 <= i < |ks| => Bucket(es, ks[i]))
  }

  lemma {:induction false} AllEmpty<V>(es: seq<Entry<string, V>>, ks: seq<string>)
    requires es == []
    ensures Flatten(Buckets(es, ks)) == []
  {
    if ks != [] {
      AllEmpty(es, ks[1..]);
      assert Buckets(es, ks)[1..] == Buckets(es, ks[1..]);
    }
  }

  lemma FlattenBuckets<V>(es: seq<Entry<string, V>>, ks: seq<string>)
    requires ks != []
    ensures Flatten(Buckets(es, ks)) == Bucket(es, ks[0]) + Flatten(Buckets(es, ks[1..]))
  {
    assert Buckets(es, ks)[1..] == Buckets(es, ks[1..]);
  }

  lemma {:induction false} AddToBucket<V>(es: seq<Entry<string, V>>, e: Entry<string, V>, ks: seq<string>)
    requires Distinct(ks)
    ensures multiset(Flatten(Buckets(es + [e], ks)))
         == multiset(Flatten(Buckets(es, ks))) + (if e.key in ks then multiset{e.item} else multiset{})
  {
    if ks != [] {
      AddToBucket(es, e, ks[1..]);
      BucketSnoc(es, e, ks[0]);
      FlattenBuckets(es + [e], ks);
      FlattenBuckets(es, ks);
    }
  }

  // ---------- aggregates that roll up ----------

  datatype Op = Sum | Least | Greatest

  /** Combining partial results; no value at all is neutral. */
  function Combine(op: Op, a: Option<real>, b: Option<real>): Option<real> {
    if a == None then b
    else if b == None then a
    else Some(match op
              case Sum => a.value + b.value
              case Least => if b.value < a.value then b.value else a.value
              case Greatest => if b.value > a.value then b.value else a.value)
  }

  lemma CombineLaws(op: Op, a: Option<real>, b: Option<real>, c: Option<real>)
    ensures Combine(op, a, b) == Combine(op, b, a)
    ensures Combine(op, Combine(op, a, b), c) == Combine(op, a, Combine(op, b, c))
  {}

  function Fold(op: Op, xs: seq<real>): (r: Option<real>)
    ensures r.Some? <==> xs != []
  {
    if xs == [] then None else Combine(op, Fold(op, xs[..|xs| - 1]), Some(xs[|xs| - 1]))
  }

  lemma FoldSnoc(op: Op, xs: seq<real>, x: real)
    ensures Fold(op, xs + [x]) == Combine(op, Fold(op, xs), Some(x))
  {
    assert (xs + [x])[..|xs|] == xs;
  }

  /** The combined results of those groups whose coarse key is `kk`. */
  function Rolled<K(==), L(==)>(op: Op, es: seq<Entry<K, real>>, ks: seq<K>, h: K -> L, kk: L): Option<real> {
    if ks == [] then None
    else Combine(op, Rolled(op, es, ks[..|ks| - 1], h, kk),
                 if h(ks[|ks| - 1]) == kk then Fold(op, Bucket(es, ks[|ks| - 1])) else None)
  }

  /** The same entries under their coarse keys. */
  function Rekeyed<K, L, V>(es: seq<Entry<K, V>>, h: K -> L): (r: seq<Entry<L, V>>)
    ensures |r| == |es| && forall i :: 0 <= i < |es| ==> r[i] == Entry(h(es[i].key), es[i].item)
  {
    seq(|es|, i requires 0 <= i < |es| => Entry(h(es[i].key), es[i].item))
  }

  /** Adding one entry changes exactly the term of its key. */
  lemma {:induction false} RolledStep<K, L>(op: Op, es: seq<Entry<K, real>>, e: Entry<K, real>, ks: seq<K>, h: K -> L,
                                            kk: L)
    requires Distinct(ks)
    ensures Rolled(op, es + [e], ks, h, kk)
         == Combine(op, Rolled(op, es, ks, h, kk), if e.key in ks && h(e.key) == kk then Some(e.item) else None)
  {
    if ks != [] {
      var front, k := ks[..|ks| - 1], ks[|ks| - 1];
      RolledStep(op, es, e, front, h, kk);
      BucketSnoc(es, e, k);
      var added := Some(e.item);
      var before := if h(k) == kk then Fold(op, Bucket(es, k)) else None;
      if e.key == k {
        var b := Bucket(es, k);
        assert (b + [e.item])[..|b|] == b;
        assert e.key !in front;
        CombineLaws(op, Rolled(op, es, front, h, kk), before, added);
      } else {
        assert Bucket(es, k) + [] == Bucket(es, k);
        assert e.key in ks <==> e.key in front;
        CombineLaws(op, Rolled(op, es, front, h, kk), added, before);
        CombineLaws(op, Rolled(op, es, front, h, kk), before, added);
        CombineLaws(op, before, added, None);
      }
    }
  }

  lemma {:induction false} RolledNothing<K, L>(op: Op, ks: seq<K>, h: K -> L, kk: L)
    ensures Rolled(op, [], ks, h, kk) == None
  {
    if ks != [] { RolledNothing(op, ks[..|ks| - 1], h, kk); }
  }

  /** Rolling up: aggregating the groups of a coarse key gives the aggregate of all its items. */
  lemma {:induction false} RollUp<K, L>(op: Op, es: seq<Entry<K, real>>, ks: seq<K>, h: K -> L, kk: L)
    requires Distinct(ks)
    requires forall i :: 0 <= i < |es| ==> es[i].key in ks
    ensures Rolled(op, es, ks, h, kk) == Fold(op, Bucket(Rekeyed(es, h), kk))
  {
    if es == [] {
      RolledNothing(op, ks, h, kk);
    } else {
      var init := es[..|es| - 1];
      RollUp(op, init, ks, h, kk);
      RolledStep(op, init, es[|es| - 1], ks, h, kk);
      assert es == init + [es[|es| - 1]];
      assert Rekeyed(es, h)[..|es| - 1] == Rekeyed(init, h);
      var b := Bucket(Rekeyed(init, h), kk);
      assert (b + [es[|es| - 1].item])[..|b|] == b && b + [] == b;
    }
  }

  // ---------- what the aggregates are ----------

  function Total(xs: seq<real>): real {
    if xs == [] then 0.0 else Total(xs[..|xs| - 1]) + xs[|xs| - 1]
  }

  lemma SumIsTotal(xs: seq<real>)
    ensures Total(xs) == match Fold(Sum, xs) { case None => 0.0 case Some(t) => t }
  {}

  /** The least and greatest value bound the list and belong to it. */
  lemma {:induction false} ExtremeBounds(op: Op, xs: seq<real>)
    requires op != Sum && xs != []
    ensures Fold(op, xs).value in xs
    ensures forall i :: 0 <= i < |xs| ==>
            if op == Least then Fold(op, xs).value <= xs[i] else Fold(op, xs).value >= xs[i]
  {
    var init := xs[..|xs| - 1];
    if init != [] {
      ExtremeBounds(op, init);
    }
  }

  lemma {:induction false} TotalAppend(a: seq<real>, b: seq<real>)
    ensures Total(a + b) == Total(a) + Total(b)
  {
    if b == [] {
      assert a + b == a;
    } else {
      assert (a + b)[..|a + b| - 1] == a + b[..|b| - 1];
      TotalAppend(a, b[..|b| - 1]);
    }
  }
}
