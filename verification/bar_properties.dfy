/**
 What `AggregateTicks` promises about the bars it returns, stated over the
 input ticks alone: each bar summarises exactly the ticks of its bucket, the
 bars partition the input, and they come out in order of first appearance.
 */
module BarProperties {
  import opened Market
  import opened Aggregation

  /** Concatenation of the groups' ticks, in group order. */
  ghost function Flatten(gs: seq<Group>): seq<Tick> {
    if |gs| == 0 then [] else Flatten(gs[..|gs| - 1]) + gs[|gs| - 1].ticks
  }

  /** The distinct bucket starts of `s`. */
  ghost function KeySet(s: seq<Tick>, key: Tick -> nat): set<nat>
  {
    set q | 0 <= q < |s| :: key(s[q])
  }

  // ---------------------------------------------------------------------
  // Each bar is its bucket

  /** Every bar carries the caller's symbol and is the bar of the non-empty
      bucket of its own start time. */
  lemma {:induction false} BarsAreBuckets(symbol: Symbol, s: seq<Tick>, key: Tick -> nat)
    ensures var bars := AggregateBy(symbol, s, key);
      forall j :: 0 <= j < |bars| ==>
        && bars[j].symbol == symbol
        && |Bucket(s, key, bars[j].time)| > 0
        && bars[j] == ToBar(symbol, Group(bars[j].time, Bucket(s, key, bars[j].time)))
  {
    LookupInvariant(s, key);
  }

  // ---------------------------------------------------------------------
  // Open, high, low, close

  /** The first element of a bucket is the first tick of its key in `s`. */
  lemma {:induction false} BucketFirst(s: seq<Tick>, key: Tick -> nat, k: nat)
    requires |Bucket(s, key, k)| > 0
    ensures FirstIndex(s, key, k) < |s|
    ensures Bucket(s, key, k)[0] == s[FirstIndex(s, key, k)]
  {
    var p, t := s[..|s| - 1], s[|s| - 1];
    assert p + [t] == s;
    BucketSnoc(p, t, key, k);
    FirstIndexSnoc(p, t, key, k);
    if |Bucket(p, key, k)| > 0 {
      BucketFirst(p, key, k);
      assert s[FirstIndex(p, key, k)] == p[FirstIndex(p, key, k)];
    }
  }

  /** Index of the last tick of `s` with key `k`, or -1 when none has it. */
  function LastIndex(s: seq<Tick>, key: Tick -> nat, k: nat): (q: int)
    ensures -1 <= q < |s|
    ensures q >= 0 ==> key(s[q]) == k
    ensures forall p :: q < p < |s| ==> key(s[p]) != k
  {
    if |s| == 0 then -1
    else if key(s[|s| - 1]) == k then |s| - 1
    else
      var q := LastIndex(s[..|s| - 1], key, k);
      assert forall p :: 0 <= p < |s| - 1 ==> s[..|s| - 1][p] == s[p];
      q
  }

  /** The last element of a bucket is the last tick of its key in `s`. */
  lemma {:induction false} BucketLast(s: seq<Tick>, key: Tick -> nat, k: nat)
    requires |Bucket(s, key, k)| > 0
    ensures 0 <= LastIndex(s, key, k)
    ensures Bucket(s, key, k)[|Bucket(s, key, k)| - 1] == s[LastIndex(s, key, k)]
  {
    var p, t := s[..|s| - 1], s[|s| - 1];
    assert p + [t] == s;
    BucketSnoc(p, t, key, k);
    if key(t) != k {
      BucketLast(p, key, k);
      assert s[LastIndex(p, key, k)] == p[LastIndex(p, key, k)];
    }
  }

  /** Each bar opens at the price of the first tick, in input order, of its
      bucket, and closes at the price of the last one. */
  lemma {:induction false} BarOpenClose(symbol: Symbol, s: seq<Tick>, key: Tick -> nat)
    ensures var bars := AggregateBy(symbol, s, key);
      forall j :: 0 <= j < |bars| ==>
        && (exists q :: (0 <= q < |s| && key(s[q]) == bars[j].time && bars[j].open == s[q].price
              && forall p :: 0 <= p < q ==> key(s[p]) != bars[j].time))
        && (exists q :: (0 <= q < |s| && key(s[q]) == bars[j].time && bars[j].close == s[q].price
              && forall p :: q < p < |s| ==> key(s[p]) != bars[j].time))
  {
    var bars := AggregateBy(symbol, s, key);
    BarsAreBuckets(symbol, s, key);
    forall j | 0 <= j < |bars|
      ensures exists q :: (0 <= q < |s| && key(s[q]) == bars[j].time && bars[j].open == s[q].price
              && forall p :: 0 <= p < q ==> key(s[p]) != bars[j].time)
      ensures exists q :: (0 <= q < |s| && key(s[q]) == bars[j].time && bars[j].close == s[q].price
              && forall p :: q < p < |s| ==> key(s[p]) != bars[j].time)
    {
      var k := bars[j].time;
      BucketFirst(s, key, k);
      BucketLast(s, key, k);
      var f, l := FirstIndex(s, key, k), LastIndex(s, key, k);
      assert key(s[f]) == k && bars[j].open == s[f].price;
      assert key(s[l]) == k && bars[j].close == s[l].price;
    }
  }

  /** Membership in a bucket is having its key. */
  lemma {:induction false} BucketMembers(s: seq<Tick>, key: Tick -> nat, k: nat)
    ensures forall q :: 0 <= q < |s| && key(s[q]) == k ==> s[q] in Bucket(s, key, k)
    ensures forall x :: x in Bucket(s, key, k) ==> x in s
  {
    if |s| > 0 {
      var p, t := s[..|s| - 1], s[|s| - 1];
      assert p + [t] == s;
      BucketSnoc(p, t, key, k);
      BucketMembers(p, key, k);
      assert forall q :: 0 <= q < |p| ==> s[q] == p[q];
    }
  }

  /** Each bar's high and low are the highest and lowest prices of its
      bucket; hence `low <= open, close <= high`. */
  lemma {:induction false} BarHighLow(symbol: Symbol, s: seq<Tick>, key: Tick -> nat)
    ensures var bars := AggregateBy(symbol, s, key);
      forall j :: 0 <= j < |bars| ==>
        && (forall q :: 0 <= q < |s| && key(s[q]) == bars[j].time ==>
              bars[j].low <= s[q].price <= bars[j].high)
        && (exists q :: 0 <= q < |s| && key(s[q]) == bars[j].time && s[q].price == bars[j].high)
        && (exists q :: 0 <= q < |s| && key(s[q]) == bars[j].time && s[q].price == bars[j].low)
        && bars[j].low <= bars[j].open <= bars[j].high
        && bars[j].low <= bars[j].close <= bars[j].high
  {
    var bars := AggregateBy(symbol, s, key);
    BarsAreBuckets(symbol, s, key);
    forall j | 0 <= j < |bars|
      ensures forall q :: 0 <= q < |s| && key(s[q]) == bars[j].time ==>
              bars[j].low <= s[q].price <= bars[j].high
      ensures exists q :: 0 <= q < |s| && key(s[q]) == bars[j].time && s[q].price == bars[j].high
      ensures exists q :: 0 <= q < |s| && key(s[q]) == bars[j].time && s[q].price == bars[j].low
    {
      var k := bars[j].time;
      var b := Bucket(s, key, k);
      BucketMembers(s, key, k);
      var hi :| 0 <= hi < |b| && b[hi].price == MaxPrice(b);
      var lo :| 0 <= lo < |b| && b[lo].price == MinPrice(b);
      assert b[hi] in s && b[lo] in s;
      var qh :| 0 <= qh < |s| && s[qh] == b[hi];
      var ql :| 0 <= ql < |s| && s[ql] == b[lo];
      assert key(s[qh]) == k && s[qh].price == bars[j].high;
      assert key(s[ql]) == k && s[ql].price == bars[j].low;
    }
  }

  // ---------------------------------------------------------------------
  // Partition and order

  lemma {:induction false} FlattenUpdate(gs: seq<Group>, j: nat, t: Tick)
    requires j < |gs|
    ensures multiset(Flatten(gs[j := Group(gs[j].key, gs[j].ticks + [t])]))
            == multiset(Flatten(gs)) + multiset{t}
  {
    var gs' := gs[j := Group(gs[j].key, gs[j].ticks + [t])];
    var n := |gs|;
    if j == n - 1 {
      assert gs'[..n - 1] == gs[..n - 1];
    } else {
      assert gs'[..n - 1] == gs[..n - 1][j := Group(gs[j].key, gs[j].ticks + [t])];
      FlattenUpdate(gs[..n - 1], j, t);
    }
  }

  /** The groups hold every input tick exactly as often as the input does. */
  lemma {:induction false} GroupsPartitionTicks(s: seq<Tick>, key: Tick -> nat)
    ensures multiset(Flatten(GroupByKey(s, key))) == multiset(s)
  {
    if |s| > 0 {
      var p, t := s[..|s| - 1], s[|s| - 1];
      assert p + [t] == s;
      GroupsPartitionTicks(p, key);
      var gs := GroupByKey(p, key);
      var j := IndexOfKey(gs, key(t));
      if j < |gs| {
        FlattenUpdate(gs, j, t);
      } else {
        assert (gs + [Group(key(t), [t])])[..|gs|] == gs;
      }
    }
  }

  lemma {:induction false} DistinctKeysCard(gs: seq<Group>)
    requires DistinctKeys(gs)
    ensures |set j | 0 <= j < |gs| :: gs[j].key| == |gs|
  {
    if |gs| > 0 {
      var n := |gs|;
      var p := gs[..n - 1];
      DistinctKeysCard(p);
      var ks := set j | 0 <= j < n :: gs[j].key;
      var kp := set j | 0 <= j < n - 1 :: p[j].key;
      assert ks == kp + {gs[n - 1].key};
      assert gs[n - 1].key !in kp;
    }
  }

  /** Every tick lands in exactly one bar, no bar is empty, and there are as
      many bars as distinct bucket starts. */
  lemma {:induction false} BarsPartitionTicks(symbol: Symbol, s: seq<Tick>, key: Tick -> nat)
    ensures var bars := AggregateBy(symbol, s, key);
      && (forall q :: 0 <= q < |s| ==>
            exists j :: 0 <= j < |bars| && bars[j].time == key(s[q]))
      && (forall i, j :: 0 <= i < j < |bars| ==> bars[i].time != bars[j].time)
      && (forall j :: 0 <= j < |bars| ==> exists q :: 0 <= q < |s| && key(s[q]) == bars[j].time)
      && |bars| == |KeySet(s, key)|
  {
    BarsCoverTicks(symbol, s, key);
    BarsNonEmpty(symbol, s, key);
    BarCount(s, key);
  }

  lemma {:induction false} BarsCoverTicks(symbol: Symbol, s: seq<Tick>, key: Tick -> nat)
    ensures var bars := AggregateBy(symbol, s, key);
      && |bars| == |GroupByKey(s, key)|
      && (forall q :: 0 <= q < |s| ==>
            exists j :: 0 <= j < |bars| && bars[j].time == key(s[q]))
      && (forall i, j :: 0 <= i < j < |bars| ==> bars[i].time != bars[j].time)
  {
    var bars := AggregateBy(symbol, s, key);
    var gs := GroupByKey(s, key);
    LookupInvariant(s, key);
    assert forall j :: 0 <= j < |bars| ==> bars[j].time == gs[j].key;
    forall q | 0 <= q < |s|
      ensures exists j :: 0 <= j < |bars| && bars[j].time == key(s[q])
    {
      var j :| 0 <= j < |gs| && gs[j].key == key(s[q]);
      assert bars[j].time == key(s[q]);
    }
  }

  lemma {:induction false} BarsNonEmpty(symbol: Symbol, s: seq<Tick>, key: Tick -> nat)
    ensures var bars := AggregateBy(symbol, s, key);
      forall j :: 0 <= j < |bars| ==> exists q :: 0 <= q < |s| && key(s[q]) == bars[j].time
  {
    var bars := AggregateBy(symbol, s, key);
    var gs := GroupByKey(s, key);
    LookupInvariant(s, key);
    forall j | 0 <= j < |bars|
      ensures exists q :: 0 <= q < |s| && key(s[q]) == bars[j].time
    {
      assert bars[j].time == gs[j].key;
      BucketWitness(s, key, gs[j].key);
      var w := FirstIndex(s, key, gs[j].key);
      assert key(s[w]) == bars[j].time;
    }
  }

  lemma {:induction false} BarCount(s: seq<Tick>, key: Tick -> nat)
    ensures |GroupByKey(s, key)| == |KeySet(s, key)|
  {
    var gs := GroupByKey(s, key);
    LookupInvariant(s, key);
    var ks := set j | 0 <= j < |gs| :: gs[j].key;
    DistinctKeysCard(gs);
    forall k | k in KeySet(s, key) ensures k in ks {
      var q :| 0 <= q < |s| && key(s[q]) == k;
      var j :| 0 <= j < |gs| && gs[j].key == key(s[q]);
    }
    forall k | k in ks ensures k in KeySet(s, key) {
      var j :| 0 <= j < |gs| && gs[j].key == k;
      BucketWitness(s, key, k);
      var w := FirstIndex(s, key, k);
      assert key(s[w]) == k;
    }
    assert ks == KeySet(s, key);
  }

  /** Bars come out in order of the first appearance of their keys. */
  lemma {:induction false} BarsInFirstAppearanceOrder(symbol: Symbol, s: seq<Tick>, key: Tick -> nat)
    ensures var bars := AggregateBy(symbol, s, key);
      forall i, j :: 0 <= i < j < |bars| ==>
        FirstIndex(s, key, bars[i].time) < FirstIndex(s, key, bars[j].time) < |s|
  {
    LookupInvariant(s, key);
    var gs := GroupByKey(s, key);
    forall j | 0 <= j < |gs| ensures FirstIndex(s, key, gs[j].key) < |s| {
      BucketWitness(s, key, gs[j].key);
    }
  }

  // ---------------------------------------------------------------------
  // At a resolution: the key is the bucket start `RoundDown(time, r)`

  /** A bar's time is a multiple of the resolution, and a tick belongs to the
      bar exactly when its time lies in `[time, time + r)`. */
  lemma {:induction false} BarInterval(symbol: Symbol, s: seq<Tick>, r: nat)
    requires r > 0
    ensures var bars := AggregateTicks(symbol, s, r);
      forall j :: 0 <= j < |bars| ==>
        && bars[j].time % r == 0
        && forall q :: 0 <= q < |s| ==>
             (Key(s[q], r) == bars[j].time <==> bars[j].time <= s[q].time < bars[j].time + r)
  {
    var bars := AggregateTicks(symbol, s, r);
    BarsNonEmpty(symbol, s, BucketOf(r));
    forall j | 0 <= j < |bars|
      ensures bars[j].time % r == 0
      ensures forall q :: 0 <= q < |s| ==>
        (Key(s[q], r) == bars[j].time <==> bars[j].time <= s[q].time < bars[j].time + r)
    {
      var k := bars[j].time;
      var w :| 0 <= w < |s| && BucketOf(r)(s[w]) == k;
      RoundDownAligned(s[w].time, r);
      forall q | 0 <= q < |s| && k <= s[q].time < k + r
        ensures Key(s[q], r) == k
      {
        RoundDownUnique(s[q].time, r, k);
      }
    }
  }

  /** A single tick gives a single flat bar at that tick's price, starting
      at the tick's bucket. */
  lemma {:induction false} SingleTickBar(symbol: Symbol, t: Tick, r: nat)
    requires r > 0
    ensures AggregateTicks(symbol, [t], r)
            == [Bar(symbol, RoundDown(t.time, r), t.price, t.price, t.price, t.price)]
  {
    var key := BucketOf(r);
    var k := Key(t, r);
    assert [t][..0] == [];
    assert GroupByKey([t], key) == AddToLookup([], t, key) == [Group(k, [t])];
    assert MaxPrice([t]) == t.price && MinPrice([t]) == t.price;
    assert ToBar(symbol, Group(k, [t])) == Bar(symbol, k, t.price, t.price, t.price, t.price);
  }

  /** No ticks, no bars, at every resolution. */
  lemma {:induction false} NoTicksNoBars(symbol: Symbol, r: nat)
    requires r > 0
    ensures AggregateTicks(symbol, [], r) == []
  {
  }

  ghost predicate NonDecreasingTimes(s: seq<Tick>) {
    forall p, q :: 0 <= p < q < |s| ==> s[p].time <= s[q].time
  }

  /** With ticks in time order, bar times strictly increase. */
  lemma {:induction false} SortedBarsIncrease(symbol: Symbol, s: seq<Tick>, r: nat)
    requires r > 0
    requires NonDecreasingTimes(s)
    ensures var bars := AggregateTicks(symbol, s, r);
      forall i, j :: 0 <= i < j < |bars| ==> bars[i].time < bars[j].time
  {
    var key := BucketOf(r);
    var bars := AggregateTicks(symbol, s, r);
    BarsInFirstAppearanceOrder(symbol, s, key);
    BarsCoverTicks(symbol, s, key);
    forall i, j | 0 <= i < j < |bars| ensures bars[i].time < bars[j].time {
      var a, b := FirstIndex(s, key, bars[i].time), FirstIndex(s, key, bars[j].time);
      assert key(s[a]) == bars[i].time && key(s[b]) == bars[j].time;
      assert s[a].time <= s[b].time;
      RoundDownMonotone(s[a].time, s[b].time, r);
    }
  }

  /** When every tick has the same key `c`, there is at most one bar, and it
      starts at `c`. */
  lemma {:induction false} OneKeyOneBar(symbol: Symbol, s: seq<Tick>, key: Tick -> nat, c: nat)
    requires forall q :: 0 <= q < |s| ==> key(s[q]) == c
    ensures var bars := AggregateBy(symbol, s, key);
      |bars| <= 1 && forall j :: 0 <= j < |bars| ==> bars[j].time == c
  {
    var gs := GroupByKey(s, key);
    LookupDistinct(s, key);
    LookupBuckets(s, key);
    LookupNonEmpty(s, key);
    forall j | 0 <= j < |gs| ensures gs[j].key == c {
      BucketWitness(s, key, gs[j].key);
    }
    if |gs| > 0 {
      assert gs[0].key == gs[|gs| - 1].key;
      assert 0 == |gs| - 1;
    }
  }
}
