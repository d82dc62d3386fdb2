/**
 A one-pass aggregator that keeps one open bar: extend it
 while ticks fall in its bucket, and start a new bar when a tick arrives with
 a different bucket start. For ticks in time order this yields exactly the
 bars of the `GroupBy` aggregation; for ticks out of order it does not.
 */
module SinglePass {
  import opened Market
  import opened Aggregation
  import opened BarProperties

  /** The bar opened by a first tick at price `p` in bucket `k`. */
  function StartBar(symbol: Symbol, k: nat, p: int): Bar {
    Bar(symbol, k, p, p, p, p)
  }

  /** Bar `b` after one more tick at price `p` in the same bucket. */
  function Extend(b: Bar, p: int): Bar {
    b.(high := if p > b.high then p else b.high,
       low := if p < b.low then p else b.low,
       close := p)
  }

  /** The bars of a forward pass over `s`: a tick either extends the last
      bar, when it has the same key, or starts a new one. */
  function ForwardPass(symbol: Symbol, s: seq<Tick>, key: Tick -> nat): seq<Bar> {
    if |s| == 0 then []
    else
      var bars := ForwardPass(symbol, s[..|s| - 1], key);
      var t := s[|s| - 1];
      if |bars| > 0 && bars[|bars| - 1].time == key(t)
      then bars[..|bars| - 1] + [Extend(bars[|bars| - 1], t.price)]
      else bars + [StartBar(symbol, key(t), t.price)]
  }

  ghost predicate NonDecreasingKeys(s: seq<Tick>, key: Tick -> nat) {
    forall p, q :: 0 <= p < q < |s| ==> key(s[p]) <= key(s[q])
  }

  /** Every bar carries `symbol` and keeps `low <= open, close <= high`. */
  ghost predicate WellFormedBars(symbol: Symbol, bars: seq<Bar>) {
    forall j :: 0 <= j < |bars| ==>
      && bars[j].symbol == symbol
      && bars[j].low <= bars[j].open <= bars[j].high
      && bars[j].low <= bars[j].close <= bars[j].high
  }

  /** The forward pass never produces a malformed bar. */
  lemma {:induction false} ForwardPassBounds(symbol: Symbol, s: seq<Tick>, key: Tick -> nat)
    ensures WellFormedBars(symbol, ForwardPass(symbol, s, key))
  {
    if |s| > 0 {
      var prev := ForwardPass(symbol, s[..|s| - 1], key);
      ForwardPassBounds(symbol, s[..|s| - 1], key);
      var t := s[|s| - 1];
      if |prev| > 0 && prev[|prev| - 1].time == key(t) {
        ExtendWellFormed(symbol, prev, t.price);
      } else {
        StartWellFormed(symbol, prev, key(t), t.price);
      }
    }
  }

  lemma {:induction false} ExtendWellFormed(symbol: Symbol, prev: seq<Bar>, p: int)
    requires |prev| > 0 && WellFormedBars(symbol, prev)
    ensures WellFormedBars(symbol, prev[..|prev| - 1] + [Extend(prev[|prev| - 1], p)])
  {
    var n := |prev| - 1;
    var bars := prev[..n] + [Extend(prev[n], p)];
    assert forall j :: 0 <= j < n ==> bars[j] == prev[j];
  }

  lemma {:induction false} StartWellFormed(symbol: Symbol, prev: seq<Bar>, k: nat, p: int)
    requires WellFormedBars(symbol, prev)
    ensures WellFormedBars(symbol, prev + [StartBar(symbol, k, p)])
  {
    var bars := prev + [StartBar(symbol, k, p)];
    assert forall j :: 0 <= j < |prev| ==> bars[j] == prev[j];
  }

  /** Adding a tick to a group extends its bar. */
  lemma {:induction false} ToBarSnoc(symbol: Symbol, k: nat, g: seq<Tick>, t: Tick)
    requires |g| > 0
    ensures ToBar(symbol, Group(k, g + [t])) == Extend(ToBar(symbol, Group(k, g)), t.price)
  {
    assert (g + [t])[..|g|] == g;
  }

  /** In a grouping of ticks whose keys never decrease, the last group has
      the key of the last tick, and that key is the largest. */
  lemma {:induction false} LastKeyIsMax(s: seq<Tick>, key: Tick -> nat, gs: seq<Group>)
    requires |s| > 0
    requires NonDecreasingKeys(s, key)
    requires Covers(s, key, gs) && GroupsAreBuckets(s, key, gs) && AllNonEmpty(gs)
    requires FirstAppearanceOrder(s, key, gs)
    ensures |gs| > 0 && gs[|gs| - 1].key == key(s[|s| - 1])
    ensures forall i :: 0 <= i < |gs| ==> gs[i].key <= key(s[|s| - 1])
  {
    var n := |s| - 1;
    var last := |gs| - 1;
    assert Covers(s, key, gs) && 0 <= n < |s|;
    assert exists j :: 0 <= j < |gs| && gs[j].key == key(s[n]);
    var j :| 0 <= j < |gs| && gs[j].key == key(s[n]);
    forall i | 0 <= i < |gs|
      ensures FirstIndex(s, key, gs[i].key) < |s|
      ensures gs[i].key <= key(s[n])
    {
      BucketWitness(s, key, gs[i].key);
      var b := FirstIndex(s, key, gs[i].key);
      assert key(s[b]) == gs[i].key;
      KeysMonotone(s, key, b, n);
    }
    FirstIndexMonotone(s, key, gs, j, last);
    KeysMonotone(s, key, FirstIndex(s, key, gs[j].key), FirstIndex(s, key, gs[last].key));
  }

  lemma {:induction false} KeysMonotone(s: seq<Tick>, key: Tick -> nat, a: nat, c: nat)
    requires NonDecreasingKeys(s, key)
    requires a <= c < |s|
    ensures key(s[a]) <= key(s[c])
  {
    if a < c {
      assert key(s[a]) <= key(s[c]);
    }
  }

  lemma {:induction false} FirstIndexMonotone(s: seq<Tick>, key: Tick -> nat, gs: seq<Group>, i: nat, j: nat)
    requires FirstAppearanceOrder(s, key, gs)
    requires i <= j < |gs|
    ensures FirstIndex(s, key, gs[i].key) <= FirstIndex(s, key, gs[j].key)
  {
    if i < j {
      assert FirstIndex(s, key, gs[i].key) < FirstIndex(s, key, gs[j].key);
    }
  }

  /** With keys in order, the last group of the lookup belongs to the last tick. */
  lemma {:induction false} SortedLastGroup(s: seq<Tick>, key: Tick -> nat)
    requires |s| > 0
    requires NonDecreasingKeys(s, key)
    ensures |GroupByKey(s, key)| > 0
    ensures GroupByKey(s, key)[|GroupByKey(s, key)| - 1].key == key(s[|s| - 1])
    ensures forall i :: 0 <= i < |GroupByKey(s, key)| ==> GroupByKey(s, key)[i].key <= key(s[|s| - 1])
  {
    LookupCovers(s, key);
    LookupBuckets(s, key);
    LookupNonEmpty(s, key);
    LookupOrder(s, key);
    LastKeyIsMax(s, key, GroupByKey(s, key));
  }

  /** The lookup of `p + [t]` is the lookup of `p` with `t` filed. */
  lemma {:induction false} GroupByKeySnoc(p: seq<Tick>, t: Tick, key: Tick -> nat)
    ensures GroupByKey(p + [t], key) == AddToLookup(GroupByKey(p, key), t, key)
  {
    assert (p + [t])[..|p|] == p;
  }

  /** A tick whose key is that of the last group extends the last bar. */
  lemma {:induction false} ExtendLastStep(symbol: Symbol, gs: seq<Group>, t: Tick, key: Tick -> nat)
    requires AllNonEmpty(gs) && DistinctKeys(gs)
    requires |gs| > 0 && gs[|gs| - 1].key == key(t)
    ensures AllNonEmpty(AddToLookup(gs, t, key))
    ensures BarsOf(symbol, AddToLookup(gs, t, key))
            == BarsOf(symbol, gs)[..|gs| - 1] + [Extend(BarsOf(symbol, gs)[|gs| - 1], t.price)]
  {
    var last := |gs| - 1;
    var k := key(t);
    assert IndexOfKey(gs, k) == last;
    var gs' := gs[last := Group(k, gs[last].ticks + [t])];
    ToBarSnoc(symbol, k, gs[last].ticks, t);
    var bars, bars' := BarsOf(symbol, gs), BarsOf(symbol, gs');
    assert bars' == bars[..last] + [Extend(bars[last], t.price)];
  }

  /** A tick whose key no group has yet opens a new bar at the end. */
  lemma {:induction false} NewLastStep(symbol: Symbol, gs: seq<Group>, t: Tick, key: Tick -> nat)
    requires AllNonEmpty(gs)
    requires forall i :: 0 <= i < |gs| ==> gs[i].key != key(t)
    ensures AllNonEmpty(AddToLookup(gs, t, key))
    ensures BarsOf(symbol, AddToLookup(gs, t, key))
            == BarsOf(symbol, gs) + [StartBar(symbol, key(t), t.price)]
  {
    var k := key(t);
    assert IndexOfKey(gs, k) == |gs|;
    var gs' := gs + [Group(k, [t])];
    assert MaxPrice([t]) == t.price && MinPrice([t]) == t.price;
    var bars, bars' := BarsOf(symbol, gs), BarsOf(symbol, gs');
    assert bars' == bars + [StartBar(symbol, k, t.price)];
  }

  /** For ticks whose keys never decrease, the forward pass and the
      `GroupBy` aggregation give the same bars. */
  lemma {:induction false} ForwardPassMatchesGroupBy(symbol: Symbol, s: seq<Tick>, key: Tick -> nat)
    requires NonDecreasingKeys(s, key)
    ensures ForwardPass(symbol, s, key) == AggregateBy(symbol, s, key)
  {
    if |s| > 0 {
      var p, t := s[..|s| - 1], s[|s| - 1];
      assert p + [t] == s;
      assert NonDecreasingKeys(p, key);
      ForwardPassMatchesGroupBy(symbol, p, key);
      GroupByKeySnoc(p, t, key);
      var gs := GroupByKey(p, key);
      LookupNonEmpty(p, key);
      if |p| == 0 {
        NewLastStep(symbol, gs, t, key);
      } else {
        SortedLastGroup(p, key);
        if gs[|gs| - 1].key == key(t) {
          LookupDistinct(p, key);
          ExtendLastStep(symbol, gs, t, key);
        } else {
          assert key(p[|p| - 1]) <= key(t);
          NewLastStep(symbol, gs, t, key);
        }
      }
    }
  }

  /** At a resolution, ticks in time order have keys in order, so the forward
      pass reproduces `AggregateTicks`. */
  lemma {:induction false} SortedForwardPass(symbol: Symbol, s: seq<Tick>, r: nat)
    requires r > 0
    requires NonDecreasingTimes(s)
    ensures ForwardPass(symbol, s, BucketOf(r)) == AggregateTicks(symbol, s, r)
  {
    forall p, q | 0 <= p < q < |s| ensures BucketOf(r)(s[p]) <= BucketOf(r)(s[q]) {
      RoundDownMonotone(s[p].time, s[q].time, r);
    }
    ForwardPassMatchesGroupBy(symbol, s, BucketOf(r));
  }

  /** Out of time order the two disagree: a tick returning to an earlier
      bucket joins that bucket's bar under `GroupBy`, but opens a new bar in
      the forward pass. */
  lemma {:induction false} UnsortedInputDiffers(symbol: Symbol, r: nat)
    requires r > 1
    ensures var s := [Tick(0, 0, 0, 5), Tick(r, 0, 0, 6), Tick(1, 0, 0, 7)];
      && AggregateTicks(symbol, s, r)
         == [Bar(symbol, 0, 5, 7, 5, 7), Bar(symbol, r, 6, 6, 6, 6)]
      && ForwardPass(symbol, s, BucketOf(r))
         == [Bar(symbol, 0, 5, 5, 5, 5), Bar(symbol, r, 6, 6, 6, 6), Bar(symbol, 0, 7, 7, 7, 7)]
  {
    var a, b, c := Tick(0, 0, 0, 5), Tick(r, 0, 0, 6), Tick(1, 0, 0, 7);
    var key := BucketOf(r);
    RoundDownUnique(0, r, 0);
    RoundDownUnique(r, r, r);
    RoundDownUnique(1, r, 0);
    assert key(a) == 0 && key(b) == r && key(c) == 0;
    ReturningKeyGroups(symbol, a, b, c, key);
    assert MaxPrice([a, c]) == 7 && MinPrice([a, c]) == 5;
    ReturningKeyForward(symbol, a, b, c, key);
  }

  /** `GroupBy` over keys `x, y, x`: the third tick joins the first group. */
  lemma {:induction false} ReturningKeyGroups(symbol: Symbol, a: Tick, b: Tick, c: Tick, key: Tick -> nat)
    requires key(a) == key(c) != key(b)
    ensures AggregateBy(symbol, [a, b, c], key)
            == [ToBar(symbol, Group(key(a), [a, c])), ToBar(symbol, Group(key(b), [b]))]
  {
    GroupByKeySnoc([], a, key);
    assert [] + [a] == [a];
    assert GroupByKey([a], key) == [Group(key(a), [a])];
    GroupByKeySnoc([a], b, key);
    assert [a] + [b] == [a, b];
    assert IndexOfKey([Group(key(a), [a])], key(b)) == 1;
    assert GroupByKey([a, b], key) == [Group(key(a), [a]), Group(key(b), [b])];
    GroupByKeySnoc([a, b], c, key);
    assert [a, b] + [c] == [a, b, c];
    assert [a] + [c] == [a, c];
    assert GroupByKey([a, b, c], key) == [Group(key(a), [a, c]), Group(key(b), [b])];
  }

  /** The forward pass over keys `x, y, x`: three bars, one per run. */
  lemma {:induction false} ReturningKeyForward(symbol: Symbol, a: Tick, b: Tick, c: Tick, key: Tick -> nat)
    requires key(a) == key(c) != key(b)
    ensures ForwardPass(symbol, [a, b, c], key)
            == [StartBar(symbol, key(a), a.price), StartBar(symbol, key(b), b.price),
                StartBar(symbol, key(c), c.price)]
  {
    assert [a, b, c][..2] == [a, b];
    assert [a, b][..1] == [a];
    assert [a][..0] == [];
    assert ForwardPass(symbol, [a], key) == [StartBar(symbol, key(a), a.price)];
    assert ForwardPass(symbol, [a, b], key)
           == [StartBar(symbol, key(a), a.price), StartBar(symbol, key(b), b.price)];
  }

  /** The forward pass as a loop with O(1) state for the open bar: bars
      already closed are kept in `bars`, never revisited. */
  method AggregateInOnePass(symbol: Symbol, ticks: seq<Tick>, r: nat) returns (bars: seq<Bar>)
    requires r > 0
    ensures bars == ForwardPass(symbol, ticks, BucketOf(r))
    ensures NonDecreasingTimes(ticks) ==> bars == AggregateTicks(symbol, ticks, r)
  {
    bars := [];
    var open := false;
    var current := StartBar(symbol, 0, 0);
    var i := 0;
    while i < |ticks|
      invariant 0 <= i <= |ticks|
      invariant open <==> i > 0
      invariant (if open then bars + [current] else bars) == ForwardPass(symbol, ticks[..i], BucketOf(r))
    {
      var t := ticks[i];
      var k := RoundDown(t.time, r);
      assert ticks[..i + 1][..i] == ticks[..i];
      if open && current.time == k {
        current := Extend(current, t.price);
      } else {
        if open {
          bars := bars + [current];
        }
        current := StartBar(symbol, k, t.price);
        open := true;
      }
      i := i + 1;
    }
    if open {
      bars := bars + [current];
    }
    assert ticks[..|ticks|] == ticks;
    if NonDecreasingTimes(ticks) {
      SortedForwardPass(symbol, ticks, r);
    }
  }
}
