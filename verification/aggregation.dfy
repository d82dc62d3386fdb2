/**
 Tick-to-bar aggregation as the source writes it: the ticks are grouped by the
 start of their time bucket with LINQ `GroupBy` semantics, and each group
 becomes one OHLC bar.

 `GroupBy` scans its input once, keeping a lookup of groups in the order their
 keys first appear: a tick whose key already has a group is appended to that
 group, any other tick opens a new group at the end. `AddToLookup` is that
 step and `GroupByKey` the scan. The grouping and its laws are stated for any
 key function; `AggregateTicks` instantiates it with the bucket start at a
 resolution.
 */
module Aggregation {
  import opened Market

  /** A group of the lookup: a bucket start and the ticks filed under it. */
  datatype Group = Group(key: nat, ticks: seq<Tick>)

  /** The ticks of `s` whose key is `k`, in input order: the independent
      description of what a group holds. */
  function Bucket(s: seq<Tick>, key: Tick -> nat, k: nat): (b: seq<Tick>)
    ensures |b| <= |s|
    ensures forall i :: 0 <= i < |b| ==> key(b[i]) == k
    ensures |b| == 0 <==> forall q :: 0 <= q < |s| ==> key(s[q]) != k
  {
    if |s| == 0 then []
    else
      var b := Bucket(s[..|s| - 1], key, k);
      var t := s[|s| - 1];
      assert forall q :: 0 <= q < |s| - 1 ==> s[..|s| - 1][q] == s[q];
      if key(t) == k then b + [t] else b
  }

  /** Position of the group with key `k`, or `|gs|` when there is none. */
  function IndexOfKey(gs: seq<Group>, k: nat): (j: nat)
    ensures j <= |gs|
    ensures j < |gs| ==> gs[j].key == k
    ensures forall i :: 0 <= i < j ==> gs[i].key != k
  {
    if |gs| == 0 then 0
    else if gs[0].key == k then 0
    else 1 + IndexOfKey(gs[1..], k)
  }

  /** One step of the lookup: file `t` under its key. */
  function AddToLookup(gs: seq<Group>, t: Tick, key: Tick -> nat): seq<Group>
  {
    var k := key(t);
    var j := IndexOfKey(gs, k);
    if j < |gs| then gs[j := Group(k, gs[j].ticks + [t])]
    else gs + [Group(k, [t])]
  }

  /** The lookup built from `s`, one tick at a time in input order. */
  function GroupByKey(s: seq<Tick>, key: Tick -> nat): seq<Group>
  {
    if |s| == 0 then []
    else AddToLookup(GroupByKey(s[..|s| - 1], key), s[|s| - 1], key)
  }

  /** Highest price among the ticks of `g`. */
  function MaxPrice(g: seq<Tick>): (m: int)
    requires |g| > 0
    ensures forall i :: 0 <= i < |g| ==> g[i].price <= m
    ensures exists i :: 0 <= i < |g| && g[i].price == m
  {
    if |g| == 1 then g[0].price
    else
      var m := MaxPrice(g[..|g| - 1]);
      assert forall i :: 0 <= i < |g| - 1 ==> g[..|g| - 1][i] == g[i];
      if g[|g| - 1].price > m then g[|g| - 1].price else m
  }

  /** Lowest price among the ticks of `g`. */
  function MinPrice(g: seq<Tick>): (m: int)
    requires |g| > 0
    ensures forall i :: 0 <= i < |g| ==> m <= g[i].price
    ensures exists i :: 0 <= i < |g| && g[i].price == m
  {
    if |g| == 1 then g[0].price
    else
      var m := MinPrice(g[..|g| - 1]);
      assert forall i :: 0 <= i < |g| - 1 ==> g[..|g| - 1][i] == g[i];
      if g[|g| - 1].price < m then g[|g| - 1].price else m
  }

  /** The bar of one non-empty group. */
  function ToBar(symbol: Symbol, g: Group): (b: Bar)
    requires |g.ticks| > 0
    ensures b.symbol == symbol && b.time == g.key
    ensures b.low <= b.open <= b.high && b.low <= b.close <= b.high
  {
    Bar(symbol, g.key, g.ticks[0].price, MaxPrice(g.ticks), MinPrice(g.ticks),
        g.ticks[|g.ticks| - 1].price)
  }

  ghost predicate AllNonEmpty(gs: seq<Group>) {
    forall j :: 0 <= j < |gs| ==> |gs[j].ticks| > 0
  }

  /** One bar per group, in group order. */
  function BarsOf(symbol: Symbol, gs: seq<Group>): (bars: seq<Bar>)
    requires AllNonEmpty(gs)
    ensures |bars| == |gs|
    ensures forall j :: 0 <= j < |gs| ==> bars[j] == ToBar(symbol, gs[j])
  {
    seq(|gs|, j requires 0 <= j < |gs| => ToBar(symbol, gs[j]))
  }

  /** The bars of `ticks` for the bucketing `key`, tagged with `symbol`. */
  function AggregateBy(symbol: Symbol, ticks: seq<Tick>, key: Tick -> nat): seq<Bar>
  {
    var gs := GroupByKey(ticks, key);
    LookupNonEmpty(ticks, key);
    BarsOf(symbol, gs)
  }

  /** The bucket start of tick `t` at resolution `r`. */
  function Key(t: Tick, r: nat): nat
    requires r > 0
  {
    RoundDown(t.time, r)
  }

  /** Bucketing by resolution `r`, as a key function. */
  function BucketOf(r: nat): (key: Tick -> nat)
    requires r > 0
    ensures forall t :: key(t) == Key(t, r)
  {
    t => Key(t, r)
  }

  /** The bars of `ticks` at resolution `r`, tagged with `symbol`. */
  function AggregateTicks(symbol: Symbol, ticks: seq<Tick>, r: nat): seq<Bar>
    requires r > 0
  {
    AggregateBy(symbol, ticks, BucketOf(r))
  }

  // ---------------------------------------------------------------------
  // What the lookup holds

  ghost predicate DistinctKeys(gs: seq<Group>) {
    forall i, j :: 0 <= i < j < |gs| ==> gs[i].key != gs[j].key
  }

  /** Index of the first tick of `s` with key `k`, or `|s|` when none has it. */
  function FirstIndex(s: seq<Tick>, key: Tick -> nat, k: nat): (q: nat)
    ensures q <= |s|
    ensures q < |s| ==> key(s[q]) == k
    ensures forall p :: 0 <= p < q ==> key(s[p]) != k
  {
    if |s| == 0 then 0
    else if key(s[0]) == k then 0
    else 1 + FirstIndex(s[1..], key, k)
  }

  ghost predicate GroupsAreBuckets(s: seq<Tick>, key: Tick -> nat, gs: seq<Group>)
  {
    forall j :: 0 <= j < |gs| ==> gs[j].ticks == Bucket(s, key, gs[j].key)
  }

  ghost predicate Covers(s: seq<Tick>, key: Tick -> nat, gs: seq<Group>)
  {
    forall q :: 0 <= q < |s| ==> exists j :: 0 <= j < |gs| && gs[j].key == key(s[q])
  }

  ghost predicate FirstAppearanceOrder(s: seq<Tick>, key: Tick -> nat, gs: seq<Group>)
  {
    forall i, j :: 0 <= i < j < |gs| ==> FirstIndex(s, key, gs[i].key) < FirstIndex(s, key, gs[j].key)
  }

  /** `gs` is the grouping of `s`: distinct keys, each group is exactly the
      non-empty bucket of its key, every tick's key has a group, and groups
      are in order of first appearance. */
  ghost predicate IsLookupOf(s: seq<Tick>, key: Tick -> nat, gs: seq<Group>)
  {
    && DistinctKeys(gs)
    && GroupsAreBuckets(s, key, gs)
    && AllNonEmpty(gs)
    && Covers(s, key, gs)
    && FirstAppearanceOrder(s, key, gs)
  }

  lemma {:induction false} BucketSnoc(s: seq<Tick>, t: Tick, key: Tick -> nat, k: nat)
    ensures Bucket(s + [t], key, k) == Bucket(s, key, k) + (if key(t) == k then [t] else [])
  {
    assert (s + [t])[..|s|] == s;
  }

  /** Appending a tick moves no first occurrence that already exists. */
  lemma {:induction false} FirstIndexSnoc(s: seq<Tick>, t: Tick, key: Tick -> nat, k: nat)
    ensures FirstIndex(s, key, k) < |s| ==> FirstIndex(s + [t], key, k) == FirstIndex(s, key, k)
    ensures FirstIndex(s, key, k) == |s| && key(t) == k ==> FirstIndex(s + [t], key, k) == |s|
  {
    var s' := s + [t];
    var f, f' := FirstIndex(s, key, k), FirstIndex(s', key, k);
    assert forall q :: 0 <= q < |s| ==> s'[q] == s[q];
    if f < |s| {
      assert key(s'[f]) == k;
    } else if key(t) == k {
      assert key(s'[|s|]) == k;
    }
  }

  /** A non-empty bucket has a tick of its key in the input. */
  lemma {:induction false} BucketWitness(s: seq<Tick>, key: Tick -> nat, k: nat)
    requires |Bucket(s, key, k)| > 0
    ensures FirstIndex(s, key, k) < |s|
  {
    var q :| 0 <= q < |s| && key(s[q]) == k;
  }

  /** Filing a tick whose key already has a group keeps the lookup exact. */
  lemma {:induction false} AddExisting(s: seq<Tick>, t: Tick, key: Tick -> nat, gs: seq<Group>)
    requires IsLookupOf(s, key, gs)
    requires IndexOfKey(gs, key(t)) < |gs|
    ensures IsLookupOf(s + [t], key, AddToLookup(gs, t, key))
  {
    var s' := s + [t];
    var k := key(t);
    var j := IndexOfKey(gs, k);
    var gs' := AddToLookup(gs, t, key);
    assert gs' == gs[j := Group(k, gs[j].ticks + [t])];
    assert |gs'| == |gs|;
    assert forall i :: 0 <= i < |gs| ==> gs'[i].key == gs[i].key;
    ExistingBuckets(s, t, key, gs);
    forall i | 0 <= i < |gs'|
      ensures FirstIndex(s', key, gs'[i].key) == FirstIndex(s, key, gs[i].key)
    {
      BucketWitness(s, key, gs[i].key);
      FirstIndexSnoc(s, t, key, gs[i].key);
    }
    assert FirstAppearanceOrder(s', key, gs');
    assert DistinctKeys(gs');
    assert AllNonEmpty(gs');
    ExistingCovers(s, t, key, gs);
  }

  lemma {:induction false} ExistingBuckets(s: seq<Tick>, t: Tick, key: Tick -> nat, gs: seq<Group>)
    requires DistinctKeys(gs) && GroupsAreBuckets(s, key, gs)
    requires IndexOfKey(gs, key(t)) < |gs|
    ensures GroupsAreBuckets(s + [t], key, AddToLookup(gs, t, key))
  {
    var k := key(t);
    var j := IndexOfKey(gs, k);
    var gs' := AddToLookup(gs, t, key);
    forall i | 0 <= i < |gs'|
      ensures gs'[i].ticks == Bucket(s + [t], key, gs'[i].key)
    {
      BucketSnoc(s, t, key, gs[i].key);
    }
  }

  lemma {:induction false} ExistingCovers(s: seq<Tick>, t: Tick, key: Tick -> nat, gs: seq<Group>)
    requires Covers(s, key, gs)
    requires IndexOfKey(gs, key(t)) < |gs|
    ensures Covers(s + [t], key, AddToLookup(gs, t, key))
  {
    var s' := s + [t];
    var j := IndexOfKey(gs, key(t));
    var gs' := AddToLookup(gs, t, key);
    assert gs' == gs[j := Group(key(t), gs[j].ticks + [t])];
    assert forall i :: 0 <= i < |gs| ==> gs'[i].key == gs[i].key;
    forall q | 0 <= q < |s'|
      ensures exists i :: 0 <= i < |gs'| && gs'[i].key == key(s'[q])
    {
      if q == |s| {
        assert gs'[j].key == key(s'[q]);
      } else {
        assert s'[q] == s[q];
        var i :| 0 <= i < |gs| && gs[i].key == key(s[q]);
        assert gs'[i].key == key(s'[q]);
      }
    }
  }

  /** Filing a tick with a key not seen before opens a group at the end. */
  lemma {:induction false} AddNew(s: seq<Tick>, t: Tick, key: Tick -> nat, gs: seq<Group>)
    requires IsLookupOf(s, key, gs)
    requires IndexOfKey(gs, key(t)) == |gs|
    ensures IsLookupOf(s + [t], key, AddToLookup(gs, t, key))
  {
    var gs' := AddToLookup(gs, t, key);
    assert gs' == gs + [Group(key(t), [t])];
    assert forall i :: 0 <= i < |gs| ==> gs'[i] == gs[i];
    NewKeyUnseen(s, key, gs, key(t));
    NewBuckets(s, t, key, gs);
    NewOrder(s, t, key, gs);
    NewCovers(s, t, key, gs);
    assert DistinctKeys(gs');
    assert AllNonEmpty(gs');
  }

  lemma {:induction false} NewOrder(s: seq<Tick>, t: Tick, key: Tick -> nat, gs: seq<Group>)
    requires GroupsAreBuckets(s, key, gs) && AllNonEmpty(gs) && FirstAppearanceOrder(s, key, gs)
    requires forall q :: 0 <= q < |s| ==> key(s[q]) != key(t)
    requires IndexOfKey(gs, key(t)) == |gs|
    ensures FirstAppearanceOrder(s + [t], key, AddToLookup(gs, t, key))
  {
    var s' := s + [t];
    var k := key(t);
    var gs' := AddToLookup(gs, t, key);
    assert gs' == gs + [Group(k, [t])];
    FirstIndexSnoc(s, t, key, k);
    forall i | 0 <= i < |gs|
      ensures FirstIndex(s', key, gs'[i].key) == FirstIndex(s, key, gs[i].key) < |s|
    {
      assert gs'[i] == gs[i];
      BucketWitness(s, key, gs[i].key);
      FirstIndexSnoc(s, t, key, gs[i].key);
    }
    assert FirstIndex(s', key, gs'[|gs|].key) == |s|;
  }

  lemma {:induction false} NewKeyUnseen(s: seq<Tick>, key: Tick -> nat, gs: seq<Group>, k: nat)
    requires Covers(s, key, gs)
    requires IndexOfKey(gs, k) == |gs|
    ensures forall q :: 0 <= q < |s| ==> key(s[q]) != k
  {
    forall q | 0 <= q < |s| ensures key(s[q]) != k {
      var i :| 0 <= i < |gs| && gs[i].key == key(s[q]);
    }
  }

  lemma {:induction false} NewBuckets(s: seq<Tick>, t: Tick, key: Tick -> nat, gs: seq<Group>)
    requires GroupsAreBuckets(s, key, gs)
    requires forall q :: 0 <= q < |s| ==> key(s[q]) != key(t)
    requires IndexOfKey(gs, key(t)) == |gs|
    ensures GroupsAreBuckets(s + [t], key, AddToLookup(gs, t, key))
  {
    var k := key(t);
    var gs' := AddToLookup(gs, t, key);
    assert gs' == gs + [Group(k, [t])];
    forall i | 0 <= i < |gs'|
      ensures gs'[i].ticks == Bucket(s + [t], key, gs'[i].key)
    {
      BucketSnoc(s, t, key, gs'[i].key);
    }
  }

  lemma {:induction false} NewCovers(s: seq<Tick>, t: Tick, key: Tick -> nat, gs: seq<Group>)
    requires Covers(s, key, gs)
    requires IndexOfKey(gs, key(t)) == |gs|
    ensures Covers(s + [t], key, AddToLookup(gs, t, key))
  {
    var s' := s + [t];
    var gs' := AddToLookup(gs, t, key);
    assert gs' == gs + [Group(key(t), [t])];
    assert forall i :: 0 <= i < |gs| ==> gs'[i] == gs[i];
    forall q | 0 <= q < |s'|
      ensures exists i :: 0 <= i < |gs'| && gs'[i].key == key(s'[q])
    {
      if q == |s| {
        assert gs'[|gs|].key == key(s'[q]);
      } else {
        assert s'[q] == s[q];
        var i :| 0 <= i < |gs| && gs[i].key == key(s[q]);
        assert gs'[i].key == key(s'[q]);
      }
    }
  }

  /** The scan of the whole input is exactly its grouping. */
  lemma {:induction false} LookupInvariant(s: seq<Tick>, key: Tick -> nat)
    ensures IsLookupOf(s, key, GroupByKey(s, key))
  {
    if |s| > 0 {
      var p, t := s[..|s| - 1], s[|s| - 1];
      assert p + [t] == s;
      var gs := GroupByKey(p, key);
      LookupInvariant(p, key);
      if IndexOfKey(gs, key(t)) < |gs| {
        AddExisting(p, t, key, gs);
      } else {
        AddNew(p, t, key, gs);
      }
    }
  }

  // The conjuncts of `LookupInvariant` one at a time, so that a proof can
  // take just the facts it needs.

  lemma {:induction false} LookupNonEmpty(s: seq<Tick>, key: Tick -> nat)
    ensures AllNonEmpty(GroupByKey(s, key))
  {
    LookupInvariant(s, key);
  }

  lemma {:induction false} LookupDistinct(s: seq<Tick>, key: Tick -> nat)
    ensures DistinctKeys(GroupByKey(s, key))
  {
    LookupInvariant(s, key);
  }

  lemma {:induction false} LookupBuckets(s: seq<Tick>, key: Tick -> nat)
    ensures GroupsAreBuckets(s, key, GroupByKey(s, key))
  {
    LookupInvariant(s, key);
  }

  lemma {:induction false} LookupCovers(s: seq<Tick>, key: Tick -> nat)
    ensures Covers(s, key, GroupByKey(s, key))
  {
    LookupInvariant(s, key);
  }

  lemma {:induction false} LookupOrder(s: seq<Tick>, key: Tick -> nat)
    ensures FirstAppearanceOrder(s, key, GroupByKey(s, key))
  {
    LookupInvariant(s, key);
  }
}
