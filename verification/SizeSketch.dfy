/** `SizeSketch` of crates/kaas-ui-core/src/analysis.rs: the histogram as it is filled, and its percentiles. */
module SizeSketches {
  import opened Text
  import opened Numbers
  import opened Ordered
  import opened SizeHistogram

  /** `saturating_add` on 64 bits. */
  function SatAdd(a: nat, b: nat): U64 { Min(a + b, U64_MAX) }

  function Clamp(x: nat, low: nat, high: nat): nat { Min(Max(x, low), high) }

  // ----- counting maps -----

  function CountAt<K>(counts: map<K, nat>, key: K): nat {
    if key in counts then counts[key] else 0
  }

  /** `*entry(key).or_insert(0) += 1`. */
  function Bump<K>(counts: map<K, nat>, key: K): map<K, nat> {
    counts[key := CountAt(counts, key) + 1]
  }

  function AddCounts<K>(a: map<K, nat>, b: map<K, nat>): map<K, nat> {
    map key | key in a.Keys + b.Keys :: CountAt(a, key) + CountAt(b, key)
  }

  lemma AddBumped<K>(a: map<K, nat>, b: map<K, nat>, key: K)
    ensures AddCounts(a, Bump(b, key)) == Bump(AddCounts(a, b), key)
  {
    assert AddCounts(a, Bump(b, key)).Keys == Bump(AddCounts(a, b), key).Keys;
  }

  lemma AddCommutes<K>(a: map<K, nat>, b: map<K, nat>)
    ensures AddCounts(a, b) == AddCounts(b, a)
  {
    assert a.Keys + b.Keys == b.Keys + a.Keys;
  }

  // ----- the sketch as a value -----

  datatype Sizes = Sizes(count: nat, sum: U64, min: nat, max: nat, buckets: map<nat, nat>) {

    function Offer(value: U64): Sizes {
      Sizes(count + 1, SatAdd(sum, value), Min(min, value), Max(max, value), Bump(buckets, SizeBucket(value)))
    }

    /** The sketch of two streams, from the sketches of each. */
    function Join(other: Sizes): Sizes {
      Sizes(count + other.count, SatAdd(sum, other.sum), Min(min, other.min), Max(max, other.max),
            AddCounts(buckets, other.buckets))
    }
  }

  const NO_SIZES := Sizes(0, 0, U64_MAX, 0, map[])

  function SketchOf(values: seq<U64>): (sketch: Sizes)
    ensures sketch.count == |values|
  {
    if values == [] then NO_SIZES else SketchOf(values[..|values| - 1]).Offer(values[|values| - 1])
  }

  lemma JoinOffered(a: Sizes, b: Sizes, value: U64)
    ensures a.Join(b.Offer(value)) == a.Join(b).Offer(value)
    ensures a.Offer(value).Join(b) == a.Join(b).Offer(value)
  {
    hide AddCounts, Bump, SizeBucket;
    var bucket := SizeBucket(value);
    AddBumped(a.buckets, b.buckets, bucket);
    AddCommutes(Bump(a.buckets, bucket), b.buckets);
    AddBumped(b.buckets, a.buckets, bucket);
    AddCommutes(a.buckets, b.buckets);
  }

  // ----- order statistics -----

  /** How many of the values are below a bound. */
  function Below(values: seq<nat>, bound: nat): (n: nat)
    ensures n <= |values|
  {
    if values == [] then 0
    else Below(values[..|values| - 1], bound) + if values[|values| - 1] < bound then 1 else 0
  }

  /** `x` is the k-th smallest of the values, counting from 1. */
  predicate IsOrderStatistic(values: seq<nat>, k: nat, x: nat) {
    Below(values, x) < k <= Below(values, x + 1)
  }

  lemma {:induction false} BelowMonotone(values: seq<nat>, a: nat, b: nat)
    requires a <= b
    ensures Below(values, a) <= Below(values, b)
  {
    if values != [] {
      BelowMonotone(values[..|values| - 1], a, b);
    }
  }

  lemma {:induction false} BelowSkips(values: seq<nat>, a: nat, b: nat)
    requires a <= b && forall v | v in values :: v < a || b <= v
    ensures Below(values, a) == Below(values, b)
  {
    if values != [] {
      var front, last := values[..|values| - 1], values[|values| - 1];
      assert last in values && forall v | v in front :: v in values;
      BelowSkips(front, a, b);
    }
  }

  lemma {:induction false} BelowAll(values: seq<nat>, bound: nat)
    requires forall v | v in values :: v < bound
    ensures Below(values, bound) == |values|
  {
    if values != [] {
      var front := values[..|values| - 1];
      assert values[|values| - 1] in values && forall v | v in front :: v in values;
      BelowAll(front, bound);
    }
  }

  lemma {:induction false} BelowNone(values: seq<nat>)
    ensures Below(values, 0) == 0
  {
    if values != [] {
      BelowNone(values[..|values| - 1]);
    }
  }

  lemma OrderStatisticUnique(values: seq<nat>, j: nat, k: nat, x: nat, y: nat)
    requires j <= k && IsOrderStatistic(values, j, x) && IsOrderStatistic(values, k, y)
    ensures x <= y
  {
    if y < x {
      BelowMonotone(values, y + 1, x);
    }
  }

  lemma {:induction false} OrderStatisticBelow(values: seq<nat>, k: nat, bound: nat) returns (x: nat)
    requires 1 <= k <= Below(values, bound)
    ensures IsOrderStatistic(values, k, x)
  {
    BelowNone(values);
    if k <= Below(values, bound - 1) {
      x := OrderStatisticBelow(values, k, bound - 1);
    } else {
      x := bound - 1;
    }
  }

  lemma OrderStatisticExists(values: seq<U64>, k: nat)
    requires 1 <= k <= |values|
    ensures exists x: nat :: IsOrderStatistic(values, k, x)
  {
    BelowAll(values, U64_MAX + 1);
    var x := OrderStatisticBelow(values, k, U64_MAX + 1);
  }

  /** The k-th smallest of the values. */
  ghost function OrderStatistic(values: seq<U64>, k: nat): (x: nat)
    requires 1 <= k <= |values|
    ensures IsOrderStatistic(values, k, x)
  {
    OrderStatisticExists(values, k);
    var x: nat :| IsOrderStatistic(values, k, x);
    x
  }

  /** In a sorted sequence the k-th smallest is the one at index k - 1. */
  lemma OrderStatisticOfSorted(sorted: seq<U64>, k: nat)
    requires forall i, j | 0 <= i <= j < |sorted| :: sorted[i] <= sorted[j]
    requires 1 <= k <= |sorted|
    ensures OrderStatistic(sorted, k) == sorted[k - 1]
  {
    var x: nat := sorted[k - 1];
    BelowPrefix(sorted, k - 1, x);
    BelowPrefix(sorted, k, x + 1);
    BelowAll(sorted[..k], x + 1);
    BelowSuffix(sorted, k - 1, x);
    OrderStatisticUnique(sorted, k, k, x, OrderStatistic(sorted, k));
    OrderStatisticUnique(sorted, k, k, OrderStatistic(sorted, k), x);
  }

  lemma {:induction false} BelowWithout(values: seq<nat>, i: nat, bound: nat)
    requires i < |values|
    ensures Below(values, bound) == Below(values[..i] + values[i + 1..], bound) + if values[i] < bound then 1 else 0
  {
    var n := |values| - 1;
    if i == n {
      assert values[..i] + values[i + 1..] == values[..n];
    } else {
      BelowWithout(values[..n], i, bound);
      var rest := values[..i] + values[i + 1..];
      assert rest[..|rest| - 1] == values[..n][..i] + values[..n][i + 1..];
      assert rest[|rest| - 1] == values[n];
    }
  }

  lemma {:induction false} BelowOfPermutation(a: seq<nat>, b: seq<nat>, bound: nat)
    requires multiset(a) == multiset(b)
    ensures Below(a, bound) == Below(b, bound)
  {
    if a == [] {
      assert |multiset(b)| == 0;
    } else {
      var last := a[|a| - 1];
      assert a == a[..|a| - 1] + [last];
      assert last in multiset(b);
      var i :| 0 <= i < |b| && b[i] == last;
      var rest := b[..i] + b[i + 1..];
      assert b == b[..i] + [last] + b[i + 1..];
      assert multiset(a[..|a| - 1]) == multiset(a) - multiset{last};
      assert multiset(rest) == multiset(b[..i]) + multiset(b[i + 1..]) == multiset(b) - multiset{last};
      BelowOfPermutation(a[..|a| - 1], rest, bound);
      BelowWithout(b, i, bound);
    }
  }

  /** The order of arrival does not matter: the k-th smallest is the k-th once the values are sorted. */
  lemma OrderStatisticBySorting(values: seq<U64>, sorted: seq<U64>, k: nat)
    requires multiset(values) == multiset(sorted)
    requires forall i, j | 0 <= i <= j < |sorted| :: sorted[i] <= sorted[j]
    requires 1 <= k <= |values|
    ensures |sorted| == |values| && OrderStatistic(values, k) == sorted[k - 1]
  {
    assert |values| == |multiset(values)| == |sorted|;
    OrderStatisticOfSorted(sorted, k);
    var x := OrderStatistic(sorted, k);
    BelowOfPermutation(values, sorted, x);
    BelowOfPermutation(values, sorted, x + 1);
    OrderStatisticUnique(values, k, k, x, OrderStatistic(values, k));
    OrderStatisticUnique(values, k, k, OrderStatistic(values, k), x);
  }

  lemma {:induction false} BelowPrefix(values: seq<nat>, i: nat, bound: nat)
    requires i <= |values|
    ensures Below(values[..i], bound) <= Below(values, bound)
  {
    if i == |values| {
      assert values[..i] == values;
    } else {
      assert values[..|values| - 1][..i] == values[..i];
      BelowPrefix(values[..|values| - 1], i, bound);
    }
  }

  lemma {:induction false} BelowSuffix(values: seq<nat>, i: nat, bound: nat)
    requires i <= |values| && forall j | i <= j < |values| :: bound <= values[j]
    ensures Below(values, bound) <= i
  {
    if i < |values| {
      BelowSuffix(values[..|values| - 1], i, bound);
    }
  }

  // ----- what the fields mean -----

  /** `min` and `max` are the least and the greatest value. */
  lemma {:induction false} SketchBounds(values: seq<U64>)
    requires values != []
    ensures SketchOf(values).min in values && SketchOf(values).max in values
    ensures forall v | v in values :: SketchOf(values).min <= v <= SketchOf(values).max
  {
    var front, last := values[..|values| - 1], values[|values| - 1];
    assert forall v :: v in values <==> v in front || v == last;
    if front != [] {
      SketchBounds(front);
    }
  }

  /** A bucket counts the values in its range, and only buckets with a value are there. */
  lemma {:induction false} SketchBuckets(values: seq<U64>, bucket: nat)
    ensures CountAt(SketchOf(values).buckets, bucket)
         == Below(values, BucketLow(bucket + 1)) - Below(values, BucketLow(bucket))
    ensures bucket in SketchOf(values).buckets <==> exists v | v in values :: SizeBucket(v) == bucket
  {
    if values != [] {
      var front, last := values[..|values| - 1], values[|values| - 1];
      SketchBuckets(front, bucket);
      BucketIsARange(last, bucket);
      BucketLowMonotone(bucket, bucket + 1);
      assert forall v :: v in values <==> v in front || v == last;
    }
  }

  lemma SketchGrown(values: seq<U64>, value: U64)
    ensures SketchOf(values + [value]) == SketchOf(values).Offer(value)
  {
    assert (values + [value])[..|values|] == values;
  }

  // ----- quantiles -----

  function Ceil(x: real): int { -((-x).Floor) }

  function Scaled(q: real, n: nat): real { q * n as real }

  /** The rank a quantile asks for: `max(1, ceil(q * n))`, and never past the count. */
  function Rank(q: real, n: nat): (k: nat)
    requires n >= 1
    ensures 1 <= k <= n
  {
    var target := Ceil(Scaled(q, n));
    if target < 1 then 1 else if target > n then n else target
  }

  /** The least whole number no smaller than `x`. */
  lemma CeilMeans(x: real, j: int)
    ensures Ceil(x) <= j <==> x <= j as real
  {
    assert (-x).Floor >= -j <==> -x >= (-j) as real;
  }

  lemma FullScale(q: real, n: nat)
    requires n >= 1
    ensures q <= 1.0 ==> Scaled(q, n) <= n as real
    ensures q > 1.0 ==> Scaled(q, n) > n as real
  {
    if q > 1.0 {
      assert (q - 1.0) * n as real > 0.0;
    } else {
      assert (1.0 - q) * n as real >= 0.0;
    }
  }

  /**
    Which rank a quantile asks for: the first that reaches its share of the count. A quantile above one is
    answered with the largest value.
  */
  lemma RankMeans(q: real, n: nat, j: nat)
    requires 1 <= j <= n
    ensures q <= 1.0 ==> (Rank(q, n) <= j <==> q * n as real <= j as real)
    ensures q > 1.0 ==> Rank(q, n) == n
  {
    assert Scaled(q, n) == q * n as real;
    hide Ceil, Scaled;
    FullScale(q, n);
    CeilMeans(Scaled(q, n), j);
    CeilMeans(Scaled(q, n), 0);
    CeilMeans(Scaled(q, n), n);
  }

  lemma RankMonotone(p: real, q: real, n: nat)
    requires n >= 1 && p <= q
    ensures Rank(p, n) <= Rank(q, n)
  {
    hide Scaled, Ceil;
    ScaledMonotone(p, q, n);
    CeilMonotone(Scaled(p, n), Scaled(q, n));
  }

  lemma CeilMonotone(x: real, y: real)
    requires x <= y
    ensures Ceil(x) <= Ceil(y)
  {
    assert (-y).Floor as real <= -y <= -x;
  }

  lemma ScaledStep(q: real, n: nat)
    ensures Scaled(q, 0) == 0.0 && Scaled(q, n + 1) == Scaled(q, n) + q
  {
    assert (n + 1) as real == n as real + 1.0;
  }

  lemma {:induction false} ScaledMonotone(p: real, q: real, n: nat)
    requires p <= q
    ensures Scaled(p, n) <= Scaled(q, n)
  {
    hide Scaled;
    ScaledStep(p, if n > 0 then n - 1 else 0);
    ScaledStep(q, if n > 0 then n - 1 else 0);
    if n > 0 {
      ScaledMonotone(p, q, n - 1);
    }
  }

  /** What a percentile answers: the midpoint of the true order statistic's bucket, within the exact bounds. */
  ghost function Estimate(values: seq<U64>, k: nat): (estimate: nat)
    requires 1 <= k <= |values|
  {
    var x := OrderStatistic(values, k);
    OrderStatisticOffered(values, k);
    NothingOverflows(x, 0);
    Clamp(SizeRepresentative(SizeBucket(x)), SketchOf(values).min, SketchOf(values).max)
  }

  lemma OrderStatisticOffered(values: seq<U64>, k: nat)
    requires 1 <= k <= |values|
    ensures OrderStatistic(values, k) in values
  {
    var x := OrderStatistic(values, k);
    if x !in values {
      BelowSkips(values, x, x + 1);
    }
  }

  /** Every percentile is within 1/16 of the true order statistic, and inside the exact bounds. */
  lemma EstimateIsNear(values: seq<U64>, k: nat)
    requires 1 <= k <= |values|
    ensures Near(Estimate(values, k), OrderStatistic(values, k))
    ensures SketchOf(values).min <= Estimate(values, k) <= SketchOf(values).max
  {
    OrderStatisticOffered(values, k);
    SketchBounds(values);
    RepresentativeIsNear(OrderStatistic(values, k));
  }

  /** Percentiles are in order: a higher quantile never answers less. */
  lemma EstimateMonotone(values: seq<U64>, j: nat, k: nat)
    requires 1 <= j <= k <= |values|
    ensures Estimate(values, j) <= Estimate(values, k)
  {
    var x, y := OrderStatistic(values, j), OrderStatistic(values, k);
    OrderStatisticUnique(values, j, k, x, y);
    OrderStatisticOffered(values, j);
    OrderStatisticOffered(values, k);
    NothingOverflows(x, 0);
    NothingOverflows(y, 0);
    SizeBucketMonotone(x, y);
    RepresentativeMonotone(SizeBucket(x), SizeBucket(y));
  }

  lemma QuantileMonotone(values: seq<U64>, p: real, q: real)
    requires values != [] && p <= q
    ensures Estimate(values, Rank(p, |values|)) <= Estimate(values, Rank(q, |values|))
  {
    RankMonotone(p, q, |values|);
    EstimateMonotone(values, Rank(p, |values|), Rank(q, |values|));
  }

  lemma RepresentativeMonotone(a: nat, b: nat)
    requires a <= b < BUCKETS
    ensures SizeRepresentative(a) <= SizeRepresentative(b)
  {
    if SizeRepresentative(b) < SizeRepresentative(a) {
      SizeBucketMonotone(SizeRepresentative(b), SizeRepresentative(a));
      RepresentativeInItsBucket(a);
      RepresentativeInItsBucket(b);
    }
  }

  /** Values that are all one size are answered exactly, at every quantile. */
  lemma OneSizeIsExact(values: seq<U64>, size: U64, k: nat)
    requires 1 <= k <= |values| && forall v | v in values :: v == size
    ensures Estimate(values, k) == size
  {
    SketchBounds(values);
    EstimateIsNear(values, k);
  }

  // ----- the sketch as it is kept -----

  class SizeSketch {
    var count: nat
    var sum: U64
    var min: nat
    var max: nat
    var buckets: map<nat, nat>
    ghost var offered: seq<U64>

    ghost function View(): Sizes
      reads this
    {
      Sizes(count, sum, min, max, buckets)
    }

    ghost predicate Valid()
      reads this
    {
      View() == SketchOf(offered)
    }

    constructor ()
      ensures Valid() && offered == []
    {
      count, sum, min, max := 0, 0, U64_MAX, 0;
      buckets, offered := map[], [];
    }

    method Offer(value: U64)
      requires Valid()
      modifies this
      ensures Valid() && offered == old(offered) + [value]
    {
      hide SizeBucket;
      SketchGrown(offered, value);
      count := count + 1;
      sum := Min(sum + value, U64_MAX);
      min := Min(min, value);
      max := Max(max, value);
      var bucket := SizeBucket(value);
      var before := if bucket in buckets then buckets[bucket] else 0;
      buckets := buckets[bucket := before + 1];
      offered := offered + [value];
    }

    /** One percentile: a walk up the buckets until enough values are behind. */
    method Quantile(q: real) returns (value: Option<nat>)
      requires Valid()
      ensures value == if offered == [] then None else Some(Estimate(offered, Rank(q, |offered|)))
    {
      if count == 0 {
        return None;
      }
      var target := Rank(q, count);
      var order := IntKeysOf(buckets);
      var seen := 0;
      BelowNone(offered);
      for i := 0 to |order|
        invariant seen == if i == 0 then 0 else Below(offered, BucketLow(order[i - 1] + 1))
        invariant seen < target
      {
        var bucket := order[i];
        SeenBefore(offered, order, i);
        SketchBuckets(offered, bucket);
        seen := seen + buckets[bucket];
        if seen >= target {
          RankInBucket(offered, target, bucket);
          return Some(Clamp(SizeRepresentative(bucket), min, max));
        }
      }
      // The source falls back to the maximum here; no count gets this far.
      SeenAll(offered, order);
      assert false;
    }
  }

  /** The buckets in key order. */
  method IntKeysOf(buckets: map<nat, nat>) returns (order: seq<nat>)
    ensures forall b :: b in order <==> b in buckets
    ensures forall i, j | 0 <= i < j < |order| :: order[i] < order[j]
  {
    var keys := IntKeys(set b: int | b in buckets.Keys);
    assert forall b | b in keys :: b in buckets;
    order := keys;
  }

  /** `order` lists the sketch's buckets, smallest first. */
  ghost predicate BucketOrder(values: seq<U64>, order: seq<nat>) {
    && (forall b :: b in order <==> b in SketchOf(values).buckets)
    && forall i, j | 0 <= i < j < |order| :: order[i] < order[j]
  }

  lemma SeenBefore(values: seq<U64>, order: seq<nat>, i: nat)
    requires BucketOrder(values, order) && i < |order|
    ensures (if i == 0 then 0 else Below(values, BucketLow(order[i - 1] + 1))) == Below(values, BucketLow(order[i]))
    ensures order[i] < BUCKETS
  {
    hide SizeBucket, SketchOf, Below;
    var from := if i == 0 then 0 else order[i - 1] + 1;
    BelowNone(values);
    BucketLowMonotone(from, order[i]);
    forall v | v in values ensures v < BucketLow(from) || BucketLow(order[i]) <= v {
      SketchBuckets(values, SizeBucket(v));
      ValueInItsBucket(v);
      var at :| 0 <= at < |order| && order[at] == SizeBucket(v);
      if at < i {
        BucketLowMonotone(SizeBucket(v) + 1, from);
      } else {
        BucketLowMonotone(order[i], SizeBucket(v));
      }
    }
    BelowSkips(values, BucketLow(from), BucketLow(order[i]));
    SketchBuckets(values, order[i]);
    assert order[i] in SketchOf(values).buckets;
    var v :| v in values && SizeBucket(v) == order[i];
    NothingOverflows(v, 0);
  }

  lemma SeenAll(values: seq<U64>, order: seq<nat>)
    requires BucketOrder(values, order) && values != []
    ensures order != [] && Below(values, BucketLow(order[|order| - 1] + 1)) == |values|
  {
    hide BucketLow, SizeBucket, SketchOf, Below;
    var first := values[0];
    SketchBuckets(values, SizeBucket(first));
    assert first in values && SizeBucket(first) in order;
    var last := order[|order| - 1];
    forall v | v in values ensures v < BucketLow(last + 1) {
      SketchBuckets(values, SizeBucket(v));
      ValueInItsBucket(v);
      var at :| 0 <= at < |order| && order[at] == SizeBucket(v);
      BucketLowMonotone(SizeBucket(v) + 1, last + 1);
    }
    BelowAll(values, BucketLow(last + 1));
  }

  /** The bucket that carries the walk past a rank is the bucket of that rank's value. */
  lemma RankInBucket(values: seq<U64>, k: nat, bucket: nat)
    requires 1 <= k <= |values| && bucket < BUCKETS
    requires Below(values, BucketLow(bucket)) < k <= Below(values, BucketLow(bucket + 1))
    ensures Estimate(values, k) == Clamp(SizeRepresentative(bucket), SketchOf(values).min, SketchOf(values).max)
  {
    hide BucketLow, SizeBucket, SizeRepresentative, SketchOf, Below;
    var x := OrderStatistic(values, k);
    if x < BucketLow(bucket) {
      BelowMonotone(values, x + 1, BucketLow(bucket));
    }
    if BucketLow(bucket + 1) <= x {
      BelowMonotone(values, BucketLow(bucket + 1), x);
    }
    BucketIsARange(x, bucket);
  }
}
