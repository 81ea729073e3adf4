/** The log-bucketed size histogram of crates/kaas-ui-core/src/analysis.rs, and what its percentiles mean. */
module SizeHistogram {
  import opened Bits

  const U64_MAX: nat := 0xFFFF_FFFF_FFFF_FFFF

  type U64 = v: nat | v <= U64_MAX

  /** `size_bucket` of 2^64 - 1 is the last bucket. */
  const BUCKETS: nat := 496

  // ----- buckets -----

  /** `size_bucket`: exact below 8, then eight sub-buckets to the octave. */
  function SizeBucket(value: nat): nat {
    if value < 8 then value
    else
      var octave := Log2(value);
      OctaveIsThree(value);
      (octave - 2) * 8 + value / Pow2(octave - 3) % 8
  }

  lemma OctaveIsThree(value: nat)
    requires value >= 8
    ensures Log2(value) >= 3
  {
    if Log2(value) < 3 {
      Pow2Monotone(Log2(value) + 1, 3);
    }
    assert Pow2(3) == 8;
  }

  /** `size_representative`: the midpoint of a bucket. */
  function SizeRepresentative(bucket: nat): nat
    requires bucket < BUCKETS
  {
    if bucket < 8 then bucket
    else
      var octave := bucket / 8 + 2;
      var sub := bucket % 8;
      Pow2(octave) + sub * Pow2(octave - 3) + Pow2(octave - 3) / 2
  }

  /** The smallest value of a bucket. */
  function BucketLow(bucket: nat): nat {
    if bucket < 8 then bucket else (8 + bucket % 8) * Pow2(bucket / 8 - 1)
  }

  /** How many values a bucket holds. */
  function BucketWidth(bucket: nat): (w: nat)
    ensures w >= 1
  {
    if bucket < 8 then 1 else Pow2(bucket / 8 - 1)
  }

  lemma Doubling(e: nat)
    ensures Pow2(0) == 1 && Pow2(e + 1) == 2 * Pow2(e)
  {
  }

  lemma NextEighth(bucket: nat)
    ensures bucket % 8 == 7 ==> (bucket + 1) / 8 == bucket / 8 + 1 && (bucket + 1) % 8 == 0
    ensures bucket % 8 != 7 ==> (bucket + 1) / 8 == bucket / 8 && (bucket + 1) % 8 == bucket % 8 + 1
  {
  }

  /** Each bucket starts where the one before it ends. */
  lemma BucketsAbut(bucket: nat)
    ensures BucketLow(bucket) + BucketWidth(bucket) == BucketLow(bucket + 1)
  {
    hide Pow2;
    Doubling(if bucket >= 8 then bucket / 8 - 1 else 0);
    if bucket >= 7 {
      NextEighth(bucket);
    }
  }

  lemma {:induction false} BucketLowMonotone(a: nat, b: nat)
    requires a <= b
    ensures BucketLow(a) <= BucketLow(b)
  {
    if a < b {
      BucketLowMonotone(a, b - 1);
      BucketsAbut(b - 1);
    }
  }

  lemma DivideByEight(a: nat, s: nat)
    requires s < 8
    ensures (a * 8 + s) / 8 == a && (a * 8 + s) % 8 == s
  {
  }

  /** The bucket of the q-th eighth of an octave. */
  lemma BucketShape(e: nat, q: nat)
    requires 8 <= q < 16
    ensures var bucket := (e + 1) * 8 + (q - 8);
            bucket >= 8 && BucketLow(bucket) == q * Pow2(e) && BucketWidth(bucket) == Pow2(e)
  {
    hide Pow2;
    DivideByEight(e + 1, q - 8);
  }

  /** A value of 8 or more is in octave e + 3, and its leading bits are its quotient by 2^e. */
  lemma LeadingBits(value: nat, e: nat)
    requires value >= 8 && Log2(value) == e + 3
    ensures 8 <= value / Pow2(e) < 16
  {
    Pow2Add(3, e);
    assert Pow2(3) == 8;
    QuotientBounds(value, Pow2(e), 8, 16);
  }

  lemma BucketOfBits(value: nat, e: nat)
    requires value >= 8 && Log2(value) == e + 3
    ensures var q := value / Pow2(e);
            8 <= q < 16 && SizeBucket(value) == (e + 1) * 8 + (q - 8)
  {
    LeadingBits(value, e);
  }

  lemma SmallValue(value: nat)
    requires value < 8
    ensures SizeBucket(value) == BucketLow(value) == value && BucketWidth(value) == 1
  {
  }

  /** A value lies in its own bucket's range. */
  lemma ValueInItsBucket(value: nat)
    ensures BucketLow(SizeBucket(value)) <= value < BucketLow(SizeBucket(value) + 1)
  {
    hide SizeBucket, BucketLow, BucketWidth, Pow2;
    BucketsAbut(SizeBucket(value));
    if value < 8 {
      SmallValue(value);
    } else {
      OctaveIsThree(value);
      LargeValue(value, Log2(value) - 3);
    }
  }

  lemma LargeValue(value: nat, e: nat)
    requires value >= 8 && Log2(value) == e + 3
    ensures BucketLow(SizeBucket(value)) <= value < BucketLow(SizeBucket(value)) + BucketWidth(SizeBucket(value))
  {
    hide SizeBucket, BucketLow, BucketWidth, Pow2, Log2;
    BucketOfBits(value, e);
    var width := Pow2(e);
    BucketShape(e, value / width);
    DivisionBounds(value, width);
  }

  lemma DivisionBounds(value: nat, w: nat)
    requires w >= 1
    ensures value / w * w <= value < value / w * w + w
  {
  }

  lemma QuotientBounds(value: nat, w: nat, low: nat, high: nat)
    requires w >= 1 && low * w <= value < high * w
    ensures low <= value / w < high
  {
    DivisionBounds(value, w);
    var q := value / w;
    if q < low {
      MulMonotone(q + 1, low, w);
    } else if q >= high {
      MulMonotone(high, q, w);
    }
  }

  lemma MulMonotone(a: nat, b: nat, w: nat)
    requires a <= b
    ensures a * w <= b * w
  {
  }

  /** A bucket holds exactly the values of its range. */
  lemma BucketIsARange(value: nat, bucket: nat)
    ensures SizeBucket(value) == bucket <==> BucketLow(bucket) <= value < BucketLow(bucket + 1)
  {
    ValueInItsBucket(value);
    if SizeBucket(value) < bucket {
      BucketLowMonotone(SizeBucket(value) + 1, bucket);
    } else if bucket < SizeBucket(value) {
      BucketLowMonotone(bucket + 1, SizeBucket(value));
    }
  }

  lemma SizeBucketMonotone(a: nat, b: nat)
    requires a <= b
    ensures SizeBucket(a) <= SizeBucket(b)
  {
    ValueInItsBucket(a);
    ValueInItsBucket(b);
    if SizeBucket(b) < SizeBucket(a) {
      BucketLowMonotone(SizeBucket(b) + 1, SizeBucket(a));
    }
  }

  lemma RepresentativeIsTheMidpoint(bucket: nat)
    requires bucket < BUCKETS
    ensures SizeRepresentative(bucket) == BucketLow(bucket) + BucketWidth(bucket) / 2
  {
    if bucket >= 8 {
      var e := bucket / 8 - 1;
      Pow2Add(3, e);
      assert Pow2(3) == 8;
      assert bucket / 8 + 2 == 3 + e;
    }
  }

  /** The midpoint of a bucket lies in it. */
  lemma RepresentativeInItsBucket(bucket: nat)
    requires bucket < BUCKETS
    ensures SizeBucket(SizeRepresentative(bucket)) == bucket
  {
    RepresentativeIsTheMidpoint(bucket);
    BucketsAbut(bucket);
    BucketIsARange(SizeRepresentative(bucket), bucket);
  }

  lemma TwoTo61()
    ensures Pow2(61) == 0x2000_0000_0000_0000
  {
    hide Pow2;
    TwoTo5();
    Pow2Add(5, 5);
    Pow2Add(10, 10);
    Pow2Add(20, 20);
    Pow2Add(40, 20);
    Doubling(60);
  }

  lemma TwoTo5()
    ensures Pow2(5) == 32
  {
  }

  lemma LastBucketEndsAt2To64()
    ensures BucketLow(BUCKETS) == U64_MAX + 1
  {
    TwoTo61();
  }

  /** Every 64-bit value has one of the 496 buckets, and no midpoint overflows 64 bits. */
  lemma NothingOverflows(value: U64, bucket: nat)
    requires bucket < BUCKETS
    ensures SizeBucket(value) < BUCKETS
    ensures SizeRepresentative(bucket) <= U64_MAX
  {
    LastBucketEndsAt2To64();
    ValueInItsBucket(value);
    if SizeBucket(value) >= BUCKETS {
      BucketLowMonotone(BUCKETS, SizeBucket(value));
    }
    RepresentativeIsTheMidpoint(bucket);
    BucketsAbut(bucket);
    BucketLowMonotone(bucket + 1, BUCKETS);
  }

  function Abs(x: int): nat { if x < 0 then -x else x }

  /** Within a sixteenth of the value. */
  predicate Near(estimate: nat, value: nat) {
    16 * Abs(estimate - value) <= value
  }

  /** A bucket is one value, or an even number of them no more than an eighth of the smallest. */
  lemma BucketIsNarrow(bucket: nat)
    ensures var w := BucketWidth(bucket);
            w == 1 || (w % 2 == 0 && 8 * w <= BucketLow(bucket))
  {
  }

  /** The midpoint of a value's bucket is within 1/16 of the value. */
  lemma RepresentativeIsNear(value: U64)
    ensures SizeBucket(value) < BUCKETS
    ensures Near(SizeRepresentative(SizeBucket(value)), value)
  {
    hide SizeBucket, SizeRepresentative, BucketLow, BucketWidth;
    NothingOverflows(value, 0);
    var bucket := SizeBucket(value);
    ValueInItsBucket(value);
    BucketsAbut(bucket);
    RepresentativeIsTheMidpoint(bucket);
    BucketIsNarrow(bucket);
  }

  lemma StartsItsBucket(value: nat, bucket: nat)
    requires bucket < BUCKETS && value == BucketLow(bucket)
    ensures SizeBucket(value) == bucket
    ensures SizeRepresentative(bucket) == value + BucketWidth(bucket) / 2
  {
    BucketsAbut(bucket);
    BucketIsARange(value, bucket);
    RepresentativeIsTheMidpoint(bucket);
  }

  /** Where a power of two lands, and how far its bucket's midpoint is from it. */
  lemma BucketOfAPower(octave: nat)
    requires 4 <= octave < 64
    ensures SizeBucket(Pow2(octave)) == (octave - 2) * 8 < BUCKETS
    ensures SizeRepresentative((octave - 2) * 8) == Pow2(octave) + Pow2(octave - 4)
    ensures Pow2(octave) == 16 * Pow2(octave - 4)
  {
    var value, e, bucket := Pow2(octave), octave - 3, (octave - 2) * 8;
    Pow2Add(4, octave - 4);
    assert Pow2(4) == 16 && Pow2(e) == 2 * Pow2(octave - 4);
    BucketShape(e, 8);
    assert value == BucketLow(bucket) && BucketWidth(bucket) == Pow2(e);
    StartsItsBucket(value, bucket);
  }

  /** The bound is attained at every power of two from 16 up, so no smaller one, and not 4%, is true. */
  lemma SixteenthIsAttained(octave: nat)
    requires 4 <= octave < 64
    ensures SizeBucket(Pow2(octave)) < BUCKETS
    ensures var error := Abs(SizeRepresentative(SizeBucket(Pow2(octave))) - Pow2(octave));
            16 * error == Pow2(octave) && 100 * error > 4 * Pow2(octave)
  {
    BucketOfAPower(octave);
  }

  // ----- where the documented 4% holds -----

  /** Within 4% of the value. */
  predicate WithinFourPercent(estimate: nat, value: nat) {
    25 * Abs(estimate - value) <= value
  }

  /** A bucket's lowest value, in its own width: the eighth of the octave it stands for. */
  lemma BucketEighths(bucket: nat)
    requires bucket >= 8
    ensures BucketLow(bucket) == (8 + bucket % 8) * BucketWidth(bucket)
    ensures bucket < 16 ==> BucketWidth(bucket) == 1
    ensures bucket >= 16 ==> BucketWidth(bucket) % 2 == 0
  {
    BucketIsNarrow(bucket);
    if bucket >= 16 {
      assert Pow2(bucket / 8 - 1) == 2 * Pow2(bucket / 8 - 2);
    }
  }

  /** No value of a bucket is further from its midpoint than the smallest. */
  lemma WorstIsTheLowest(bucket: nat, value: nat)
    requires bucket < BUCKETS && SizeBucket(value) == bucket
    requires WithinFourPercent(SizeRepresentative(bucket), BucketLow(bucket))
    ensures WithinFourPercent(SizeRepresentative(bucket), value)
  {
    hide SizeBucket, SizeRepresentative, BucketLow, BucketWidth;
    BucketIsARange(value, bucket);
    BucketsAbut(bucket);
    RepresentativeIsTheMidpoint(bucket);
    BucketIsNarrow(bucket);
  }

  lemma ManyEighths(eighths: nat, width: nat)
    requires width % 2 == 0 && width > 0
    ensures 25 * (width / 2) <= eighths * width <==> eighths >= 13
  {
    var half := width / 2;
    assert eighths * width == eighths * 2 * half;
    if eighths >= 13 {
      MulMonotone(25, eighths * 2, half);
    } else {
      MulMonotone(eighths * 2, 24, half);
    }
  }

  /** Every value is reported within 4% exactly in the exact buckets and in the last three of each octave's eight. */
  lemma FourPercentIff(bucket: nat)
    requires bucket < BUCKETS
    ensures (forall value: nat | SizeBucket(value) == bucket :: WithinFourPercent(SizeRepresentative(bucket), value))
       <==> bucket < 16 || bucket % 8 >= 5
  {
    hide SizeBucket, SizeRepresentative, BucketLow, BucketWidth;
    var low := BucketLow(bucket);
    StartsItsBucket(low, bucket);
    if bucket < 8 {
      ExactBucket(bucket);
    } else {
      BucketEighths(bucket);
      if bucket >= 16 {
        ManyEighths(8 + bucket % 8, BucketWidth(bucket));
      }
    }
    assert WithinFourPercent(SizeRepresentative(bucket), low) <==> bucket < 16 || bucket % 8 >= 5;
    if WithinFourPercent(SizeRepresentative(bucket), low) {
      forall value: nat | SizeBucket(value) == bucket ensures WithinFourPercent(SizeRepresentative(bucket), value) {
        WorstIsTheLowest(bucket, value);
      }
    }
  }

  lemma ExactBucket(bucket: nat)
    requires bucket < 8
    ensures BucketWidth(bucket) == 1
  {
  }
}
