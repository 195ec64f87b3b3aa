/** The log-linear latency histogram (include/utils/histogram.hpp). */
module Histogram {
  import opened Core

  const NUM_BUCKETS := 256
  const MAX_VALUE := 1_000_000_000

  // ----- Buckets -----

  /** 63 - clz(v): the position of the highest bit. */
  function Log2(v: nat): nat
    requires v > 0
  {
    if v < 2 then 0 else 1 + Log2(v / 2)
  }

  function ValueToBucket(v: nat): (b: nat)
    ensures b < NUM_BUCKETS
  {
    if v < 128 then v
    else if v >= MAX_VALUE then NUM_BUCKETS - 1
    else
      var log := Log2(v);
      LogFacts(v);
      Min(128 + (log - 7) * 16 + v / Pow2(log - 4) % 16, NUM_BUCKETS - 1)
  }

  function BucketToValue(b: nat): nat {
    if b < 128 then b
    else if b >= NUM_BUCKETS then MAX_VALUE
    else
      var log := 7 + (b - 128) / 16;
      var frac := (b - 128) % 16;
      Pow2(log) + frac * Pow2(log - 4)
  }

  lemma {:induction false} Log2Brackets(v: nat)
    requires v > 0
    ensures Pow2(Log2(v)) <= v < Pow2(Log2(v) + 1)
  {
    if v >= 2 {
      Log2Brackets(v / 2);
    }
  }

  lemma {:induction false} Pow2Grows(j: nat, k: nat)
    requires j <= k
    ensures Pow2(j) <= Pow2(k)
    decreases k - j
  {
    if j < k {
      Pow2Grows(j, k - 1);
    }
  }

  lemma Pow2Facts()
    ensures Pow2(3) == 8 && Pow2(4) == 16 && Pow2(7) == 128 && Pow2(10) == 1024 && Pow2(15) == 32768
  {
    assert Pow2(4) == 16;
    assert Pow2(7) == 8 * Pow2(4);
    assert Pow2(10) == 8 * Pow2(7);
    assert Pow2(14) == 16 * Pow2(10);
    assert Pow2(15) == 2 * Pow2(14);
  }

  lemma LogFacts(v: nat)
    requires v >= 128
    ensures Log2(v) >= 7
  {
    Log2Brackets(v);
    Pow2Facts();
    if Log2(v) < 7 {
      Pow2Grows(Log2(v) + 1, 7);
    }
  }

  /** A bucket past the linear part, as power and sixteenth. */
  lemma BucketParts(b: nat, q: nat, f: nat)
    requires 128 <= b < NUM_BUCKETS && b == 128 + 16 * q + f && f < 16
    ensures BucketToValue(b) == (16 + f) * Pow2(3 + q)
    ensures Pow2(7 + q) <= BucketToValue(b) < Pow2(8 + q)
  {
    var p := Pow2(3 + q);
    assert (b - 128) / 16 == q && (b - 128) % 16 == f;
    assert Pow2(7 + q) == 2 * Pow2(6 + q) == 4 * Pow2(5 + q) == 8 * Pow2(4 + q) == 16 * p;
    assert Pow2(8 + q) == 32 * p;
    SixteenthsBelow(f, p);
  }

  lemma SixteenthsBelow(f: nat, p: nat)
    requires f < 16 && p >= 1
    ensures 16 * p + f * p == (16 + f) * p
    ensures 16 * p <= (16 + f) * p < 32 * p
  {
  }

  /** A value past the linear part, before saturation: its bucket number and the slice it falls into. */
  lemma ValueParts(v: nat) returns (q: nat, f: nat, p: nat)
    requires 128 <= v < MAX_VALUE
    ensures p == Pow2(3 + q) && f < 16 && (16 + f) * p <= v < (16 + f) * p + p
    ensures Pow2(7 + q) <= v < Pow2(8 + q)
    ensures ValueToBucket(v) == Min(128 + 16 * q + f, NUM_BUCKETS - 1)
  {
    hide Pow2, Log2;
    LogFacts(v);
    Log2Brackets(v);
    var log := Log2(v);
    q, p := log - 7, Pow2(log - 4);
    FourDoublings(log - 4);
    QuotientBetween(v, p, 16, 32);
    f := v / p - 16;
    SlotInLap(v / p);
  }

  lemma FourDoublings(k: nat)
    ensures Pow2(k + 4) == 16 * Pow2(k) && Pow2(k + 5) == 32 * Pow2(k)
  {
    assert Pow2(k + 2) == 4 * Pow2(k);
    assert Pow2(k + 4) == 4 * Pow2(k + 2);
  }

  lemma SlotInLap(d: nat)
    requires 16 <= d < 32
    ensures d % 16 == d - 16
  {
  }

  lemma Products(a: int, b: int, p: nat)
    requires a <= b
    ensures a * p <= b * p
  {
  }

  lemma QuotientBetween(v: nat, p: nat, lo: nat, hi: nat)
    requires p >= 1 && lo * p <= v < hi * p
    ensures lo <= v / p < hi
    ensures (v / p) * p <= v < (v / p) * p + p
  {
    var d := v / p;
    assert d * p <= v < d * p + p;
    if d < lo {
      Products(d + 1, lo, p);
    } else if d >= hi {
      Products(hi, d, p);
    }
  }

  /** The two conversions are a Galois connection: this one fact carries order, inverse and rounding. */
  lemma BucketsMatchValues(b: nat, v: nat)
    requires b < NUM_BUCKETS
    ensures BucketToValue(b) <= v <==> b <= ValueToBucket(v)
  {
    hide Pow2, Log2;
    if b < 128 {
      if v >= 128 {
        PastLinear(v);
      }
    } else if v < 128 {
      BucketPastLinear(b);
    } else if v >= MAX_VALUE {
      BelowMaximum((b - 128) / 16, (b - 128) % 16);
      BucketParts(b, (b - 128) / 16, (b - 128) % 16);
    } else {
      SlicesMatch(b, v);
    }
  }

  lemma PastLinear(v: nat)
    requires v >= 128
    ensures ValueToBucket(v) >= 128
  {
    hide Pow2, Log2;
    if v < MAX_VALUE {
      hide *;
      var vq, vf, p := ValueParts(v);
    }
  }

  lemma BucketPastLinear(b: nat)
    requires 128 <= b < NUM_BUCKETS
    ensures BucketToValue(b) >= 128
  {
    hide *;
    BucketParts(b, (b - 128) / 16, (b - 128) % 16);
    Pow2Facts();
    Pow2Grows(7, 7 + (b - 128) / 16);
  }

  lemma SlicesMatch(b: nat, v: nat)
    requires 128 <= b < NUM_BUCKETS && 128 <= v < MAX_VALUE
    ensures BucketToValue(b) <= v <==> b <= ValueToBucket(v)
  {
    hide *;
    var q, f := (b - 128) / 16, (b - 128) % 16;
    BucketParts(b, q, f);
    var vq, vf, p := ValueParts(v);
    if q == vq {
      SliceWithin(v, f, vf, p);
    }
    SliceOrder(v, q, f, BucketToValue(b), vq, vf);
    assert Min(128 + 16 * vq + vf, NUM_BUCKETS - 1) == ValueToBucket(v);
    AtMost(b, 128 + 16 * vq + vf);
  }

  lemma AtMost(b: nat, n: nat)
    requires b < NUM_BUCKETS
    ensures b <= Min(n, NUM_BUCKETS - 1) <==> b <= n
  {
  }

  lemma BelowMaximum(q: nat, f: nat)
    requires 16 * q + f < 128 && f < 16
    ensures (16 + f) * Pow2(3 + q) < MAX_VALUE
  {
    Pow2Facts();
    Pow2Grows(3 + q, 10);
    SixteenthsBelow(f, Pow2(3 + q));
  }

  lemma SliceOrder(v: nat, q: nat, f: nat, low: nat, vq: nat, vf: nat)
    requires f < 16 && vf < 16
    requires Pow2(7 + vq) <= v < Pow2(8 + vq)
    requires Pow2(7 + q) <= low < Pow2(8 + q)
    requires q == vq ==> (low <= v <==> f <= vf)
    ensures low <= v <==> 16 * q + f <= 16 * vq + vf
  {
    hide Pow2;
    if q < vq {
      Pow2Grows(8 + q, 7 + vq);
    } else if q > vq {
      Pow2Grows(8 + vq, 7 + q);
    }
  }

  lemma SliceWithin(v: nat, f: nat, vf: nat, p: nat)
    requires (16 + vf) * p <= v < (16 + vf) * p + p
    ensures (16 + f) * p <= v <==> f <= vf
  {
    if f <= vf {
      Products(16 + f, 16 + vf, p);
    } else {
      Products(17 + vf, 16 + f, p);
    }
  }

  // ----- What rounding down to a bucket floor costs -----

  function Floor(v: nat): nat {
    BucketToValue(ValueToBucket(v))
  }

  lemma BucketsKeepOrder(v: nat, w: nat)
    requires v <= w
    ensures ValueToBucket(v) <= ValueToBucket(w)
    ensures Floor(v) <= v
  {
    hide Pow2, Log2, ValueToBucket, BucketToValue;
    BucketsMatchValues(ValueToBucket(v), v);
    BucketsMatchValues(ValueToBucket(v), w);
  }

  /** The floor is within a sixteenth exactly up to 33728: past the last bucket's floor, 31744, nothing is finer. */
  lemma FloorWithinSixteenth(v: nat)
    ensures 16 * (v - Floor(v)) <= Floor(v) <==> v <= 33728
  {
    hide Pow2, Log2, BucketToValue;
    if v < 128 {
      SmallValuesAreExact(v);
    } else if v >= MAX_VALUE {
      LastFloor();
    } else {
      SliceWithinSixteenth(v);
    }
  }

  lemma SmallValuesAreExact(v: nat)
    requires v < 128
    ensures Floor(v) == v
  {
  }

  lemma LastFloor()
    ensures BucketToValue(NUM_BUCKETS - 1) == 31744
  {
    Pow2Facts();
  }

  lemma SliceWithinSixteenth(v: nat)
    requires 128 <= v < MAX_VALUE
    ensures 16 * (v - Floor(v)) <= Floor(v) <==> v <= 33728
  {
    hide Pow2, Log2, BucketToValue, ValueToBucket;
    var q, f, p := ValueParts(v);
    Pow2Facts();
    LastFloor();
    if q < 8 {
      BucketParts(128 + 16 * q + f, q, f);
      SliceIsNarrow(v, f, p);
      Pow2Grows(8 + q, 15);
      assert Floor(v) == (16 + f) * p;
    } else {
      Pow2Grows(15, 7 + q);
      assert Floor(v) == 31744;
    }
  }

  lemma SliceIsNarrow(v: nat, f: nat, p: nat)
    requires (16 + f) * p <= v < (16 + f) * p + p
    ensures 16 * (v - (16 + f) * p) <= (16 + f) * p
  {
    Products(16, 16 + f, p);
  }

  /** The floor of a bucket falls into that bucket: rounding twice is rounding once. */
  lemma BucketOfFloor(b: nat)
    requires b < NUM_BUCKETS
    ensures ValueToBucket(BucketToValue(b)) == b
  {
    hide *;
    BucketsMatchValues(b, BucketToValue(b));
    if b + 1 < NUM_BUCKETS {
      BucketsMatchValues(b + 1, BucketToValue(b));
      FloorsGrow(b);
    }
  }

  lemma FloorsGrow(b: nat)
    requires b + 1 < NUM_BUCKETS
    ensures BucketToValue(b) < BucketToValue(b + 1)
  {
    hide Pow2;
    if b >= 128 {
      SlicesGrow(b, (b - 128) / 16, (b - 128) % 16);
    } else if b == 127 {
      BucketPastLinear(128);
    }
  }

  lemma SlicesGrow(b: nat, q: nat, f: nat)
    requires 128 <= b == 128 + 16 * q + f && f < 16 && b + 1 < NUM_BUCKETS
    ensures BucketToValue(b) < BucketToValue(b + 1)
  {
    hide *;
    BucketParts(b, q, f);
    if f == 15 {
      BucketParts(b + 1, q + 1, 0);
    } else {
      BucketParts(b + 1, q, f + 1);
      Pow2Positive(3 + q);
    }
  }

  lemma Pow2Positive(k: nat)
    ensures Pow2(k) >= 1
  {
  }

  // ----- Counting recorded values -----

  /** How many recorded values are less than v. */
  function CountBelow(s: seq<nat>, v: nat): (n: nat)
    ensures n <= |s|
  {
    if s == [] then 0
    else CountBelow(s[..|s| - 1], v) + (if s[|s| - 1] < v then 1 else 0)
  }

  /** How many recorded values fall into bucket b. */
  function InBucket(s: seq<nat>, b: nat): nat {
    if s == [] then 0
    else InBucket(s[..|s| - 1], b) + (if ValueToBucket(s[|s| - 1]) == b then 1 else 0)
  }

  /** How many recorded values fall into the first n buckets. */
  function InFirstBuckets(s: seq<nat>, n: nat): nat {
    if n == 0 then 0 else InFirstBuckets(s, n - 1) + InBucket(s, n - 1)
  }

  function Total(s: seq<nat>): nat {
    if s == [] then 0 else Total(s[..|s| - 1]) + s[|s| - 1]
  }

  /** v is the k-th smallest of s, counting from one. */
  ghost predicate HasRank(s: seq<nat>, k: nat, v: nat) {
    CountBelow(s, v) < k <= CountBelow(s, v + 1)
  }

  lemma {:induction false} CountBelowConcat(a: seq<nat>, b: seq<nat>, v: nat)
    ensures CountBelow(a + b, v) == CountBelow(a, v) + CountBelow(b, v)
  {
    if b == [] {
      assert a + b == a;
    } else {
      var n := |b| - 1;
      CountBelowConcat(a, b[..n], v);
      assert (a + b)[..|a| + n] == a + b[..n];
    }
  }

  lemma {:induction false} InBucketConcat(a: seq<nat>, b: seq<nat>, i: nat)
    ensures InBucket(a + b, i) == InBucket(a, i) + InBucket(b, i)
  {
    hide ValueToBucket;
    if b == [] {
      assert a + b == a;
    } else {
      var n := |b| - 1;
      InBucketConcat(a, b[..n], i);
      assert (a + b)[..|a| + n] == a + b[..n];
    }
  }

  lemma {:induction false} TotalConcat(a: seq<nat>, b: seq<nat>)
    ensures Total(a + b) == Total(a) + Total(b)
  {
    if b == [] {
      assert a + b == a;
    } else {
      var n := |b| - 1;
      TotalConcat(a, b[..n]);
      assert (a + b)[..|a| + n] == a + b[..n];
    }
  }

  lemma {:induction false} NothingCounted(n: nat)
    ensures InFirstBuckets([], n) == 0
  {
    if n > 0 {
      NothingCounted(n - 1);
    }
  }

  /** One more value adds one to every prefix of buckets that reaches its bucket. */
  lemma {:induction false} InFirstBucketsExtend(s: seq<nat>, n: nat)
    requires s != []
    ensures InFirstBuckets(s, n) ==
            InFirstBuckets(s[..|s| - 1], n) + (if ValueToBucket(s[|s| - 1]) < n then 1 else 0)
  {
    hide ValueToBucket;
    if n > 0 {
      InFirstBucketsExtend(s, n - 1);
    }
  }

  /** The walk's running total counts the values below the floor of the next bucket. */
  lemma {:induction false} WalkCountsBelow(s: seq<nat>, n: nat)
    requires n < NUM_BUCKETS
    ensures InFirstBuckets(s, n) == CountBelow(s, BucketToValue(n))
  {
    hide ValueToBucket, BucketToValue;
    if s == [] {
      NothingCounted(n);
    } else {
      WalkCountsBelow(s[..|s| - 1], n);
      InFirstBucketsExtend(s, n);
      BucketsMatchValues(n, s[|s| - 1]);
    }
  }

  lemma {:induction false} WalkCountsAll(s: seq<nat>)
    ensures InFirstBuckets(s, NUM_BUCKETS) == |s|
  {
    hide ValueToBucket, InFirstBuckets;
    if s == [] {
      NothingCounted(NUM_BUCKETS);
    } else {
      WalkCountsAll(s[..|s| - 1]);
      InFirstBucketsExtend(s, NUM_BUCKETS);
    }
  }

  lemma {:induction false} CountBelowGrows(s: seq<nat>, v: nat, w: nat)
    requires v <= w
    ensures CountBelow(s, v) <= CountBelow(s, w)
  {
    if s != [] {
      CountBelowGrows(s[..|s| - 1], v, w);
    }
  }

  lemma WalkStarts(s: seq<nat>)
    ensures InFirstBuckets(s, 0) == 0 && BucketToValue(0) == 0
  {
  }

  lemma WalkStep(s: seq<nat>, n: nat)
    requires n < NUM_BUCKETS
    ensures InFirstBuckets(s, n + 1) == InFirstBuckets(s, n) + InBucket(s, n) <= |s|
  {
    hide BucketToValue, ValueToBucket;
    if n + 1 < NUM_BUCKETS {
      WalkCountsBelow(s, n + 1);
    } else {
      WalkCountsAll(s);
    }
  }

  /** Where the walk stops for rank k is the bucket of the k-th smallest value. */
  lemma WalkStopsAtRank(s: seq<nat>, k: nat, v: nat, b: nat)
    requires b < NUM_BUCKETS && HasRank(s, k, v)
    requires InFirstBuckets(s, b) < k <= InFirstBuckets(s, b + 1)
    ensures b == ValueToBucket(v)
  {
    hide ValueToBucket, BucketToValue, CountBelow, InFirstBuckets;
    WalkCountsBelow(s, b);
    BucketsMatchValues(b, v);
    if v < BucketToValue(b) {
      CountBelowGrows(s, v + 1, BucketToValue(b));
    }
    if b + 1 < NUM_BUCKETS {
      WalkCountsBelow(s, b + 1);
      BucketsMatchValues(b + 1, v);
      if BucketToValue(b + 1) <= v {
        CountBelowGrows(s, BucketToValue(b + 1), v);
      }
    }
  }

  // ----- Ranks and sorting -----

  ghost predicate Ascending(t: seq<nat>) {
    forall i, j :: 0 <= i < j < |t| ==> t[i] <= t[j]
  }

  lemma {:induction false} CountInSorted(t: seq<nat>, v: nat, k: nat)
    requires Ascending(t) && k <= |t|
    requires forall i :: 0 <= i < k ==> t[i] < v
    requires forall i :: k <= i < |t| ==> t[i] >= v
    ensures CountBelow(t, v) == k
  {
    if t != [] {
      var n := |t| - 1;
      CountInSorted(t[..n], v, if k <= n then k else n);
    }
  }

  lemma {:induction false} CountBelowOfMultiset(s: seq<nat>, t: seq<nat>, v: nat)
    requires multiset(s) == multiset(t)
    ensures CountBelow(s, v) == CountBelow(t, v)
  {
    if s == [] {
      assert |multiset(t)| == 0;
    } else {
      var n, x := |s| - 1, s[|s| - 1];
      assert s == s[..n] + [x];
      assert x in multiset(t);
      var u := TakenOut(t, x, v);
      assert multiset(s[..n]) == multiset(s) - multiset{x} == multiset(u);
      CountBelowOfMultiset(s[..n], u, v);
    }
  }

  lemma TakenOut(t: seq<nat>, x: nat, v: nat) returns (u: seq<nat>)
    requires x in t
    ensures multiset(u) == multiset(t) - multiset{x}
    ensures CountBelow(t, v) == CountBelow(u, v) + (if x < v then 1 else 0)
  {
    var i :| 0 <= i < |t| && t[i] == x;
    u := t[..i] + t[i + 1..];
    assert t == t[..i] + [x] + t[i + 1..];
    CountBelowConcat(t[..i], t[i + 1..], v);
    CountBelowConcat(t[..i] + [x], t[i + 1..], v);
    CountBelowConcat(t[..i], [x], v);
    assert [x][..0] == [];
  }

  /** The rank used by the percentile is the position in the sorted record. */
  lemma SortedHasRank(s: seq<nat>, t: seq<nat>, k: nat)
    requires multiset(s) == multiset(t) && Ascending(t) && 1 <= k <= |t|
    ensures HasRank(s, k, t[k - 1])
  {
    hide CountBelow;
    var v := t[k - 1];
    var a, b := k - 1, k;
    while a > 0 && t[a - 1] == v
      invariant 0 <= a < k
      invariant forall i :: a <= i < k ==> t[i] == v
    {
      a := a - 1;
    }
    while b < |t| && t[b] == v
      invariant k <= b <= |t|
      invariant forall i :: k <= i < b ==> t[i] == v
    {
      b := b + 1;
    }
    CountInSorted(t, v, a);
    CountInSorted(t, v + 1, b);
    CountBelowOfMultiset(s, t, v);
    CountBelowOfMultiset(s, t, v + 1);
  }

  lemma {:induction false} AllBelow(s: seq<nat>) returns (bound: nat)
    ensures CountBelow(s, bound) == |s|
  {
    bound := 0;
    if s != [] {
      var b := AllBelow(s[..|s| - 1]);
      bound := if b <= s[|s| - 1] then s[|s| - 1] + 1 else b;
      CountBelowGrows(s[..|s| - 1], b, bound);
    }
  }

  lemma {:induction false} CountedIsRecorded(s: seq<nat>, v: nat)
    requires CountBelow(s, v) < CountBelow(s, v + 1)
    ensures v in s
  {
    if s[|s| - 1] != v {
      CountedIsRecorded(s[..|s| - 1], v);
    }
  }

  lemma {:induction false} NoneBelowZero(s: seq<nat>)
    ensures CountBelow(s, 0) == 0
  {
    if s != [] {
      NoneBelowZero(s[..|s| - 1]);
    }
  }

  /** Every rank from 1 to the number of records is that of some recorded value. */
  lemma EveryRankIsHeld(s: seq<nat>, k: nat) returns (v: nat)
    requires 1 <= k <= |s|
    ensures v in s && HasRank(s, k, v)
  {
    hide CountBelow;
    var bound := AllBelow(s);
    NoneBelowZero(s);
    v := 0;
    while CountBelow(s, v + 1) < k
      invariant CountBelow(s, v) < k
      decreases bound - v
    {
      if bound <= v + 1 {
        CountBelowGrows(s, bound, v + 1);
      }
      v := v + 1;
    }
    CountedIsRecorded(s, v);
  }

  // ----- The histogram -----

  const WORD := 0x1_0000_0000_0000_0000

  lemma SameWord(x: nat, y: nat, k: int)
    requires x == y + k * 0x1_0000_0000_0000_0000
    ensures x % WORD == y % WORD
  {
    var q := y / 0x1_0000_0000_0000_0000;
    assert x == (q + k) * 0x1_0000_0000_0000_0000 + y % 0x1_0000_0000_0000_0000;
  }

  lemma WrapsOnce(a: nat, b: nat)
    ensures (a % WORD + b % WORD) % WORD == (a + b) % WORD
    ensures (a % WORD + b) % WORD == (a + b) % WORD
  {
    var qa, qb := a / 0x1_0000_0000_0000_0000, b / 0x1_0000_0000_0000_0000;
    SameWord(a + b, a % WORD + b % WORD, qa + qb);
    SameWord(a + b, a % WORD + b, qa);
  }

  class LatencyHistogram {
    var count: nat
    var sum: nat
    var min: nat
    var max: nat
    const buckets: array<nat>
    /** Every value recorded since the last reset, in order. */
    ghost var recorded: seq<nat>

    ghost predicate Valid()
      reads this, buckets
    {
      && buckets.Length == NUM_BUCKETS
      && count == |recorded|
      && sum == Total(recorded) % WORD
      && (forall x :: x in recorded ==> min <= x <= max)
      && (if recorded == [] then max == 0 else max in recorded)
      && min <= MAX_VALUE && (min == MAX_VALUE || min in recorded)
      && (forall b :: 0 <= b < NUM_BUCKETS ==> buckets[b] == InBucket(recorded, b))
    }

    constructor ()
      ensures Valid() && recorded == [] && fresh(buckets)
    {
      count, sum, min, max := 0, 0, MAX_VALUE, 0;
      buckets := new nat[NUM_BUCKETS](i => 0);
      recorded := [];
    }

    method Reset()
      requires buckets.Length == NUM_BUCKETS
      modifies this, buckets
      ensures Valid() && recorded == []
    {
      count, sum, min, max := 0, 0, MAX_VALUE, 0;
      recorded := [];
      for b := 0 to NUM_BUCKETS
        modifies buckets
        invariant forall i :: 0 <= i < b ==> buckets[i] == 0
      {
        buckets[b] := 0;
      }
    }

    method Record(value: nat)
      requires Valid()
      modifies this, buckets
      ensures Valid() && recorded == old(recorded) + [value]
    {
      hide ValueToBucket;
      count := count + 1;
      WrapsOnce(Total(recorded), value);
      sum := (sum + value) % WORD;
      min := Min(min, value);
      max := if max < value then value else max;
      var b := ValueToBucket(value);
      buckets[b] := buckets[b] + 1;
      recorded := recorded + [value];
      assert recorded[..|recorded| - 1] == old(recorded);
    }

    /** Values kept by the other histogram are counted as if recorded here; it may be this very histogram. */
    method Merge(other: LatencyHistogram)
      requires Valid() && other.Valid()
      requires other == this || other.buckets != buckets
      modifies this, buckets
      ensures Valid() && recorded == old(recorded) + old(other.recorded)
    {
      hide ValueToBucket, InBucket, Total;
      ghost var mine, theirs := recorded, other.recorded;
      TotalConcat(mine, theirs);
      WrapsOnce(Total(mine), Total(theirs));
      count := count + other.count;
      sum := (sum + other.sum) % WORD;
      min := Min(min, other.min);
      max := if max < other.max then other.max else max;
      AddBuckets(other.buckets, mine, theirs);
      recorded := mine + theirs;
    }

    method AddBuckets(from: array<nat>, ghost mine: seq<nat>, ghost theirs: seq<nat>)
      requires buckets.Length == from.Length == NUM_BUCKETS
      requires forall b :: 0 <= b < NUM_BUCKETS ==> buckets[b] == InBucket(mine, b)
      requires forall b :: 0 <= b < NUM_BUCKETS ==> from[b] == InBucket(theirs, b)
      modifies buckets
      ensures forall b :: 0 <= b < NUM_BUCKETS ==> buckets[b] == InBucket(mine + theirs, b)
    {
      hide InBucket;
      for b := 0 to NUM_BUCKETS
        invariant forall i :: 0 <= i < b ==> buckets[i] == InBucket(mine + theirs, i)
        invariant forall i :: b <= i < NUM_BUCKETS ==> buckets[i] == InBucket(mine, i)
        invariant forall i :: b <= i < NUM_BUCKETS ==> from[i] == InBucket(theirs, i)
      {
        InBucketConcat(mine, theirs, b);
        buckets[b] := buckets[b] + from[b];
      }
    }

    /** The value at a target rank: the bucket floor of the target-th smallest recorded value. */
    method Percentile(target: nat) returns (value: nat)
      requires Valid()
      ensures count == 0 ==> value == 0
      ensures count > 0 && target == 0 ==> value == 0
      ensures 1 <= target <= count ==>
        && (exists v :: v in recorded && HasRank(recorded, target, v))
        && (forall v :: HasRank(recorded, target, v) ==> value == Floor(v))
      ensures target > count > 0 ==> value == max
    {
      hide ValueToBucket, BucketToValue, InBucket, InFirstBuckets, HasRank;
      if count == 0 {
        return 0;
      }
      if 1 <= target <= count {
        ghost var _ := EveryRankIsHeld(recorded, target);
      }
      var cumulative := 0;
      WalkStarts(recorded);
      for b := 0 to NUM_BUCKETS
        invariant cumulative == InFirstBuckets(recorded, b)
        invariant b == 0 || cumulative < target
      {
        cumulative := cumulative + buckets[b];
        WalkStep(recorded, b);
        if cumulative >= target {
          forall v | HasRank(recorded, target, v) && target >= 1
            ensures BucketToValue(b) == Floor(v)
          {
            WalkStopsAtRank(recorded, target, v, b);
          }
          return BucketToValue(b);
        }
      }
      WalkCountsAll(recorded);
      return max;
    }

    /** The reported minimum saturates: values above one second are reported as one second. */
    method MinValue() returns (value: nat)
      requires Valid()
      ensures recorded == [] ==> value == 0
      ensures recorded != [] ==> forall x :: x in recorded ==> value <= x
      ensures recorded != [] ==>
                (value in recorded <==> exists x :: x in recorded && x <= MAX_VALUE)
      ensures recorded != [] && value !in recorded ==> value == MAX_VALUE
    {
      value := if count > 0 then min else 0;
    }
  }
}
