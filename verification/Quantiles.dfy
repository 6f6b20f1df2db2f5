/** Nearest-rank quantiles over a sorted list, and the sample count they ask for.
    A percentile is any real number, so every finite double is covered; the two roundings
    the C++ arithmetic adds are outside the model. */
module Quantiles {
  import opened Basics

  // ---- sorting -----------------------------------------------------------------

  predicate SortedInts(s: seq<int>) {
    forall i, j :: 0 <= i < j < |s| ==> s[i] <= s[j]
  }

  function InsertInt(x: int, s: seq<int>): seq<int> {
    if s == [] || x <= s[0] then [x] + s else [s[0]] + InsertInt(x, s[1..])
  }

  function Sort(s: seq<int>): seq<int> {
    if s == [] then [] else InsertInt(s[0], Sort(s[1..]))
  }

  function CountAtMost(s: seq<int>, v: int): nat {
    if s == [] then 0 else (if s[0] <= v then 1 else 0) + CountAtMost(s[1..], v)
  }

  lemma {:induction false} InsertKeepsElements(x: int, s: seq<int>)
    ensures multiset(InsertInt(x, s)) == multiset(s) + multiset{x}
  {
    if s == [] || x <= s[0] {
    } else {
      InsertKeepsElements(x, s[1..]);
      assert s == [s[0]] + s[1..];
    }
  }

  lemma {:induction false} InsertKeepsOrder(x: int, s: seq<int>)
    requires SortedInts(s)
    ensures SortedInts(InsertInt(x, s))
  {
    if s == [] || x <= s[0] {
    } else {
      var tail := InsertInt(x, s[1..]);
      InsertKeepsOrder(x, s[1..]);
      InsertKeepsElements(x, s[1..]);
      forall i | 0 <= i < |tail| ensures s[0] <= tail[i] {
        assert tail[i] in multiset(tail);
        assert tail[i] == x || tail[i] in s[1..];
      }
    }
  }

  /** Sorting gives the one sorted arrangement of the same values. */
  lemma {:induction false} SortSorts(s: seq<int>)
    ensures SortedInts(Sort(s)) && multiset(Sort(s)) == multiset(s) && |Sort(s)| == |s|
  {
    if s != [] {
      SortSorts(s[1..]);
      InsertKeepsOrder(s[0], Sort(s[1..]));
      InsertKeepsElements(s[0], Sort(s[1..]));
      assert s == [s[0]] + s[1..];
      assert |multiset(Sort(s))| == |multiset(s)|;
    }
  }

  lemma {:induction false} CountSplit(s: seq<int>, t: seq<int>, v: int)
    ensures CountAtMost(s + t, v) == CountAtMost(s, v) + CountAtMost(t, v)
  {
    if s == [] {
      assert s + t == t;
    } else {
      assert (s + t)[1..] == s[1..] + t;
      CountSplit(s[1..], t, v);
    }
  }

  lemma {:induction false} CountInsert(x: int, s: seq<int>, v: int)
    ensures CountAtMost(InsertInt(x, s), v) == (if x <= v then 1 else 0) + CountAtMost(s, v)
  {
    if s == [] || x <= s[0] {
      assert ([x] + s)[1..] == s;
    } else {
      CountInsert(x, s[1..], v);
      assert ([s[0]] + InsertInt(x, s[1..]))[1..] == InsertInt(x, s[1..]);
    }
  }

  lemma {:induction false} CountSort(s: seq<int>, v: int)
    ensures CountAtMost(Sort(s), v) == CountAtMost(s, v)
  {
    if s != [] {
      CountSort(s[1..], v);
      CountInsert(s[0], Sort(s[1..]), v);
    }
  }

  lemma {:induction false} CountBound(s: seq<int>, v: int)
    ensures CountAtMost(s, v) <= |s|
    ensures (forall i :: 0 <= i < |s| ==> s[i] <= v) ==> CountAtMost(s, v) == |s|
    ensures (forall i :: 0 <= i < |s| ==> s[i] > v) ==> CountAtMost(s, v) == 0
  {
    if s != [] {
      CountBound(s[1..], v);
    }
  }

  /** In a sorted list, at least r values are at most the r-th, and fewer than r are at
      most anything below it. */
  lemma CountAroundRank(s: seq<int>, r: nat, u: int)
    requires SortedInts(s) && 1 <= r <= |s|
    ensures CountAtMost(s, s[r - 1]) >= r
    ensures u < s[r - 1] ==> CountAtMost(s, u) < r
  {
    var v := s[r - 1];
    assert s == s[..r] + s[r..] && s == s[..r - 1] + s[r - 1..];
    CountSplit(s[..r], s[r..], v);
    CountBound(s[..r], v);
    CountSplit(s[..r - 1], s[r - 1..], u);
    CountBound(s[..r - 1], u);
    CountBound(s[r - 1..], u);
  }

  // ---- nearest rank ------------------------------------------------------------

  /** ceil(p/100 * n), clamped to [1, n]. */
  function Rank(p: real, n: nat): (r: nat)
    requires n > 0
    ensures 1 <= r <= n
  {
    var r := Ceil(p / 100.0 * n as real);
    if r < 1 then 1 else if r > n then n else r
  }

  function ExactQuantile(sorted: seq<int>, p: real): Option<int> {
    if sorted == [] then None else Some(sorted[Rank(p, |sorted|) - 1])
  }

  lemma MulRealMonotone(x: real, y: real, n: real)
    requires x <= y && n >= 0.0
    ensures x * n <= y * n
  {
    assert y * n - x * n == (y - x) * n;
  }

  lemma PositiveProduct(x: real, y: real)
    requires x > 0.0 && y > 0.0
    ensures x * y > 0.0
  {
  }

  lemma Hundredfold(f: real, m: real)
    ensures 100.0 * (f * m) == (100.0 * f) * m
  {
  }

  lemma CeilLeast(x: real, r: nat)
    ensures r as real >= x <==> Ceil(x) <= r
    ensures x > 0.0 ==> Ceil(x) >= 1
  {
    assert -((-x).Floor) as real >= x;
  }

  /** Inside (0, 100] the clamp never bites, and the rank is the least r with
      100 * r >= p * n. */
  lemma RankIsLeast(p: real, n: nat, r: nat)
    requires n > 0 && 0.0 < p <= 100.0
    ensures 100.0 * r as real >= p * n as real <==> Rank(p, n) <= r
  {
    var f, m := p / 100.0, n as real;
    assert 100.0 * f == p;
    Hundredfold(f, m);
    MulRealMonotone(f, 1.0, m);
    PositiveProduct(f, m);
    CeilLeast(f * m, r);
    CeilLeast(f * m, n);
  }

  /** The documented quantile, without ranks: v is the least sample such that at least p
      percent of the samples are at most v. */
  ghost predicate IsQuantile(s: seq<int>, p: real, v: int) {
    && v in s
    && 100.0 * CountAtMost(s, v) as real >= p * |s| as real
    && forall u :: u in s && u < v ==> 100.0 * CountAtMost(s, u) as real < p * |s| as real
  }

  /** The nearest-rank value is that sample, and no other is. */
  lemma QuantileCounts(s: seq<int>, p: real)
    requires s != [] && 0.0 < p <= 100.0
    ensures ExactQuantile(Sort(s), p).Some?
    ensures IsQuantile(s, p, ExactQuantile(Sort(s), p).value)
    ensures forall v :: IsQuantile(s, p, v) ==> v == ExactQuantile(Sort(s), p).value
  {
    hide Rank, Sort, CountAtMost;
    SortSorts(s);
    var r := Rank(p, |s|);
    var v := Sort(s)[r - 1];
    assert v in multiset(Sort(s));
    RankAgainstCount(s, p, v);
    CountAroundRank(Sort(s), r, v);
    forall u | u in s && u < v ensures 100.0 * CountAtMost(s, u) as real < p * |s| as real {
      RankAgainstCount(s, p, u);
      CountAroundRank(Sort(s), r, u);
    }
  }

  lemma RankAgainstCount(s: seq<int>, p: real, u: int)
    requires s != [] && 0.0 < p <= 100.0
    ensures 100.0 * CountAtMost(s, u) as real >= p * |s| as real <==> Rank(p, |s|) <= CountAtMost(Sort(s), u)
  {
    CountSort(s, u);
    RankIsLeast(p, |s|, CountAtMost(s, u));
  }

  /** At least N - rank + 1 samples lie at or above the quantile. */
  lemma QuantileTail(s: seq<int>, p: real)
    requires s != []
    ensures |s| - CountAtMost(s, ExactQuantile(Sort(s), p).value - 1) >= |s| - Rank(p, |s|) + 1
  {
    hide Rank, Sort, CountAtMost;
    SortSorts(s);
    var v := Sort(s)[Rank(p, |s|) - 1];
    CountAroundRank(Sort(s), Rank(p, |s|), v - 1);
    CountSort(s, v - 1);
  }

  lemma CeilMonotone(x: real, y: real)
    requires x <= y
    ensures Ceil(x) <= Ceil(y)
  {
  }

  lemma RankMonotone(p: real, q: real, n: nat)
    requires n > 0 && p <= q
    ensures Rank(p, n) <= Rank(q, n)
  {
    hide Ceil;
    MulRealMonotone(p / 100.0, q / 100.0, n as real);
    CeilMonotone(p / 100.0 * n as real, q / 100.0 * n as real);
  }

  /** A larger percentile never gives a smaller quantile. */
  lemma QuantileMonotone(sorted: seq<int>, p: real, q: real)
    requires SortedInts(sorted) && sorted != [] && p <= q
    ensures ExactQuantile(sorted, p).value <= ExactQuantile(sorted, q).value
  {
    hide Rank;
    RankMonotone(p, q, |sorted|);
    var i, j := Rank(p, |sorted|) - 1, Rank(q, |sorted|) - 1;
    assert i < j ==> sorted[i] <= sorted[j];
  }

  // ---- how many samples are enough ---------------------------------------------

  const SAMPLE_CAP: nat := 10_000_000
  const TOLERANCE := 0.0000001

  function DerivedMinSamples(p: real): (n: nat)
    ensures 1 <= n <= SAMPLE_CAP
  {
    if 100.0 - p <= 0.0 then 1 else Bounded(Ceil(100.0 / (100.0 - p) - TOLERANCE))
  }

  function Bounded(r: int): nat {
    if r < 1 then 1 else if r > SAMPLE_CAP then SAMPLE_CAP else r
  }

  /** The percentiles on which the rounding tolerance of the rule is harmless and its cap
      is not reached: 100/(100-p) does not lie just above an integer. */
  predicate RoundsCleanly(p: real)
    requires p < 100.0
  {
    ClearOfTolerance(100.0 / (100.0 - p))
  }

  predicate ClearOfTolerance(v: real) {
    Ceil(v) <= SAMPLE_CAP && v > (Ceil(v) - 1) as real + TOLERANCE
  }

  /** A sample lies strictly beyond the rank exactly from 100/(100-p) samples on. */
  lemma RoomBeyondRank(p: real, n: nat)
    requires 0.0 < p < 100.0 && n > 0
    ensures Rank(p, n) < n <==> n as real >= 100.0 / (100.0 - p)
  {
    RankIsLeast(p, n, n - 1);
    var d, m := 100.0 - p, n as real;
    var v := 100.0 / d;
    assert v * d == 100.0;
    assert p * m == 100.0 * m - d * m;
    assert 100.0 * (n - 1) as real == 100.0 * m - 100.0;
    if m >= v {
      MulRealMonotone(v, m, d);
    } else {
      assert (v - m) * d > 0.0;
      assert v * d - m * d == (v - m) * d;
    }
  }

  lemma BoundedCeiling(v: real)
    requires v > 1.0
    ensures ClearOfTolerance(v) ==> Bounded(Ceil(v - TOLERANCE)) == Ceil(v)
    ensures !ClearOfTolerance(v) ==> Bounded(Ceil(v - TOLERANCE)) as real < v
  {
    var c, r := Ceil(v), Ceil(v - TOLERANCE);
    assert (c - 1) as real < v <= c as real;
    assert (r - 1) as real < v - TOLERANCE <= r as real;
    IntegerGap(c - 2, r);
    IntegerGap(r - 1, c);
    if v > (c - 1) as real + TOLERANCE {
      IntegerGap(c - 1, r);
    }
  }

  lemma IntegerGap(a: int, b: int)
    requires (a as real) < b as real
    ensures a + 1 <= b
  {
  }

  lemma RuleAgainstBound(p: real)
    requires 0.0 < p < 100.0
    ensures RoundsCleanly(p) ==> DerivedMinSamples(p) == Ceil(100.0 / (100.0 - p))
    ensures !RoundsCleanly(p) ==> DerivedMinSamples(p) as real < 100.0 / (100.0 - p)
  {
    var d := 100.0 - p;
    var v := 100.0 / d;
    assert v > 1.0 by {
      assert v * d == 100.0;
      if v <= 1.0 { MulRealMonotone(v, 1.0, d); }
    }
    BoundedCeiling(v);
  }

  lemma EnoughAtSize(p: real, n: nat)
    requires 0.0 < p < 100.0 && n > 0 && RoundsCleanly(p)
    ensures n >= DerivedMinSamples(p) <==> Rank(p, n) < n
  {
    RuleAgainstBound(p);
    RoomBeyondRank(p, n);
  }

  /** The rule calls the evidence enough precisely when some sample lies beyond the rank,
      for every sample count, if and only if the percentile rounds cleanly. */
  lemma MinSamplesExactIff(p: real)
    requires 0.0 < p < 100.0
    ensures (forall n: nat :: n > 0 ==> (n >= DerivedMinSamples(p) <==> Rank(p, n) < n)) <==> RoundsCleanly(p)
  {
    if RoundsCleanly(p) {
      forall n: nat | n > 0 ensures n >= DerivedMinSamples(p) <==> Rank(p, n) < n {
        EnoughAtSize(p, n);
      }
    } else {
      var m := DerivedMinSamples(p);
      RuleAgainstBound(p);
      RoomBeyondRank(p, m);
      assert m >= DerivedMinSamples(p) && !(Rank(p, m) < m);
    }
  }

  /** The three percentiles the documentation names: 20, 100 and 1000 samples. */
  lemma DocumentedMinimums()
    ensures DerivedMinSamples(95.0) == 20 && RoundsCleanly(95.0)
    ensures DerivedMinSamples(99.0) == 100 && RoundsCleanly(99.0)
    ensures DerivedMinSamples(99.9) == 1000 && RoundsCleanly(99.9)
  {
    assert 100.0 / (100.0 - 95.0) == 20.0;
    assert 100.0 / (100.0 - 99.0) == 100.0;
    assert 100.0 / (100.0 - 99.9) == 1000.0;
  }

  /** The value the double 99.9 really holds. */
  const P999_AS_DOUBLE := 99.900000000000005684341886080801486968994140625

  /** The stored 99.9 is a little above 99.9, which the tolerance hides from the sample
      rule but not from the rank: with the 1000 samples that are called enough, the quantile
      is the maximum. */
  lemma StoredP999IsNotExact()
    ensures !RoundsCleanly(P999_AS_DOUBLE)
    ensures DerivedMinSamples(P999_AS_DOUBLE) == 1000 && Rank(P999_AS_DOUBLE, 1000) == 1000
  {
    var d := 100.0 - P999_AS_DOUBLE;
    var v := 100.0 / d;
    assert v * d == 100.0;
    assert 1000.0 < v < 1000.0 + TOLERANCE by {
      if v <= 1000.0 { MulRealMonotone(v, 1000.0, d); }
      if v >= 1000.0 + TOLERANCE { MulRealMonotone(1000.0 + TOLERANCE, v, d); }
    }
    assert Ceil(v) == 1001;
  }

  // ---- the fixed set of percentiles an evaluation reports ------------------------

  datatype PercentileSet = PercentileSet(p50: Option<int>, p95: Option<int>, p99: Option<int>, p999: Option<int>)

  function QuantileIfEnough(sorted: seq<int>, p: real, minSamples: nat): Option<int> {
    if |sorted| < minSamples then None else ExactQuantile(sorted, p)
  }

  function ComputeSet(sorted: seq<int>): PercentileSet {
    PercentileSet(
      QuantileIfEnough(sorted, 50.0, 1),
      QuantileIfEnough(sorted, 95.0, DerivedMinSamples(95.0)),
      QuantileIfEnough(sorted, 99.0, DerivedMinSamples(99.0)),
      QuantileIfEnough(sorted, P999_AS_DOUBLE, DerivedMinSamples(P999_AS_DOUBLE)))
  }

  /** p50 <= p95 <= p99 <= p999 whenever present, and each is present only with those
      before it. */
  lemma PercentilesOrdered(s: seq<int>)
    ensures var q := ComputeSet(Sort(s));
      && (q.p999.Some? ==> q.p99.Some? && q.p99.value <= q.p999.value)
      && (q.p99.Some? ==> q.p95.Some? && q.p95.value <= q.p99.value)
      && (q.p95.Some? ==> q.p50.Some? && q.p50.value <= q.p95.value)
  {
    var sorted := Sort(s);
    SortSorts(s);
    DocumentedMinimums();
    StoredP999IsNotExact();
    if sorted != [] {
      QuantileMonotone(sorted, 50.0, 95.0);
      QuantileMonotone(sorted, 95.0, 99.0);
      QuantileMonotone(sorted, 99.0, P999_AS_DOUBLE);
    }
  }
}
