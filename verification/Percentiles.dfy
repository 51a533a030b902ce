/** Nearest-rank percentiles, and their weighted merge across replicas. */
module Percentiles {
  import opened Collections
  import opened Sorting

  function Identity(x: real): real { x }

  /** Rounds half up, as Math.round does. */
  function Round(x: real): int {
    (x + 0.5).Floor
  }

  function Round3(x: real): real {
    Round(x * 1000.0) as real / 1000.0
  }

  function Ceil(n: int, d: int): int
    requires d > 0
  {
    (n + d - 1) / d
  }

  /** The index that `percentile` reads in a sorted sample of n values. */
  function RankIndex(n: int, p: int): int {
    var i := Ceil(p * n, 100) - 1;
    var low := if i < 0 then 0 else i;
    if low > n - 1 then n - 1 else low
  }

  function Percentile(sorted: seq<real>, p: int): real {
    if sorted == [] then 0.0
    else
      var i := RankIndex(|sorted|, p);
      if 0 <= i < |sorted| then sorted[i] else 0.0
  }

  datatype Summary = Summary(count: nat, p50: real, p75: real, p95: real, max: real)

  function Summarize(values: seq<real>): Summary {
    var sorted := SortBy(values, Identity);
    Summary(|sorted|, Round3(Percentile(sorted, 50)), Round3(Percentile(sorted, 75)), Round3(Percentile(sorted, 95)),
      Round3(if sorted == [] then 0.0 else sorted[|sorted| - 1]))
  }

  // ----- What a nearest-rank percentile is -----

  function AtMost(v: real): real -> int {
    x => if x <= v then 1 else 0
  }

  /** v is the least of the values with at least p percent of them at or below it. */
  ghost predicate IsNearestRank(values: seq<real>, p: int, v: real) {
    && v in values
    && 100 * Sum(values, AtMost(v)) >= p * |values|
    && forall w :: w in values && w < v ==> 100 * Sum(values, AtMost(w)) < p * |values|
  }

  lemma {:induction false} AtMostBounds(sorted: seq<real>, v: real, i: nat)
    requires SortedBy(sorted, Identity) && i <= |sorted|
    requires forall j :: 0 <= j < i ==> Identity(sorted[j]) <= v
    ensures Sum(sorted, AtMost(v)) >= i
    ensures (forall j :: i <= j < |sorted| ==> Identity(sorted[j]) > v) ==> Sum(sorted, AtMost(v)) == i
  {
    if |sorted| > 0 {
      var n := |sorted| - 1;
      if i == |sorted| {
        assert Identity(sorted[n]) <= v;
        AtMostBounds(sorted[..n], v, n);
      } else {
        AtMostBounds(sorted[..n], v, i);
        if forall j :: i <= j < |sorted| ==> Identity(sorted[j]) > v {
          assert Identity(sorted[n]) > v;
        }
      }
    }
  }

  lemma RankIndexBounds(n: int, p: int)
    requires n > 0 && 1 <= p <= 100
    ensures 0 <= RankIndex(n, p) < n
    ensures 100 * RankIndex(n, p) < p * n <= 100 * (RankIndex(n, p) + 1)
  {
    assert 0 < p * n <= 100 * n;
  }

  lemma SortedNearestRank(sorted: seq<real>, p: int)
    requires SortedBy(sorted, Identity) && sorted != [] && 1 <= p <= 100
    ensures IsNearestRank(sorted, p, Percentile(sorted, p))
  {
    var n := |sorted|;
    RankIndexBounds(n, p);
    var i := RankIndex(n, p);
    var v := sorted[i];
    forall j | 0 <= j < i + 1 ensures Identity(sorted[j]) <= v {
      if j < i { assert Identity(sorted[j]) <= Identity(sorted[i]); }
    }
    AtMostBounds(sorted, v, i + 1);
    forall w | w in sorted && w < v
      ensures 100 * Sum(sorted, AtMost(w)) < p * n
    {
      AtMostBelow(sorted, w, i);
    }
  }

  lemma {:induction false} AtMostBelow(sorted: seq<real>, w: real, i: nat)
    requires SortedBy(sorted, Identity) && i < |sorted|
    requires w < sorted[i]
    ensures Sum(sorted, AtMost(w)) <= i
  {
    var n := |sorted| - 1;
    assert i < n ==> Identity(sorted[i]) <= Identity(sorted[n]);
    if i < n {
      AtMostBelow(sorted[..n], w, i);
    } else {
      AtMostAll(sorted[..n], w);
    }
  }

  lemma {:induction false} AtMostAll(s: seq<real>, w: real)
    ensures 0 <= Sum(s, AtMost(w)) <= |s|
  {
    if s != [] {
      AtMostAll(s[..|s| - 1], w);
    }
  }

  /** On any nonempty sample, in any order, each reported percentile is a rounded nearest rank. */
  lemma PercentileIsNearestRank(values: seq<real>, p: int)
    requires values != [] && 1 <= p <= 100
    ensures IsNearestRank(values, p, Percentile(SortBy(values, Identity), p))
  {
    var sorted := SortBy(values, Identity);
    SortByCorrect(values, Identity);
    SortedNearestRank(sorted, p);
    var v := Percentile(sorted, p);
    assert v in multiset(sorted);
    SumPermuted(sorted, values, AtMost(v));
    forall w | w in values && w < v
      ensures 100 * Sum(values, AtMost(w)) < p * |values|
    {
      assert w in multiset(values);
      SumPermuted(sorted, values, AtMost(w));
    }
  }

  lemma RoundMonotone(x: real, y: real)
    requires x <= y
    ensures Round(x) <= Round(y)
  {
  }

  lemma Round3Monotone(x: real, y: real)
    requires x <= y
    ensures Round3(x) <= Round3(y)
  {
    RoundMonotone(x * 1000.0, y * 1000.0);
    ThousandthsMonotone(Round(x * 1000.0), Round(y * 1000.0));
  }

  lemma ThousandthsMonotone(a: int, b: int)
    requires a <= b
    ensures a as real / 1000.0 <= b as real / 1000.0
  {
  }

  lemma CeilMonotone(a: int, b: int)
    requires a <= b
    ensures Ceil(a, 100) <= Ceil(b, 100)
  {
  }

  lemma RankIndexMonotone(n: int, p: int, q: int)
    requires n > 0 && p <= q
    ensures 0 <= RankIndex(n, p) <= RankIndex(n, q) < n
  {
    assert p * n <= q * n;
    CeilMonotone(p * n, q * n);
  }

  lemma PercentileMonotone(sorted: seq<real>, p: int, q: int)
    requires SortedBy(sorted, Identity) && sorted != [] && p <= q
    ensures Percentile(sorted, p) <= Percentile(sorted, q) <= sorted[|sorted| - 1]
  {
    var n := |sorted|;
    RankIndexMonotone(n, p, q);
    var i, j := RankIndex(n, p), RankIndex(n, q);
    assert i < j ==> Identity(sorted[i]) <= Identity(sorted[j]);
    assert j < n - 1 ==> Identity(sorted[j]) <= Identity(sorted[n - 1]);
  }

  ghost predicate Ordered(s: Summary) {
    s.p50 <= s.p75 <= s.p95 <= s.max
  }

  /** The summary counts every value, its figures are ordered, and its maximum is the rounded largest value. */
  lemma SummaryOrdered(values: seq<real>)
    ensures Summarize(values).count == |values|
    ensures Ordered(Summarize(values))
    ensures values != [] ==> exists m :: m in values && (forall x :: x in values ==> x <= m) && Summarize(values).max == Round3(m)
  {
    var sorted := SortBy(values, Identity);
    SortByCorrect(values, Identity);
    if values != [] {
      PercentileMonotone(sorted, 50, 75);
      PercentileMonotone(sorted, 75, 95);
      Round3Monotone(Percentile(sorted, 50), Percentile(sorted, 75));
      Round3Monotone(Percentile(sorted, 75), Percentile(sorted, 95));
      var m := sorted[|sorted| - 1];
      Round3Monotone(Percentile(sorted, 95), m);
      assert m in multiset(sorted);
      forall x | x in values ensures x <= m {
        assert x in multiset(values);
        var i :| 0 <= i < |sorted| && sorted[i] == x;
        assert i < |sorted| - 1 ==> Identity(sorted[i]) <= Identity(sorted[|sorted| - 1]);
      }
    }
  }

  /** v, rounded to thousandths, is the p-percent figure of the values. */
  ghost predicate IsFigure(values: seq<real>, p: int, figure: real) {
    exists v :: IsNearestRank(values, p, v) && figure == Round3(v)
  }

  /** Each figure is the rounded nearest rank of its own percentage. */
  lemma SummaryFigures(values: seq<real>)
    requires values != []
    ensures var s := Summarize(values);
      IsFigure(values, 50, s.p50) && IsFigure(values, 75, s.p75) && IsFigure(values, 95, s.p95)
  {
    PercentileIsNearestRank(values, 50);
    PercentileIsNearestRank(values, 75);
    PercentileIsNearestRank(values, 95);
  }

  /** Without values every figure is zero. */
  lemma EmptySummary()
    ensures Summarize([]) == Summary(0, 0.0, 0.0, 0.0, 0.0)
  {
    assert Round(0.0) == 0;
  }

  // ----- Merging the summaries of several replicas -----

  function P50(s: Summary): real { s.p50 }
  function P75(s: Summary): real { s.p75 }
  function P95(s: Summary): real { s.p95 }
  function Count(s: Summary): int { s.count }

  function Weighted(f: Summary -> real): Summary -> real {
    (s: Summary) => f(s) * (s.count as real)
  }

  function Total(list: seq<Summary>): int {
    var n := Sum(list, Count);
    if n == 0 then 1 else n
  }

  function WeightedMean(list: seq<Summary>, f: Summary -> real): real
    requires Total(list) != 0
  {
    RealSum(list, Weighted(f)) / (Total(list) as real)
  }

  function Greatest(list: seq<Summary>): real
    requires list != []
  {
    var n := |list| - 1;
    if n == 0 then list[0].max
    else
      var m := Greatest(list[..n]);
      if m >= list[n].max then m else list[n].max
  }

  lemma {:induction false} CountsNonnegative(list: seq<Summary>)
    ensures Sum(list, Count) >= 0
    ensures Total(list) >= 1
  {
    if list != [] {
      CountsNonnegative(list[..|list| - 1]);
    }
  }

  function MergePct(list: seq<Summary>): Summary
    requires list != []
  {
    CountsNonnegative(list);
    Summary(Total(list), Round3(WeightedMean(list, P50)), Round3(WeightedMean(list, P75)),
      Round3(WeightedMean(list, P95)), Greatest(list))
  }

  /** A figure with at most three decimals, as every summary's are. */
  ghost predicate Thousandths(x: real) {
    exists k :: x == Thousandth(k)
  }

  function Thousandth(k: int): real {
    k as real / 1000.0
  }

  lemma SummaryThousandths(values: seq<real>)
    ensures var s := Summarize(values);
      Thousandths(s.p50) && Thousandths(s.p75) && Thousandths(s.p95) && Thousandths(s.max)
  {
    assert forall x :: Round3(x) == Thousandth(Round(x * 1000.0));
  }

  lemma Round3Exact(x: real)
    requires Thousandths(x)
    ensures Round3(x) == x
  {
    var k :| x == Thousandth(k);
    assert x * 1000.0 == k as real;
    assert (k as real + 0.5).Floor == k;
  }

  /** The merged sample count is the sum of the counts, except that an all-zero merge reports 1. */
  lemma {:induction false} MergedCount(list: seq<Summary>)
    requires list != []
    ensures MergePct(list).count == Sum(list, Count) <==> exists s :: s in list && s.count > 0
    ensures (forall s :: s in list ==> s.count == 0) ==> MergePct(list).count == 1
  {
    CountsNonnegative(list);
    ZeroTotal(list);
  }

  lemma {:induction false} ZeroTotal(list: seq<Summary>)
    ensures Sum(list, Count) == 0 <==> forall s :: s in list ==> s.count == 0
  {
    if list != [] {
      var n := |list| - 1;
      ZeroTotal(list[..n]);
      CountsNonnegative(list[..n]);
      assert list == list[..n] + [list[n]];
    }
  }

  lemma {:induction false} WeightedAtMost(list: seq<Summary>, f: Summary -> real, hi: real)
    requires forall s :: s in list && s.count > 0 ==> f(s) <= hi
    ensures RealSum(list, Weighted(f)) <= hi * (Sum(list, Count) as real)
  {
    if list != [] {
      var n := |list| - 1;
      var s := list[n];
      WeightedAtMost(list[..n], f, hi);
      var c, before := s.count as real, Sum(list[..n], Count) as real;
      assert s.count > 0 ==> f(s) <= hi;
      assert f(s) * c <= hi * c;
      assert Sum(list, Count) as real == before + c;
      assert hi * (before + c) == hi * before + hi * c;
    }
  }

  lemma {:induction false} WeightedAtLeast(list: seq<Summary>, f: Summary -> real, lo: real)
    requires forall s :: s in list && s.count > 0 ==> lo <= f(s)
    ensures lo * (Sum(list, Count) as real) <= RealSum(list, Weighted(f))
  {
    if list != [] {
      var n := |list| - 1;
      var s := list[n];
      WeightedAtLeast(list[..n], f, lo);
      var c, before := s.count as real, Sum(list[..n], Count) as real;
      assert s.count > 0 ==> lo <= f(s);
      assert lo * c <= f(s) * c;
      assert Sum(list, Count) as real == before + c;
      assert lo * (before + c) == lo * before + lo * c;
    }
  }

  lemma DivideMonotone(x: real, y: real, d: real)
    requires d > 0.0 && x <= y
    ensures x / d <= y / d
  {
  }

  lemma DivideAtMost(x: real, hi: real, d: real)
    requires d > 0.0 && x <= hi * d
    ensures x / d <= hi
  {
  }

  lemma DivideAtLeast(x: real, lo: real, d: real)
    requires d > 0.0 && lo * d <= x
    ensures lo <= x / d
  {
  }

  lemma MeanAtMost(list: seq<Summary>, f: Summary -> real, hi: real)
    requires Sum(list, Count) > 0 && Thousandths(hi)
    requires forall s :: s in list && s.count > 0 ==> f(s) <= hi
    ensures Round3(WeightedMean(list, f)) <= hi
  {
    var d := Total(list) as real;
    WeightedAtMost(list, f, hi);
    DivideAtMost(RealSum(list, Weighted(f)), hi, d);
    Round3Exact(hi);
    Round3Monotone(WeightedMean(list, f), hi);
  }

  lemma MeanAtLeast(list: seq<Summary>, f: Summary -> real, lo: real)
    requires Sum(list, Count) > 0 && Thousandths(lo)
    requires forall s :: s in list && s.count > 0 ==> lo <= f(s)
    ensures lo <= Round3(WeightedMean(list, f))
  {
    var d := Total(list) as real;
    WeightedAtLeast(list, f, lo);
    DivideAtLeast(RealSum(list, Weighted(f)), lo, d);
    Round3Exact(lo);
    Round3Monotone(lo, WeightedMean(list, f));
  }

  /** A merged figure lies between the smallest and the largest figure of the replicas that have samples. */
  lemma MergedBetween(list: seq<Summary>, f: Summary -> real, lo: real, hi: real)
    requires list != [] && Sum(list, Count) > 0
    requires Thousandths(lo) && Thousandths(hi)
    requires forall s :: s in list && s.count > 0 ==> lo <= f(s) <= hi
    ensures lo <= Round3(WeightedMean(list, f)) <= hi
  {
    MeanAtMost(list, f, hi);
    MeanAtLeast(list, f, lo);
  }

  lemma {:induction false} WeightedMonotone(list: seq<Summary>, f: Summary -> real, g: Summary -> real)
    requires forall s :: s in list ==> f(s) <= g(s)
    ensures RealSum(list, Weighted(f)) <= RealSum(list, Weighted(g))
  {
    if list != [] {
      var n := |list| - 1;
      WeightedMonotone(list[..n], f, g);
      var c := list[n].count as real;
      assert f(list[n]) * c <= g(list[n]) * c;
    }
  }

  lemma MeanMonotone(list: seq<Summary>, f: Summary -> real, g: Summary -> real)
    requires forall s :: s in list ==> f(s) <= g(s)
    ensures Total(list) > 0
    ensures Round3(WeightedMean(list, f)) <= Round3(WeightedMean(list, g))
  {
    CountsNonnegative(list);
    WeightedMonotone(list, f, g);
    DivideMonotone(RealSum(list, Weighted(f)), RealSum(list, Weighted(g)), Total(list) as real);
    Round3Monotone(WeightedMean(list, f), WeightedMean(list, g));
  }

  lemma {:induction false} GreatestIsReached(list: seq<Summary>) returns (i: nat)
    requires list != []
    ensures i < |list| && Greatest(list) == list[i].max
  {
    var n := |list| - 1;
    i := n;
    if n > 0 {
      var k := GreatestIsReached(list[..n]);
      if list[k].max >= list[n].max {
        i := k;
      }
    }
  }

  lemma {:induction false} GreatestIsBound(list: seq<Summary>, i: nat)
    requires i < |list|
    ensures list[i].max <= Greatest(list)
  {
    var n := |list| - 1;
    if i < n {
      GreatestIsBound(list[..n], i);
    }
  }

  lemma GreatestIsMax(list: seq<Summary>)
    requires list != []
    ensures exists s :: s in list && Greatest(list) == s.max
    ensures forall s :: s in list ==> s.max <= Greatest(list)
  {
    var k := GreatestIsReached(list);
    assert list[k] in list;
    forall s | s in list ensures s.max <= Greatest(list) {
      var i :| 0 <= i < |list| && list[i] == s;
      GreatestIsBound(list, i);
    }
  }

  /** The figure of a summary that a percentage names. */
  function Figure(s: Summary, p: int): real {
    match p
    case 50 => s.p50
    case 75 => s.p75
    case _ => s.p95
  }

  /** The figures of the replicas, each as often as the replica has samples, added up. */
  function WeightedTotal(list: seq<Summary>, p: int): real {
    if list == [] then 0.0
    else
      var s := list[|list| - 1];
      WeightedTotal(list[..|list| - 1], p) + Figure(s, p) * (s.count as real)
  }

  /** x is the weighted mean of the replicas' figures, to the nearest thousandth. */
  ghost predicate IsMean(list: seq<Summary>, p: int, x: real) {
    var n := Sum(list, Count) as real;
    Thousandths(x) && (x - 0.0005) * n <= WeightedTotal(list, p) < (x + 0.0005) * n
  }

  lemma RoundNearest(x: real)
    ensures Round3(x) - 0.0005 <= x < Round3(x) + 0.0005 && Thousandths(Round3(x))
  {
    assert Round3(x) == Thousandth(Round(x * 1000.0));
    assert Round(x * 1000.0) as real <= x * 1000.0 + 0.5 < Round(x * 1000.0) as real + 1.0;
  }

  lemma {:induction false} WeightedSum(list: seq<Summary>, f: Summary -> real, p: int)
    requires forall s :: f(s) == Figure(s, p)
    ensures RealSum(list, Weighted(f)) == WeightedTotal(list, p)
  {
    if list != [] {
      WeightedSum(list[..|list| - 1], f, p);
    }
  }

  lemma QuotientBounds(lo: real, w: real, hi: real, n: real)
    requires n > 0.0 && lo <= w / n < hi
    ensures lo * n <= w < hi * n
  {
    assert w / n * n == w;
    assert lo * n <= w / n * n < hi * n;
  }

  lemma MeanRounded(list: seq<Summary>, f: Summary -> real, p: int)
    requires Sum(list, Count) > 0 && forall s :: f(s) == Figure(s, p)
    ensures Total(list) > 0 && IsMean(list, p, Round3(WeightedMean(list, f)))
  {
    var x := Round3(WeightedMean(list, f));
    RoundNearest(WeightedMean(list, f));
    WeightedSum(list, f, p);
    QuotientBounds(x - 0.0005, WeightedTotal(list, p), x + 0.0005, Total(list) as real);
  }

  /**
   * With a positive total each merged figure is the weighted mean of its own kind, to the nearest
   * thousandth, and the merged maximum is the greatest.
   */
  lemma MergedFigures(list: seq<Summary>)
    requires list != [] && Sum(list, Count) > 0
    ensures var m := MergePct(list);
      && IsMean(list, 50, m.p50) && IsMean(list, 75, m.p75) && IsMean(list, 95, m.p95)
      && (exists s :: s in list && m.max == s.max) && (forall s :: s in list ==> s.max <= m.max)
  {
    MeanRounded(list, P50, 50);
    MeanRounded(list, P75, 75);
    MeanRounded(list, P95, 95);
    GreatestIsMax(list);
  }

  /** Merging keeps the order of the figures. */
  lemma MergeKeepsOrder(list: seq<Summary>)
    requires list != [] && Sum(list, Count) > 0
    requires forall s :: s in list ==> Ordered(s) && Thousandths(s.max)
    ensures Ordered(MergePct(list))
  {
    MeanMonotone(list, P50, P75);
    MeanMonotone(list, P75, P95);
    GreatestIsMax(list);
    forall s | s in list ensures P95(s) <= Greatest(list) {
      assert Ordered(s) && s.max <= Greatest(list);
    }
    MeanAtMost(list, P95, Greatest(list));
  }

  /** A merge does not depend on the order of the replicas. */
  lemma MergePermuted(a: seq<Summary>, b: seq<Summary>)
    requires a != [] && multiset(a) == multiset(b)
    ensures b != [] && MergePct(a) == MergePct(b)
  {
    assert a[0] in multiset(b);
    SumPermuted(a, b, Count);
    RealSumPermuted(a, b, Weighted(P50));
    RealSumPermuted(a, b, Weighted(P75));
    RealSumPermuted(a, b, Weighted(P95));
    GreatestIsMax(a);
    GreatestIsMax(b);
    assert forall s :: s in a <==> s in multiset(a);
    assert forall s :: s in b <==> s in multiset(b);
  }

  lemma Round3AtMostIff(x: real, g: real)
    ensures Round3(x) <= g <==> x * 1000.0 < (g * 1000.0).Floor as real + 0.5
  {
    var n, f := Round(x * 1000.0), (g * 1000.0).Floor;
    assert n as real <= g * 1000.0 <==> n <= f;
    assert n <= f <==> x * 1000.0 + 0.5 < f as real + 1.0;
  }

  /** Merged figures are ordered exactly when the weighted mean of p95 does not round past the greatest maximum. */
  lemma MergeOrderedIff(list: seq<Summary>)
    requires list != [] && forall s :: s in list ==> Ordered(s)
    ensures Total(list) > 0
    ensures Ordered(MergePct(list)) <==> WeightedMean(list, P95) * 1000.0 < (Greatest(list) * 1000.0).Floor as real + 0.5
  {
    MeanMonotone(list, P50, P75);
    MeanMonotone(list, P75, P95);
    Round3AtMostIff(WeightedMean(list, P95), Greatest(list));
  }

  /** On a figure with a fourth decimal the final rounding can lift a percentile above the maximum. */
  lemma UnroundedCanExceedMax()
    ensures var s := Summary(1, 0.0006, 0.0006, 0.0006, 0.0006);
      Ordered(s) && MergePct([s]).p95 > MergePct([s]).max
  {
    var s := Summary(1, 0.0006, 0.0006, 0.0006, 0.0006);
    assert [s][..0] == [];
    assert Sum([s], Count) == 1;
    assert P95(s) * (s.count as real) == 0.0006;
    assert RealSum([s], Weighted(P95)) == Weighted(P95)(s);
    assert WeightedMean([s], P95) == 0.0006;
    assert Round(0.6) == 1;
  }
}
