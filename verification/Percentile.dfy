/** Interpolated percentiles of a latency list, over ideal reals. */
module Percentile {
  import opened Rounding
  import opened Sorting

  lemma Scale(d: real, f: real)
    requires d >= 0.0 && 0.0 <= f <= 1.0
    ensures 0.0 <= d * f <= d
  {
    assert d * (1.0 - f) >= 0.0;
  }

  lemma ScaleMonotone(d: real, f: real, g: real)
    requires d >= 0.0 && f <= g
    ensures d * f <= d * g
  {
    assert d * (g - f) >= 0.0;
    assert d * (g - f) == d * g - d * f;
  }

  /** The real-valued position of p in a sorted list of n. */
  function Index(n: nat, p: real): (i: real)
    requires n > 0 && 0.0 <= p <= 1.0
    ensures 0.0 <= i <= (n - 1) as real
  {
    Scale((n - 1) as real, p);
    (n - 1) as real * p
  }

  function Lower(n: nat, p: real): (i: nat)
    requires n > 0 && 0.0 <= p <= 1.0
    ensures i < n && i as real <= Index(n, p) < i as real + 1.0
  {
    Index(n, p).Floor
  }

  function Upper(n: nat, p: real): (i: nat)
    requires n > 0 && 0.0 <= p <= 1.0
    ensures Lower(n, p) <= i < n && Index(n, p) <= i as real < Index(n, p) + 1.0
  {
    var lower := Lower(n, p);
    if lower as real == Index(n, p) then lower else lower + 1
  }

  /** Between two neighbouring order statistics. */
  function Interpolate(sorted: seq<int>, p: real): real
    requires sorted != [] && 0.0 <= p <= 1.0
  {
    var index, lower, upper := Index(|sorted|, p), Lower(|sorted|, p), Upper(|sorted|, p);
    if lower == upper then sorted[lower] as real
    else sorted[lower] as real + (sorted[upper] - sorted[lower]) as real * (index - lower as real)
  }

  /** The real result is converted to the element type on return. */
  function Percentile(latencies: seq<int>, p: real): int
    requires 0.0 <= p <= 1.0
  {
    if latencies == [] then 0 else Truncate(Interpolate(Sort(latencies), p))
  }

  lemma PercentilePermuted(a: seq<int>, b: seq<int>, p: real)
    requires multiset(a) == multiset(b) && 0.0 <= p <= 1.0
    ensures Percentile(a, p) == Percentile(b, p)
  {
    SortPermuted(a, b);
    assert |a| == |multiset(a)| == |b|;
  }

  lemma InterpolateBetween(sorted: seq<int>, p: real)
    requires IsSorted(sorted) && sorted != [] && 0.0 <= p <= 1.0
    ensures sorted[Lower(|sorted|, p)] as real <= Interpolate(sorted, p) <= sorted[Upper(|sorted|, p)] as real
  {
    var index, lower, upper := Index(|sorted|, p), Lower(|sorted|, p), Upper(|sorted|, p);
    hide Index, Lower, Upper;
    assert sorted[lower] <= sorted[upper];
    Scale((sorted[upper] - sorted[lower]) as real, index - lower as real);
  }

  /** The result lies between the order statistics on either side of p, also after truncation. */
  lemma PercentileBetween(latencies: seq<int>, p: real)
    requires latencies != [] && 0.0 <= p <= 1.0
    ensures var s := Sort(latencies);
      s[Lower(|s|, p)] <= Percentile(latencies, p) <= s[Upper(|s|, p)]
  {
    hide Sort, Lower, Upper, Interpolate, Truncate;
    SortSorts(latencies);
    var s := Sort(latencies);
    InterpolateBetween(s, p);
    TruncateBetween(s[Lower(|s|, p)], Interpolate(s, p), s[Upper(|s|, p)]);
  }

  lemma IndexMonotone(n: nat, p: real, q: real)
    requires n > 0 && 0.0 <= p <= q <= 1.0
    ensures Index(n, p) <= Index(n, q)
  {
    ScaleMonotone((n - 1) as real, p, q);
  }

  lemma InterpolateMonotone(sorted: seq<int>, p: real, q: real)
    requires IsSorted(sorted) && sorted != [] && 0.0 <= p <= q <= 1.0
    ensures Interpolate(sorted, p) <= Interpolate(sorted, q)
  {
    var n := |sorted|;
    IndexMonotone(n, p, q);
    hide Index, Lower, Upper, Interpolate;
    if Lower(n, p) == Lower(n, q) {
      SameCell(sorted, p, q);
    } else {
      InterpolateBetween(sorted, p);
      InterpolateBetween(sorted, q);
      assert sorted[Upper(n, p)] <= sorted[Lower(n, q)];
    }
  }

  lemma SameCell(sorted: seq<int>, p: real, q: real)
    requires IsSorted(sorted) && sorted != [] && 0.0 <= p <= q <= 1.0
    requires Index(|sorted|, p) <= Index(|sorted|, q) && Lower(|sorted|, p) == Lower(|sorted|, q)
    ensures Interpolate(sorted, p) <= Interpolate(sorted, q)
  {
    var n := |sorted|;
    var l, up, uq, ip, iq := Lower(n, p), Upper(n, p), Upper(n, q), Index(n, p), Index(n, q);
    if up == l {
      assert Interpolate(sorted, p) == sorted[l] as real;
      hide Index, Lower, Upper, Interpolate, IsSorted;
      InterpolateBetween(sorted, q);
    } else {
      assert up == uq == l + 1;
      hide Index, Lower, Upper;
      ScaleMonotone((sorted[up] - sorted[l]) as real, ip - l as real, iq - l as real);
    }
  }

  /** On evenly spaced values the interpolation is the straight line through them. */
  lemma InterpolateExact(sorted: seq<int>, n: nat, first: int, step: nat, p: real)
    requires |sorted| == n > 0 && 0.0 <= p <= 1.0
    requires forall i :: 0 <= i < n ==> sorted[i] == first + step * i
    ensures Interpolate(sorted, p) == first as real + step as real * ((n - 1) as real * p)
  {
    var l, u, index := Lower(n, p), Upper(n, p), Index(n, p);
    assert sorted[l] == first + step * l && sorted[u] == first + step * u;
    assert u == l + 1 || (u == l && index == l as real);
    assert index == (n - 1) as real * p;
    hide Lower, Upper, Index;
    Line(first, step, l, index);
    StepUp(step, l);
  }

  lemma Line(first: int, step: nat, l: nat, index: real)
    ensures (first + step * l) as real + step as real * (index - l as real) == first as real + step as real * index
  {
    assert (first + step * l) as real == first as real + step as real * l as real;
  }

  lemma StepUp(step: nat, l: nat)
    ensures step * (l + 1) == step * l + step
  {
  }

  /** A higher percentile is never smaller, also after truncation. */
  lemma PercentileMonotone(latencies: seq<int>, p: real, q: real)
    requires 0.0 <= p <= q <= 1.0
    ensures Percentile(latencies, p) <= Percentile(latencies, q)
  {
    if latencies != [] {
      SortSorts(latencies);
      var s := Sort(latencies);
      hide Sort, Interpolate, Truncate;
      InterpolateMonotone(s, p, q);
      TruncateMonotone(Interpolate(s, p), Interpolate(s, q));
    }
  }

  /** The three figures the benchmark reports are in order. */
  lemma ReportedPercentiles(latencies: seq<int>)
    ensures Percentile(latencies, 0.5) <= Percentile(latencies, 0.95) <= Percentile(latencies, 0.99)
  {
    PercentileMonotone(latencies, 0.5, 0.95);
    PercentileMonotone(latencies, 0.95, 0.99);
  }

  // ---- the order statistics themselves

  lemma RankPosition(n: nat, i: nat)
    requires n >= 2 && i < n
    ensures 0.0 <= i as real / (n - 1) as real <= 1.0 && (n - 1) as real * (i as real / (n - 1) as real) == i as real
  {
    var d := (n - 1) as real;
    var p := i as real / d;
    assert d * p == i as real;
    Cancel(d, p, 1.0);
    Cancel(d, 0.0, p);
  }

  lemma Cancel(d: real, x: real, y: real)
    requires d > 0.0
    ensures d * x <= d * y ==> x <= y
  {
    assert d * (x - y) == d * x - d * y;
    if x > y { Strict(d, x - y); }
  }

  lemma Strict(d: real, x: real)
    requires d > 0.0 && x > 0.0
    ensures d * x > 0.0
  {
  }

  /** At i / (n - 1) the percentile is the i-th order statistic. */
  lemma PercentileAtRank(latencies: seq<int>, i: nat)
    requires |latencies| >= 2 && i < |latencies|
    ensures 0.0 <= i as real / (|latencies| - 1) as real <= 1.0
    ensures Percentile(latencies, i as real / (|latencies| - 1) as real) == Sort(latencies)[i]
  {
    var n := |latencies|;
    var p := i as real / (n - 1) as real;
    RankPosition(n, i);
    assert Index(n, p) == i as real;
    assert Lower(n, p) == i && Upper(n, p) == i;
    PercentileBetween(latencies, p);
  }

  /** Between two such points it lies between the two order statistics. */
  lemma PercentileBetweenRanks(latencies: seq<int>, i: nat, p: real)
    requires i + 1 < |latencies|
    requires i as real / (|latencies| - 1) as real <= p <= (i + 1) as real / (|latencies| - 1) as real
    ensures 0.0 <= p <= 1.0
    ensures Sort(latencies)[i] <= Percentile(latencies, p) <= Sort(latencies)[i + 1]
  {
    hide Percentile, Sort;
    var n := |latencies|;
    RankPosition(n, i);
    RankPosition(n, i + 1);
    PercentileAtRank(latencies, i);
    PercentileAtRank(latencies, i + 1);
    PercentileMonotone(latencies, i as real / (n - 1) as real, p);
    PercentileMonotone(latencies, p, (i + 1) as real / (n - 1) as real);
  }

  /** One value is every percentile of itself, and an empty list answers 0. */
  lemma PercentileSmall(x: int, p: real)
    requires 0.0 <= p <= 1.0
    ensures Percentile([x], p) == x && Percentile([], p) == 0
  {
    assert multiset([x]) == multiset(Sort([x]));
    assert Sort([x]) == [x];
    PercentileBetween([x], p);
  }
}
