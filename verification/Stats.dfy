/**
 The latency statistics of internal/metrics/stats.go. Durations are integers (nanoseconds), float64 is
 modelled by real, and converting a float to a Duration truncates toward zero.
 */
module Stats {
  import opened Arithmetic
  import opened Sums

  datatype Percentiles = Percentiles(
    count: int, min: real, mean: real, p50: real, p90: real, p99: real, p999: real, max: real)

  predicate Sorted(s: seq<int>) {
    forall i, j :: 0 <= i < j < |s| ==> s[i] <= s[j]
  }

  // ---------------------------------------------------------------- sorting

  function Insert(x: int, s: seq<int>): seq<int> {
    if s == [] then [x]
    else if x <= s[0] then [x] + s
    else [s[0]] + Insert(x, s[1..])
  }

  /** What sort.Slice leaves behind: the values of s in order. SortIsDetermined says there is only one such sequence. */
  function SortedOf(s: seq<int>): seq<int> {
    if s == [] then [] else Insert(s[0], SortedOf(s[1..]))
  }

  lemma {:induction false} InsertKeepsValues(x: int, s: seq<int>)
    ensures multiset(Insert(x, s)) == multiset(s) + multiset{x}
  {
    if s == [] {
    } else if x <= s[0] {
      assert multiset([x] + s) == multiset{x} + multiset(s);
    } else {
      InsertKeepsValues(x, s[1..]);
      assert s == [s[0]] + s[1..];
    }
  }

  predicate AllAtLeast(lo: int, s: seq<int>) {
    forall k :: 0 <= k < |s| ==> lo <= s[k]
  }

  lemma {:induction false} InsertAtLeast(lo: int, x: int, s: seq<int>)
    requires lo <= x && AllAtLeast(lo, s)
    ensures AllAtLeast(lo, Insert(x, s))
  {
    if s != [] && x > s[0] {
      InsertAtLeast(lo, x, s[1..]);
    }
  }

  lemma PrependKeepsOrder(x: int, s: seq<int>)
    requires Sorted(s) && AllAtLeast(x, s)
    ensures Sorted([x] + s)
  {}

  lemma {:induction false} InsertKeepsOrder(x: int, s: seq<int>)
    requires Sorted(s)
    ensures Sorted(Insert(x, s))
  {
    if s == [] {
    } else if x <= s[0] {
      assert AllAtLeast(x, s);
      PrependKeepsOrder(x, s);
    } else {
      InsertKeepsOrder(x, s[1..]);
      InsertAtLeast(s[0], x, s[1..]);
      PrependKeepsOrder(s[0], Insert(x, s[1..]));
    }
  }

  lemma {:induction false} SortSorts(s: seq<int>)
    ensures Sorted(SortedOf(s)) && multiset(SortedOf(s)) == multiset(s) && |SortedOf(s)| == |s|
  {
    if s != [] {
      SortSorts(s[1..]);
      InsertKeepsOrder(s[0], SortedOf(s[1..]));
      InsertKeepsValues(s[0], SortedOf(s[1..]));
      assert s == [s[0]] + s[1..];
      assert |multiset(SortedOf(s))| == |multiset(s)|;
    }
  }

  lemma DropFirst(s: seq<int>)
    requires s != []
    ensures multiset(s[1..]) == multiset(s) - multiset{s[0]}
  {
    assert s == [s[0]] + s[1..];
  }

  /** The values in order are determined by the multiset of values alone, whatever sorting algorithm put them in order. */
  lemma {:induction false} SortIsDetermined(s: seq<int>, t: seq<int>)
    requires Sorted(s) && Sorted(t) && multiset(s) == multiset(t)
    ensures s == t
  {
    assert |multiset(s)| == |multiset(t)|;
    if s != [] {
      assert s[0] in multiset(t) && t[0] in multiset(s);
      assert s[0] == t[0];
      DropFirst(s);
      DropFirst(t);
      SortIsDetermined(s[1..], t[1..]);
    }
  }

  // ---------------------------------------------------------------- quantiles

  function Truncate(x: real): int {
    if x >= 0.0 then x.Floor else -((-x).Floor)
  }

  function Ceil(x: real): int {
    -((-x).Floor)
  }

  predicate IsFraction(q: real) {
    0.0 <= q <= 1.0
  }

  function Position(n: nat, q: real): (pos: real)
    requires n >= 1
  {
    q * (n - 1) as real
  }

  lemma PositionInRange(n: nat, q: real)
    requires n >= 1 && IsFraction(q)
    ensures 0.0 <= Position(n, q) <= (n - 1) as real
    ensures 0 <= Position(n, q).Floor <= Ceil(Position(n, q)) <= n - 1
    ensures Ceil(Position(n, q)) <= Position(n, q).Floor + 1
  {
    var m := (n - 1) as real;
    assert 0.0 * m <= q * m <= 1.0 * m;
  }

  lemma PositionMonotone(n: nat, q: real, r: real)
    requires n >= 1 && q <= r
    ensures Position(n, q) <= Position(n, r)
  {
    var m := (n - 1) as real;
    assert q * m <= r * m;
  }

  function Blend(a: int, b: int, frac: real): real {
    a as real * (1.0 - frac) + b as real * frac
  }

  lemma BlendIsLinear(a: int, b: int, frac: real)
    ensures Blend(a, b, frac) == a as real + (b - a) as real * frac
  {}

  lemma BlendMonotone(a: int, b: int, f: real, g: real)
    requires a <= b && f <= g
    ensures Blend(a, b, f) <= Blend(a, b, g)
  {
    BlendIsLinear(a, b, f);
    BlendIsLinear(a, b, g);
    var d := (b - a) as real;
    assert d * (g - f) >= 0.0;
  }

  lemma BlendBetween(a: int, b: int, frac: real)
    requires a <= b && 0.0 <= frac <= 1.0
    ensures a as real <= Blend(a, b, frac) <= b as real
  {
    BlendMonotone(a, b, 0.0, frac);
    BlendMonotone(a, b, frac, 1.0);
    assert Blend(a, b, 0.0) == a as real && Blend(a, b, 1.0) == b as real;
  }

  /** Linear interpolation between the closest ranks of sorted values; 0 for no values. */
  function Quantile(sorted: seq<int>, q: real): int
    requires IsFraction(q)
  {
    var n := |sorted|;
    if n == 0 then 0
    else if n == 1 then sorted[0]
    else
      var pos := Position(n, q);
      PositionInRange(n, q);
      var lo, hi := pos.Floor, Ceil(pos);
      if lo == hi then sorted[lo]
      else
        var frac := pos - lo as real;
        Truncate(Blend(sorted[lo], sorted[hi], frac))
  }

  lemma TruncateBetween(x: real, a: int, b: int)
    requires a as real <= x <= b as real
    ensures a <= Truncate(x) <= b
  {}

  lemma TruncateMonotone(x: real, y: real)
    requires x <= y
    ensures Truncate(x) <= Truncate(y)
  {}

  /** A quantile lies between the two values it interpolates. */
  lemma QuantileBetweenRanks(sorted: seq<int>, q: real)
    requires Sorted(sorted) && |sorted| >= 2 && IsFraction(q)
    ensures var pos := Position(|sorted|, q);
            && 0 <= pos.Floor <= Ceil(pos) < |sorted|
            && sorted[pos.Floor] <= Quantile(sorted, q) <= sorted[Ceil(pos)]
  {
    var pos := Position(|sorted|, q);
    PositionInRange(|sorted|, q);
    var lo, hi := pos.Floor, Ceil(pos);
    if lo != hi {
      var frac := pos - lo as real;
      BlendBetween(sorted[lo], sorted[hi], frac);
      TruncateBetween(Blend(sorted[lo], sorted[hi], frac), sorted[lo], sorted[hi]);
    }
  }

  /** Quantiles grow with q, inside a rank interval and across rank boundaries, and lie between the extremes. */
  lemma QuantileMonotone(sorted: seq<int>, q: real, r: real)
    requires Sorted(sorted) && IsFraction(q) && IsFraction(r) && q <= r
    ensures Quantile(sorted, q) <= Quantile(sorted, r)
  {
    var n := |sorted|;
    if n >= 2 {
      var p, s := Position(n, q), Position(n, r);
      PositionMonotone(n, q, r);
      QuantileBetweenRanks(sorted, q);
      QuantileBetweenRanks(sorted, r);
      PositionInRange(n, q);
      PositionInRange(n, r);
      if p.Floor == s.Floor {
        SameInterval(sorted, q, r);
      } else {
        assert Ceil(p) <= s.Floor;
        assert sorted[Ceil(p)] <= sorted[s.Floor];
      }
    }
  }

  lemma SameInterval(sorted: seq<int>, q: real, r: real)
    requires Sorted(sorted) && |sorted| >= 2 && IsFraction(q) && IsFraction(r)
    requires Position(|sorted|, q) <= Position(|sorted|, r)
    requires Position(|sorted|, q).Floor == Position(|sorted|, r).Floor
    ensures Quantile(sorted, q) <= Quantile(sorted, r)
  {
    var p, s := Position(|sorted|, q), Position(|sorted|, r);
    PositionInRange(|sorted|, q);
    PositionInRange(|sorted|, r);
    QuantileBetweenRanks(sorted, r);
    var lo := p.Floor;
    if p != lo as real {
      var f, g := p - lo as real, s - lo as real;
      assert Ceil(p) == lo + 1 && Ceil(s) == lo + 1;
      BlendMonotone(sorted[lo], sorted[lo + 1], f, g);
      TruncateMonotone(Blend(sorted[lo], sorted[lo + 1], f), Blend(sorted[lo], sorted[lo + 1], g));
    }
  }

  lemma QuantileBetweenExtremes(sorted: seq<int>, q: real)
    requires Sorted(sorted) && sorted != [] && IsFraction(q)
    ensures sorted[0] <= Quantile(sorted, q) <= sorted[|sorted| - 1]
  {
    if |sorted| >= 2 {
      QuantileBetweenRanks(sorted, q);
    }
  }

  /** The straight line between ranks k and k + 1, at the place q * (n - 1) among the ranks 0 to n - 1. */
  function Line(sorted: seq<int>, q: real, k: nat): real
    requires k + 1 < |sorted|
  {
    sorted[k] as real + (q * (|sorted| - 1) as real - k as real) * (sorted[k + 1] - sorted[k]) as real
  }

  /** v is x without its fraction: less than one away from it, toward zero. */
  predicate IsTruncated(x: real, v: int) {
    (x >= 0.0 ==> 0.0 <= x - v as real < 1.0) && (x <= 0.0 ==> 0.0 <= v as real - x < 1.0)
  }

  lemma TruncateIsTruncated(x: real)
    ensures IsTruncated(x, Truncate(x))
  {}

  /** A quantile is the straight line between the neighbouring ranks at q * (n - 1), without its fraction of a nanosecond. */
  lemma QuantileInterpolates(sorted: seq<int>, q: real, k: nat)
    requires IsFraction(q) && k + 1 < |sorted|
    requires k as real <= q * (|sorted| - 1) as real <= k as real + 1.0
    ensures IsTruncated(Line(sorted, q, k), Quantile(sorted, q))
  {
    var pos := Position(|sorted|, q);
    PositionInRange(|sorted|, q);
    if pos == k as real {
      LineAt(sorted[k], sorted[k + 1], pos - k as real);
      assert Quantile(sorted, q) == sorted[k];
    } else if pos == k as real + 1.0 {
      LineAt(sorted[k], sorted[k + 1], pos - k as real);
      assert Quantile(sorted, q) == sorted[k + 1];
    } else {
      assert pos.Floor == k && Ceil(pos) == k + 1;
      BlendIsLinear(sorted[k], sorted[k + 1], pos - k as real);
      assert Line(sorted, q, k) == Blend(sorted[k], sorted[k + 1], pos - k as real);
      TruncateIsTruncated(Line(sorted, q, k));
    }
  }

  lemma LineAt(a: int, b: int, frac: real)
    ensures frac == 0.0 ==> a as real + frac * (b - a) as real == a as real
    ensures frac == 1.0 ==> a as real + frac * (b - a) as real == b as real
  {}

  // ---------------------------------------------------------------- the summary

  function Millis(d: int): real {
    d as real / 1_000_000.0
  }

  /** The figures, from the durations in order and their sum. */
  function Figures(sorted: seq<int>, sum: int): Percentiles
    requires sorted != []
  {
    Percentiles(
      |sorted|, Millis(sorted[0]), Millis(sum) / |sorted| as real,
      Millis(Quantile(sorted, 0.50)), Millis(Quantile(sorted, 0.90)), Millis(Quantile(sorted, 0.99)),
      Millis(Quantile(sorted, 0.999)), Millis(sorted[|sorted| - 1]))
  }

  /** The summary of some durations, given in any order. */
  function Summary(s: seq<int>): Percentiles {
    if s == [] then Percentiles(0, 0.0, 0.0, 0.0, 0.0, 0.0, 0.0, 0.0)
    else
      SortSorts(s);
      Figures(SortedOf(s), Sum(SortedOf(s), Itself))
  }

  /** sort.Slice on durations. */
  method SortSlice(a: array<int>)
    modifies a
    ensures a[..] == SortedOf(old(a[..]))
  {
    var t := SortedOf(a[..]);
    SortSorts(a[..]);
    forall k | 0 <= k < a.Length {
      a[k] := t[k];
    }
    assert a[..] == t;
  }

  /** Sorts s in place and summarizes it. */
  method ComputePercentiles(s: array<int>) returns (p: Percentiles)
    modifies s
    ensures p == Summary(old(s[..]))
    ensures s[..] == SortedOf(old(s[..]))
  {
    if s.Length == 0 {
      return Percentiles(0, 0.0, 0.0, 0.0, 0.0, 0.0, 0.0, 0.0);
    }
    SortSorts(s[..]);
    SortSlice(s);
    var sum := 0;
    for k := 0 to s.Length
      invariant s[..] == SortedOf(old(s[..]))
      invariant sum == Sum(s[..k], Itself)
    {
      sum := sum + s[k];
      assert s[..k + 1][..k] == s[..k];
    }
    assert s[..s.Length] == s[..];
    p := Figures(s[..], sum);
  }

  class Recorder {
    var samples: seq<int>

    constructor ()
      ensures samples == []
    {
      samples := [];
    }

    method Add(d: int)
      modifies this
      ensures samples == old(samples) + [d]
    {
      samples := samples + [d];
    }

    /** Works on a copy: the recorder itself is not among what it modifies. */
    method Snapshot() returns (p: Percentiles)
      ensures p == Summary(samples)
    {
      var s := new int[|samples|];
      forall k | 0 <= k < |samples| {
        s[k] := samples[k];
      }
      assert s[..] == samples;
      p := ComputePercentiles(s);
    }
  }

  /** The order in which concurrent callers add durations does not matter. */
  lemma SummaryIgnoresOrder(s: seq<int>, t: seq<int>)
    requires multiset(s) == multiset(t)
    ensures Summary(s) == Summary(t)
  {
    assert |multiset(s)| == |multiset(t)|;
    SortSorts(s);
    SortSorts(t);
    SortIsDetermined(SortedOf(s), SortedOf(t));
  }

  predicate InOrder(p: Percentiles) {
    p.min <= p.p50 <= p.p90 <= p.p99 <= p.p999 <= p.max && p.min <= p.mean <= p.max
  }

  lemma MeanWithin(sum: int, n: int, lo: int, hi: int)
    requires n > 0 && n * lo <= sum <= n * hi
    ensures Millis(lo) <= Millis(sum) / n as real <= Millis(hi)
  {
    assert Millis(lo) * n as real == (n * lo) as real / 1_000_000.0;
    assert Millis(hi) * n as real == (n * hi) as real / 1_000_000.0;
    QuotientWithin(Millis(sum), n as real, Millis(lo), Millis(hi));
  }

  lemma MeanBetweenExtremes(sorted: seq<int>)
    requires Sorted(sorted) && sorted != []
    ensures Millis(sorted[0]) <= Millis(Sum(sorted, Itself)) / |sorted| as real <= Millis(sorted[|sorted| - 1])
  {
    SumBounds(sorted, Itself, sorted[0], sorted[|sorted| - 1]);
    MeanWithin(Sum(sorted, Itself), |sorted|, sorted[0], sorted[|sorted| - 1]);
  }

  /** The summary is consistent: Min <= P50 <= P90 <= P99 <= P999 <= Max and Min <= Mean <= Max, for any durations. */
  lemma SummaryInOrder(s: seq<int>)
    ensures InOrder(Summary(s)) && Summary(s).count == |s|
  {
    if s != [] {
      SortSorts(s);
      var sorted := SortedOf(s);
      QuantileBetweenExtremes(sorted, 0.50);
      QuantileMonotone(sorted, 0.50, 0.90);
      QuantileMonotone(sorted, 0.90, 0.99);
      QuantileMonotone(sorted, 0.99, 0.999);
      QuantileBetweenExtremes(sorted, 0.999);
      MeanBetweenExtremes(sorted);
    }
  }

  // ---------------------------------------------------------------- what the figures are

  lemma {:induction false} SumPrepend(x: int, s: seq<int>)
    ensures Sum([x] + s, Itself) == x + Sum(s, Itself)
  {
    if s == [] {
      assert [x] + s == [] + [x];
      SumAppend([], x, Itself);
    } else {
      var last := |s| - 1;
      SumPrepend(x, s[..last]);
      assert ([x] + s)[..last + 1] == [x] + s[..last];
    }
  }

  lemma {:induction false} InsertKeepsSum(x: int, s: seq<int>)
    ensures Sum(Insert(x, s), Itself) == x + Sum(s, Itself)
  {
    if s == [] {
      SumPrepend(x, s);
      assert [x] + s == [x];
    } else if x <= s[0] {
      SumPrepend(x, s);
    } else {
      InsertKeepsSum(x, s[1..]);
      SumPrepend(s[0], Insert(x, s[1..]));
      SumPrepend(s[0], s[1..]);
      assert s == [s[0]] + s[1..];
    }
  }

  lemma {:induction false} SortKeepsSum(s: seq<int>)
    ensures Sum(SortedOf(s), Itself) == Sum(s, Itself)
  {
    if s != [] {
      SortKeepsSum(s[1..]);
      InsertKeepsSum(s[0], SortedOf(s[1..]));
      SumPrepend(s[0], s[1..]);
      assert s == [s[0]] + s[1..];
    }
  }

  /** ms, in milliseconds, is the given quantile of sorted nanoseconds. */
  ghost predicate IsQuantile(sorted: seq<int>, q: real, ms: real) {
    exists v :: InterpolatesAt(sorted, q, v) && ms * 1_000_000.0 == v as real
  }

  predicate InterpolatesAt(sorted: seq<int>, q: real, v: int) {
    && (|sorted| == 1 ==> v == sorted[0])
    && forall k: nat :: k + 1 < |sorted| && k as real <= q * (|sorted| - 1) as real <= k as real + 1.0 ==>
         IsTruncated(Line(sorted, q, k), v)
  }

  lemma QuantileIsQuantile(sorted: seq<int>, q: real)
    requires sorted != [] && IsFraction(q)
    ensures IsQuantile(sorted, q, Millis(Quantile(sorted, q)))
  {
    var v := Quantile(sorted, q);
    forall k: nat | k + 1 < |sorted| && k as real <= q * (|sorted| - 1) as real <= k as real + 1.0
      ensures IsTruncated(Line(sorted, q, k), v)
    {
      QuantileInterpolates(sorted, q, k);
    }
    assert InterpolatesAt(sorted, q, v);
    assert Millis(v) * 1_000_000.0 == v as real;
  }

  /** In milliseconds: the least and the greatest duration, and the sum over the number. */
  predicate AreFigures(p: Percentiles, sorted: seq<int>, sum: int) {
    && p.count == |sorted| > 0
    && p.min * 1_000_000.0 == sorted[0] as real && p.max * 1_000_000.0 == sorted[|sorted| - 1] as real
    && p.mean * p.count as real * 1_000_000.0 == sum as real
  }

  lemma FiguresAreExact(sorted: seq<int>, sum: int)
    requires sorted != []
    ensures AreFigures(Figures(sorted, sum), sorted, sum)
  {
    MeanTimesCount(Figures(sorted, sum).mean, sum, |sorted|);
  }

  lemma SummaryIsFigures(s: seq<int>, sorted: seq<int>)
    requires s != [] && Sorted(sorted) && multiset(sorted) == multiset(s)
    ensures |sorted| == |s| && Summary(s) == Figures(sorted, Sum(s, Itself))
  {
    SortSorts(s);
    SortKeepsSum(s);
    SortIsDetermined(sorted, SortedOf(s));
  }

  /** What the figures of some durations are, given the same durations in order. */
  lemma SummaryIsExact(s: seq<int>, sorted: seq<int>)
    requires s != [] && Sorted(sorted) && multiset(sorted) == multiset(s)
    ensures AreFigures(Summary(s), sorted, Sum(s, Itself)) && |sorted| == |s|
  {
    SummaryIsFigures(s, sorted);
    FiguresAreExact(sorted, Sum(s, Itself));
  }

  /** The percentiles are the interpolated values at 50, 90, 99 and 99.9 percent of the ranks. */
  lemma PercentilesAreQuantiles(s: seq<int>, sorted: seq<int>)
    requires s != [] && Sorted(sorted) && multiset(sorted) == multiset(s)
    ensures var p := Summary(s);
            && IsQuantile(sorted, 0.5, p.p50) && IsQuantile(sorted, 0.9, p.p90)
            && IsQuantile(sorted, 0.99, p.p99) && IsQuantile(sorted, 0.999, p.p999)
  {
    SummaryIsFigures(s, sorted);
    QuantileIsQuantile(sorted, 0.5);
    QuantileIsQuantile(sorted, 0.9);
    QuantileIsQuantile(sorted, 0.99);
    QuantileIsQuantile(sorted, 0.999);
  }

  lemma MeanTimesCount(mean: real, sum: int, n: int)
    requires n > 0 && mean == Millis(sum) / n as real
    ensures mean * n as real * 1_000_000.0 == sum as real
  {
    assert mean * n as real == Millis(sum);
  }
}
