/** Nearest-rank percentiles of `eval/retrieval/performance.js` and `bench/archive/artifact.js`, in exact
    arithmetic. */
module Percentiles {
  import opened Wrappers
  import opened Sequences
  import opened Numbers

  function Insert(x: real, sorted: seq<real>): seq<real> {
    if sorted == [] || x < sorted[0] then [x] + sorted else [sorted[0]] + Insert(x, sorted[1..])
  }

  /** `sort((left, right) => left - right)` */
  function Sort(samples: seq<real>): seq<real> {
    if samples == [] then [] else Insert(samples[0], Sort(samples[1..]))
  }

  function Ceil(x: real): int {
    -((-x).Floor)
  }

  /** The product of a number and a count. */
  function Times(x: real, n: nat): real {
    if n == 0 then 0.0 else Times(x, n - 1) + x
  }

  lemma {:induction false} TimesIsProduct(x: real, n: nat)
    ensures Times(x, n) == x * n as real
  {
    if n > 0 {
      TimesIsProduct(x, n - 1);
      var m := (n - 1) as real;
      assert n as real == m + 1.0;
      assert x * (m + 1.0) == x * m + x;
    }
  }

  predicate Valid(samples: seq<real>) {
    samples != [] && forall i :: 0 <= i < |samples| ==> samples[i] >= 0.0
  }

  /** `percentile` of `performance.js`; nothing where it throws. */
  function Percentile(samples: seq<real>, p: real): Option<real> {
    if !Valid(samples) || p < 0.0 || p > 1.0 then None
    else
      SortLength(samples);
      Some(Sort(samples)[Max(0, Min(|samples| - 1, Ceil(Times(p, |samples|)) - 1))])
  }

  datatype Summary = Summary(min: real, mean: real, p50: real, p95: real, p99: real, max: real)

  function Sum(samples: seq<real>): real {
    if samples == [] then 0.0 else Sum(samples[..|samples| - 1]) + samples[|samples| - 1]
  }

  function Least(samples: seq<real>): real
    requires samples != []
  {
    if |samples| == 1 then samples[0]
    else
      var rest := Least(samples[1..]);
      if samples[0] <= rest then samples[0] else rest
  }

  function Greatest(samples: seq<real>): real
    requires samples != []
  {
    if |samples| == 1 then samples[0]
    else
      var rest := Greatest(samples[1..]);
      if samples[0] >= rest then samples[0] else rest
  }

  /** `summarizeMilliseconds` of `performance.js`, whose callers have at least one sample. */
  function SummarizeMilliseconds(samples: seq<real>): Summary
    requires Valid(samples)
  {
    Summary(Least(samples), Sum(samples) / |samples| as real, Percentile(samples, 0.5).value,
            Percentile(samples, 0.95).value, Percentile(samples, 0.99).value, Greatest(samples))
  }

  /** `summarizeLatency` of `artifact.js`, with a percentile of its own. */
  function SummarizeLatency(samples: seq<real>): Option<Summary> {
    if !Valid(samples) then None
    else
      SortLength(samples);
      var ordered := Sort(samples);
      CeilBounds(0.5, |samples|);
      CeilBounds(0.95, |samples|);
      CeilBounds(0.99, |samples|);
      var percentile := (p: real) requires 0 <= Max(0, Ceil(Times(p, |samples|)) - 1) < |ordered| =>
        ordered[Max(0, Ceil(Times(p, |samples|)) - 1)];
      Some(Summary(ordered[0], Sum(samples) / |samples| as real, percentile(0.5), percentile(0.95), percentile(0.99),
                   ordered[|ordered| - 1]))
  }

  // ---------------------------------------------------------------------------------------
  // Ranks
  // ---------------------------------------------------------------------------------------

  lemma CeilOf(x: real)
    ensures x <= Ceil(x) as real < x + 1.0
  {
  }

  lemma {:induction false} TimesBounds(p: real, n: nat)
    requires 0.0 <= p <= 1.0
    ensures 0.0 <= Times(p, n) <= n as real
  {
    if n > 0 {
      TimesBounds(p, n - 1);
    }
  }

  lemma CeilBounds(p: real, n: nat)
    requires 0.0 <= p <= 1.0
    ensures 0 <= Ceil(Times(p, n)) <= n
  {
    TimesBounds(p, n);
  }

  lemma {:induction false} TimesGrows(p: real, q: real, n: nat)
    requires p <= q
    ensures Times(p, n) <= Times(q, n)
  {
    if n > 0 {
      TimesGrows(p, q, n - 1);
    }
  }

  lemma CeilGrows(p: real, q: real, n: nat)
    requires p <= q
    ensures Ceil(Times(p, n)) <= Ceil(Times(q, n))
  {
    TimesGrows(p, q, n);
    CeilOf(Times(p, n));
    CeilOf(Times(q, n));
  }

  /** The rank the percentile stands for. */
  function Rank(p: real, n: nat): int {
    Max(1, Ceil(Times(p, n)))
  }

  ghost predicate Ordered(samples: seq<real>) {
    forall i, j :: 0 <= i <= j < |samples| ==> samples[i] <= samples[j]
  }

  lemma {:induction false} InsertElements(x: real, sorted: seq<real>)
    ensures multiset(Insert(x, sorted)) == multiset(sorted) + multiset{x}
  {
    if sorted != [] && !(x < sorted[0]) {
      InsertElements(x, sorted[1..]);
      FirstAndRest(sorted);
    }
  }

  lemma {:induction false} InsertOrdered(x: real, sorted: seq<real>)
    requires Ordered(sorted)
    ensures Ordered(Insert(x, sorted))
    ensures forall i :: 0 <= i < |Insert(x, sorted)| ==> Insert(x, sorted)[i] >= x || (sorted != [] && Insert(x, sorted)[i] >= sorted[0])
  {
    if sorted != [] && !(x < sorted[0]) {
      InsertOrdered(x, sorted[1..]);
    }
  }

  lemma {:induction false} SortOrdered(samples: seq<real>)
    ensures Ordered(Sort(samples)) && multiset(Sort(samples)) == multiset(samples)
  {
    if samples != [] {
      SortOrdered(samples[1..]);
      InsertOrdered(samples[0], Sort(samples[1..]));
      InsertElements(samples[0], Sort(samples[1..]));
      FirstAndRest(samples);
    }
  }

  lemma SortLength(samples: seq<real>)
    ensures |Sort(samples)| == |samples|
  {
    SortOrdered(samples);
    assert |multiset(Sort(samples))| == |multiset(samples)|;
  }

  lemma FirstAndRest<T>(a: seq<T>)
    requires a != []
    ensures multiset(a) == multiset{a[0]} + multiset(a[1..])
  {
    Whole(a, 1);
    assert multiset(a[..1] + a[1..]) == multiset(a[..1]) + multiset(a[1..]);
    assert a[..1] == [a[0]];
  }

  lemma SameElement<T>(a: seq<T>, b: seq<T>, i: nat) returns (j: nat)
    requires multiset(a) == multiset(b) && i < |a|
    ensures j < |b| && b[j] == a[i]
  {
    assert a[i] in multiset(b);
    j :| 0 <= j < |b| && b[j] == a[i];
  }

  lemma SameRest<T>(a: seq<T>, b: seq<T>)
    requires multiset(a) == multiset(b) && a != [] && b != [] && a[0] == b[0]
    ensures multiset(a[1..]) == multiset(b[1..])
  {
    FirstAndRest(a);
    FirstAndRest(b);
    assert multiset(a[1..]) == multiset(a) - multiset{a[0]};
    assert multiset(b[1..]) == multiset(b) - multiset{b[0]};
  }

  lemma HeadsAgree(a: seq<real>, b: seq<real>)
    requires Ordered(a) && Ordered(b) && multiset(a) == multiset(b) && a != []
    ensures b != [] && a[0] == b[0]
  {
    var j := SameElement(a, b, 0);
    var i := SameElement(b, a, 0);
    assert a[0] <= a[i] && b[0] <= b[j];
  }

  /** Ordered lists of the same samples are equal. */
  lemma {:induction false} OrderedUnique(a: seq<real>, b: seq<real>)
    requires Ordered(a) && Ordered(b) && multiset(a) == multiset(b)
    ensures a == b
  {
    if a != [] {
      HeadsAgree(a, b);
      SameRest(a, b);
      OrderedUnique(a[1..], b[1..]);
      Whole(a, 1);
      Whole(b, 1);
    } else {
      assert |multiset(b)| == 0;
    }
  }

  /** How many samples are at most `x`, and how many at least. */
  ghost function CountAtMost(samples: seq<real>, x: real): nat {
    if samples == [] then 0 else CountAtMost(samples[1..], x) + if samples[0] <= x then 1 else 0
  }

  ghost function CountAtLeast(samples: seq<real>, x: real): nat {
    if samples == [] then 0 else CountAtLeast(samples[1..], x) + if samples[0] >= x then 1 else 0
  }

  lemma {:induction false} InsertCounts(x: real, sorted: seq<real>, y: real)
    ensures CountAtMost(Insert(x, sorted), y) == CountAtMost(sorted, y) + if x <= y then 1 else 0
    ensures CountAtLeast(Insert(x, sorted), y) == CountAtLeast(sorted, y) + if x >= y then 1 else 0
  {
    var inserted := Insert(x, sorted);
    if sorted == [] || x < sorted[0] {
      assert inserted[1..] == sorted;
    } else {
      InsertCounts(x, sorted[1..], y);
      assert inserted[1..] == Insert(x, sorted[1..]);
    }
  }

  lemma {:induction false} SortCounts(samples: seq<real>, y: real)
    ensures CountAtMost(Sort(samples), y) == CountAtMost(samples, y)
    ensures CountAtLeast(Sort(samples), y) == CountAtLeast(samples, y)
  {
    if samples != [] {
      SortCounts(samples[1..], y);
      InsertCounts(samples[0], Sort(samples[1..]), y);
    }
  }

  /** In an ordered list, everything up to a position is at most what stands there, and everything from it on
      at least. */
  lemma {:induction false} OrderedCounts(sorted: seq<real>, i: nat, y: real)
    requires Ordered(sorted) && i < |sorted|
    ensures y >= sorted[i] ==> CountAtMost(sorted, y) >= i + 1
    ensures y <= sorted[i] ==> CountAtLeast(sorted, y) >= |sorted| - i
    decreases |sorted|
  {
    if i > 0 {
      OrderedCounts(sorted[1..], i - 1, y);
      assert sorted[1..][i - 1] == sorted[i];
    } else if |sorted| > 1 {
      OrderedCounts(sorted[1..], 0, y);
    }
  }

  lemma PercentileIs(samples: seq<real>, p: real)
    requires Valid(samples) && 0.0 <= p <= 1.0
    ensures 1 <= Rank(p, |samples|) <= |samples| == |Sort(samples)|
    ensures Percentile(samples, p) == Some(Sort(samples)[Rank(p, |samples|) - 1])
  {
    SortLength(samples);
    CeilBounds(p, |samples|);
  }

  /** The number of samples at most `x` is at least `k`, and of those at least `x` at least `n - k + 1`. */
  ghost predicate HasRank(samples: seq<real>, x: real, k: int) {
    x in samples && CountAtMost(samples, x) >= k && CountAtLeast(samples, x) >= |samples| - k + 1
  }

  lemma RankOfSorted(samples: seq<real>, k: nat)
    requires 1 <= k <= |samples| == |Sort(samples)|
    ensures HasRank(samples, Sort(samples)[k - 1], k)
  {
    var x := Sort(samples)[k - 1];
    SortOrdered(samples);
    assert x in multiset(Sort(samples));
    OrderedCounts(Sort(samples), k - 1, x);
    SortCounts(samples, x);
  }

  /** The percentile is a sample with at least `k` samples not above it and at least `n - k + 1` not below it,
      where `k` is its rank. */
  lemma PercentileRanks(samples: seq<real>, p: real)
    requires Valid(samples) && 0.0 <= p <= 1.0
    ensures 1 <= Rank(p, |samples|) <= |samples|
    ensures HasRank(samples, Percentile(samples, p).value, Rank(p, |samples|))
  {
    PercentileIs(samples, p);
    RankOfSorted(samples, Rank(p, |samples|));
  }

  lemma SortPermutes(a: seq<real>, b: seq<real>)
    requires multiset(a) == multiset(b)
    ensures Sort(a) == Sort(b) && |a| == |b|
  {
    SortOrdered(a);
    SortOrdered(b);
    OrderedUnique(Sort(a), Sort(b));
    assert |multiset(a)| == |multiset(b)|;
  }

  lemma ValidPermutes(a: seq<real>, b: seq<real>)
    requires multiset(a) == multiset(b)
    ensures Valid(a) <==> Valid(b)
  {
    assert |multiset(a)| == |multiset(b)|;
    assert forall i :: 0 <= i < |a| ==> a[i] in multiset(b);
    assert forall i :: 0 <= i < |b| ==> b[i] in multiset(a);
  }

  /** The order of the samples does not matter. */
  lemma PercentilePermutes(a: seq<real>, b: seq<real>, p: real)
    requires multiset(a) == multiset(b)
    ensures Percentile(a, p) == Percentile(b, p)
  {
    SortPermutes(a, b);
    ValidPermutes(a, b);
  }

  lemma RankGrows(p: real, q: real, n: nat)
    requires 0.0 <= p <= q
    ensures Rank(p, n) <= Rank(q, n)
  {
    CeilGrows(p, q, n);
  }

  lemma PercentileGrows(samples: seq<real>, p: real, q: real)
    requires Valid(samples) && 0.0 <= p <= q <= 1.0
    ensures Percentile(samples, p).value <= Percentile(samples, q).value
  {
    SortOrdered(samples);
    PercentileIs(samples, p);
    PercentileIs(samples, q);
    RankGrows(p, q, |samples|);
  }

  // ---------------------------------------------------------------------------------------
  // Summaries
  // ---------------------------------------------------------------------------------------

  lemma {:induction false} LeastGreatest(samples: seq<real>)
    requires samples != []
    ensures Least(samples) in samples && Greatest(samples) in samples
    ensures Within(samples, Least(samples), Greatest(samples))
  {
    if |samples| > 1 {
      LeastGreatest(samples[1..]);
      assert forall i :: 1 <= i < |samples| ==> samples[i] == samples[1..][i - 1];
    }
  }

  lemma SortEnds(samples: seq<real>)
    requires samples != []
    ensures |Sort(samples)| == |samples|
    ensures Sort(samples)[0] == Least(samples) && Sort(samples)[|samples| - 1] == Greatest(samples)
  {
    var sorted := Sort(samples);
    SortOrdered(samples);
    SortLength(samples);
    LeastGreatest(samples);
    assert sorted[0] in multiset(samples) && sorted[|samples| - 1] in multiset(samples);
    assert Least(samples) in multiset(sorted) && Greatest(samples) in multiset(sorted);
  }

  ghost predicate Within(samples: seq<real>, low: real, high: real) {
    forall i :: 0 <= i < |samples| ==> low <= samples[i] <= high
  }

  lemma {:induction false} SumBounds(samples: seq<real>, low: real, high: real)
    requires Within(samples, low, high)
    ensures Times(low, |samples|) <= Sum(samples) <= Times(high, |samples|)
  {
    if samples != [] {
      SumBounds(samples[..|samples| - 1], low, high);
    }
  }

  lemma MeanWithin(samples: seq<real>, low: real, high: real)
    requires samples != [] && Within(samples, low, high)
    ensures low <= Sum(samples) / |samples| as real <= high
  {
    SumBounds(samples, low, high);
    TimesIsProduct(low, |samples|);
    TimesIsProduct(high, |samples|);
    Divided(Sum(samples), |samples| as real, low, high);
  }

  lemma Divided(sum: real, n: real, low: real, high: real)
    requires n > 0.0 && low * n <= sum <= high * n
    ensures low <= sum / n <= high
  {
    var mean := sum / n;
    assert mean * n == sum;
    assert mean < low ==> mean * n < low * n;
    assert mean > high ==> mean * n > high * n;
  }

  /** The two modules summarize alike. */
  lemma SummariesAgree(samples: seq<real>)
    ensures SummarizeLatency(samples) == if Valid(samples) then Some(SummarizeMilliseconds(samples)) else None
  {
    if Valid(samples) {
      SortEnds(samples);
      CeilBounds(0.5, |samples|);
      CeilBounds(0.95, |samples|);
      CeilBounds(0.99, |samples|);
    }
  }

  /** A summary is ordered, and its mean lies within its extremes. */
  lemma SummaryOrdered(samples: seq<real>)
    requires Valid(samples)
    ensures var s := SummarizeMilliseconds(samples);
            && s.min <= s.p50 <= s.p95 <= s.p99 <= s.max
            && s.min <= s.mean <= s.max
  {
    LeastGreatest(samples);
    MeanWithin(samples, Least(samples), Greatest(samples));
    PercentileRanks(samples, 0.5);
    PercentileRanks(samples, 0.99);
    PercentileGrows(samples, 0.5, 0.95);
    PercentileGrows(samples, 0.95, 0.99);
  }

  /** `k` is the rank that a share of so many samples asks for: the least positive number that is at least the
      share, in hundredths. */
  ghost predicate RankOf(percent: nat, n: nat, k: int) {
    k >= 1 && 100 * k >= percent * n && (k > 1 ==> 100 * (k - 1) < percent * n)
  }

  /** A sample has the rank that a share of all samples asks for. */
  ghost predicate PercentOf(samples: seq<real>, percent: nat, x: real) {
    forall k :: RankOf(percent, |samples|, k) ==> HasRank(samples, x, k)
  }

  lemma RankIs(p: real, percent: nat, n: nat)
    requires percent <= 100 && p * 100.0 == percent as real
    ensures RankOf(percent, n, Rank(p, n))
  {
    var x, k := Times(p, n), Ceil(Times(p, n));
    TimesIsProduct(p, n);
    CeilOf(x);
    Hundredths(p, percent, n);
    Scaled(x, k, percent * n);
  }

  lemma Hundredths(p: real, percent: nat, n: nat)
    requires p * 100.0 == percent as real
    ensures (p * n as real) * 100.0 == (percent * n) as real
  {
    assert (p * n as real) * 100.0 == (p * 100.0) * n as real;
    assert percent as real * n as real == (percent * n) as real;
  }

  lemma Scaled(x: real, k: int, hundredths: int)
    requires x * 100.0 == hundredths as real && x <= k as real < x + 1.0
    ensures 100 * (k - 1) < hundredths <= 100 * k
  {
    assert (100 * k) as real == k as real * 100.0;
  }

  lemma {:induction false} SumConcat(a: seq<real>, b: seq<real>)
    ensures Sum(a + b) == Sum(a) + Sum(b)
  {
    if b == [] {
      Nothing(a);
    } else {
      assert (a + b)[..|a + b| - 1] == a + b[..|b| - 1];
      SumConcat(a, b[..|b| - 1]);
    }
  }

  lemma RankUnique(percent: nat, n: nat, k: int, m: int)
    requires RankOf(percent, n, k) && RankOf(percent, n, m)
    ensures k == m
  {
  }

  /** What a summary says: the extremes are the least and the greatest sample, the percentiles have their ranks, and
      the mean is the sum shared out. */
  lemma SummaryMeans(samples: seq<real>)
    requires Valid(samples)
    ensures var s, n := SummarizeMilliseconds(samples), |samples|;
            && s.min in samples && s.max in samples && Within(samples, s.min, s.max)
            && PercentOf(samples, 50, s.p50) && PercentOf(samples, 95, s.p95) && PercentOf(samples, 99, s.p99)
            && IsMean(s.mean, Sum(samples), n)
  {
    LeastGreatest(samples);
    PercentileHasRank(samples, 0.5, 50);
    PercentileHasRank(samples, 0.95, 95);
    PercentileHasRank(samples, 0.99, 99);
    MeanIs(Sum(samples), |samples|);
  }

  lemma PercentileHasRank(samples: seq<real>, p: real, percent: nat)
    requires Valid(samples) && percent <= 100 && p * 100.0 == percent as real
    ensures PercentOf(samples, percent, Percentile(samples, p).value)
  {
    RankIs(p, percent, |samples|);
    PercentileRanks(samples, p);
    forall k | RankOf(percent, |samples|, k)
      ensures HasRank(samples, Percentile(samples, p).value, k)
    {
      RankUnique(percent, |samples|, k, Rank(p, |samples|));
    }
  }
}
