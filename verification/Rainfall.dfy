/** The log of binned analog values and its statistics.

    Each cycle the newest bin index enters the log at the front.  For statistics the log is
    read into a register of rows (cycles ago) by columns (bins), shared by all logs of the
    program and holding whatever the last user left in it, and the ones in each column are
    counted down to the depth wanted. */
module Rainfall {
  import opened Nodes
  import opened Walks
  import opened Binning

  const REGISTER_ROWS: nat := 360

  /** The constant for "no bin index".  It is the not-a-number of an integer type, which
      has none: its value is 0, so bin 0 is taken for it. */
  const NAN_BINDEX: Bindex := 0

  // ----- Statistics over a window of the log, newest first -----

  function Seen(window: seq<Bindex>): nat {
    if window == [] then 0
    else Seen(window[..|window| - 1]) + if window[|window| - 1] == NAN_BINDEX then 0 else 1
  }

  function SumSeen(window: seq<Bindex>, f: seq<real>): real
    requires |f| == NUM_BINS
  {
    if window == [] then 0.0
    else SumSeen(window[..|window| - 1], f)
         + if window[|window| - 1] == NAN_BINDEX then 0.0 else f[window[|window| - 1]]
  }

  /** The average over the cycles of the window that are not taken for "no bin index". */
  function AverageSeen(window: seq<Bindex>, f: seq<real>): real
    requires |f| == NUM_BINS
  {
    if Seen(window) == 0 then 0.0 else SumSeen(window, f) / Seen(window) as real
  }

  function SquaredResiduals(labels: seq<real>, mean: real): (r: seq<real>)
    ensures |r| == |labels|
  {
    seq(|labels|, i requires 0 <= i < |labels| => (labels[i] - mean) * (labels[i] - mean))
  }

  function Greater(a: real, b: real): real {
    if a < b then b else a
  }

  function MeanOf(p: BinParams, window: seq<Bindex>): real
    requires Even(p)
  {
    AverageSeen(window, p.labels)
  }

  function VarianceOf(p: BinParams, window: seq<Bindex>): real
    requires Even(p)
  {
    Greater(p.minVariance, AverageSeen(window, SquaredResiduals(p.labels, MeanOf(p, window))))
  }

  // ----- Counting by bins gives the same as summing over cycles -----

  type BinSums = c: seq<nat> | |c| == NUM_BINS witness seq(NUM_BINS, _ => 0)

  /** How often each bin occurs; bin 0 never does. */
  function Counts(window: seq<Bindex>): BinSums {
    if window == [] then seq(NUM_BINS, _ => 0)
    else
      var before := Counts(window[..|window| - 1]);
      var last := window[|window| - 1];
      if last == NAN_BINDEX then before else before[last := before[last] + 1]
  }

  function Total(counts: seq<nat>): nat {
    if counts == [] then 0 else Total(counts[..|counts| - 1]) + counts[|counts| - 1]
  }

  function Weighted(counts: seq<nat>, f: seq<real>): real
    requires |counts| == |f|
  {
    if counts == [] then 0.0
    else Weighted(counts[..|counts| - 1], f[..|f| - 1]) + (counts[|counts| - 1] as real) * f[|f| - 1]
  }

  function InnerProduct(a: seq<real>, b: seq<real>): real
    requires |a| == |b|
  {
    if a == [] then 0.0 else InnerProduct(a[..|a| - 1], b[..|b| - 1]) + a[|a| - 1] * b[|b| - 1]
  }

  function Fractions(counts: seq<nat>, total: nat): (r: seq<real>)
    requires total > 0
    ensures |r| == |counts|
  {
    seq(|counts|, i requires 0 <= i < |counts| => counts[i] as real / total as real)
  }

  lemma AddOverCommon(s: real, c: real, f: real, t: real)
    requires t > 0.0
    ensures s / t + (c / t) * f == (s + c * f) / t
  {
  }

  lemma OneMoreShare(shares: real, whole: real, share: real, c: real, f: real, t: real)
    requires t > 0.0 && shares == whole / t && share == c / t
    ensures shares + share * f == (whole + c * f) / t
  {
    AddOverCommon(whole, c, f, t);
  }

  lemma {:induction false} InnerProductOfFractions(counts: seq<nat>, total: nat, f: seq<real>)
    requires |counts| == |f| && total > 0
    ensures InnerProduct(Fractions(counts, total), f) == Weighted(counts, f) / total as real
  {
    if counts != [] {
      var n := |counts| - 1;
      var fractions := Fractions(counts, total);
      assert fractions[..n] == Fractions(counts[..n], total);
      InnerProductOfFractions(counts[..n], total, f[..n]);
      OneMoreShare(InnerProduct(fractions[..n], f[..n]), Weighted(counts[..n], f[..n]),
                   fractions[n], counts[n] as real, f[n], total as real);
    }
  }

  lemma {:induction false} OneMoreCounted(counts: seq<nat>, f: seq<real>, i: nat)
    requires i < |counts| == |f|
    ensures Total(counts[i := counts[i] + 1]) == Total(counts) + 1
    ensures Weighted(counts[i := counts[i] + 1], f) == Weighted(counts, f) + f[i]
  {
    var n, more := |counts| - 1, counts[i := counts[i] + 1];
    if i < n {
      OneMoreCounted(counts[..n], f[..n], i);
      assert more[..n] == counts[..n][i := counts[i] + 1];
    } else {
      assert more[..n] == counts[..n];
      assert (counts[n] + 1) as real * f[n] == counts[n] as real * f[n] + f[n];
    }
  }

  lemma {:induction false} NothingCounted(n: nat, f: seq<real>)
    requires |f| == n
    ensures Total(seq(n, _ => 0)) == 0 && Weighted(seq(n, _ => 0), f) == 0.0
  {
    if n > 0 {
      NothingCounted(n - 1, f[..n - 1]);
      assert seq(n, _ => 0)[..n - 1] == seq(n - 1, _ => 0);
    }
  }

  lemma {:induction false} CountedIsSummed(window: seq<Bindex>, f: seq<real>)
    requires |f| == NUM_BINS
    ensures Total(Counts(window)) == Seen(window) && Weighted(Counts(window), f) == SumSeen(window, f)
  {
    if window == [] {
      NothingCounted(NUM_BINS, f);
    } else {
      var front, last := window[..|window| - 1], window[|window| - 1];
      CountedIsSummed(front, f);
      if last != NAN_BINDEX {
        OneMoreCounted(Counts(front), f, last);
      }
    }
  }

  lemma {:induction false} NoneSeen(window: seq<Bindex>, f: seq<real>)
    requires |f| == NUM_BINS && Seen(window) == 0
    ensures SumSeen(window, f) == 0.0
  {
    if window != [] {
      NoneSeen(window[..|window| - 1], f);
    }
  }

  /** The statistic the program computes, bin by bin, is the average, cycle by cycle. */
  lemma BinnedAverageIsDirect(window: seq<Bindex>, f: seq<real>, total: nat)
    requires |f| == NUM_BINS && total == if Total(Counts(window)) > 1 then Total(Counts(window)) else 1
    ensures InnerProduct(Fractions(Counts(window), total), f) == AverageSeen(window, f)
  {
    CountedIsSummed(window, f);
    InnerProductOfFractions(Counts(window), total, f);
    if Seen(window) == 0 {
      NoneSeen(window, f);
    }
  }

  // ----- When the mean is the mean of the window -----

  function SumAll(window: seq<Bindex>, f: seq<real>): real
    requires |f| == NUM_BINS
  {
    if window == [] then 0.0 else SumAll(window[..|window| - 1], f) + f[window[|window| - 1]]
  }

  lemma {:induction false} SkippedSum(window: seq<Bindex>, f: seq<real>)
    requires |f| == NUM_BINS
    ensures Seen(window) <= |window|
    ensures SumAll(window, f) == SumSeen(window, f) + ((|window| - Seen(window)) as real) * f[0]
  {
    if window != [] {
      var front := window[..|window| - 1];
      SkippedSum(front, f);
      assert ((|front| - Seen(front) + 1) as real) * f[0] == ((|front| - Seen(front)) as real) * f[0] + f[0];
    }
  }

  /** Whatever is seen is labeled above the first label. */
  lemma {:induction false} SeenAboveFirst(window: seq<Bindex>, f: seq<real>)
    requires |f| == NUM_BINS && forall i :: 0 < i < NUM_BINS ==> f[0] < f[i]
    ensures SumSeen(window, f) >= (Seen(window) as real) * f[0]
    ensures Seen(window) > 0 ==> SumSeen(window, f) > (Seen(window) as real) * f[0]
  {
    if window != [] {
      var front, last := window[..|window| - 1], window[|window| - 1];
      SeenAboveFirst(front, f);
      assert ((Seen(front) + 1) as real) * f[0] == (Seen(front) as real) * f[0] + f[0];
    }
  }

  /** Skipping what is less than all the rest makes for a greater mean. */
  lemma SkippingRaisesMean(s: real, m: real, z: real, first: real)
    requires m > 0.0 && z > 0.0 && s > m * first
    ensures s / m > (s + z * first) / (m + z)
  {
    var r, q := s / m, (s + z * first) / (m + z);
    assert r * m == s;
    MulLess(m, r, first);
    MulLess(z, r, first);
    assert q * (m + z) == s + z * first < r * (m + z);
    MulLess(m + z, r, q);
  }

  /** Of n values m are seen, summing to s, and the rest would be the first label each. */
  ghost predicate SumsOf(s: real, m: nat, total: real, n: nat, first: real, mean: real) {
    && m <= n && (m == 0 ==> s == 0.0) && (m > 0 ==> s > (m as real) * first)
    && total == s + ((n - m) as real) * first
    && mean == if m == 0 then 0.0 else s / m as real
  }

  lemma MeansAgreeIff(s: real, m: nat, total: real, n: nat, first: real, mean: real)
    requires SumsOf(s, m, total, n, first, mean) && n > 0
    ensures mean == total / n as real <==> m == n || (m == 0 && first == 0.0)
  {
    if m == 0 {
      assert ((n as real) * first) / n as real == first;
    } else if m < n {
      SkippingRaisesMean(s, m as real, (n - m) as real, first);
      assert n as real == m as real + (n - m) as real;
    } else {
      assert (0 as real) * first == 0.0;
    }
  }

  lemma SumsOfWindow(window: seq<Bindex>, f: seq<real>)
    requires |f| == NUM_BINS && forall i :: 0 < i < NUM_BINS ==> f[0] < f[i]
    ensures SumsOf(SumSeen(window, f), Seen(window), SumAll(window, f), |window|, f[0], AverageSeen(window, f))
  {
    SkippedSum(window, f);
    SeenAboveFirst(window, f);
    if Seen(window) == 0 {
      NoneSeen(window, f);
    }
  }

  lemma AverageIsOfWindowIff(window: seq<Bindex>, f: seq<real>)
    requires window != [] && |f| == NUM_BINS && forall i :: 0 < i < NUM_BINS ==> f[0] < f[i]
    ensures AverageSeen(window, f) == SumAll(window, f) / |window| as real
       <==> Seen(window) == |window| || (Seen(window) == 0 && f[0] == 0.0)
  {
    SumsOfWindow(window, f);
    MeansAgreeIff(SumSeen(window, f), Seen(window), SumAll(window, f), |window|, f[0], AverageSeen(window, f));
  }

  /** The mean reported is the mean over all the cycles of the window exactly when none of
      them is logged in bin 0, or all are and the first label is zero. */
  lemma MeanIsOfWindowIff(p: BinParams, window: seq<Bindex>)
    requires Even(p) && window != []
    ensures MeanOf(p, window) == SumAll(window, p.labels) / |window| as real
       <==> Seen(window) == |window| || (Seen(window) == 0 && p.labels[0] == 0.0)
  {
    forall i | 0 < i < NUM_BINS
      ensures p.labels[0] < p.labels[i]
    {
      LabelsRise(p, 0, i);
    }
    AverageIsOfWindowIff(window, p.labels);
  }

  /** The variance never falls below that of the binning itself. */
  lemma VarianceHasAFloor(p: BinParams, window: seq<Bindex>)
    requires Even(p)
    ensures VarianceOf(p, window) >= p.binHalfWidth * p.binHalfWidth > 0.0
  {
    assert p.binHalfWidth * p.binHalfWidth == p.minVariance;
    MulLess(p.binHalfWidth, 0.0, p.binHalfWidth);
  }

  // ----- The statistics are the mean and the variance of the labels seen -----

  /** The labels of the cycles of the window, without those of bin 0. */
  function SeenLabels(labels: seq<real>, window: seq<Bindex>): seq<real>
    requires |labels| == NUM_BINS
  {
    if window == [] then []
    else
      var before, last := SeenLabels(labels, window[..|window| - 1]), window[|window| - 1];
      if last == 0 then before else before + [labels[last]]
  }

  function Sum(values: seq<real>): real {
    if values == [] then 0.0 else Sum(values[..|values| - 1]) + values[|values| - 1]
  }

  function SumOfSquares(values: seq<real>): real {
    if values == [] then 0.0
    else SumOfSquares(values[..|values| - 1]) + values[|values| - 1] * values[|values| - 1]
  }

  lemma OneMoreSummed(values: seq<real>, v: real)
    ensures Sum(values + [v]) == Sum(values) + v && SumOfSquares(values + [v]) == SumOfSquares(values) + v * v
  {
    assert (values + [v])[..|values|] == values;
  }

  lemma {:induction false} SeenIsSummed(labels: seq<real>, window: seq<Bindex>)
    requires |labels| == NUM_BINS
    ensures Seen(window) == |SeenLabels(labels, window)|
    ensures SumSeen(window, labels) == Sum(SeenLabels(labels, window))
  {
    if window != [] {
      var front, last := window[..|window| - 1], window[|window| - 1];
      SeenIsSummed(labels, front);
      OneMoreSummed(SeenLabels(labels, front), labels[last]);
    }
  }

  function SumScaled(values: seq<real>, c: real): real {
    if values == [] then 0.0 else SumScaled(values[..|values| - 1], c) + c * values[|values| - 1]
  }

  function SumOfResiduals(values: seq<real>, mid: real): real {
    if values == [] then 0.0
    else
      var last := values[|values| - 1];
      SumOfResiduals(values[..|values| - 1], mid) + (last - mid) * (last - mid)
  }

  lemma {:induction false} ScaledIs(values: seq<real>, c: real)
    ensures SumScaled(values, c) == c * Sum(values)
  {
    if values != [] {
      var front, last := values[..|values| - 1], values[|values| - 1];
      ScaledIs(front, c);
      assert c * (Sum(front) + last) == c * Sum(front) + c * last;
    }
  }

  lemma SquareOfDifference(a: real, b: real)
    ensures (a - b) * (a - b) == a * a - 2.0 * (b * a) + b * b
  {
  }

  lemma {:induction false} ResidualsExpand(values: seq<real>, mid: real)
    ensures SumOfResiduals(values, mid)
         == SumOfSquares(values) - 2.0 * SumScaled(values, mid) + Times(|values|, mid * mid)
  {
    if values != [] {
      ResidualsExpand(values[..|values| - 1], mid);
      SquareOfDifference(values[|values| - 1], mid);
    }
  }

  lemma {:induction false} ResidualsSeen(labels: seq<real>, window: seq<Bindex>, mid: real)
    requires |labels| == NUM_BINS
    ensures SumSeen(window, SquaredResiduals(labels, mid)) == SumOfResiduals(SeenLabels(labels, window), mid)
  {
    if window != [] {
      var seen, last := SeenLabels(labels, window[..|window| - 1]), window[|window| - 1];
      ResidualsSeen(labels, window[..|window| - 1], mid);
      assert (seen + [labels[last]])[..|seen|] == seen;
    }
  }

  lemma TimesDivided(n: nat, x: real)
    requires n > 0
    ensures Times(n, x) / n as real == x
  {
    TimesIsProduct(n, x);
  }

  lemma TimesQuotient(s: real, n: nat, x: real)
    requires n > 0 && x == s / n as real
    ensures Times(n, x) == s
  {
    TimesIsProduct(n, x);
  }

  lemma QuotientOfDifference(a: real, b: real, n: real)
    requires n > 0.0
    ensures (a - b) / n == a / n - b / n
  {
  }

  lemma ScaledByMean(sum: real, n: real, mean: real, square: real)
    requires n * mean == sum && square == mean * mean
    ensures mean * sum == n * square
  {
    assert mean * (n * mean) == n * (mean * mean);
  }

  lemma ScaledIsTimes(values: seq<real>, mean: real, square: real)
    requires Times(|values|, mean) == Sum(values) && square == mean * mean
    ensures SumScaled(values, mean) == Times(|values|, square)
  {
    ScaledIs(values, mean);
    TimesIsProduct(|values|, mean);
    TimesIsProduct(|values|, square);
    ScaledByMean(Sum(values), |values| as real, mean, square);
  }

  lemma ResidualsAboutTheMean(values: seq<real>, mean: real, square: real)
    requires Times(|values|, mean) == Sum(values) && square == mean * mean
    ensures SumOfResiduals(values, mean) == SumOfSquares(values) - Times(|values|, square)
  {
    ResidualsExpand(values, mean);
    ScaledIsTimes(values, mean, square);
  }

  lemma AveragesAreOfSeen(labels: seq<real>, window: seq<Bindex>, mean: real)
    requires |labels| == NUM_BINS && SeenLabels(labels, window) != []
    ensures var seen := SeenLabels(labels, window);
            && AverageSeen(window, labels) == Sum(seen) / |seen| as real
            && AverageSeen(window, SquaredResiduals(labels, mean)) == SumOfResiduals(seen, mean) / |seen| as real
  {
    SeenIsSummed(labels, window);
    ResidualsSeen(labels, window, mean);
  }

  lemma MeanResidual(values: seq<real>, mean: real, square: real)
    requires values != [] && mean == Sum(values) / |values| as real && square == mean * mean
    ensures SumOfResiduals(values, mean) / |values| as real == SumOfSquares(values) / |values| as real - square
  {
    TimesQuotient(Sum(values), |values|, mean);
    ResidualsAboutTheMean(values, mean, square);
    QuotientOfDifference(SumOfSquares(values), Times(|values|, square), |values| as real);
    TimesDivided(|values|, square);
  }

  lemma NoLabelsSeen(p: BinParams, window: seq<Bindex>)
    requires Even(p) && SeenLabels(p.labels, window) == []
    ensures MeanOf(p, window) == 0.0 && VarianceOf(p, window) == p.minVariance
  {
    SeenIsSummed(p.labels, window);
    VarianceHasAFloor(p, window);
  }

  /** The mean and the spread of some values: the mean of their squares less the square of their mean,
      or the least reported where that is greater. */
  ghost predicate AreStatistics(values: seq<real>, mean: real, variance: real, least: real)
    requires values != []
  {
    var spread := SumOfSquares(values) / |values| as real - mean * mean;
    mean == Sum(values) / |values| as real && variance == if spread < least then least else spread
  }

  lemma LabelsSeen(labels: seq<real>, window: seq<Bindex>, mean: real, square: real, residual: real)
    requires |labels| == NUM_BINS && SeenLabels(labels, window) != []
    requires mean == AverageSeen(window, labels) && square == mean * mean
    requires residual == AverageSeen(window, SquaredResiduals(labels, mean))
    ensures var seen := SeenLabels(labels, window);
            mean == Sum(seen) / |seen| as real && residual == SumOfSquares(seen) / |seen| as real - square
  {
    AveragesAreOfSeen(labels, window, mean);
    MeanResidual(SeenLabels(labels, window), mean, square);
  }

  lemma StatisticsOfLabels(labels: seq<real>, window: seq<Bindex>, mean: real, variance: real, least: real)
    requires |labels| == NUM_BINS && SeenLabels(labels, window) != []
    requires mean == AverageSeen(window, labels)
    requires variance == Greater(least, AverageSeen(window, SquaredResiduals(labels, mean)))
    ensures AreStatistics(SeenLabels(labels, window), mean, variance, least)
  {
    var square := mean * mean;
    LabelsSeen(labels, window, mean, square, AverageSeen(window, SquaredResiduals(labels, mean)));
  }

  /** With some cycle of the window seen, the statistics are those of the labels seen; with none the
      mean is zero. */
  ghost predicate AreOfLabelsSeen(p: BinParams, window: seq<Bindex>, mean: real, variance: real)
    requires Even(p)
  {
    var seen := SeenLabels(p.labels, window);
    if seen == [] then mean == 0.0 && variance == p.minVariance else AreStatistics(seen, mean, variance, p.minVariance)
  }

  /** The least variance is the square of half a bin's width. */
  lemma StatisticsAreOfLabelsSeen(p: BinParams, window: seq<Bindex>)
    requires Even(p)
    ensures p.minVariance == p.binHalfWidth * p.binHalfWidth
    ensures AreOfLabelsSeen(p, window, MeanOf(p, window), VarianceOf(p, window))
  {
    if SeenLabels(p.labels, window) == [] {
      NoLabelsSeen(p, window);
    } else {
      StatisticsOfLabels(p.labels, window, MeanOf(p, window), VarianceOf(p, window), p.minVariance);
    }
  }

  /** A user asking for the statistics of a single cycle is given none of it: the mean over
      a depth of no cycles is zero, whatever the newest value. */
  lemma SpanOfOneIsEmpty(p: BinParams, log: seq<Bindex>)
    requires Even(p) && log != []
    ensures MeanOf(p, log[..1 - 1]) == 0.0
    ensures MeanOf(p, log[..1 - 1]) == p.labels[log[0]] <==> p.labels[log[0]] == 0.0
  {
    assert log[..0] == [];
  }

  // ----- The log over a run of cycles -----

  /** The log after one more value; the first one ever fills it. */
  function Logged(p: BinParams, firstCycle: bool, log: seq<Bindex>, x: real): seq<Bindex>
    requires Even(p) && log != []
  {
    if firstCycle then seq(|log|, _ => Bin(p, x)) else [Bin(p, x)] + log[..|log| - 1]
  }

  function LogAfter(p: BinParams, log: seq<Bindex>, xs: seq<real>): (r: seq<Bindex>)
    requires Even(p) && log != []
    ensures |r| == |log|
  {
    if xs == [] then log else Logged(p, |xs| == 1, LogAfter(p, log, xs[..|xs| - 1]), xs[|xs| - 1])
  }

  /** The value logged so many cycles ago: before the first there is none but the first. */
  function ValueAgo(xs: seq<real>, ago: nat): real
    requires xs != []
  {
    if ago < |xs| then xs[|xs| - 1 - ago] else xs[0]
  }

  lemma {:induction false} LogIsNewestFirst(p: BinParams, log: seq<Bindex>, xs: seq<real>)
    requires Even(p) && log != [] && xs != []
    ensures forall i :: 0 <= i < |log| ==> LogAfter(p, log, xs)[i] == Bin(p, ValueAgo(xs, i))
  {
    if |xs| > 1 {
      var front := xs[..|xs| - 1];
      LogIsNewestFirst(p, log, front);
      assert forall i :: 0 < i ==> ValueAgo(xs, i) == ValueAgo(front, i - 1);
    }
  }

  function ValuesAgo(xs: seq<real>, depth: nat): (r: seq<real>)
    requires xs != []
    ensures |r| == depth && forall i :: 0 <= i < depth ==> r[i] == ValueAgo(xs, i)
  {
    seq(depth, i requires 0 <= i < depth => ValueAgo(xs, i))
  }

  /** Each cycle of a window is seen, under a label within `half` of its value. */
  ghost predicate Tracks(labels: seq<real>, window: seq<Bindex>, values: seq<real>, half: real) {
    && |labels| == NUM_BINS && |values| == |window|
    && forall i :: 0 <= i < |window| ==> window[i] != NAN_BINDEX && Abs(labels[window[i]] - values[i]) <= half
  }

  function Times(n: nat, half: real): real {
    if n == 0 then 0.0 else Times(n - 1, half) + half
  }

  lemma {:induction false} TimesIsProduct(n: nat, half: real)
    ensures Times(n, half) == (n as real) * half
  {
    if n > 0 {
      TimesIsProduct(n - 1, half);
      assert (n as real) * half == ((n - 1) as real) * half + half;
    } else {
      assert (0 as real) * half == 0.0;
    }
  }

  lemma {:induction false} SumTracks(labels: seq<real>, window: seq<Bindex>, values: seq<real>, half: real)
    requires Tracks(labels, window, values, half)
    ensures Seen(window) == |window|
    ensures Abs(SumSeen(window, labels) - Sum(values)) <= Times(|window|, half)
  {
    if window != [] {
      SumTracks(labels, window[..|window| - 1], values[..|window| - 1], half);
    }
  }

  lemma QuotientsApart(a: real, b: real, n: real, d: real)
    requires n > 0.0 && Abs(a - b) <= n * d
    ensures Abs(a / n - b / n) <= d
  {
    var q := (a - b) / n;
    assert q * n == a - b && a / n - b / n == q;
    MulLess(n, q, d);
    MulLess(n, -d, q);
  }

  /** A mean is within `d` of that of a sum over so many. */
  predicate MeanIsWithin(mean: real, sum: real, n: nat, d: real)
    requires n > 0
  {
    Abs(mean - sum / n as real) <= d
  }

  lemma MeansApart(a: real, b: real, n: nat, d: real)
    requires n > 0 && Abs(a - b) <= Times(n, d)
    ensures MeanIsWithin(a / n as real, b, n, d)
  {
    TimesIsProduct(n, d);
    QuotientsApart(a, b, n as real, d);
  }

  /** Inside the bins, and not in the one that is taken for "no bin index". */
  predicate IsRepresented(p: BinParams, x: real)
    requires Even(p)
  {
    !IsOutside(p, x) && Bin(p, x) != NAN_BINDEX
  }

  ghost predicate AllRepresented(p: BinParams, xs: seq<real>)
    requires Even(p)
  {
    forall i :: 0 <= i < |xs| ==> IsRepresented(p, xs[i])
  }

  lemma WindowTracks(p: BinParams, log: seq<Bindex>, xs: seq<real>, depth: nat)
    requires Even(p) && xs != [] && log != [] && depth <= |log| && AllRepresented(p, ValuesAgo(xs, depth))
    ensures Tracks(p.labels, LogAfter(p, log, xs)[..depth], ValuesAgo(xs, depth), p.binHalfWidth)
  {
    var values := ValuesAgo(xs, depth);
    LogIsNewestFirst(p, log, xs);
    forall i | 0 <= i < depth
      ensures Abs(p.labels[Bin(p, values[i])] - values[i]) <= p.binHalfWidth && Bin(p, values[i]) != NAN_BINDEX
    {
      assert IsRepresented(p, values[i]);
      WithinHalfABin(p, values[i]);
    }
  }

  lemma AverageTracks(labels: seq<real>, window: seq<Bindex>, values: seq<real>, half: real)
    requires Tracks(labels, window, values, half) && window != []
    ensures MeanIsWithin(AverageSeen(window, labels), Sum(values), |values|, half)
  {
    SumTracks(labels, window, values, half);
    MeansApart(SumSeen(window, labels), Sum(values), |window|, half);
  }

  /** After any run of cycles the mean reported is within half a bin width of the mean of the
      values themselves, if those of its window were inside the bins and none in bin 0. */
  lemma MeanTracksValues(p: BinParams, log: seq<Bindex>, xs: seq<real>, depth: nat)
    requires Even(p) && xs != [] && 0 < depth <= |log| && AllRepresented(p, ValuesAgo(xs, depth))
    ensures MeanIsWithin(MeanOf(p, LogAfter(p, log, xs)[..depth]), Sum(ValuesAgo(xs, depth)), depth, p.binHalfWidth)
  {
    WindowTracks(p, log, xs, depth);
    AverageTracks(p.labels, LogAfter(p, log, xs)[..depth], ValuesAgo(xs, depth), p.binHalfWidth);
  }
}
