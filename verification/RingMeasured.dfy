/**
 The charge of a batch said over the sources' samples and statistics themselves: which past
 batches are aligned, their means and covariances, and the exact rounding. One number meets
 the description, and it is the charge.
 */
module RingMeasured {
  import opened Basics
  import opened RingArithmetic
  import opened RingCharge
  import opened RingChargeLaws

  // ---------- alignment ----------

  /** Some instant lies in the j-th most recent sample of every source, and all of them last equally long. */
  ghost predicate SharedBatch(a: seq<Append>, j: nat) {
    && (forall i :: 0 <= i < |a| ==> j < |a[i].recent.samples|)
    && (exists t :: Common(a, j, t))
    && (forall i, k :: 0 <= i < |a| && 0 <= k < |a| ==> Lasts(a[i].recent.samples[j]) == Lasts(a[k].recent.samples[j]))
  }

  ghost predicate Common(a: seq<Append>, j: nat, t: int)
    requires forall i :: 0 <= i < |a| ==> j < |a[i].recent.samples|
  {
    forall i :: 0 <= i < |a| ==> a[i].recent.samples[j].start <= t < a[i].recent.samples[j].end
  }

  function Lasts(s: Sample): int {
    s.end - s.start
  }

  /** Overlapping pair by pair is having an instant in common. */
  lemma AlignedIsShared(a: seq<Append>, j: nat)
    requires a != []
    ensures AlignedAt(a, j) <==> SharedBatch(a, j)
  {
    AlignedByIndex(a, j);
    if AlignedAt(a, j) {
      var t := LatestStart(a, j, |a|);
      assert Common(a, j, t);
    }
  }

  lemma {:induction false} LatestStart(a: seq<Append>, j: nat, n: nat) returns (t: int)
    requires 0 < n <= |a| && forall i :: 0 <= i < |a| ==> j < |a[i].recent.samples|
    ensures forall i :: 0 <= i < n ==> a[i].recent.samples[j].start <= t
    ensures exists i :: 0 <= i < n && a[i].recent.samples[j].start == t
    decreases n
  {
    var last := a[n - 1].recent.samples[j].start;
    if n == 1 {
      return last;
    }
    var before := LatestStart(a, j, n - 1);
    t := if before >= last then before else last;
  }

  /** The newest n batches are shared, the next one is not. */
  ghost predicate SharedRun(a: seq<Append>, n: nat) {
    (forall j: nat :: j < n ==> SharedBatch(a, j)) && !SharedBatch(a, n)
  }

  lemma {:induction false} AlignedRun(a: seq<Append>, j: nat)
    requires a != []
    ensures j <= AlignedFrom(a, j) && !AlignedAt(a, AlignedFrom(a, j))
    ensures forall k: nat :: j <= k < AlignedFrom(a, j) ==> AlignedAt(a, k)
    decreases |a[0].recent.samples| - j
  {
    if AlignedAt(a, j) {
      assert a[0] in a;
      AlignedRun(a, j + 1);
    }
  }

  lemma RunIsShared(a: seq<Append>, n: nat)
    requires a != []
    ensures SharedRun(a, n) <==> n == AlignedFrom(a, 0)
  {
    hide AlignedAt, SharedBatch;
    AlignedRun(a, 0);
    forall j: nat
      ensures AlignedAt(a, j) <==> SharedBatch(a, j)
    {
      AlignedIsShared(a, j);
    }
  }

  // ---------- means and covariances of the samples ----------

  /** The sizes of a source's newest n samples. */
  ghost function Measurements(r: Recent, n: nat): seq<real>
    requires n <= |r.samples|
  {
    seq(n, j requires 0 <= j < n => r.samples[j].size as real)
  }

  lemma {:induction false} SizeSumIsTotal(r: Recent, n: nat)
    requires n <= |r.samples|
    ensures SizeSum(r, n) == Total(Measurements(r, n))
    decreases n
  {
    if n > 0 {
      SizeSumIsTotal(r, n - 1);
      assert Measurements(r, n)[..n - 1] == Measurements(r, n - 1);
    }
  }

  lemma MeanIsMeasured(r: Recent, n: nat)
    requires 0 < n <= |r.samples|
    ensures IsMean(Measurements(r, n), MeanOf(r, n))
  {
    SizeSumIsTotal(r, n);
    hide Total, Measurements, SizeSum;
    MeasurementsSize(r, n);
    Unquotient(SizeSum(r, n), n as real);
  }

  lemma MeasurementsSize(r: Recent, n: nat)
    requires n <= |r.samples|
    ensures |Measurements(r, n)| == n
  {
  }

  lemma {:induction false} CrossSumIsTotal(r: Recent, s: Recent, mr: real, ms: real, n: nat)
    requires n <= |r.samples| && n <= |s.samples|
    ensures CrossSum(r, s, mr, ms, n) == Total(Products(Measurements(r, n), mr, Measurements(s, n), ms))
    decreases n
  {
    if n > 0 {
      CrossSumIsTotal(r, s, mr, ms, n - 1);
      CrossUnfolds(r, s, mr, ms, n);
      ProductsUnfold(r, s, mr, ms, n);
      hide CrossSum, Products, Product, Measurements;
    }
  }

  lemma CrossUnfolds(r: Recent, s: Recent, mr: real, ms: real, n: nat)
    requires 0 < n <= |r.samples| && n <= |s.samples|
    ensures CrossSum(r, s, mr, ms, n) ==
            CrossSum(r, s, mr, ms, n - 1) + Product(r.samples[n - 1].size as real, mr, s.samples[n - 1].size as real, ms)
  {
  }

  lemma ProductsUnfold(r: Recent, s: Recent, mr: real, ms: real, n: nat)
    requires 0 < n <= |r.samples| && n <= |s.samples|
    ensures var all := Products(Measurements(r, n), mr, Measurements(s, n), ms);
            |all| == n && all[n - 1] == Product(r.samples[n - 1].size as real, mr, s.samples[n - 1].size as real, ms)
            && all[..n - 1] == Products(Measurements(r, n - 1), mr, Measurements(s, n - 1), ms)
  {
    hide Product;
    var xs, ys := Measurements(r, n), Measurements(s, n);
    assert xs[..n - 1] == Measurements(r, n - 1) && ys[..n - 1] == Measurements(s, n - 1);
    assert Products(xs, mr, ys, ms)[..n - 1] == Products(xs[..n - 1], mr, ys[..n - 1], ms);
  }

  lemma CovarianceIsMeasured(r: Recent, s: Recent, n: nat)
    requires 1 < n <= |r.samples| && n <= |s.samples|
    ensures IsCovariance(Measurements(r, n), Measurements(s, n), Covariance(r, s, n))
  {
    hide Total, Measurements, MeanOf, CrossSum, Products, IsMean, SizeSum;
    var mr, ms := MeanOf(r, n), MeanOf(s, n);
    MeanIsMeasured(r, n);
    MeanIsMeasured(s, n);
    CrossSumIsTotal(r, s, mr, ms, n);
    MeasurementsSize(r, n);
    MeasurementsSize(s, n);
    Unquotient(CrossSum(r, s, mr, ms, n), (n - 1) as real);
    CovarianceFrom(Measurements(r, n), Measurements(s, n), mr, ms, Covariance(r, s, n));
  }

  lemma CovarianceFrom(xs: seq<real>, ys: seq<real>, mx: real, my: real, c: real)
    requires |xs| == |ys| && IsMean(xs, mx) && IsMean(ys, my) && (|xs| - 1) as real * c == Total(Products(xs, mx, ys, my))
    ensures IsCovariance(xs, ys, c)
  {
    hide Total, Products, IsMean;
  }

  lemma OneMean(xs: seq<real>, a: real, b: real)
    requires xs != [] && IsMean(xs, a) && IsMean(xs, b)
    ensures a == b
  {
    hide Total;
    Cancel(|xs| as real, a, b);
  }

  lemma Cancel(c: real, a: real, b: real)
    requires c != 0.0 && c * a == c * b
    ensures a == b
  {
    assert c * (a - b) == 0.0;
  }

  lemma SameQuotient(c: real, a: real, b: real, total: real)
    requires c != 0.0 && c * a == total && c * b == total
    ensures a == b
  {
    Cancel(c, a, b);
  }

  lemma OneCovariance(xs: seq<real>, ys: seq<real>, a: real, b: real)
    requires |xs| > 1 && IsCovariance(xs, ys, a) && IsCovariance(xs, ys, b)
    ensures a == b
  {
    hide Total, IsMean, Products;
    var mx, my :| IsMean(xs, mx) && IsMean(ys, my) && (|xs| - 1) as real * a == Total(Products(xs, mx, ys, my));
    var nx, ny :| IsMean(xs, nx) && IsMean(ys, ny) && (|xs| - 1) as real * b == Total(Products(xs, nx, ys, ny));
    OneMean(xs, mx, nx);
    OneMean(ys, my, ny);
    var left, right := Products(xs, mx, ys, my), Products(xs, nx, ys, ny);
    assert left == right;
    SameQuotient((|xs| - 1) as real, a, b, Total(left));
  }

  // ---------- the exact charge ----------

  /** The least integer that is not below a number. */
  predicate IsCeiling(x: real, n: int) {
    (n - 1) as real < x <= n as real
  }

  /** The least natural number whose square reaches a number. */
  predicate IsRoot(square: real, n: nat) {
    (n * n) as real >= square && (n == 0 || ((n - 1) * (n - 1)) as real < square)
  }

  lemma OneCeiling(x: real, n: int)
    ensures IsCeiling(x, n) <==> n == Ceil(x)
  {
  }

  lemma OneRoot(square: real, n: nat)
    requires square >= 0.0
    ensures IsRoot(square, n) <==> n == CeilRoot(square)
  {
    hide CeilRoot;
    CeilRootLeast(square, n);
    CeilRootLeast(square, CeilRoot(square));
    if n > 0 {
      CeilRootLeast(square, n - 1);
    }
    if CeilRoot(square) > 0 {
      CeilRootLeast(square, CeilRoot(square) - 1);
    }
  }

  /** Every append at its source's cap. */
  ghost predicate IsCap(a: seq<Append>, cap: int) {
    cap as real == Total(seq(|a|, i requires 0 <= i < |a| => a[i].count as real * a[i].recent.cap as real))
  }

  /** The means of the samples, each times its source's appends. */
  ghost predicate IsBatchMean(a: seq<Append>, n: nat, mean: real) {
    exists means :: MeansOf(a, n, means) && mean == Total(seq(|a|, i requires 0 <= i < |a| => a[i].count as real * means[i]))
  }

  ghost predicate MeansOf(a: seq<Append>, n: nat, means: seq<real>) {
    && |means| == |a|
    && forall i :: 0 <= i < |a| ==> n <= |a[i].recent.samples| && IsMean(Measurements(a[i].recent, n), means[i])
  }

  /** The variance of the batch: over all ordered pairs of sources, the covariance of their samples unless negative, times both counts. */
  ghost predicate IsBatchVariance(a: seq<Append>, n: nat, variance: real) {
    exists rows :: RowsOf(a, n, rows) && variance == Total(rows)
  }

  ghost predicate RowsOf(a: seq<Append>, n: nat, rows: seq<real>) {
    |rows| == |a| && forall i :: 0 <= i < |a| ==> RowOf(a, n, i, rows[i])
  }

  ghost predicate RowOf(a: seq<Append>, n: nat, i: nat, row: real)
    requires i < |a|
  {
    exists terms :: TermsOf(a, n, i, terms) && row == Total(terms)
  }

  ghost predicate TermsOf(a: seq<Append>, n: nat, i: nat, terms: seq<real>)
    requires i < |a|
  {
    |terms| == |a| && forall k :: 0 <= k < |a| ==> TermOf(a[i], a[k], n, terms[k])
  }

  ghost predicate TermOf(x: Append, y: Append, n: nat, term: real) {
    && n <= |x.recent.samples| && n <= |y.recent.samples|
    && exists c :: IsCovariance(Measurements(x.recent, n), Measurements(y.recent, n), c)
                   && term == Weighed(x.count, y.count, c)
  }

  function Weighed(x: nat, y: nat, c: real): real {
    if c > 0.0 then x as real * y as real * c else 0.0
  }

  /** Two deviations, widened for predicting one more batch from n. */
  function Widened(variance: real, n: nat): real
    requires n > 3
  {
    variance * (4.0 * (1.0 + 1.0 / n as real) * ((n - 1) as real / (n - 3) as real))
  }

  /** A mean and a spread, given by its square, each in whole bytes. */
  ghost predicate InBytes(mean: real, square: real, bytes: int) {
    exists low: int, root: nat :: IsCeiling(mean, low) && IsRoot(square, root) && bytes == low + root
  }

  /** At least two sources with at least ten shared batches: the measured mean and spread. */
  ghost predicate IsMeasured(a: seq<Append>, n: nat, bytes: int) {
    && |a| >= 2 && n >= 10 && SharedRun(a, n)
    && exists mean, variance :: IsBatchMean(a, n, mean) && IsBatchVariance(a, n, variance) && InBytes(mean, Widened(variance, n), bytes)
  }

  /** Otherwise the recent means, and two deviations of every source as if all appends were perfectly correlated. */
  ghost predicate IsCorrelated(a: seq<Append>, bytes: int) {
    exists low: int, spread: nat :: IsRecentMean(a, low) && IsSpread(a, spread) && bytes == low + spread
  }

  ghost predicate IsRecentMean(a: seq<Append>, low: int) {
    IsCeiling(Total(seq(|a|, i requires 0 <= i < |a| => a[i].count as real * a[i].recent.mean)), low)
  }

  ghost predicate IsSpread(a: seq<Append>, spread: nat) {
    exists roots: seq<nat> :: RootsOf(a, roots) && spread as real == Total(Reals(roots))
  }

  ghost predicate RootsOf(a: seq<Append>, roots: seq<nat>) {
    |roots| == |a| && forall i :: 0 <= i < |a| ==> RootOf(a[i], roots[i])
  }

  ghost predicate RootOf(x: Append, root: nat) {
    IsScaledRoot(x.recent.variance, 2.0 * x.count as real, root)
  }

  predicate IsScaledRoot(variance: real, c: real, root: nat) {
    IsRoot(variance * (c * c), root)
  }

  ghost function Reals(s: seq<nat>): seq<real> {
    seq(|s|, i requires 0 <= i < |s| => s[i] as real)
  }

  /** Measured whenever it can be. */
  ghost predicate IsEstimate(a: seq<Append>, bytes: int) {
    if exists n: nat :: |a| >= 2 && n >= 10 && SharedRun(a, n) then exists n: nat :: IsMeasured(a, n, bytes) else IsCorrelated(a, bytes)
  }

  /** The charge: in whole units, and never above every append at its cap. */
  ghost predicate IsCharge(a: seq<Append>, unit: int, charge: int)
    requires unit > 0
  {
    exists bytes, cap :: IsEstimate(a, bytes) && IsCap(a, cap) && charge == Min(cap, RoundUp(bytes, unit))
  }

  lemma CapIsCap(a: seq<Append>, unit: int, cap: int)
    requires unit > 0 && AllSound(a, unit)
    ensures IsCap(a, cap) <==> cap == Cap(a)
  {
    hide Cap, Total, Sum, Deviations;
    var terms := seq(|a|, i requires 0 <= i < |a| => a[i].count as real * a[i].recent.cap as real);
    forall i | 0 <= i < |a|
      ensures terms[i] == CapTerm(a[i])
    {
      WholeProduct(a[i].count, a[i].recent.cap);
    }
    SumIsTotal(CapTerm, a, terms);
    TermsAreSums(a);
  }

  lemma WholeProduct(x: nat, y: nat)
    ensures (x * y) as real == x as real * y as real
  {
  }

  // ---------- the measured estimate ----------

  lemma BatchMeanIs(a: seq<Append>, n: nat, mean: real)
    requires n > 0 && forall i :: 0 <= i < |a| ==> n <= |a[i].recent.samples|
    ensures IsBatchMean(a, n, mean) <==> mean == Sum(MeanTerm(n), a)
  {
    var own := seq(|a|, i requires 0 <= i < |a| => MeanOf(a[i].recent, n));
    forall i | 0 <= i < |a|
      ensures IsMean(Measurements(a[i].recent, n), own[i])
    {
      MeanIsMeasured(a[i].recent, n);
    }
    hide Measurements, IsMean, MeanOf, Total, Sum;
    assert MeansOf(a, n, own);
    forall means | MeansOf(a, n, means)
      ensures means == own
    {
      forall i | 0 <= i < |a|
        ensures means[i] == own[i]
      {
        MeasurementsSize(a[i].recent, n);
        OneMean(Measurements(a[i].recent, n), means[i], own[i]);
      }
    }
    var terms := seq(|a|, i requires 0 <= i < |a| => a[i].count as real * own[i]);
    SumIsTotal(MeanTerm(n), a, terms);
    if IsBatchMean(a, n, mean) {
      var means :| MeansOf(a, n, means) && mean == Total(seq(|a|, i requires 0 <= i < |a| => a[i].count as real * means[i]));
      assert seq(|a|, i requires 0 <= i < |a| => a[i].count as real * means[i]) == terms;
    }
    if mean == Sum(MeanTerm(n), a) {
      assert seq(|a|, i requires 0 <= i < |a| => a[i].count as real * own[i]) == terms;
    }
  }

  lemma TermIs(x: Append, y: Append, n: nat, term: real)
    requires 1 < n <= |x.recent.samples| && n <= |y.recent.samples|
    ensures TermOf(x, y, n, term) <==> term == Weight(x, y, n)
  {
    var own := Covariance(x.recent, y.recent, n);
    CovarianceIsMeasured(x.recent, y.recent, n);
    MeasurementsSize(x.recent, n);
    assert Weight(x, y, n) == Weighed(x.count, y.count, own) by {
      hide Covariance;
    }
    hide Measurements, IsCovariance, Covariance, Weight, Weighed;
    if TermOf(x, y, n, term) {
      var c :| IsCovariance(Measurements(x.recent, n), Measurements(y.recent, n), c)
               && term == Weighed(x.count, y.count, c);
      OneCovariance(Measurements(x.recent, n), Measurements(y.recent, n), c, own);
    }
  }

  lemma RowIs(a: seq<Append>, n: nat, i: nat, row: real)
    requires n > 1 && i < |a| && forall k :: 0 <= k < |a| ==> n <= |a[k].recent.samples|
    ensures RowOf(a, n, i, row) <==> row == Sum(Row(a[i], n), a)
  {
    hide TermOf, Weight, Total, Sum;
    var own := seq(|a|, k requires 0 <= k < |a| => Weight(a[i], a[k], n));
    SumIsTotal(Row(a[i], n), a, own);
    forall k | 0 <= k < |a|
      ensures TermOf(a[i], a[k], n, own[k])
    {
      TermIs(a[i], a[k], n, own[k]);
    }
    assert TermsOf(a, n, i, own);
    forall terms | TermsOf(a, n, i, terms)
      ensures terms == own
    {
      forall k | 0 <= k < |a|
        ensures terms[k] == own[k]
      {
        TermIs(a[i], a[k], n, terms[k]);
      }
    }
  }

  lemma BatchVarianceIs(a: seq<Append>, n: nat, variance: real)
    requires n > 1 && forall k :: 0 <= k < |a| ==> n <= |a[k].recent.samples|
    ensures IsBatchVariance(a, n, variance) <==> variance == Square(a, n)
  {
    hide RowOf, Total, Sum;
    var own := seq(|a|, i requires 0 <= i < |a| => Sum(Row(a[i], n), a));
    SumIsTotal(RowSum(a, n), a, own);
    forall i | 0 <= i < |a|
      ensures RowOf(a, n, i, own[i])
    {
      RowIs(a, n, i, own[i]);
    }
    assert RowsOf(a, n, own);
    forall rows | RowsOf(a, n, rows)
      ensures rows == own
    {
      forall i | 0 <= i < |a|
        ensures rows[i] == own[i]
      {
        RowIs(a, n, i, rows[i]);
      }
    }
  }

  lemma WidenedIs(variance: real, n: nat)
    requires n > 3
    ensures Widened(variance, n) == variance * PredictionFactor(n)
  {
    var x, y, z := n as real, (n - 1) as real, (n - 3) as real;
    Quotients(x, y, z);
    WholeProduct(n + 1, n - 1);
    WholeProduct(n, n - 3);
  }

  lemma Quotients(x: real, y: real, z: real)
    requires x > 0.0 && z > 0.0
    ensures 4.0 * (1.0 + 1.0 / x) * (y / z) == 4.0 * (((x + 1.0) * y) / (x * z))
  {
    var left, right := (1.0 + 1.0 / x) * (y / z), ((x + 1.0) * y) / (x * z);
    assert x * (1.0 + 1.0 / x) == x + 1.0;
    assert z * (y / z) == y;
    assert (x * z) * left == (x * (1.0 + 1.0 / x)) * (z * (y / z));
    assert (x * z) * right == (x + 1.0) * y;
    Cancel(x * z, left, right);
  }

  lemma WidenedRootIs(variance: real, n: nat)
    requires variance >= 0.0 && n > 3
    ensures Widened(variance, n) >= 0.0 && WidenedRoot(variance, n) == CeilRoot(Widened(variance, n))
  {
    hide PredictionFactor, Widened, CeilRoot;
    WidenedIs(variance, n);
    PredictionFactorPositive(n);
    RealScale(0.0, variance, PredictionFactor(n));
  }

  lemma InBytesIs(mean: real, square: real, bytes: int)
    requires square >= 0.0
    ensures InBytes(mean, square, bytes) <==> bytes == Ceil(mean) + CeilRoot(square)
  {
    hide IsRoot, CeilRoot;
    OneCeiling(mean, Ceil(mean));
    OneRoot(square, CeilRoot(square));
    if InBytes(mean, square, bytes) {
      var low: int, root: nat :| IsCeiling(mean, low) && IsRoot(square, root) && bytes == low + root;
      OneCeiling(mean, low);
      OneRoot(square, root);
    }
  }

  /** The measured estimate is the one the samples describe, and there is one exactly if they describe one. */
  lemma MeasuredIsExact(a: seq<Append>, n: nat, bytes: int)
    ensures IsMeasured(a, n, bytes) <==> |a| >= 2 && n == AlignedFrom(a, 0) && n >= 10 && Measured(a) == Some(bytes)
  {
    hide SharedRun, Square, Sum, IsBatchMean, IsBatchVariance, InBytes, Widened, CeilRoot, Ceil, WidenedRoot;
    if |a| >= 2 {
      RunIsShared(a, n);
      if n >= 10 && n == AlignedFrom(a, 0) {
        AlignedHave(a, n);
        var mean, variance := Sum(MeanTerm(n), a), Square(a, n);
        BatchMeanIs(a, n, mean);
        BatchVarianceIs(a, n, variance);
        SquareNonNegative(a, n);
        WidenedRootIs(variance, n);
        InBytesIs(mean, Widened(variance, n), bytes);
        if IsMeasured(a, n, bytes) {
          var m, v :| IsBatchMean(a, n, m) && IsBatchVariance(a, n, v) && InBytes(m, Widened(v, n), bytes);
          BatchMeanIs(a, n, m);
          BatchVarianceIs(a, n, v);
          assert m == mean && v == variance;
        }
      }
    }
  }

  /** Every source has as many samples as there are aligned batches. */
  lemma AlignedHave(a: seq<Append>, n: nat)
    requires a != [] && n == AlignedFrom(a, 0)
    ensures forall i :: 0 <= i < |a| ==> n <= |a[i].recent.samples|
  {
    AlignedRun(a, 0);
    if n > 0 {
      assert AlignedAt(a, n - 1);
      AlignedByIndex(a, n - 1);
    }
  }

  // ---------- the correlated estimate ----------

  lemma RecentMeanIs(a: seq<Append>, low: int)
    ensures IsRecentMean(a, low) <==> low == Ceil(Sum(MeanByte, a))
  {
    hide Sum, Total, Ceil;
    var terms := seq(|a|, i requires 0 <= i < |a| => a[i].count as real * a[i].recent.mean);
    SumIsTotal(MeanByte, a, terms);
    OneCeiling(Total(terms), low);
  }

  lemma RootIs(x: Append, root: nat)
    requires x.recent.variance >= 0.0
    ensures RootOf(x, root) <==> root == Deviation(x)
  {
    hide ScaledRoot, IsScaledRoot;
    ScaledRootIs(x.recent.variance, 2.0 * x.count as real, root);
  }

  lemma ScaledRootIs(variance: real, c: real, root: nat)
    requires variance >= 0.0 && c >= 0.0
    ensures IsScaledRoot(variance, c, root) <==> root == ScaledRoot(variance, c)
  {
    hide CeilRoot, IsRoot;
    ScaledSquare(variance, c);
    OneRoot(variance * (c * c), root);
  }

  lemma DeviationsAreTotal(a: seq<Append>, own: seq<nat>)
    requires |own| == |a| && forall i :: 0 <= i < |a| ==> a[i].recent.variance >= 0.0 && own[i] == Deviation(a[i])
    ensures Total(Reals(own)) == Deviations(a) as real
  {
    hide Total, Sum, Deviations, Deviation;
    TermsAreSums(a);
    SumIsTotal(DeviationTerm, a, Reals(own));
  }

  lemma SpreadIs(a: seq<Append>, spread: nat)
    requires forall i :: 0 <= i < |a| ==> a[i].recent.variance >= 0.0
    ensures IsSpread(a, spread) <==> spread == Deviations(a)
  {
    hide Total, Deviations, Deviation, RootOf, Reals;
    var own := seq(|a|, i requires 0 <= i < |a| => Deviation(a[i]));
    forall i | 0 <= i < |a|
      ensures RootOf(a[i], own[i])
    {
      RootIs(a[i], own[i]);
    }
    assert RootsOf(a, own);
    DeviationsAreTotal(a, own);
    if IsSpread(a, spread) {
      var roots: seq<nat> :| RootsOf(a, roots) && spread as real == Total(Reals(roots));
      forall i | 0 <= i < |a|
        ensures roots[i] == own[i]
      {
        RootIs(a[i], roots[i]);
      }
      assert roots == own;
    }
  }

  lemma CorrelatedIsExact(a: seq<Append>, unit: int, bytes: int)
    requires unit > 0 && AllSound(a, unit)
    ensures IsCorrelated(a, bytes) <==> bytes == Ceil(Sum(MeanByte, a)) + Deviations(a)
  {
    hide Sum, Ceil, Deviations, IsRecentMean, IsSpread;
    RecentMeanIs(a, Ceil(Sum(MeanByte, a)));
    SpreadIs(a, Deviations(a));
    if IsCorrelated(a, bytes) {
      var low: int, spread: nat :| IsRecentMean(a, low) && IsSpread(a, spread) && bytes == low + spread;
      RecentMeanIs(a, low);
      SpreadIs(a, spread);
    }
  }

  // ---------- one charge ----------

  lemma EstimateIsExact(a: seq<Append>, unit: int, bytes: int)
    requires unit > 0 && AllSound(a, unit)
    ensures IsEstimate(a, bytes) <==> bytes == Estimate(a)
  {
    hide IsMeasured, IsCorrelated, Deviations, Ceil, Sum, SharedRun, SpreadRoot;
    CorrelatedIsExact(a, unit, bytes);
    if |a| >= 2 {
      var own := AlignedFrom(a, 0);
      RunIsShared(a, own);
      MeasuredIsExact(a, own, bytes);
      forall n: nat
        ensures SharedRun(a, n) <==> n == own
      {
        RunIsShared(a, n);
      }
      forall n: nat
        ensures IsMeasured(a, n, bytes) ==> n == own
      {
        MeasuredIsExact(a, n, bytes);
      }
    }
  }

  /** The charge of a batch is the number its samples, statistics and caps describe, and no other. */
  lemma ChargeIsExact(a: seq<Append>, unit: int, charge: int)
    requires unit > 0 && AllSound(a, unit)
    ensures IsCharge(a, unit, charge) <==> charge == Charge(a, unit)
  {
    hide IsEstimate, IsCap, Estimate, Cap, RoundUp;
    EstimateIsExact(a, unit, Estimate(a));
    CapIsCap(a, unit, Cap(a));
    if IsCharge(a, unit, charge) {
      var bytes, cap :| IsEstimate(a, bytes) && IsCap(a, cap) && charge == Min(cap, RoundUp(bytes, unit));
      EstimateIsExact(a, unit, bytes);
      CapIsCap(a, unit, cap);
    }
  }

  /** A spread, by its square. */
  predicate Squares(spread: real, square: real) {
    spread >= 0.0 && spread * spread == square
  }

  lemma SquaresNonNegative(spread: real, square: real)
    requires Squares(spread, square)
    ensures square >= 0.0
  {
    NonNegative(spread, spread);
  }

  lemma RootWithin(square: real, root: nat, spread: real)
    requires IsRoot(square, root) && Squares(spread, square)
    ensures spread <= root as real < spread + 1.0
  {
    RootReaches(root, spread, square);
    if root > 0 {
      var below := (root - 1) as real;
      WholeProduct(root - 1, root - 1);
      assert below * below < spread * spread;
      if below >= spread {
        SquareOrder(spread, below);
        assert false;
      }
    }
  }

  /** With aligned history: less than a unit and a byte above the measured mean and the widened spread, and never below them but for the cap. */
  lemma MeasuredChargeWithin(a: seq<Append>, unit: int, n: nat, mean: real, variance: real, spread: real)
    requires unit > 0 && AllSound(a, unit) && |a| >= 2 && n >= 10 && SharedRun(a, n)
    requires IsBatchMean(a, n, mean) && IsBatchVariance(a, n, variance) && Squares(spread, Widened(variance, n))
    ensures Charge(a, unit) as real < mean + spread + unit as real + 1.0
    ensures Charge(a, unit) == Cap(a) || Charge(a, unit) as real >= mean + spread
  {
    hide SharedRun, Square, Sum, IsBatchMean, IsBatchVariance, Squares, Widened, CeilRoot, IsRoot, Cap;
    RunIsShared(a, n);
    AlignedHave(a, n);
    BatchMeanIs(a, n, mean);
    BatchVarianceIs(a, n, variance);
    SquaresNonNegative(spread, Widened(variance, n));
    var low, root := Ceil(mean), CeilRoot(Widened(variance, n));
    InBytesIs(mean, Widened(variance, n), low + root);
    MeasuredIsExact(a, n, low + root);
    OneRoot(Widened(variance, n), root);
    RootWithin(Widened(variance, n), root, spread);
  }
}
