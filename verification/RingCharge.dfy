/**
 What a batch of simulated appends is charged: the summed mean plus two
 deviations, either as if every append were perfectly correlated or measured from
 the sources' aligned past batches, in whole allocation units and never above
 every append at its source's recent maximum. Fractions are exact (type real).
 */
module RingCharge {
  import opened Basics
  import opened RingArithmetic

  const RECENT_ALLOCATION_SEGMENTS := 8
  const MINIMUM_SPREAD_SAMPLES := 4
  const MINIMUM_MEASURED_BATCHES := 10

  datatype Sample = Sample(start: int, end: int, size: nat)

  /** One source's recent allocations. */
  datatype Recent = Recent(mean: real, variance: real, credit: nat, cap: nat, samples: seq<Sample>)

  /** `count` simulated appends of one source. */
  datatype Append = Append(count: nat, recent: Recent)

  predicate Sound(r: Recent, unit: int)
    requires unit > 0
  {
    r.mean >= 0.0 && r.variance >= 0.0 && r.credit <= r.cap && r.cap % unit == 0
  }

  ghost predicate AllSound(appends: seq<Append>, unit: int)
    requires unit > 0
  {
    forall i :: 0 <= i < |appends| ==> Sound(appends[i].recent, unit)
  }

  // ---------- a source's recent allocations ----------

  function MaxOf(s: seq<nat>): (m: nat)
    requires s != []
    ensures m in s && forall x :: x in s ==> x <= m
  {
    if |s| == 1 then s[0]
    else assert s == [s[0]] + s[1..]; var rest := MaxOf(s[1..]); if s[0] >= rest then s[0] else rest
  }

  function MinOf(s: seq<nat>): (m: nat)
    requires s != []
    ensures m in s && forall x :: x in s ==> m <= x
  {
    if |s| == 1 then s[0]
    else assert s == [s[0]] + s[1..]; var rest := MinOf(s[1..]); if s[0] <= rest then s[0] else rest
  }

  function Rounded(unit: int): nat -> real
    requires unit > 0
  {
    (x: nat) => RoundUp(x, unit) as real
  }

  function Deviating(unit: int, mean: real): nat -> real
    requires unit > 0
  {
    (x: nat) => (Rounded(unit)(x) - mean) * (Rounded(unit)(x) - mean)
  }

  function MeanSize(sizes: seq<nat>, unit: int): (mean: real)
    requires unit > 0 && sizes != []
    ensures mean >= 0.0
  {
    SumNonNegative(Rounded(unit), sizes);
    QuotientNonNegative(Sum(Rounded(unit), sizes), |sizes| as real);
    Sum(Rounded(unit), sizes) / |sizes| as real
  }

  function SizeVariance(sizes: seq<nat>, unit: int): (variance: real)
    requires unit > 0 && |sizes| > 1
    ensures variance >= 0.0
  {
    var square := Deviating(unit, MeanSize(sizes, unit));
    DeviatingNonNegative(sizes, unit, MeanSize(sizes, unit));
    QuotientNonNegative(Sum(square, sizes), (|sizes| - 1) as real);
    Sum(square, sizes) / (|sizes| - 1) as real
  }

  lemma DeviatingNonNegative(sizes: seq<nat>, unit: int, mean: real)
    requires unit > 0
    ensures Sum(Deviating(unit, mean), sizes) >= 0.0
  {
    forall i | 0 <= i < |sizes|
      ensures Deviating(unit, mean)(sizes[i]) >= 0.0
    {
      var d := Rounded(unit)(sizes[i]) - mean;
      assert d * d >= 0.0;
    }
    SumNonNegative(Deviating(unit, mean), sizes);
  }

  function Latest(history: seq<nat>): seq<nat> {
    if |history| <= RECENT_ALLOCATION_SEGMENTS then history else history[..RECENT_ALLOCATION_SEGMENTS]
  }

  // ---------- what the statistics are of the sizes ----------

  /** Each size in whole units. */
  ghost function InUnits(sizes: seq<nat>, unit: int): seq<real>
    requires unit > 0
  {
    seq(|sizes|, i requires 0 <= i < |sizes| => RoundUp(sizes[i], unit) as real)
  }

  /** The mean of some numbers. */
  ghost predicate IsMean(xs: seq<real>, mean: real) {
    |xs| as real * mean == Total(xs)
  }

  /** The products of both deviations, pair by pair. */
  ghost function Products(xs: seq<real>, mx: real, ys: seq<real>, my: real): seq<real>
    requires |xs| == |ys|
  {
    seq(|xs|, i requires 0 <= i < |xs| => Product(xs[i], mx, ys[i], my))
  }

  ghost function Product(x: real, mx: real, y: real, my: real): real {
    (x - mx) * (y - my)
  }

  /** The sample covariance of paired numbers; of numbers with themselves, their sample variance. */
  ghost predicate IsCovariance(xs: seq<real>, ys: seq<real>, covariance: real) {
    |xs| == |ys| && exists mx, my :: IsMean(xs, mx) && IsMean(ys, my) && (|xs| - 1) as real * covariance == Total(Products(xs, mx, ys, my))
  }

  /** The cap is the largest size in whole units within the bound, the credit the smallest size within the cap. */
  ghost predicate Extremes(sizes: seq<nat>, bound: nat, unit: int, cap: nat, credit: nat)
    requires unit > 0
  {
    && (forall x :: x in sizes ==> Min(bound, RoundUp(x, unit)) <= cap) && (exists x :: x in sizes && cap == Min(bound, RoundUp(x, unit)))
    && (forall x :: x in sizes ==> credit <= x) && credit <= cap && (credit == cap || credit in sizes)
  }

  /** What a source is charged: at its bound without history, at its cap with fewer than four sizes, else by mean and sample variance. */
  ghost predicate Summarizes(sizes: seq<nat>, bound: nat, unit: int, r: Recent)
    requires unit > 0
  {
    if sizes == [] then r.mean == bound as real && r.variance == 0.0 && r.cap == bound && r.credit == bound
    else
      && Extremes(sizes, bound, unit, r.cap, r.credit)
      && if |sizes| < 4 then r.mean == r.cap as real && r.variance == 0.0
         else
           && IsCovariance(InUnits(sizes, unit), InUnits(sizes, unit), r.variance)
           && exists mean :: IsMean(InUnits(sizes, unit), mean) && r.mean == if mean <= r.cap as real then mean else r.cap as real
  }

  lemma MeanIsMean(sizes: seq<nat>, unit: int)
    requires unit > 0 && sizes != []
    ensures IsMean(InUnits(sizes, unit), MeanSize(sizes, unit))
  {
    var total := Sum(Rounded(unit), sizes);
    assert total == Total(InUnits(sizes, unit)) by {
      SumIsTotal(Rounded(unit), sizes, InUnits(sizes, unit));
    }
    assert MeanSize(sizes, unit) == total / |sizes| as real;
    UnitsSize(sizes, unit);
    hide Sum, Total, Rounded, RoundUp, MeanSize, InUnits;
    Unquotient(total, |sizes| as real);
  }

  lemma Unquotient(x: real, y: real)
    requires y != 0.0
    ensures y * (x / y) == x
  {
  }

  lemma VarianceIsVariance(sizes: seq<nat>, unit: int)
    requires unit > 0 && |sizes| > 1
    ensures IsCovariance(InUnits(sizes, unit), InUnits(sizes, unit), SizeVariance(sizes, unit))
  {
    var xs, mean := InUnits(sizes, unit), MeanSize(sizes, unit);
    MeanIsMean(sizes, unit);
    SquaresAreProducts(sizes, unit, mean);
    var total := Sum(Deviating(unit, mean), sizes);
    assert SizeVariance(sizes, unit) == total / (|sizes| - 1) as real;
    hide MeanSize, SizeVariance, Total, Sum, InUnits, Products, Deviating, IsMean;
    Unquotient(total, (|sizes| - 1) as real);
    UnitsSize(sizes, unit);
  }

  lemma UnitsSize(sizes: seq<nat>, unit: int)
    requires unit > 0
    ensures |InUnits(sizes, unit)| == |sizes|
  {
  }

  lemma SquaresAreProducts(sizes: seq<nat>, unit: int, mean: real)
    requires unit > 0
    ensures Sum(Deviating(unit, mean), sizes) == Total(Products(InUnits(sizes, unit), mean, InUnits(sizes, unit), mean))
  {
    var xs := InUnits(sizes, unit);
    hide RoundUp;
    forall i | 0 <= i < |sizes|
      ensures Products(xs, mean, xs, mean)[i] == Deviating(unit, mean)(sizes[i])
    {
      assert xs[i] == Rounded(unit)(sizes[i]);
    }
    SumIsTotal(Deviating(unit, mean), sizes, Products(xs, mean, xs, mean));
  }

  lemma SummaryHolds(sizes: seq<nat>, bound: nat, unit: int)
    requires unit > 0 && bound % unit == 0
    ensures sizes != [] ==>
              var cap := Min(bound, RoundUp(MaxOf(sizes), unit));
              Extremes(sizes, bound, unit, cap, Min(cap, MinOf(sizes)))
    ensures |sizes| > 1 ==> IsMean(InUnits(sizes, unit), MeanSize(sizes, unit))
                            && IsCovariance(InUnits(sizes, unit), InUnits(sizes, unit), SizeVariance(sizes, unit))
  {
    if sizes != [] {
      forall x | x in sizes
        ensures RoundUp(x, unit) <= RoundUp(MaxOf(sizes), unit)
      {
        RoundUpMonotone(x, MaxOf(sizes), unit);
      }
    }
    if |sizes| > 1 {
      MeanIsMean(sizes, unit);
      VarianceIsVariance(sizes, unit);
    }
  }

  /** Mean, variance, credit and cap of the last real allocations, the latest first. */
  function Statistics(history: seq<nat>, bound: nat, unit: int, samples: seq<Sample>): (r: Recent)
    requires unit > 0 && bound % unit == 0
    ensures Sound(r, unit) && r.mean <= r.cap as real && r.cap <= bound
    ensures Summarizes(if |history| <= 8 then history else history[..8], bound, unit, r)
    ensures r.samples == if history == [] then [] else samples
  {
    var sizes := Latest(history);
    SummaryHolds(sizes, bound, unit);
    if sizes == [] then Recent(bound as real, 0.0, bound, bound, [])
    else
      var cap := Min(bound, RoundUp(MaxOf(sizes), unit));
      var credit := Min(cap, MinOf(sizes));
      if |sizes| < MINIMUM_SPREAD_SAMPLES then Recent(cap as real, 0.0, credit, cap, samples)
      else
        var mean := MeanSize(sizes, unit);
        Recent(if mean <= cap as real then mean else cap as real, SizeVariance(sizes, unit), credit, cap, samples)
  }

  lemma {:induction false} SumNonNegative<A>(f: A -> real, s: seq<A>)
    requires forall i :: 0 <= i < |s| ==> f(s[i]) >= 0.0
    ensures Sum(f, s) >= 0.0
    decreases |s|
  {
    if s != [] {
      SumNonNegative(f, s[1..]);
    }
  }

  lemma QuotientNonNegative(x: real, y: real)
    requires x >= 0.0 && y > 0.0
    ensures x / y >= 0.0
  {
  }

  // ---------- aligned past batches ----------

  /** The j-th most recent samples of all sources overlap and have one duration. */
  ghost predicate AlignedAt(appends: seq<Append>, j: nat) {
    && (forall x :: x in appends ==> j < |x.recent.samples|)
    && forall x, y :: x in appends && y in appends ==> Overlap(x.recent.samples[j], y.recent.samples[j])
  }

  predicate Overlap(a: Sample, b: Sample) {
    a.start < b.end && a.end - a.start == b.end - b.start
  }

  /** How many past batches are aligned, counting from j. */
  ghost function AlignedFrom(appends: seq<Append>, j: nat): nat
    requires appends != []
    decreases |appends[0].recent.samples| - j
  {
    if AlignedAt(appends, j) then assert appends[0] in appends; AlignedFrom(appends, j + 1) else j
  }

  method IsAligned(appends: seq<Append>, j: nat) returns (aligned: bool)
    requires appends != []
    ensures aligned <==> AlignedAt(appends, j)
  {
    for i := 0 to |appends|
      invariant forall k :: 0 <= k < i ==> j < |appends[k].recent.samples|
    {
      if j >= |appends[i].recent.samples| {
        assert appends[i] in appends;
        return false;
      }
    }
    var first := appends[0].recent.samples[j];
    var latestStart, earliestEnd, sameDuration := first.start, first.end, true;
    ghost var s, e := appends[0], appends[0];
    for i := 1 to |appends|
      invariant s in appends && e in appends
      invariant latestStart == s.recent.samples[j].start && earliestEnd == e.recent.samples[j].end
      invariant forall k :: 0 <= k < i ==> appends[k].recent.samples[j].start <= latestStart
      invariant forall k :: 0 <= k < i ==> earliestEnd <= appends[k].recent.samples[j].end
      invariant sameDuration <==>
                forall k :: 0 <= k < i ==> appends[k].recent.samples[j].end - appends[k].recent.samples[j].start == first.end - first.start
    {
      var sample := appends[i].recent.samples[j];
      if sample.start > latestStart {
        latestStart, s := sample.start, appends[i];
      }
      if sample.end < earliestEnd {
        earliestEnd, e := sample.end, appends[i];
      }
      sameDuration := sameDuration && sample.end - sample.start == first.end - first.start;
    }
    aligned := latestStart < earliestEnd && sameDuration;
    if AlignedAt(appends, j) {
      assert Overlap(s.recent.samples[j], e.recent.samples[j]);
      forall k | 0 <= k < |appends|
        ensures appends[k].recent.samples[j].end - appends[k].recent.samples[j].start == first.end - first.start
      {
        assert Overlap(appends[k].recent.samples[j], appends[0].recent.samples[j]);
      }
    }
  }

  // ---------- the measured charge ----------

  function SizeAt(r: Recent, j: nat): (size: real)
    ensures size >= 0.0
  {
    if j < |r.samples| then r.samples[j].size as real else 0.0
  }

  function SizeSum(r: Recent, n: nat): (sum: real)
    ensures sum >= 0.0
  {
    if n == 0 then 0.0 else SizeSum(r, n - 1) + SizeAt(r, n - 1)
  }

  function MeanOf(r: Recent, n: nat): (mean: real)
    requires n > 0
    ensures mean >= 0.0
  {
    QuotientNonNegative(SizeSum(r, n), n as real);
    SizeSum(r, n) / n as real
  }

  function CrossSum(r: Recent, s: Recent, mr: real, ms: real, n: nat): real {
    if n == 0 then 0.0 else CrossSum(r, s, mr, ms, n - 1) + (SizeAt(r, n - 1) - mr) * (SizeAt(s, n - 1) - ms)
  }

  /** Sample covariance of two sources' last n allocations. */
  function Covariance(r: Recent, s: Recent, n: nat): real
    requires n > 1
  {
    CrossSum(r, s, MeanOf(r, n), MeanOf(s, n), n) / (n - 1) as real
  }

  function PositivePart(x: real): real {
    if x > 0.0 then x else 0.0
  }

  function Weight(x: Append, y: Append, n: nat): real
    requires n > 1
  {
    x.count as real * y.count as real * PositivePart(Covariance(x.recent, y.recent, n))
  }

  function MeanTerm(n: nat): Append -> real
    requires n > 0
  {
    (x: Append) => x.count as real * MeanOf(x.recent, n)
  }

  function Row(x: Append, n: nat): Append -> real
    requires n > 1
  {
    (y: Append) => Weight(x, y, n)
  }

  function RowSum(all: seq<Append>, n: nat): Append -> real
    requires n > 1
  {
    (x: Append) => Sum(Row(x, n), all)
  }

  /** Variance of the summed batch: every ordered pair of sources once. */
  function Square(appends: seq<Append>, n: nat): real
    requires n > 1
  {
    Sum(RowSum(appends, n), appends)
  }

  /** DEVIATION_FACTOR squared, widened to a prediction bound from n batches. */
  function PredictionFactor(n: nat): (r: real)
    requires n > 3
  {
    4.0 * (((n + 1) * (n - 1)) as real / (n * (n - 3)) as real)
  }

  lemma PredictionFactorPositive(n: nat)
    requires n > 3
    ensures PredictionFactor(n) > 0.0
  {
    var a, b := (n + 1) * (n - 1), n * (n - 3);
    assert a > 0 && b > 0;
    assert a as real / b as real > 0.0;
  }

  /** The measured charge in whole bytes, or None to charge the correlated bound. */
  ghost function Measured(appends: seq<Append>): Option<int> {
    if |appends| < 2 then None
    else
      var n := AlignedFrom(appends, 0);
      if n < MINIMUM_MEASURED_BATCHES then None
      else Some(Ceil(Sum(MeanTerm(n), appends)) + SpreadRoot(appends, n))
  }

  /** Two deviations of a batch, widened for a history of n batches, in whole bytes. */
  function WidenedRoot(variance: real, n: nat): nat
    requires variance >= 0.0 && n > 3
  {
    PredictionFactorPositive(n);
    CeilRoot(variance * PredictionFactor(n))
  }

  function SpreadRoot(appends: seq<Append>, n: nat): nat
    requires n > 3
  {
    SquareNonNegative(appends, n);
    WidenedRoot(Square(appends, n), n)
  }

  lemma WeightNonNegative(x: Append, y: Append, n: nat)
    requires n > 1
    ensures Weight(x, y, n) >= 0.0
  {
    assert x.count as real * y.count as real >= 0.0;
  }

  lemma SquareNonNegative(appends: seq<Append>, n: nat)
    requires n > 1
    ensures Square(appends, n) >= 0.0
  {
    forall i | 0 <= i < |appends|
      ensures RowSum(appends, n)(appends[i]) >= 0.0
    {
      forall j | 0 <= j < |appends|
        ensures Row(appends[i], n)(appends[j]) >= 0.0
      {
        WeightNonNegative(appends[i], appends[j], n);
      }
      SumNonNegative(Row(appends[i], n), appends);
    }
    SumNonNegative(RowSum(appends, n), appends);
  }

  lemma {:induction false} CrossSymmetric(r: Recent, s: Recent, mr: real, ms: real, n: nat)
    ensures CrossSum(r, s, mr, ms, n) == CrossSum(s, r, ms, mr, n)
    decreases n
  {
    if n > 0 {
      CrossSymmetric(r, s, mr, ms, n - 1);
    }
  }

  lemma WeightSymmetric(x: Append, y: Append, n: nat)
    requires n > 1
    ensures Weight(x, y, n) == Weight(y, x, n)
  {
    CrossSymmetric(x.recent, y.recent, MeanOf(x.recent, n), MeanOf(y.recent, n), n);
  }

  /** Off the diagonal every unordered pair counts twice. */
  lemma SquarePeel(appends: seq<Append>, n: nat)
    requires n > 1 && appends != []
    ensures Square(appends, n) ==
            Weight(appends[0], appends[0], n) + 2.0 * Sum(Row(appends[0], n), appends[1..]) + Square(appends[1..], n)
  {
    var x, rest := appends[0], appends[1..];
    forall i | 0 <= i < |rest|
      ensures RowSum(appends, n)(rest[i]) == Row(x, n)(rest[i]) + RowSum(rest, n)(rest[i])
    {
      WeightSymmetric(x, rest[i], n);
    }
    SumAdd(Row(x, n), RowSum(rest, n), RowSum(appends, n), rest);
  }

  method CountAligned(appends: seq<Append>) returns (n: nat)
    requires appends != []
    ensures n == AlignedFrom(appends, 0)
  {
    n := 0;
    while true
      invariant AlignedFrom(appends, 0) == AlignedFrom(appends, n)
      decreases |appends[0].recent.samples| - n
    {
      var aligned := IsAligned(appends, n);
      if !aligned {
        return;
      }
      assert appends[0] in appends;
      n := n + 1;
    }
  }

  /** The variance of the batch, pair by pair of sources. */
  method BatchVariance(appends: seq<Append>, n: nat) returns (variance: real)
    requires n > 1
    ensures variance == Square(appends, n)
  {
    hide Weight;
    variance := 0.0;
    for first := 0 to |appends|
      invariant variance + Square(appends[first..], n) == Square(appends, n)
    {
      var x := appends[first];
      ghost var row := appends[first + 1..];
      assert appends[first..][1..] == row;
      SquarePeel(appends[first..], n);
      WeightZero(x, x, n);
      if x.count != 0 {
        variance := variance + Weight(x, x, n);
      }
      for second := first + 1 to |appends|
        invariant variance + 2.0 * Sum(Row(x, n), appends[second..]) + Square(row, n) == Square(appends, n)
      {
        assert appends[second..][1..] == appends[second + 1..];
        WeightZero(x, appends[second], n);
        if x.count != 0 && appends[second].count != 0 {
          variance := variance + 2.0 * Weight(x, appends[second], n);
        }
      }
    }
  }

  lemma WeightZero(x: Append, y: Append, n: nat)
    requires n > 1
    ensures x.count == 0 || y.count == 0 ==> Weight(x, y, n) == 0.0
  {
  }

  method BatchMean(appends: seq<Append>, n: nat) returns (mean: real)
    requires n > 0
    ensures mean == Sum(MeanTerm(n), appends)
  {
    mean := 0.0;
    for i := 0 to |appends|
      invariant mean + Sum(MeanTerm(n), appends[i..]) == Sum(MeanTerm(n), appends)
    {
      assert appends[i..][1..] == appends[i + 1..];
      mean := mean + appends[i].count as real * MeanOf(appends[i].recent, n);
    }
  }

  /** Charge synchronized sources from their aligned history. */
  method MeasuredCharge(appends: seq<Append>) returns (charge: Option<int>)
    ensures charge == Measured(appends)
  {
    hide Square, WidenedRoot, Sum;
    if |appends| < 2 {
      return None;
    }
    var n := CountAligned(appends);
    if n < MINIMUM_MEASURED_BATCHES {
      return None;
    }
    var mean := BatchMean(appends, n);
    var variance := BatchVariance(appends, n);
    SquareNonNegative(appends, n);
    return Some(Ceil(mean) + WidenedRoot(variance, n));
  }

  // ---------- the batch charge ----------

  const MeanByte: Append -> real := (x: Append) => x.count as real * x.recent.mean

  function Cap(appends: seq<Append>): int {
    if appends == [] then 0 else appends[0].count * appends[0].recent.cap + Cap(appends[1..])
  }

  /** ceil(c * sqrt(v)), exactly. */
  function ScaledRoot(v: real, c: real): nat
    requires v >= 0.0 && c >= 0.0
  {
    ScaledSquare(v, c);
    CeilRoot(v * (c * c))
  }

  lemma ScaledSquare(v: real, c: real)
    requires v >= 0.0 && c >= 0.0
    ensures c * c >= 0.0 && v * (c * c) >= 0.0
  {
    var square := c * c;
    assert square >= 0.0;
    assert v * square >= 0.0;
  }

  /** Two deviations of a source's appends, taken as perfectly correlated. */
  function Deviation(x: Append): nat
    requires x.recent.variance >= 0.0
  {
    ScaledRoot(x.recent.variance, 2.0 * x.count as real)
  }

  function Deviations(appends: seq<Append>): nat
    requires forall i :: 0 <= i < |appends| ==> appends[i].recent.variance >= 0.0
  {
    if appends == [] then 0 else Deviation(appends[0]) + Deviations(appends[1..])
  }

  /** The charge in bytes, before units and cap. */
  ghost function Estimate(appends: seq<Append>): int
    requires forall i :: 0 <= i < |appends| ==> appends[i].recent.variance >= 0.0
  {
    match Measured(appends)
    case Some(bytes) => bytes
    case None => Ceil(Sum(MeanByte, appends)) + Deviations(appends)
  }

  ghost function Charge(appends: seq<Append>, unit: int): int
    requires unit > 0 && AllSound(appends, unit)
  {
    Min(Cap(appends), RoundUp(Estimate(appends), unit))
  }

  method BatchCharge(appends: seq<Append>, unit: int) returns (charge: int)
    requires unit > 0 && AllSound(appends, unit)
    ensures charge == Charge(appends, unit)
  {
    hide Measured, Sum, Cap, Deviations, Deviation, Ceil, RoundUp, Sound, MeanByte;
    var mean, deviation, cap := 0.0, 0, 0;
    assert appends[0..] == appends;
    SoundDeviates(appends, unit);
    for i := 0 to |appends|
      invariant mean + Sum(MeanByte, appends[i..]) == Sum(MeanByte, appends)
      invariant cap + Cap(appends[i..]) == Cap(appends)
      invariant deviation + Deviations(appends[i..]) == Deviations(appends)
    {
      PeelTerms(appends, i, unit);
      mean := mean + appends[i].count as real * appends[i].recent.mean;
      cap := cap + appends[i].count * appends[i].recent.cap;
      deviation := deviation + Deviation(appends[i]);
    }
    NoTerms(appends[|appends|..]);
    var measured := MeasuredCharge(appends);
    if measured.Some? {
      return Min(cap, RoundUp(measured.value, unit));
    }
    return Min(cap, RoundUp(Ceil(mean) + deviation, unit));
  }

  lemma SoundDeviates(appends: seq<Append>, unit: int)
    requires unit > 0 && AllSound(appends, unit)
    ensures forall i :: 0 <= i < |appends| ==> appends[i].recent.variance >= 0.0
  {
  }

  lemma PeelTerms(appends: seq<Append>, i: nat, unit: int)
    requires i < |appends| && unit > 0 && AllSound(appends, unit)
    ensures forall k :: 0 <= k < |appends| ==> appends[k].recent.variance >= 0.0
    ensures Sum(MeanByte, appends[i..]) == appends[i].count as real * appends[i].recent.mean + Sum(MeanByte, appends[i + 1..])
    ensures Cap(appends[i..]) == appends[i].count * appends[i].recent.cap + Cap(appends[i + 1..])
    ensures Deviations(appends[i..]) == Deviation(appends[i]) + Deviations(appends[i + 1..])
  {
    hide Deviation;
    assert appends[i..][1..] == appends[i + 1..] && appends[i..][0] == appends[i];
  }

  lemma NoTerms(appends: seq<Append>)
    requires appends == []
    ensures Sum(MeanByte, appends) == 0.0 && Cap(appends) == 0 && Deviations(appends) == 0
  {
  }
}
