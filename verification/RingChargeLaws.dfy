/** What the next-write check relies on: the charge is monotone, order-free, whole units and bounded. */
module RingChargeLaws {
  import opened Basics
  import opened RingArithmetic
  import opened RingCharge

  /** The same sources, each appending at least as often. */
  ghost predicate Grows(a: seq<Append>, b: seq<Append>) {
    && |a| == |b|
    && forall i :: 0 <= i < |a| ==> a[i].recent == b[i].recent && a[i].count <= b[i].count
  }

  // ---------- monotone ----------

  lemma AlignedAtSame(a: seq<Append>, b: seq<Append>, j: nat)
    requires Grows(a, b)
    ensures AlignedAt(a, j) <==> AlignedAt(b, j)
  {
    AlignedByIndex(a, j);
    AlignedByIndex(b, j);
  }

  lemma AlignedByIndex(a: seq<Append>, j: nat)
    ensures AlignedAt(a, j) <==>
            && (forall i :: 0 <= i < |a| ==> j < |a[i].recent.samples|)
            && (forall i, k :: 0 <= i < |a| && 0 <= k < |a| ==> Overlap(a[i].recent.samples[j], a[k].recent.samples[j]))
  {
    if forall i :: 0 <= i < |a| ==> j < |a[i].recent.samples| {
      forall x, y | x in a && y in a &&
                    (forall i, k :: 0 <= i < |a| && 0 <= k < |a| ==> Overlap(a[i].recent.samples[j], a[k].recent.samples[j]))
        ensures Overlap(x.recent.samples[j], y.recent.samples[j])
      {
        var i :| 0 <= i < |a| && a[i] == x;
        var k :| 0 <= k < |a| && a[k] == y;
      }
    }
  }

  lemma {:induction false} AlignedSame(a: seq<Append>, b: seq<Append>, j: nat)
    requires Grows(a, b) && a != []
    ensures AlignedFrom(a, j) == AlignedFrom(b, j)
    decreases |a[0].recent.samples| - j
  {
    AlignedAtSame(a, b, j);
    if AlignedAt(a, j) {
      assert a[0] in a;
      AlignedSame(a, b, j + 1);
    }
  }

  lemma ScaleGrows(a: nat, b: nat, x: real)
    requires a <= b && x >= 0.0
    ensures a as real * x <= b as real * x
  {
    assert (b - a) as real * x >= 0.0;
  }

  lemma WeightGrows(x: Append, y: Append, x': Append, y': Append, n: nat)
    requires n > 1 && x.recent == x'.recent && y.recent == y'.recent && x.count <= x'.count && y.count <= y'.count
    ensures Weight(x, y, n) <= Weight(x', y', n)
  {
    hide Covariance;
    var p := PositivePart(Covariance(x.recent, y.recent, n));
    ProductGrows(x.count, x'.count, y.count, y'.count);
    ScaleGrows(x.count * y.count, x'.count * y'.count, p);
  }

  lemma ProductGrows(a: nat, a': nat, b: nat, b': nat)
    requires a <= a' && b <= b'
    ensures a * b <= a' * b'
    ensures a as real * b as real == (a * b) as real && a' as real * b' as real == (a' * b') as real
  {
    assert a' * b' - a * b == (a' - a) * b' + a * (b' - b);
    assert (a' - a) * b' >= 0;
    assert a * (b' - b) >= 0;
  }

  lemma SquareGrows(a: seq<Append>, b: seq<Append>, n: nat)
    requires Grows(a, b) && n > 1
    ensures Square(a, n) <= Square(b, n)
  {
    hide Weight;
    forall i | 0 <= i < |a|
      ensures RowSum(a, n)(a[i]) <= RowSum(b, n)(b[i])
    {
      forall k | 0 <= k < |a|
        ensures Row(a[i], n)(a[k]) <= Row(b[i], n)(b[k])
      {
        WeightGrows(a[i], a[k], b[i], b[k], n);
      }
      SumPointwise(Row(a[i], n), a, Row(b[i], n), b);
    }
    SumPointwise(RowSum(a, n), a, RowSum(b, n), b);
  }

  lemma WidenedRootGrows(v: real, w: real, n: nat)
    requires 0.0 <= v <= w && n > 3
    ensures WidenedRoot(v, n) <= WidenedRoot(w, n)
  {
    hide PredictionFactor;
    PredictionFactorPositive(n);
    RealScale(v, w, PredictionFactor(n));
    CeilRootMonotone(v * PredictionFactor(n), w * PredictionFactor(n));
  }

  lemma RealScale(v: real, w: real, x: real)
    requires 0.0 <= v <= w && x >= 0.0
    ensures 0.0 <= v * x <= w * x
  {
    assert (w - v) * x >= 0.0;
  }

  lemma MeasuredGrows(a: seq<Append>, b: seq<Append>)
    requires Grows(a, b)
    ensures Measured(a).Some? <==> Measured(b).Some?
    ensures Measured(a).Some? ==> Measured(a).value <= Measured(b).value
  {
    hide Square, WidenedRoot, MeanOf;
    if |a| >= 2 {
      AlignedSame(a, b, 0);
      var n := AlignedFrom(a, 0);
      if n >= MINIMUM_MEASURED_BATCHES {
        forall i | 0 <= i < |a|
          ensures MeanTerm(n)(a[i]) <= MeanTerm(n)(b[i])
        {
          ScaleGrows(a[i].count, b[i].count, MeanOf(a[i].recent, n));
        }
        SumPointwise(MeanTerm(n), a, MeanTerm(n), b);
        CeilMonotone(Sum(MeanTerm(n), a), Sum(MeanTerm(n), b));
        SquareNonNegative(a, n);
        SquareGrows(a, b, n);
        WidenedRootGrows(Square(a, n), Square(b, n), n);
      }
    }
  }

  lemma DeviationGrows(x: Append, y: Append)
    requires x.recent == y.recent && x.count <= y.count && x.recent.variance >= 0.0
    ensures Deviation(x) <= Deviation(y)
  {
    ScaledRootGrows(x.recent.variance, 2.0 * x.count as real, 2.0 * y.count as real);
  }

  lemma ScaledRootGrows(v: real, c: real, d: real)
    requires v >= 0.0 && 0.0 <= c <= d
    ensures ScaledRoot(v, c) <= ScaledRoot(v, d)
  {
    hide CeilRoot;
    ScaledSquare(v, c);
    ScaledSquare(v, d);
    SquareOrder(c, d);
    ScaleOrder(v, c * c, d * d);
    CeilRootMonotone(v * (c * c), v * (d * d));
  }

  lemma SquareOrder(c: real, d: real)
    requires 0.0 <= c <= d
    ensures c * c <= d * d
  {
    assert d * d - c * c == (d - c) * (d + c);
    NonNegative(d - c, d + c);
  }

  lemma ScaleOrder(v: real, x: real, y: real)
    requires v >= 0.0 && x <= y
    ensures v * x <= v * y
  {
    assert v * (y - x) >= 0.0;
  }

  lemma {:induction false} TermsGrow(a: seq<Append>, b: seq<Append>, unit: int)
    requires Grows(a, b) && unit > 0 && AllSound(a, unit) && AllSound(b, unit)
    ensures Cap(a) <= Cap(b) && Deviations(a) <= Deviations(b) && Sum(MeanByte, a) <= Sum(MeanByte, b)
    decreases |a|
  {
    hide Deviation;
    if a != [] {
      TermsGrow(a[1..], b[1..], unit);
      DeviationGrows(a[0], b[0]);
      ScaleGrows(a[0].count, b[0].count, a[0].recent.mean);
      ProductGrows(a[0].count, b[0].count, a[0].recent.cap, b[0].recent.cap);
    }
  }

  /** More appends never cost less. */
  lemma ChargeMonotone(a: seq<Append>, b: seq<Append>, unit: int)
    requires Grows(a, b) && unit > 0 && AllSound(a, unit)
    ensures AllSound(b, unit) && Charge(a, unit) <= Charge(b, unit)
  {
    hide Measured, Cap, Deviations;
    TermsGrow(a, b, unit);
    MeasuredGrows(a, b);
    CeilMonotone(Sum(MeanByte, a), Sum(MeanByte, b));
    RoundUpMonotone(Estimate(a), Estimate(b), unit);
  }

  // ---------- order-free ----------

  lemma SameMembers(a: seq<Append>, b: seq<Append>)
    requires multiset(a) == multiset(b)
    ensures |a| == |b| && forall x :: x in a <==> x in b
  {
    assert |multiset(a)| == |a| && |multiset(b)| == |b|;
    assert forall x :: x in a <==> x in multiset(a);
    assert forall x :: x in b <==> x in multiset(b);
  }

  lemma {:induction false} AlignedOrderFree(a: seq<Append>, b: seq<Append>, j: nat)
    requires a != [] && b != [] && forall x :: x in a <==> x in b
    ensures AlignedFrom(a, j) == AlignedFrom(b, j)
    decreases |a[0].recent.samples| - j
  {
    assert AlignedAt(a, j) <==> AlignedAt(b, j);
    if AlignedAt(a, j) {
      assert a[0] in a;
      AlignedOrderFree(a, b, j + 1);
    }
  }

  lemma MeasuredOrderFree(a: seq<Append>, b: seq<Append>)
    requires multiset(a) == multiset(b)
    ensures Measured(a) == Measured(b)
  {
    hide WidenedRoot, Weight, MeanOf;
    SameMembers(a, b);
    if |a| >= 2 {
      AlignedOrderFree(a, b, 0);
      var n := AlignedFrom(a, 0);
      if n >= MINIMUM_MEASURED_BATCHES {
        SumOrderFree(MeanTerm(n), a, b);
        forall i | 0 <= i < |a|
          ensures RowSum(a, n)(a[i]) == RowSum(b, n)(a[i])
        {
          SumOrderFree(Row(a[i], n), a, b);
        }
        SumSame(RowSum(a, n), RowSum(b, n), a);
        SumOrderFree(RowSum(b, n), a, b);
      }
    }
  }

  const CapTerm: Append -> real := (x: Append) => (x.count * x.recent.cap) as real

  const DeviationTerm: Append -> real :=
    (x: Append) => if x.recent.variance >= 0.0 then Deviation(x) as real else 0.0

  lemma {:induction false} TermsAreSums(a: seq<Append>)
    requires forall i :: 0 <= i < |a| ==> a[i].recent.variance >= 0.0
    ensures Cap(a) as real == Sum(CapTerm, a) && Deviations(a) as real == Sum(DeviationTerm, a)
    decreases |a|
  {
    hide Deviation;
    if a != [] {
      TermsAreSums(a[1..]);
    }
  }

  /** The charge does not depend on the order of the sources. */
  lemma ChargeOrderFree(a: seq<Append>, b: seq<Append>, unit: int)
    requires unit > 0 && AllSound(a, unit) && multiset(a) == multiset(b)
    ensures AllSound(b, unit) && Charge(a, unit) == Charge(b, unit)
  {
    hide Measured, Cap, Deviations, Sum;
    SameMembers(a, b);
    forall i | 0 <= i < |b|
      ensures Sound(b[i].recent, unit)
    {
      assert b[i] in a;
    }
    TermsAreSums(a);
    TermsAreSums(b);
    SumOrderFree(CapTerm, a, b);
    SumOrderFree(DeviationTerm, a, b);
    SumOrderFree(MeanByte, a, b);
    MeasuredOrderFree(a, b);
  }

  // ---------- bounds ----------

  lemma {:induction false} CapWholeUnits(a: seq<Append>, unit: int)
    requires unit > 0 && AllSound(a, unit)
    ensures Cap(a) >= 0 && Cap(a) % unit == 0
    decreases |a|
  {
    if a != [] {
      CapWholeUnits(a[1..], unit);
      UnitsScale(a[0].count, a[0].recent.cap, unit);
      UnitsAdd(a[0].count * a[0].recent.cap, Cap(a[1..]), unit);
      assert a[0].count * a[0].recent.cap >= 0;
    }
  }

  /** Whole allocation units, and never more than every append at its cap. */
  lemma ChargeInUnitsWithinCaps(a: seq<Append>, unit: int)
    requires unit > 0 && AllSound(a, unit)
    ensures Charge(a, unit) % unit == 0 && Charge(a, unit) <= Cap(a)
  {
    CapWholeUnits(a, unit);
  }

  /** Twice the summed deviations, for given deviations of the sources. */
  function TwoDeviations(a: seq<Append>, sigma: seq<real>): real
    requires |a| == |sigma|
  {
    if a == [] then 0.0 else 2.0 * a[0].count as real * sigma[0] + TwoDeviations(a[1..], sigma[1..])
  }

  /** Each sigma is at most its source's standard deviation. */
  ghost predicate Deviates(a: seq<Append>, sigma: seq<real>) {
    && |a| == |sigma|
    && forall i :: 0 <= i < |a| ==> sigma[i] >= 0.0 && sigma[i] * sigma[i] <= a[i].recent.variance
  }

  lemma DeviationCovers(x: Append, sigma: real)
    requires x.recent.variance >= 0.0 && sigma >= 0.0 && sigma * sigma <= x.recent.variance
    ensures Deviation(x) as real >= 2.0 * x.count as real * sigma
  {
    hide ScaledRoot;
    ScaledRootCovers(x.recent.variance, 2.0 * x.count as real, sigma);
  }

  lemma ScaledRootCovers(v: real, c: real, sigma: real)
    requires c >= 0.0 && sigma >= 0.0 && sigma * sigma <= v
    ensures v >= 0.0 && ScaledRoot(v, c) as real >= c * sigma
  {
    hide CeilRoot;
    NonNegative(sigma, sigma);
    ScaledSquare(v, c);
    var root := ScaledRoot(v, c);
    CeilRootLeast(v * (c * c), root);
    ScaleOrder(c * c, sigma * sigma, v);
    Regroup(c, sigma);
    NonNegative(c, sigma);
    RootReaches(root, c * sigma, v * (c * c));
  }

  lemma RootReaches(root: nat, x: real, square: real)
    requires x >= 0.0 && x * x <= square <= (root * root) as real
    ensures root as real >= x
  {
    assert root as real * root as real == (root * root) as real;
    RootOrder(root as real, x);
  }

  lemma NonNegative(x: real, y: real)
    requires x >= 0.0 && y >= 0.0
    ensures x * y >= 0.0
  {
  }

  lemma Regroup(c: real, s: real)
    ensures (c * s) * (c * s) == (c * c) * (s * s)
  {
    assert (c * s) * (c * s) == c * (s * (c * s));
    assert s * (c * s) == c * (s * s);
    assert c * (c * (s * s)) == (c * c) * (s * s);
  }

  lemma {:induction false} DeviationsCover(a: seq<Append>, sigma: seq<real>)
    requires Deviates(a, sigma) && forall i :: 0 <= i < |a| ==> a[i].recent.variance >= 0.0
    ensures Deviations(a) as real >= TwoDeviations(a, sigma)
    decreases |a|
  {
    hide Deviation;
    if a != [] {
      DeviationsCover(a[1..], sigma[1..]);
      DeviationCovers(a[0], sigma[0]);
    }
  }

  /** Rounding never lowers the charge below the exact mean plus two summed deviations, capped. */
  lemma UnmeasuredChargeCovers(a: seq<Append>, unit: int, sigma: seq<real>)
    requires unit > 0 && AllSound(a, unit) && Deviates(a, sigma) && Measured(a).None?
    ensures Charge(a, unit) == Cap(a) || Charge(a, unit) as real >= Sum(MeanByte, a) + TwoDeviations(a, sigma)
  {
    hide Deviations, Cap, Sum;
    DeviationsCover(a, sigma);
  }

  lemma WidenedRootCovers(variance: real, n: nat, spread: real)
    requires variance >= 0.0 && n > 3 && spread >= 0.0 && spread * spread <= variance * PredictionFactor(n)
    ensures WidenedRoot(variance, n) as real >= spread
  {
    hide PredictionFactor;
    PredictionFactorPositive(n);
    var square := variance * PredictionFactor(n);
    CeilRootLeast(square, WidenedRoot(variance, n));
    RootReaches(WidenedRoot(variance, n), spread, square);
  }

  /** On the measured path: the measured mean plus any spread within the prediction bound, capped. */
  lemma MeasuredChargeCovers(a: seq<Append>, unit: int, spread: real)
    requires unit > 0 && AllSound(a, unit) && Measured(a).Some? && spread >= 0.0
    requires spread * spread <= Square(a, AlignedFrom(a, 0)) * PredictionFactor(AlignedFrom(a, 0))
    ensures Charge(a, unit) == Cap(a)
            || Charge(a, unit) as real >= Sum(MeanTerm(AlignedFrom(a, 0)), a) + spread
  {
    hide Square, PredictionFactor, Cap, Sum, CeilRoot, WidenedRoot;
    var n := AlignedFrom(a, 0);
    SquareNonNegative(a, n);
    WidenedRootCovers(Square(a, n), n, spread);
  }
}
