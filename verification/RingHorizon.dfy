/** The ordinary ring's time horizon, and how many segments fit into one. */
module RingHorizon {
  import opened Basics
  import opened RingArithmetic
  import opened RingModels

  ghost predicate AllValid(profiles: seq<SegmentProfile>) {
    forall i :: 0 <= i < |profiles| ==> profiles[i].Valid()
  }

  function SegmentCount(profiles: seq<SegmentProfile>, duration: nat): nat
    requires AllValid(profiles)
  {
    if profiles == [] then 0 else profiles[0].Count(duration) + SegmentCount(profiles[1..], duration)
  }

  /** Expected bytes of a duration at every source's cadence, unrounded. */
  function ExpectedBytes(profiles: seq<SegmentProfile>, duration: nat): nat
    requires AllValid(profiles)
  {
    if profiles == [] then 0
    else profiles[0].Count(duration) * profiles[0].SegmentBytes(true) + ExpectedBytes(profiles[1..], duration)
  }

  /** They are the sum, over the sources, of the segments in the duration times their expected bytes. */
  lemma {:induction false} ExpectedBytesAreTotal(profiles: seq<SegmentProfile>, duration: nat, terms: seq<real>)
    requires AllValid(profiles) && |terms| == |profiles|
    requires forall i :: 0 <= i < |profiles| ==> terms[i] == (profiles[i].Count(duration) * profiles[i].SegmentBytes(true)) as real
    ensures ExpectedBytes(profiles, duration) as real == Total(terms)
    decreases |profiles|
  {
    if profiles != [] {
      ExpectedBytesAreTotal(profiles[1..], duration, terms[1..]);
      TotalFromFront(terms);
    }
  }

  lemma {:induction false} SegmentCountIsTotal(profiles: seq<SegmentProfile>, duration: nat, terms: seq<real>)
    requires AllValid(profiles) && |terms| == |profiles|
    requires forall i :: 0 <= i < |profiles| ==> terms[i] == profiles[i].Count(duration) as real
    ensures SegmentCount(profiles, duration) as real == Total(terms)
    decreases |profiles|
  {
    if profiles != [] {
      SegmentCountIsTotal(profiles[1..], duration, terms[1..]);
      TotalFromFront(terms);
    }
  }

  lemma CeilDivMonotone(a: nat, b: nat, unit: int)
    requires unit > 0 && a <= b
    ensures CeilDiv(a, unit) <= CeilDiv(b, unit)
  {
    var x, y := a + unit - 1, b + unit - 1;
    if x / unit > y / unit {
      MulOrder(y / unit + 1, x / unit, unit);
    }
  }

  lemma {:induction false} ExpectedBytesMonotone(profiles: seq<SegmentProfile>, a: nat, b: nat)
    requires AllValid(profiles) && a <= b
    ensures ExpectedBytes(profiles, a) <= ExpectedBytes(profiles, b)
    decreases |profiles|
  {
    if profiles != [] {
      ExpectedBytesMonotone(profiles[1..], a, b);
      var p := profiles[0];
      CeilDivMonotone(a, b, p.segmentDuration);
      SegmentBytesPositive(p);
      MulOrder(p.Count(a), p.Count(b), p.SegmentBytes(true));
    }
  }

  /** The longest duration one profile alone leaves room for. */
  function Alone(p: SegmentProfile, bytes: nat): nat
    requires p.Valid()
  {
    SegmentBytesPositive(p);
    AloneNonNegative(bytes / p.SegmentBytes(true) - 2, p.segmentDuration);
    Max(0, bytes / p.SegmentBytes(true) - 2) * p.segmentDuration
  }

  lemma AloneNonNegative(count: int, cadence: int)
    requires cadence > 0
    ensures Max(0, count) * cadence >= 0
  {
  }

  lemma {:induction false} EachTermFits(profiles: seq<SegmentProfile>, duration: nat, i: nat)
    requires AllValid(profiles) && i < |profiles|
    ensures profiles[i].Count(duration) * profiles[i].SegmentBytes(true) <= ExpectedBytes(profiles, duration)
    decreases |profiles|
  {
    assert profiles[0].Count(duration) * profiles[0].SegmentBytes(true) >= 0;
    if i > 0 {
      EachTermFits(profiles[1..], duration, i - 1);
    }
  }

  lemma AloneBounds(profiles: seq<SegmentProfile>, bytes: nat, duration: nat, i: nat)
    requires AllValid(profiles) && i < |profiles| && ExpectedBytes(profiles, duration) <= bytes
    ensures duration <= Alone(profiles[i], bytes)
  {
    EachTermFits(profiles, duration, i);
    SegmentBytesPositive(profiles[i]);
    TermBounds(profiles[i].SegmentBytes(true), profiles[i].segmentDuration, bytes, duration);
  }

  lemma TermBounds(size: int, cadence: int, bytes: nat, duration: nat)
    requires size > 0 && cadence > 0 && (CeilDiv(duration, cadence) + 2) * size <= bytes
    ensures duration <= Max(0, bytes / size - 2) * cadence
  {
    var count := CeilDiv(duration, cadence) + 2;
    if count > bytes / size {
      MulOrder(bytes / size + 1, count, size);
    }
    var x := duration + cadence - 1;
    assert x == (x / cadence) * cadence + x % cadence;
    MulOrder(count - 2, bytes / size - 2, cadence);
  }

  method HorizonCeiling(profiles: seq<SegmentProfile>, bytes: nat) returns (right: nat)
    requires AllValid(profiles) && profiles != []
    ensures right >= PRE
    ensures forall d: nat :: d >= PRE && ExpectedBytes(profiles, d) <= bytes ==> d <= right
  {
    var least := Alone(profiles[0], bytes);
    ghost var which := 0;
    for i := 1 to |profiles|
      invariant which < |profiles| && least == Alone(profiles[which], bytes)
    {
      if Alone(profiles[i], bytes) < least {
        least := Alone(profiles[i], bytes);
        which := i;
      }
    }
    right := Max(PRE, least);
    forall d: nat | d >= PRE && ExpectedBytes(profiles, d) <= bytes
      ensures d <= right
    {
      AloneBounds(profiles, bytes, d, which);
    }
  }

  /** The horizon is the selected duration, or the longest one the selected bytes represent. */
  ghost predicate IsHorizon(config: RingConfig, profiles: seq<SegmentProfile>, horizon: nat)
    requires AllValid(profiles)
  {
    match config
    case Duration(seconds) => horizon == seconds * SECOND
    case Capacity(bytes) =>
      if ExpectedBytes(profiles, PRE) > bytes then horizon == PRE
      else
        && horizon >= PRE && ExpectedBytes(profiles, horizon) <= bytes
        && forall d: nat :: d > horizon ==> ExpectedBytes(profiles, d) > bytes
  }

  method HorizonUs(config: RingConfig, profiles: seq<SegmentProfile>) returns (horizon: nat)
    requires config.Valid() && AllValid(profiles) && profiles != []
    ensures IsHorizon(config, profiles, horizon)
    ensures horizon >= PRE
  {
    if config.Duration? {
      return config.seconds * SECOND;
    }
    var left := PRE;
    var right := HorizonCeiling(profiles, config.bytes);
    if ExpectedBytes(profiles, left) > config.bytes {
      return PRE;
    }
    while left < right
      invariant PRE <= left <= right
      invariant ExpectedBytes(profiles, left) <= config.bytes
      invariant forall d: nat :: d >= PRE && ExpectedBytes(profiles, d) <= config.bytes ==> d <= right
    {
      var middle := (left + right + 1) / 2;
      if ExpectedBytes(profiles, middle) <= config.bytes {
        left := middle;
      } else {
        forall d: nat | d >= PRE && ExpectedBytes(profiles, d) <= config.bytes
          ensures d <= middle - 1
        {
          if d >= middle {
            ExpectedBytesMonotone(profiles, middle, d);
          }
        }
        right := middle - 1;
      }
    }
    return left;
  }

  lemma HorizonUnique(config: RingConfig, profiles: seq<SegmentProfile>, a: nat, b: nat)
    requires AllValid(profiles) && IsHorizon(config, profiles, a) && IsHorizon(config, profiles, b)
    ensures a == b
  {
  }

  // ---------- how many segments a span holds ----------

  ghost predicate Spaced(ends: set<int>, gap: int) {
    forall x, y :: x in ends && y in ends && x < y ==> y - x >= gap
  }

  lemma MaxExists(ends: set<int>, some: int) returns (m: int)
    requires some in ends
    ensures m in ends && forall x :: x in ends ==> x <= m
    decreases |ends|
  {
    m := some;
    if larger :| larger in ends && larger > some {
      assert larger in ends - {some};
      m := MaxExists(ends - {some}, larger);
      assert forall x :: x in ends ==> x == some || x in ends - {some};
    }
  }

  /** Segment ends at least a cadence apart: at most ceil(span / cadence) of them in a span. */
  lemma {:induction false} SpacedCount(ends: set<int>, low: int, high: int, cadence: int)
    requires cadence > 0 && low <= high && Spaced(ends, cadence)
    requires forall x :: x in ends ==> low < x <= high
    ensures |ends| <= CeilDiv(high - low, cadence)
    decreases |ends|
  {
    if some :| some in ends {
      var m := MaxExists(ends, some);
      var rest := ends - {m};
      assert |ends| == |rest| + 1;
      assert forall x :: x in rest ==> x <= m - cadence;
      if m - cadence >= low {
        SpacedCount(rest, low, m - cadence, cadence);
        CeilDivStep(m - low, cadence);
      } else {
        assert rest == {};
        CeilDivPositive(m - low, cadence);
      }
      CeilDivMonotone(m - low, high - low, cadence);
    } else {
      assert ends == {};
    }
  }

  lemma CeilDivStep(x: int, unit: int)
    requires unit > 0 && x >= unit
    ensures CeilDiv(x, unit) == CeilDiv(x - unit, unit) + 1
  {
    var y := x - 1;
    DivisionUnique(y + unit, unit, y / unit + 1, y % unit);
    assert x - unit + unit - 1 == y;
  }

  lemma CeilDivPositive(x: int, unit: int)
    requires unit > 0 && x >= 1
    ensures CeilDiv(x, unit) >= 1
  {
    CeilDivMonotone(1, x, unit);
    DivisionUnique(unit, unit, 1, 0);
  }
}
