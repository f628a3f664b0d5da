/** Bounded segment contracts, ring configuration and the arithmetic of cadences. */
module RingModels {
  import opened Basics
  import opened RingArithmetic

  const SECOND := 1_000_000
  const PRE := 600 * SECOND
  const POST := PRE
  const RETENTION := 60 * 86400 * SECOND

  /** A source's declared bitrates (bits per second), cadence and per-segment overhead. */
  datatype SegmentProfile = SegmentProfile(
    maximumBitrate: nat, expectedBitrate: nat, segmentDuration: int, overhead: nat)
  {
    predicate Valid() {
      && 1 <= expectedBitrate <= maximumBitrate
      && SECOND <= segmentDuration <= PRE
    }

    function SegmentBytes(expected: bool): nat
      requires Valid()
    {
      var bitrate := if expected then expectedBitrate else maximumBitrate;
      assert bitrate * segmentDuration >= 0;
      (bitrate * segmentDuration + 8 * SECOND - 1) / (8 * SECOND) + overhead
    }

    /** At most two complete boundary segments straddle an arbitrary window. */
    function Count(duration: nat): nat
      requires Valid()
    {
      CeilDiv(duration, segmentDuration) + 2
    }
  }

  function CeilDiv(x: nat, unit: int): nat
    requires unit > 0
  {
    (x + unit - 1) / unit
  }

  /** A segment holds its bitrate over its duration, to the byte, and its overhead. */
  lemma SegmentBytesHold(p: SegmentProfile)
    requires p.Valid()
    ensures 8 * SECOND * (p.SegmentBytes(false) - p.overhead - 1) < p.maximumBitrate * p.segmentDuration
            <= 8 * SECOND * (p.SegmentBytes(false) - p.overhead)
    ensures 8 * SECOND * (p.SegmentBytes(true) - p.overhead - 1) < p.expectedBitrate * p.segmentDuration
            <= 8 * SECOND * (p.SegmentBytes(true) - p.overhead)
  {
    CeilDivLeast(p.maximumBitrate * p.segmentDuration, 8 * SECOND);
    CeilDivLeast(p.expectedBitrate * p.segmentDuration, 8 * SECOND);
  }

  /** The least number of units that reach a value. */
  lemma CeilDivLeast(x: nat, unit: int)
    requires unit > 0
    ensures (CeilDiv(x, unit) - 1) * unit < x <= CeilDiv(x, unit) * unit
  {
    var y := x + unit - 1;
    assert y == y / unit * unit + y % unit;
  }

  /** Two more segments than it takes to last, end to end, for a duration. */
  lemma CountLasts(p: SegmentProfile, duration: nat)
    requires p.Valid()
    ensures (p.Count(duration) - 3) * p.segmentDuration < duration <= (p.Count(duration) - 2) * p.segmentDuration
  {
    CeilDivLeast(duration, p.segmentDuration);
  }

  datatype RingConfig = Duration(seconds: nat) | Capacity(bytes: nat)
  {
    predicate Valid() {
      if Duration? then seconds >= 600 else bytes >= 1
    }
  }

  lemma SegmentBytesPositive(p: SegmentProfile)
    requires p.Valid()
    ensures p.SegmentBytes(true) >= 1
  {
    assert p.expectedBitrate * p.segmentDuration >= p.segmentDuration by {
      MulOrder(1, p.expectedBitrate, p.segmentDuration);
    }
  }
}
