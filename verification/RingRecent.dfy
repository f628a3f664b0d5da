/** The recent allocations a source's next appends are charged from, out of the ledger's rows. */
module RingRecent {
  import opened Basics
  import opened RingArithmetic
  import opened RingModels
  import opened RingCharge
  import opened RingSteps
  import opened RingRows

  const BATCH_HISTORY_SEGMENTS := 16

  /** A stored row of a source, written under its current profile. */
  ghost predicate Counts(d: Durable, s: Id, source: SourceId, after: int) {
    s in d.segments && d.segments[s].source == source && d.segments[s].state == Stored && d.segments[s].end > after
  }

  /** The newest such rows, latest first: all of them, or as many as the history holds. */
  ghost predicate Newest(d: Durable, source: SourceId, after: int, ids: seq<Id>) {
    && Distinct(ids) && |ids| <= 16 && (forall s :: s in ids ==> Counts(d, s, source, after))
    && (forall i, j :: 0 <= i < j < |ids| && ids[i] in d.segments && ids[j] in d.segments ==> d.segments[ids[j]].end <= d.segments[ids[i]].end)
    && (forall s :: Counts(d, s, source, after) && s !in ids ==>
          |ids| == 16 && forall x :: x in ids && x in d.segments ==> d.segments[s].end <= d.segments[x].end)
  }

  method RecentRows(d: Durable, source: SourceId, after: int) returns (ids: seq<Id>)
    ensures Newest(d, source, after, ids)
  {
    hide ByEnd, Collected, Newest;
    var rows := Rows(d.segments);
    RowsAreKeys(d.segments, rows);
    ids := [];
    var i := |rows|;
    NothingCollected(d, rows, source, after);
    while i > 0 && |ids| < BATCH_HISTORY_SEGMENTS
      invariant 0 <= i <= |rows| && |ids| <= BATCH_HISTORY_SEGMENTS && Collected(d, rows, i, ids, source, after)
    {
      i := i - 1;
      CollectsOne(d, rows, i, ids, source, after);
      var row := d.segments[rows[i]];
      if row.source == source && row.state == Stored && row.end > after {
        ids := ids + [rows[i]];
      }
    }
    CollectedNewest(d, rows, i, ids, source, after);
  }

  lemma RowsAreKeys(m: map<Id, Segment>, rows: seq<Id>)
    requires ByEnd(m, rows)
    ensures forall i :: 0 <= i < |rows| ==> rows[i] in m
  {
  }

  /** Of the rows from an index on, those that count, latest first. */
  ghost predicate Collected(d: Durable, rows: seq<Id>, i: nat, ids: seq<Id>, source: SourceId, after: int)
    requires i <= |rows|
  {
    && Distinct(ids) && (forall s :: s in ids <==> s in rows[i..] && Counts(d, s, source, after))
    && (forall j :: 0 <= j < |ids| ==> ids[j] in d.segments)
    && (forall j, k :: 0 <= j < k < |ids| ==> d.segments[ids[k]].end <= d.segments[ids[j]].end)
  }

  lemma NothingCollected(d: Durable, rows: seq<Id>, source: SourceId, after: int)
    ensures Collected(d, rows, |rows|, [], source, after)
  {
  }

  lemma CollectsOne(d: Durable, rows: seq<Id>, i: nat, ids: seq<Id>, source: SourceId, after: int)
    requires i < |rows| && ByEnd(d.segments, rows) && Collected(d, rows, i + 1, ids, source, after)
    ensures Collected(d, rows, i, if Counts(d, rows[i], source, after) then ids + [rows[i]] else ids, source, after)
  {
    var s := rows[i];
    assert rows[i..] == [s] + rows[i + 1..];
    assert s !in rows[i + 1..];
    LaterEnds(d.segments, rows, i);
    hide ByEnd;
    forall j | 0 <= j < |ids|
      ensures ids[j] != s && d.segments[ids[j]].end >= d.segments[s].end
    {
      assert ids[j] in ids;
    }
  }

  lemma CollectedNewest(d: Durable, rows: seq<Id>, i: nat, ids: seq<Id>, source: SourceId, after: int)
    requires i <= |rows| && ByEnd(d.segments, rows) && (forall s :: s in d.segments ==> s in rows)
    requires Collected(d, rows, i, ids, source, after) && |ids| <= BATCH_HISTORY_SEGMENTS && (i == 0 || |ids| == BATCH_HISTORY_SEGMENTS)
    ensures Newest(d, source, after, ids)
  {
    OlderRowsEndFirst(d.segments, rows, i);
    hide ByEnd;
    assert rows == rows[..i] + rows[i..];
  }

  lemma OlderRowsEndFirst(m: map<Id, Segment>, rows: seq<Id>, i: nat)
    requires ByEnd(m, rows) && i <= |rows|
    ensures forall s, x :: s in rows[..i] && x in rows[i..] ==> s in m && x in m && m[s].end <= m[x].end
  {
    forall s, x | s in rows[..i] && x in rows[i..]
      ensures s in m && x in m && m[s].end <= m[x].end
    {
      var j :| 0 <= j < i && rows[..i][j] == s;
      var k :| 0 <= k < |rows[i..]| && rows[i..][k] == x;
      assert rows[j] == s && rows[i + k] == x;
    }
  }

  /** The latest end of a source's refused or unverified rows past a time. */
  ghost predicate IsCut(d: Durable, source: SourceId, low: int, cut: Option<int>) {
    && (forall s :: Gap(d, s, source, low) ==> cut.Some? && d.segments[s].end <= cut.value)
    && (cut.Some? ==> exists s :: Gap(d, s, source, low) && d.segments[s].end == cut.value)
  }

  ghost predicate Gap(d: Durable, s: Id, source: SourceId, low: int) {
    && s in d.segments && d.segments[s].source == source && (d.segments[s].state == Missing || d.segments[s].state == Uncertain)
    && d.segments[s].end > low
  }

  method CutEnd(d: Durable, source: SourceId, low: int) returns (cut: Option<int>)
    ensures IsCut(d, source, low, cut)
  {
    var ids := Listing(d.segments.Keys);
    cut := None;
    for i := 0 to |ids|
      invariant forall k :: 0 <= k < i && Gap(d, ids[k], source, low) ==> cut.Some? && d.segments[ids[k]].end <= cut.value
      invariant cut.Some? ==> exists s :: Gap(d, s, source, low) && d.segments[s].end == cut.value
    {
      var row := d.segments[ids[i]];
      if row.source == source && (row.state == Missing || row.state == Uncertain) && row.end > low && (cut.None? || cut.value < row.end) {
        assert Gap(d, ids[i], source, low);
        cut := Some(row.end);
      }
    }
    forall s | Gap(d, s, source, low)
      ensures cut.Some? && d.segments[s].end <= cut.value
    {
      assert s in ids;
    }
  }

  // ---------- samples ----------

  function Allocation(d: Durable, s: Id, bound: nat): nat {
    if s in d.files then d.files[s] else bound
  }

  /** A row that goes on with the history: trusted, at cadence, after the cut, and meeting the row after it. */
  ghost predicate GoesOn(d: Durable, ids: seq<Id>, j: nat, cadence: int, cut: Option<int>)
    requires j < |ids| && forall i :: 0 <= i < |ids| ==> ids[i] in d.segments
  {
    var row := d.segments[ids[j]];
    && row.trusted && row.end - row.start == cadence && (cut.Some? ==> row.start >= cut.value)
    && (j > 0 ==> row.end >= d.segments[ids[j - 1]].start)
  }

  /** The samples of the newest rows, back to the first that does not go on. */
  ghost predicate IsHistory(d: Durable, ids: seq<Id>, cadence: int, cut: Option<int>, bound: nat, unit: int, samples: seq<Sample>)
    requires unit > 0 && forall i :: 0 <= i < |ids| ==> ids[i] in d.segments
  {
    && |samples| <= |ids|
    && (forall j :: 0 <= j < |samples| ==> GoesOn(d, ids, j, cadence, cut) && IsSample(d, ids[j], bound, unit, samples[j]))
    && (|samples| < |ids| ==> !GoesOn(d, ids, |samples|, cadence, cut))
  }

  /** A row's interval and what it takes on disk in whole units, at most the bound; a row without a file counts at the bound. */
  ghost predicate IsSample(d: Durable, s: Id, bound: nat, unit: int, x: Sample)
    requires s in d.segments && unit > 0
  {
    && x.start == d.segments[s].start && x.end == d.segments[s].end
    && x.size == if s in d.files then Min(RoundUp(d.files[s], unit), bound) else Min(RoundUp(bound, unit), bound)
  }

  function SampleOf(d: Durable, s: Id, bound: nat, unit: int): Sample
    requires s in d.segments && unit > 0
  {
    Sample(d.segments[s].start, d.segments[s].end, Min(bound, RoundUp(Allocation(d, s, bound), unit)))
  }

  method Samples(d: Durable, ids: seq<Id>, cadence: int, cut: Option<int>, bound: nat, unit: int) returns (samples: seq<Sample>)
    requires unit > 0 && forall i :: 0 <= i < |ids| ==> ids[i] in d.segments
    ensures IsHistory(d, ids, cadence, cut, bound, unit, samples)
  {
    samples := [];
    while |samples| < |ids|
      invariant |samples| <= |ids|
      invariant forall j :: 0 <= j < |samples| ==> GoesOn(d, ids, j, cadence, cut) && IsSample(d, ids[j], bound, unit, samples[j])
      decreases |ids| - |samples|
    {
      var row := d.segments[ids[|samples|]];
      if !row.trusted || row.end - row.start != cadence || (cut.Some? && row.start < cut.value)
         || (samples != [] && row.end < samples[|samples| - 1].start) {
        return;
      }
      samples := samples + [SampleOf(d, ids[|samples|], bound, unit)];
    }
  }

  /** The history has no gap: every instant from its oldest sample to its newest lies in one of them. */
  lemma {:induction false} HistoryUnbroken(d: Durable, ids: seq<Id>, cadence: int, cut: Option<int>, bound: nat, unit: int, samples: seq<Sample>, t: int)
    requires unit > 0 && (forall i :: 0 <= i < |ids| ==> ids[i] in d.segments)
    requires IsHistory(d, ids, cadence, cut, bound, unit, samples) && samples != []
    requires samples[|samples| - 1].start <= t < samples[0].end
    ensures exists j :: 0 <= j < |samples| && samples[j].start <= t < samples[j].end
  {
    ReachedFrom(d, ids, cadence, cut, bound, unit, samples, t, |samples| - 1);
  }

  lemma {:induction false} ReachedFrom(d: Durable, ids: seq<Id>, cadence: int, cut: Option<int>, bound: nat, unit: int, samples: seq<Sample>, t: int, j: nat)
    requires unit > 0 && (forall i :: 0 <= i < |ids| ==> ids[i] in d.segments)
    requires IsHistory(d, ids, cadence, cut, bound, unit, samples) && j < |samples| && samples[j].start <= t < samples[0].end
    ensures exists i :: 0 <= i < |samples| && samples[i].start <= t < samples[i].end
    decreases j
  {
    if t >= samples[j].end {
      ReachedFrom(d, ids, cadence, cut, bound, unit, samples, t, j - 1);
    }
  }

  // ---------- one source ----------

  function Sizes(d: Durable, ids: seq<Id>, bound: nat): seq<nat> {
    seq(|ids|, i requires 0 <= i < |ids| => Allocation(d, ids[i], bound))
  }

  /** The earliest start among some rows, or a time if that is later. */
  ghost predicate IsLow(d: Durable, ids: seq<Id>, after: int, low: int) {
    && after <= low
    && (ids != [] ==> exists s :: s in ids && s in d.segments && low == Max(after, d.segments[s].start)
                                  && forall x :: x in ids && x in d.segments ==> d.segments[s].start <= d.segments[x].start)
  }

  method LowEnd(d: Durable, ids: seq<Id>, after: int) returns (low: int)
    requires forall i :: 0 <= i < |ids| ==> ids[i] in d.segments
    ensures IsLow(d, ids, after, low)
  {
    if ids == [] {
      return after;
    }
    var first := ids[0];
    for i := 1 to |ids|
      invariant first in ids && first in d.segments
      invariant forall k :: 0 <= k < i ==> d.segments[first].start <= d.segments[ids[k]].start
    {
      if d.segments[ids[i]].start < d.segments[first].start {
        first := ids[i];
      }
    }
    low := Max(after, d.segments[first].start);
  }

  /** What a source's appends are charged from: its newest stored rows, and their unbroken tail. */
  ghost predicate IsRecent(d: Durable, source: SourceId, profile: SegmentProfile, after: int, unit: int, atBound: bool, r: Recent)
    requires unit > 0 && profile.Valid()
  {
    var bound := RoundUp(profile.SegmentBytes(false), unit);
    if atBound then Summarizes([], bound, unit, r) && r.samples == []
    else exists ids, low, cut, samples, sizes ::
      && Newest(d, source, after, ids) && IsLow(d, ids, after, low) && IsCut(d, source, low, cut)
      && IsTail(d, ids, profile.segmentDuration, cut, bound, unit, samples)
      && LatestSizes(d, ids, bound, sizes) && Summarizes(sizes, bound, unit, r) && r.samples == samples
  }

  /** The unbroken history at the end of some rows; the cut is looked for only if there are any. */
  ghost predicate IsTail(d: Durable, ids: seq<Id>, cadence: int, cut: Option<int>, bound: nat, unit: int, samples: seq<Sample>)
    requires unit > 0
  {
    && (forall i :: 0 <= i < |ids| ==> ids[i] in d.segments)
    && IsHistory(d, ids, cadence, if ids == [] then None else cut, bound, unit, samples)
  }

  /** What the latest rows take on disk, up to eight of them; a row without a file counts at the bound. */
  ghost predicate LatestSizes(d: Durable, ids: seq<Id>, bound: nat, sizes: seq<nat>) {
    && |sizes| == Min(8, |ids|)
    && forall i :: 0 <= i < |sizes| ==> sizes[i] == if ids[i] in d.files then d.files[ids[i]] else bound
  }

  method RecentOf(d: Durable, source: SourceId, profile: SegmentProfile, after: int, unit: int, atBound: bool) returns (r: Recent)
    requires unit > 0 && profile.Valid()
    ensures IsRecent(d, source, profile, after, unit, atBound, r) && Sound(r, unit)
  {
    hide Newest, IsLow, IsCut, IsHistory, Statistics, Sound, Summarizes;
    var bound := RoundUp(profile.SegmentBytes(false), unit);
    if atBound {
      return Statistics([], bound, unit, []);
    }
    var ids := RecentRows(d, source, after);
    NewestAreRows(d, source, after, ids);
    var low := LowEnd(d, ids, after);
    var cut := CutEnd(d, source, low);
    var samples := Samples(d, ids, profile.segmentDuration, if ids == [] then None else cut, bound, unit);
    var sizes := Sizes(d, ids, bound);
    assert IsTail(d, ids, profile.segmentDuration, cut, bound, unit, samples);
    assert LatestSizes(d, ids, bound, if |sizes| <= 8 then sizes else sizes[..8]);
    NoRowsNoSamples(d, ids, profile.segmentDuration, None, bound, unit, samples);
    r := Statistics(sizes, bound, unit, samples);
  }

  lemma NoRowsNoSamples(d: Durable, ids: seq<Id>, cadence: int, cut: Option<int>, bound: nat, unit: int, samples: seq<Sample>)
    requires unit > 0 && (forall i :: 0 <= i < |ids| ==> ids[i] in d.segments)
    requires ids == [] ==> IsHistory(d, ids, cadence, cut, bound, unit, samples)
    ensures ids == [] ==> samples == []
  {
  }

  lemma NewestAreRows(d: Durable, source: SourceId, after: int, ids: seq<Id>)
    requires Newest(d, source, after, ids)
    ensures forall i :: 0 <= i < |ids| ==> ids[i] in d.segments
  {
    assert forall i :: 0 <= i < |ids| ==> ids[i] in ids;
  }
}
