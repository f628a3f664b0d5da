/**
 The next-write check said over the ring itself: when every source may append, what the
 ring's own selection gives back by then, and whether everything still fits above the reserve.
 */
module RingSimulation {
  import opened Basics
  import opened RingArithmetic
  import opened RingModels
  import opened RingCharge
  import opened RingSteps
  import opened RingRows

  /** What is measured rather than recorded: recent allocations by source, free space, reserve, headroom, unit. */
  datatype Measured = Measured(recent: seq<Recent>, free: int, reserve: int, headroom: int, unit: int)

  ghost predicate Fits(m: Measured, setup: Setup) {
    m.unit > 0 && |m.recent| == |setup.sources| && forall i :: 0 <= i < |m.recent| ==> Sound(m.recent[i], m.unit)
  }

  /** The ring at a time the check is asked for. */
  datatype Moment = Moment(d: Durable, now: int, trusted: bool)
  {
    ghost predicate Configured() {
      d.setup.Some? && d.setup.value.Valid()
    }

    ghost function Streams(): nat
      requires Configured()
    {
      |d.setup.value.sources|
    }

    ghost function StreamAt(i: nat): Stream
      requires Configured() && i < Streams()
    {
      Stream(d.setup.value.sources[i], d.setup.value.profiles[i].segmentDuration)
    }
  }

  /** A configured source and how long its segments are. */
  datatype Stream = Stream(source: SourceId, cadence: int)

  predicate TrustedOf(row: Segment, x: Stream) {
    row.source == x.source && row.trusted
  }

  // ---------- appends ----------

  /** A source may append from now on; on trusted time a whole segment must fit after its trusted rows. */
  ghost predicate MayAppend(w: Moment, x: Stream, t: int) {
    && w.now <= t
    && (w.trusted ==> forall s :: s in w.d.segments && TrustedOf(w.d.segments[s], x) ==> w.d.segments[s].end + x.cadence <= t)
  }

  ghost predicate FirstAppend(w: Moment, x: Stream, t: int) {
    MayAppend(w, x, t) && forall u :: MayAppend(w, x, u) ==> t <= u
  }

  function Later(first: int, cadence: int, k: nat): int {
    first + k * cadence
  }

  /** A source appends at its first instant, and every cadence after. */
  ghost predicate AppendsAt(w: Moment, x: Stream, t: int) {
    exists first, k: nat :: FirstAppend(w, x, first) && t == Later(first, x.cadence, k)
  }

  /** How often a source has appended through an instant. */
  ghost function Appends(w: Moment, x: Stream, t: int): nat {
    |set u | w.now <= u <= t && AppendsAt(w, x, u)|
  }

  // ---------- what is given back ----------

  /** The interval of the source's next segment is known: it is not overdue. */
  ghost predicate Phased(w: Moment, x: Stream) {
    w.trusted && exists s :: s in w.d.segments && TrustedOf(w.d.segments[s], x) && w.d.segments[s].end + x.cadence >= w.now
  }

  /** The segment a source appends at an instant. */
  function NewRow(x: Stream, at: int): Segment {
    Segment(x.source, at - x.cadence, at, 1, Stored, true)
  }

  /** The ring with one more row, protected by the incidents it joins. */
  ghost function Appended(d: Durable, s: Id, row: Segment, at: int): Durable {
    d.(segments := d.segments[s := row], protection := d.protection + (set c | c in Joining(d, row, at) :: Edge(c, s)))
  }

  /** The segment appended at one instant is selected for reclaiming at another. */
  ghost predicate Takeable(w: Moment, x: Stream, at: int, t: int, config: RingConfig) {
    exists s :: s !in w.d.segments && Selected(Appended(w.d, s, NewRow(x, at), at), s, t, config)
  }

  /** How many of a source's coming segments are selected by an instant. */
  ghost function Taken(w: Moment, x: Stream, t: int, config: RingConfig): nat {
    |set at | w.now <= at <= t && AppendsAt(w, x, at) && Takeable(w, x, at, t, config)|
  }

  /** What they give back, each at its source's smallest recent allocation, over the sources from one on. */
  ghost function TakenBytes(w: Moment, m: Measured, t: int, from: nat): nat
    requires w.Configured() && |m.recent| == w.Streams() && from <= w.Streams()
    decreases w.Streams() - from
  {
    if from == w.Streams() then 0
    else
      var x := w.StreamAt(from);
      (if Phased(w, x) then Taken(w, x, t, w.d.setup.value.config) * m.recent[from].credit else 0) + TakenBytes(w, m, t, from + 1)
  }

  /** The bytes of exactly the rows the ring selects at an instant. */
  ghost predicate SelectedBytes(d: Durable, t: int, config: RingConfig, bytes: nat) {
    exists ids :: Distinct(ids) && (forall s :: s in ids <==> Selected(d, s, t, config)) && bytes == Freed(d, ids)
  }

  // ---------- refusal ----------

  ghost function Batch(w: Moment, m: Measured, t: int): seq<Append>
    requires w.Configured() && |m.recent| == w.Streams()
  {
    seq(w.Streams(), i requires 0 <= i < w.Streams() => Append(Appends(w, w.StreamAt(i), t), m.recent[i]))
  }

  lemma BatchIsSound(w: Moment, m: Measured, t: int)
    requires w.Configured() && Fits(m, w.d.setup.value)
    ensures AllSound(Batch(w, m, t), m.unit)
  {
  }

  /** Some source appends at this instant, no later than the slowest source's first append. */
  ghost predicate Considered(w: Moment, t: int)
    requires w.Configured()
  {
    && w.now <= t
    && (exists i :: 0 <= i < w.Streams() && AppendsAt(w, w.StreamAt(i), t))
    && (exists i, first :: 0 <= i < w.Streams() && FirstAppend(w, w.StreamAt(i), first) && t <= first)
  }

  /** Everything appended through the instant does not fit above reserve and headroom; untrusted time gives nothing back. */
  ghost predicate RefusedAt(w: Moment, m: Measured, t: int)
    requires w.Configured() && Fits(m, w.d.setup.value)
  {
    BatchIsSound(w, m, t);
    && Considered(w, t)
    && exists stored: nat :: SelectedBytes(w.d, t, w.d.setup.value.config, stored)
         && m.free + (if w.trusted then stored + TakenBytes(w, m, t, 0) else 0) - Charge(Batch(w, m, t), m.unit) < m.reserve + RoundUp(m.headroom, m.unit)
  }

  ghost predicate Refuses(w: Moment, m: Measured)
    requires w.Configured() && Fits(m, w.d.setup.value)
  {
    exists t :: RefusedAt(w, m, t)
  }
}
