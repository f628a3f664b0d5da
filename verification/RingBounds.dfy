/** Consequences for a trimmed ring: bounded rows, and when recovery cannot finish. */
module RingBounds {
  import opened Basics
  import opened RingArithmetic
  import opened RingModels
  import opened RingHorizon
  import opened RingSteps
  import opened RingRuns
  import opened DiskRing
  import opened RingRows

  /** A finished, unprotected, trusted segment at a source's cadence. */
  ghost predicate AtCadenceRow(d: Durable, s: Id, source: SourceId, cadence: int) {
    && s in d.segments && d.segments[s].state != Writing && !Protected(d, s)
    && d.segments[s].trusted && d.segments[s].source == source
    && d.segments[s].end - d.segments[s].start == cadence
  }

  ghost function OrdinaryRows(d: Durable, source: SourceId, cadence: int): set<Id> {
    set s | s in d.segments && AtCadenceRow(d, s, source, cadence)
  }

  ghost function EndsOf(d: Durable, rows: set<Id>): set<int>
    requires forall s :: s in rows ==> s in d.segments
  {
    set s | s in rows :: d.segments[s].end
  }

  lemma {:induction false} EndsCount(d: Durable, rows: set<Id>)
    requires forall s :: s in rows ==> s in d.segments
    requires forall a, b :: a in rows && b in rows && a != b ==> d.segments[a].end != d.segments[b].end
    ensures |EndsOf(d, rows)| == |rows|
    decreases |rows|
  {
    if x :| x in rows {
      var rest := rows - {x};
      EndsCount(d, rest);
      assert EndsOf(d, rows) == EndsOf(d, rest) + {d.segments[x].end};
      assert d.segments[x].end !in EndsOf(d, rest);
      assert |rows| == |rest| + 1;
    } else {
      assert rows == {};
      assert EndsOf(d, rows) == {};
    }
  }

  /** After a trusted trim a source keeps at most ceil(horizon / cadence) ordinary segments at its cadence. */
  lemma SourceRowsBounded(d: Durable, now: int, horizon: nat, source: SourceId, cadence: int)
    requires Inv(d) && Clock(d) <= now && Trimmed(d, now, horizon) && cadence > 0
    ensures |OrdinaryRows(d, source, cadence)| <= CeilDiv(horizon, cadence)
  {
    var rows := OrdinaryRows(d, source, cadence);
    forall a, b | a in rows && b in rows && a != b
      ensures d.segments[a].end - d.segments[b].end >= cadence || d.segments[b].end - d.segments[a].end >= cadence
    {
      assert Apart(d.segments[a], d.segments[b]);
    }
    EndsCount(d, rows);
    SpacedCount(EndsOf(d, rows), now - horizon, now, cadence);
  }

  ghost function RowsFrom(d: Durable, setup: Setup, k: nat): set<Id>
    requires setup.Valid() && k <= |setup.sources|
    decreases |setup.sources| - k
  {
    if k == |setup.sources| then {}
    else OrdinaryRows(d, setup.sources[k], setup.profiles[k].segmentDuration) + RowsFrom(d, setup, k + 1)
  }

  lemma {:induction false} RowsFromBounded(d: Durable, setup: Setup, now: int, horizon: nat, k: nat)
    requires Inv(d) && setup.Valid() && Clock(d) <= now && Trimmed(d, now, horizon) && k <= |setup.sources|
    ensures |RowsFrom(d, setup, k)| <= SegmentCount(setup.profiles[k..], horizon)
    decreases |setup.sources| - k
  {
    if k < |setup.sources| {
      RowsFromBounded(d, setup, now, horizon, k + 1);
      SourceRowsBounded(d, now, horizon, setup.sources[k], setup.profiles[k].segmentDuration);
      assert setup.profiles[k..][1..] == setup.profiles[k + 1..];
      UnionSize(OrdinaryRows(d, setup.sources[k], setup.profiles[k].segmentDuration), RowsFrom(d, setup, k + 1));
    }
  }

  lemma UnionSize(a: set<Id>, b: set<Id>)
    ensures |a + b| <= |a| + |b|
  {
    assert a + b == a + (b - a);
    assert |a + (b - a)| == |a| + |b - a|;
    assert b == (b - a) + (b * a);
    assert |b| == |b - a| + |b * a|;
  }

  /** The ledger's reservation holds: the ordinary rows of a trimmed ring fit its segment count. */
  lemma TrimmedRowsFitReservation(d: Durable, now: int, horizon: nat)
    requires Inv(d) && d.setup.Some? && Clock(d) <= now && Trimmed(d, now, horizon)
    ensures d.setup.value.Valid()
    ensures |RowsFrom(d, d.setup.value, 0)| <= SegmentCount(d.setup.value.profiles, horizon)
  {
    SetupIsValid(d);
    RowsFromBounded(d, d.setup.value, now, horizon, 0);
    assert d.setup.value.profiles[0..] == d.setup.value.profiles;
  }

  // ---------- a deletion that an incident overtakes ----------

  const PROFILE := SegmentProfile(8, 8, SECOND, 0)
  const SETUP := Setup(Duration(600), [0], [PROFILE])
  const NOW := 3 * PRE

  /** Set up, store one old segment, decide its deletion, and preserve its time before it is unlinked. */
  const OVERTAKEN: seq<Action> := [
    RecordSetup(SETUP),
    RecordClock(NOW),
    InsertSegment(0, Segment(0, 0, SECOND, 1, Writing, true), NOW),
    WriteFile(0, 512),
    SetStored(0),
    MarkDeleting(0, NOW, true),
    OpenIncident(1, RingSteps.Incident(ServerMovement, 0, SECOND, None, None, Active, false, {0}), false)
  ]

  const ROW := Segment(0, 0, SECOND, 1, Writing, true)

  /** The durable state after each step of OVERTAKEN. */
  const TRACE: seq<Durable> := [
    EMPTY,
    EMPTY.(setup := Some(SETUP)),
    EMPTY.(setup := Some(SETUP), clock := Some(NOW)),
    EMPTY.(setup := Some(SETUP), clock := Some(NOW), segments := map[0 := ROW]),
    EMPTY.(setup := Some(SETUP), clock := Some(NOW), segments := map[0 := ROW], files := map[0 := 512]),
    EMPTY.(setup := Some(SETUP), clock := Some(NOW), segments := map[0 := ROW.(state := RingSteps.Stored)], files := map[0 := 512]),
    EMPTY.(setup := Some(SETUP), clock := Some(NOW), segments := map[0 := ROW.(state := Deleting)], files := map[0 := 512])
  ]

  lemma TraceSteps(i: nat)
    requires i < 6
    ensures Enabled(TRACE[i], OVERTAKEN[i]) && Apply(TRACE[i], OVERTAKEN[i]) == TRACE[i + 1]
  {
    assert SETUP.sources[0] == ROW.source && WithinBound(SETUP.profiles[0], ROW);
  }

  /** A reachable state in which recovery refuses: a segment already being deleted has become protected. */
  lemma DeletionCanBeOvertaken()
    ensures IsRun(EMPTY, OVERTAKEN)
    ensures var d := After(EMPTY, OVERTAKEN); InDeletion(d, 0) && Protected(d, 0) && 0 in d.files
  {
    LastTraceStep();
    TraceSuffix(6);
  }

  lemma LastTraceStep()
    ensures Enabled(TRACE[6], OVERTAKEN[6])
    ensures var d := Apply(TRACE[6], OVERTAKEN[6]); InDeletion(d, 0) && Protected(d, 0) && 0 in d.files
  {
    var d := Apply(TRACE[6], OVERTAKEN[6]);
    assert 0 in Matching(TRACE[6], SETUP, 0, SECOND);
    assert Protects(d, 1, 0);
  }

  lemma {:induction false} TraceSuffix(n: nat)
    requires n <= 6 && Enabled(TRACE[6], OVERTAKEN[6])
    ensures IsRun(TRACE[6 - n], OVERTAKEN[6 - n..]) && After(TRACE[6 - n], OVERTAKEN[6 - n..]) == Apply(TRACE[6], OVERTAKEN[6])
  {
    hide Enabled, Apply;
    var i := 6 - n;
    var run := OVERTAKEN[i..];
    assert run[0] == OVERTAKEN[i] && run[1..] == OVERTAKEN[i + 1..];
    if n == 0 {
      assert run[1..] == [];
    } else {
      TraceSuffix(n - 1);
      TraceSteps(i);
    }
  }
}
