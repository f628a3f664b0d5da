/** Safety of the disk ring over whole runs: any sequence of enabled steps, crashes included. */
module RingRuns {
  import opened Basics
  import opened RingArithmetic
  import opened RingModels
  import opened RingHorizon
  import opened RingSteps

  /** The steps are enabled one after the other, from d. */
  ghost predicate IsRun(d: Durable, run: seq<Action>)
    decreases |run|
  {
    run == [] || (Enabled(d, run[0]) && IsRun(Apply(d, run[0]), run[1..]))
  }

  ghost function After(d: Durable, run: seq<Action>): Durable
    requires IsRun(d, run)
    decreases |run|
  {
    if run == [] then d else After(Apply(d, run[0]), run[1..])
  }

  /** Every reachable state, after a crash at any step too, satisfies the invariant. */
  lemma {:induction false} RunKeepsInv(d: Durable, run: seq<Action>)
    requires Inv(d) && IsRun(d, run)
    ensures Inv(After(d, run))
    decreases |run|
  {
    hide Enabled, Apply, Inv;
    if run != [] {
      StepKeepsInv(d, run[0]);
      RunKeepsInv(Apply(d, run[0]), run[1..]);
    }
  }

  lemma {:induction false} RunAppends(d: Durable, run: seq<Action>, a: Action)
    requires IsRun(d, run) && Enabled(After(d, run), a)
    ensures IsRun(d, run + [a]) && After(d, run + [a]) == Apply(After(d, run), a)
    decreases |run|
  {
    hide Enabled, Apply;
    if run != [] {
      assert (run + [a])[1..] == run[1..] + [a];
      RunAppends(Apply(d, run[0]), run[1..], a);
    } else {
      assert run + [a] == [a] && [a][1..] == [];
    }
  }

  // ---------- protected evidence is never lost ----------

  /** An admitted segment with its file, kept for an incident that is not being removed. */
  ghost predicate Kept(d: Durable, c: Id, s: Id) {
    && Edge(c, s) in d.protection && c in d.incidents && !Ends(d.incidents[c].state)
    && s in d.segments && d.segments[s].state != Writing && s in d.files
  }

  ghost predicate BeingRemoved(d: Durable, c: Id) {
    c in d.incidents && Ends(d.incidents[c].state)
  }

  lemma StepKeepsEvidence(d: Durable, a: Action, c: Id, s: Id)
    requires Inv(d) && Enabled(d, a) && Kept(d, c, s)
    ensures Kept(Apply(d, a), c, s) || BeingRemoved(Apply(d, a), c)
  {
    assert Protects(d, c, s);
  }

  lemma StepKeepsRemoval(d: Durable, a: Action, c: Id)
    requires Enabled(d, a) && BeingRemoved(d, c)
    ensures BeingRemoved(Apply(d, a), c)
  {
  }

  lemma {:induction false} RunKeepsRemoval(d: Durable, run: seq<Action>, c: Id)
    requires IsRun(d, run) && BeingRemoved(d, c)
    ensures BeingRemoved(After(d, run), c)
    decreases |run|
  {
    hide Enabled, Apply;
    if run != [] {
      StepKeepsRemoval(d, run[0], c);
      RunKeepsRemoval(Apply(d, run[0]), run[1..], c);
    }
  }

  /** As long as its incident is not being removed, an admitted protected segment keeps row, edge and file. */
  lemma {:induction false} EvidenceSurvives(d: Durable, run: seq<Action>, c: Id, s: Id)
    requires Inv(d) && IsRun(d, run) && Kept(d, c, s)
    requires !BeingRemoved(After(d, run), c)
    ensures Kept(After(d, run), c, s)
    decreases |run|
  {
    hide Enabled, Apply, Inv, Kept, BeingRemoved;
    if run != [] {
      var next := Apply(d, run[0]);
      StepKeepsEvidence(d, run[0], c, s);
      StepKeepsInv(d, run[0]);
      if BeingRemoved(next, c) {
        RunKeepsRemoval(next, run[1..], c);
      } else {
        EvidenceSurvives(next, run[1..], c, s);
      }
    }
  }

  /** A step unlinks only an unprotected segment whose deletion is already durable, or a provisional write. */
  lemma UnlinkSafe(d: Durable, a: Action, s: Id)
    requires Inv(d) && Enabled(d, a) && s in d.files && s !in Apply(d, a).files
    ensures s in d.segments
    ensures d.segments[s].state == Writing || (d.segments[s].state == Deleting && !Protected(d, s))
  {
    if a.Unlink? || a.UnlinkProvisional? {
      assert s == a.segment;
    } else {
      OnlyUnlinkLosesFiles(d, a);
    }
  }

  lemma OnlyUnlinkLosesFiles(d: Durable, a: Action)
    requires Enabled(d, a) && !a.Unlink? && !a.UnlinkProvisional?
    ensures forall s :: s in d.files ==> s in Apply(d, a).files
  {
    hide FullyCovered, MayRetire, Protected;
  }

  // ---------- deletion is decided on trusted time only ----------

  ghost predicate NewlyDeleting(d: Durable, e: Durable, s: Id) {
    && s in d.segments && s in e.segments
    && d.segments[s].state != Deleting && e.segments[s].state == Deleting
  }

  /** A segment is newly marked on trusted, not rolled-back time, older than PRE, unprotected, with no loss pending. */
  lemma DeletionDecided(d: Durable, a: Action, s: Id)
    requires Inv(d) && Enabled(d, a) && NewlyDeleting(d, Apply(d, a), s)
    ensures a.MarkDeleting? || a.DropEdge?
    ensures MayRetire(d, s, a.now, a.trusted) && !Protected(Apply(d, a), s)
  {
    var e := Apply(d, a);
    if a.MarkDeleting? {
      assert forall c :: Protects(e, c, s) ==> Protects(d, c, s);
    } else {
      var dropped := d.(protection := d.protection - {Edge(a.incident, s)});
      assert forall c :: Protects(e, c, s) ==> Protects(dropped, c, s);
    }
  }

  lemma NoNewDeletingRow(d: Durable, a: Action, s: Id)
    requires Enabled(d, a) && s !in d.segments && s in Apply(d, a).segments
    ensures Apply(d, a).segments[s].state == Writing
  {
  }

  // ---------- losses without a time anchor ----------

  /** A pending loss ends only in the step that creates its one incident, which protects all that is retained. */
  lemma PendingLossMaterializes(d: Durable, a: Action)
    requires Inv(d) && Enabled(d, a) && d.pendingLoss && !Apply(d, a).pendingLoss
    ensures a.OpenIncident? && a.incident !in d.incidents && a.record.reason == MainConnectionLost
    ensures Apply(d, a).incidents == d.incidents[a.incident := a.record]
    ensures forall s :: s in d.segments && d.segments[s].source in d.setup.value.sources && d.segments[s].start < Clock(d) + POST
                        ==> Protects(Apply(d, a), a.incident, s)
  {
    var e := Apply(d, a);
    forall s | s in d.segments && d.segments[s].source in d.setup.value.sources && d.segments[s].start < Clock(d) + POST
      ensures Protects(e, a.incident, s)
    {
      assert s in Matching(d, d.setup.value, a.record.start, a.record.end);
    }
  }

  /** Until then nothing is newly marked for deletion. */
  lemma PendingLossHolds(d: Durable, a: Action, s: Id)
    requires Inv(d) && Enabled(d, a) && d.pendingLoss
    ensures !NewlyDeleting(d, Apply(d, a), s)
  {
  }

  /** Steps of a run that create the incident of a pending loss. */
  ghost function Materialized(run: seq<Action>): nat {
    if run == [] then 0
    else (if run[0].OpenIncident? && run[0].clearing then 1 else 0) + Materialized(run[1..])
  }

  /** How often a run loses a pending loss. */
  ghost function Cleared(d: Durable, run: seq<Action>): nat
    requires IsRun(d, run)
    decreases |run|
  {
    if run == [] then 0
    else (if d.pendingLoss && !Apply(d, run[0]).pendingLoss then 1 else 0) + Cleared(Apply(d, run[0]), run[1..])
  }

  /** In every run, pending losses and their incidents are one to one, however often a loss was recorded. */
  lemma {:induction false} OneIncidentPerPendingLoss(d: Durable, run: seq<Action>)
    requires Inv(d) && IsRun(d, run)
    ensures Materialized(run) == Cleared(d, run)
    decreases |run|
  {
    if run != [] {
      StepKeepsInv(d, run[0]);
      OneIncidentPerPendingLoss(Apply(d, run[0]), run[1..]);
    }
  }

  // ---------- completeness of incidents ----------

  predicate Within(t: int, start: int, end: int) {
    start <= t < end
  }

  /** A row and a window have an instant in common. */
  ghost predicate Shares(row: Segment, start: int, end: int) {
    exists t :: Within(t, row.start, row.end) && Within(t, start, end)
  }

  lemma OverlapIsShared(row: Segment, start: int, end: int)
    requires row.start < row.end && start < end
    ensures Overlaps(row, start, end) <==> Shares(row, start, end)
  {
    if Overlaps(row, start, end) {
      assert Within(Max(row.start, start), row.start, row.end) && Within(Max(row.start, start), start, end);
    }
  }

  /** A new incident protects exactly the rows of configured sources that share an instant with its window. */
  lemma OpenedProtects(d: Durable, a: Action)
    requires Inv(d) && a.OpenIncident? && Enabled(d, a)
    ensures forall s :: Edge(a.incident, s) in Apply(d, a).protection <==>
                        s in d.segments && d.segments[s].source in d.setup.value.sources && Shares(d.segments[s], a.record.start, a.record.end)
  {
    var added := set s | s in Matching(d, d.setup.value, a.record.start, a.record.end) :: Edge(a.incident, s);
    assert Apply(d, a).protection == d.protection + added;
    hide Shares, Overlaps, Apply;
    forall s
      ensures Edge(a.incident, s) in added <==>
              s in d.segments && d.segments[s].source in d.setup.value.sources && Shares(d.segments[s], a.record.start, a.record.end)
    {
      if s in d.segments {
        OverlapIsShared(d.segments[s], a.record.start, a.record.end);
      }
    }
  }

  /** An incident protects just the rows that share an instant with a window, unless it is being removed. */
  ghost predicate ProtectsWindow(d: Durable, c: Id, sources: seq<SourceId>, start: int, end: int) {
    && c in d.incidents
    && (Ends(d.incidents[c].state)
        || forall s :: s in d.segments ==>
             (Edge(c, s) in d.protection <==> d.segments[s].source in sources && Shares(d.segments[s], start, end)))
  }

  lemma StepKeepsWindow(d: Durable, a: Action, c: Id, sources: seq<SourceId>, start: int, end: int)
    requires Enabled(d, a) && !a.InsertSegment? && ProtectsWindow(d, c, sources, start, end)
    ensures ProtectsWindow(Apply(d, a), c, sources, start, end)
  {
    var e := Apply(d, a);
    if Ends(d.incidents[c].state) {
      StepKeepsRemoval(d, a, c);
    } else if !Ends(e.incidents[c].state) {
      StepKeepsChronology(d, a);
      forall s | s in e.segments
        ensures Edge(c, s) in e.protection <==> Edge(c, s) in d.protection
      {
        StepKeepsLink(d, a, c, s);
      }
      hide Apply, Enabled;
      forall s | s in e.segments
        ensures Shares(e.segments[s], start, end) <==> Shares(d.segments[s], start, end)
      {
      }
    }
  }

  /** Only a removal takes edges away, and only a new row or a new incident brings some. */
  lemma StepKeepsLink(d: Durable, a: Action, c: Id, s: Id)
    requires Enabled(d, a) && !a.InsertSegment? && c in d.incidents && s in Apply(d, a).segments && !Ends(d.incidents[c].state)
    ensures Edge(c, s) in Apply(d, a).protection <==> Edge(c, s) in d.protection
  {
    hide FullyCovered, MayRetire, Protected, Overlaps;
  }

  ghost predicate NoInserts(run: seq<Action>) {
    forall i :: 0 <= i < |run| ==> !run[i].InsertSegment?
  }

  /** Until rows are added, an incident goes on protecting just the rows of its window. */
  lemma {:induction false} RunKeepsWindow(d: Durable, run: seq<Action>, c: Id, sources: seq<SourceId>, start: int, end: int)
    requires IsRun(d, run) && NoInserts(run) && ProtectsWindow(d, c, sources, start, end)
    ensures ProtectsWindow(After(d, run), c, sources, start, end)
    decreases |run|
  {
    hide Enabled, Apply, ProtectsWindow;
    if run != [] {
      StepKeepsWindow(d, run[0], c, sources, start, end);
      RunKeepsWindow(Apply(d, run[0]), run[1..], c, sources, start, end);
    }
  }

  /** A new segment joins exactly the retained incidents of its source it shares an instant with; trusted ones must not have expired. */
  lemma NewSegmentJoins(d: Durable, a: Action, c: Id)
    requires Inv(d) && a.InsertSegment? && Enabled(d, a) && c in d.incidents
    ensures var record := d.incidents[c];
            Edge(c, a.segment) in Apply(d, a).protection <==>
              && (record.state == Active || record.state == Complete || record.state == Partial)
              && a.row.source in record.sources && Shares(a.row, record.start, record.end)
              && !(a.row.trusted && record.expires.Some? && record.expires.value <= a.now)
    ensures Edge(c, a.segment) in Apply(d, a).protection ==>
              Apply(d, a).incidents[c] == d.incidents[c].(state := Active, completed := None, expires := None,
                                                          uncertain := d.incidents[c].uncertain || !a.row.trusted)
    ensures Edge(c, a.segment) !in Apply(d, a).protection ==> Apply(d, a).incidents[c] == d.incidents[c]
  {
    var record := d.incidents[c];
    RowFitsItsProfile(d, a);
    OverlapIsShared(a.row, record.start, record.end);
    assert c in Joining(d, a.row, a.now) <==> Edge(c, a.segment) in Apply(d, a).protection by {
      hide Joining, Admissible;
    }
    hide Shares, Admissible;
  }

  lemma RowFitsItsProfile(d: Durable, a: Action)
    requires a.InsertSegment? && Enabled(d, a)
    ensures a.row.start < a.row.end
  {
  }

  /** An incident becomes complete only when all of its window is covered, with certain time. */
  lemma CompleteIsCovered(d: Durable, a: Action, c: Id)
    requires Inv(d) && Enabled(d, a) && c in d.incidents && c in Apply(d, a).incidents
    requires d.incidents[c].state != Complete && Apply(d, a).incidents[c].state == Complete
    ensures FullyCovered(d, c) && !d.incidents[c].uncertain && a.CloseIncident? && d.clock == Some(a.now) && d.incidents[c].end <= a.now
  {
    hide FullyCovered, Admissible, Protected, MayRetire;
  }

  // ---------- time ----------

  /** What the next-write check assumes of trusted segments holds in every reachable state. */
  lemma TrustedRowsAreChronological(d: Durable, run: seq<Action>, now: int, s: Id)
    requires IsRun(EMPTY, run) && d == After(EMPTY, run) && Clock(d) <= now
    requires s in d.segments && d.segments[s].trusted
    ensures d.segments[s].end <= now
  {
    EmptyInv();
    RunKeepsInv(EMPTY, run);
  }
}
