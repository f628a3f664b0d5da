/**
 What a whole operation of the ring may do, given the time it was told. Every step it
 takes must obey the occasion; what that means for rows, evidence and incidents is
 proved here once, for every run of such steps.
 */
module RingOccasions {
  import opened Basics
  import opened RingModels
  import opened RingSteps
  import opened RingRuns

  /** The time an operation is given, whether it counts as trusted, and the incident the Owner wants deleted. */
  datatype Occasion = Occasion(now: int, trusted: bool, owner: Option<Id>)

  predicate Obeys(a: Action, o: Occasion) {
    match a
    case RecordClock(now) => o.trusted && now == o.now
    case RecordPendingLoss => !o.trusted
    case InsertSegment(_, row, now) => now == o.now && (row.trusted ==> o.trusted)
    case MarkDeleting(_, now, trusted) => trusted ==> o.trusted && now == o.now
    case DropEdge(_, _, _, now, trusted) => trusted ==> o.trusted && now == o.now
    case CloseIncident(_, _, now) => o.trusted && now == o.now
    case StartRemoval(c, ByOwner) => o.owner == Some(c)
    case StartRemoval(_, Expiry(now)) => o.trusted && now == o.now
    case _ => true
  }

  ghost predicate AllObey(run: seq<Action>, o: Occasion) {
    forall i :: 0 <= i < |run| ==> Obeys(run[i], o)
  }

  // ---------- rows ----------

  /** Gone, or in durable deletion. */
  predicate Lost(d: Durable, s: Id) {
    s !in d.segments || d.segments[s].state == Deleting
  }

  /** A row is newly lost only on trusted time, older than PRE, with no loss pending. */
  ghost predicate OnlyAged(before: Durable, after: Durable, o: Occasion) {
    forall s :: s in before.segments && !Lost(before, s) && Lost(after, s) ==>
      o.trusted && before.segments[s].end <= o.now - PRE && !after.pendingLoss
  }

  lemma StepLoses(d: Durable, a: Action, o: Occasion, s: Id)
    requires Inv(d) && Enabled(d, a) && Obeys(a, o) && s in d.segments && !Lost(d, s)
    ensures Lost(Apply(d, a), s) ==> o.trusted && d.segments[s].end <= o.now - PRE && !d.pendingLoss
    ensures !Lost(Apply(d, a), s) ==> Apply(d, a).segments[s].end == d.segments[s].end
  {
    hide FullyCovered, Admissible, Protected;
  }

  lemma StepPending(d: Durable, a: Action, o: Occasion)
    requires Enabled(d, a) && Obeys(a, o) && o.trusted && !d.pendingLoss
    ensures !Apply(d, a).pendingLoss
  {
    hide FullyCovered, Admissible, Protected, MayRetire;
  }

  lemma {:induction false} RunPending(d: Durable, run: seq<Action>, o: Occasion)
    requires IsRun(d, run) && AllObey(run, o) && o.trusted && !d.pendingLoss
    ensures !After(d, run).pendingLoss
    decreases |run|
  {
    hide Enabled, Apply, Obeys;
    if run != [] {
      StepPending(d, run[0], o);
      RunPending(Apply(d, run[0]), run[1..], o);
    }
  }

  lemma {:induction false} RunLoses(d: Durable, run: seq<Action>, o: Occasion, s: Id)
    requires Inv(d) && IsRun(d, run) && AllObey(run, o) && s in d.segments && !Lost(d, s) && Lost(After(d, run), s)
    ensures o.trusted && d.segments[s].end <= o.now - PRE && !After(d, run).pendingLoss
    decreases |run|
  {
    hide Enabled, Apply, Obeys, Inv, Lost;
    if run != [] {
      var next := Apply(d, run[0]);
      StepLoses(d, run[0], o, s);
      StepKeepsInv(d, run[0]);
      if Lost(next, s) {
        StepPending(d, run[0], o);
        RunPending(next, run[1..], o);
      } else {
        NotLost(next, s);
        RunLoses(next, run[1..], o, s);
      }
    }
  }

  lemma NotLost(d: Durable, s: Id)
    requires !Lost(d, s)
    ensures s in d.segments
  {
  }

  // ---------- evidence ----------

  /** The incident may be removed on this occasion: the Owner wants it, or trusted time has passed its retention. */
  predicate Expendable(record: Incident, c: Id, o: Occasion) {
    o.owner == Some(c) || (o.trusted && record.end + RETENTION <= o.now)
  }

  /** Admitted evidence of every other incident stays: row, edge and file. */
  ghost predicate EvidenceHeld(before: Durable, after: Durable, o: Occasion) {
    forall c, s :: Kept(before, c, s) && !Expendable(before.incidents[c], c, o) ==> Kept(after, c, s)
  }

  /** What an incident is about never changes. */
  predicate SameWindow(x: Incident, y: Incident) {
    x.reason == y.reason && x.start == y.start && x.end == y.end && x.sources == y.sources
  }

  /** Incidents are only removed when expendable, and only closed on trusted time after their window. */
  predicate IncidentHeld(x: Incident, y: Incident, c: Id, o: Occasion) {
    && SameWindow(x, y)
    && (Ends(x.state) ==> Ends(y.state))
    && (!Ends(x.state) && Ends(y.state) ==> Expendable(x, c, o))
    && (x.state == Active && (y.state == Complete || y.state == Partial) ==> o.trusted && x.end <= o.now)
    && (x.state == Removed ==> y.state == Removed)
  }

  ghost predicate IncidentsHeld(before: Durable, after: Durable, o: Occasion) {
    forall c :: c in before.incidents ==> c in after.incidents && IncidentHeld(before.incidents[c], after.incidents[c], c, o)
  }

  lemma StepHolds(d: Durable, a: Action, o: Occasion, c: Id)
    requires Inv(d) && Enabled(d, a) && Obeys(a, o) && c in d.incidents
    ensures c in Apply(d, a).incidents && IncidentHeld(d.incidents[c], Apply(d, a).incidents[c], c, o)
  {
    hide FullyCovered, Admissible, Protected, MayRetire, FilesHaveRows, StoredHaveFiles, EdgesKnown, TrustedApart, RowsSane, SetupFirst;
    assert Sane(d.incidents[c]);
  }

  lemma HeldOn(x: Incident, y: Incident, z: Incident, c: Id, o: Occasion)
    requires IncidentHeld(x, y, c, o) && IncidentHeld(y, z, c, o)
    ensures SameWindow(x, z) && (Ends(x.state) ==> Ends(z.state)) && (x.state == Removed ==> z.state == Removed)
    ensures !Ends(x.state) && Ends(z.state) ==> Expendable(x, c, o)
  {
  }

  /** An active incident that ends up closed was closed in some step. */
  lemma {:induction false} RunHolds(d: Durable, run: seq<Action>, o: Occasion, c: Id)
    requires Inv(d) && IsRun(d, run) && AllObey(run, o) && c in d.incidents
    ensures c in After(d, run).incidents && IncidentHeld(d.incidents[c], After(d, run).incidents[c], c, o)
    decreases |run|
  {
    hide Enabled, Apply, Obeys, Inv;
    if run != [] {
      var next := Apply(d, run[0]);
      StepHolds(d, run[0], o, c);
      StepKeepsInv(d, run[0]);
      RunHolds(next, run[1..], o, c);
      HeldOn(d.incidents[c], next.incidents[c], After(d, run).incidents[c], c, o);
    }
  }

  lemma RunHoldsEvidence(d: Durable, run: seq<Action>, o: Occasion, c: Id, s: Id)
    requires Inv(d) && IsRun(d, run) && AllObey(run, o) && Kept(d, c, s) && !Expendable(d.incidents[c], c, o)
    ensures Kept(After(d, run), c, s)
  {
    hide Inv, IsRun, After, Obeys;
    RunHolds(d, run, o, c);
    EvidenceSurvives(d, run, c, s);
  }

  // ---------- operations ----------

  /** All an operation may have done on its occasion. */
  ghost predicate Respects(before: Durable, after: Durable, o: Occasion) {
    && OnlyAged(before, after, o) && EvidenceHeld(before, after, o) && IncidentsHeld(before, after, o)
    && (after.clock == before.clock || (o.trusted && after.clock == Some(o.now)))
  }

  lemma {:induction false} RunClock(d: Durable, run: seq<Action>, o: Occasion)
    requires IsRun(d, run) && AllObey(run, o)
    ensures After(d, run).clock == d.clock || (o.trusted && After(d, run).clock == Some(o.now))
    decreases |run|
  {
    hide Enabled, Apply, Obeys;
    if run != [] {
      StepClock(d, run[0], o);
      RunClock(Apply(d, run[0]), run[1..], o);
    }
  }

  lemma StepClock(d: Durable, a: Action, o: Occasion)
    requires Enabled(d, a) && Obeys(a, o)
    ensures Apply(d, a).clock == d.clock || (o.trusted && Apply(d, a).clock == Some(o.now))
  {
    hide FullyCovered, Admissible, Protected, MayRetire;
  }

  /** A run of steps that obey an occasion respects it. */
  lemma RunRespects(d: Durable, run: seq<Action>, o: Occasion)
    requires Inv(d) && IsRun(d, run) && AllObey(run, o)
    ensures Respects(d, After(d, run), o)
  {
    hide Inv, IsRun, After, Obeys, Lost, Expendable, IncidentHeld, AllObey;
    var e := After(d, run);
    forall s | s in d.segments && !Lost(d, s) && Lost(e, s)
      ensures o.trusted && d.segments[s].end <= o.now - PRE && !e.pendingLoss
    {
      RunLoses(d, run, o, s);
    }
    forall c, s | Kept(d, c, s) && !Expendable(d.incidents[c], c, o)
      ensures Kept(e, c, s)
    {
      RunHoldsEvidence(d, run, o, c, s);
    }
    forall c | c in d.incidents
      ensures c in e.incidents && IncidentHeld(d.incidents[c], e.incidents[c], c, o)
    {
      RunHolds(d, run, o, c);
    }
    RunClock(d, run, o);
  }

  /** A run has the steps of its first part and then those of the rest. */
  lemma {:induction false} RunSplits(d: Durable, first: seq<Action>, rest: seq<Action>)
    requires IsRun(d, first + rest)
    ensures IsRun(d, first) && IsRun(After(d, first), rest) && After(After(d, first), rest) == After(d, first + rest)
    decreases |first|
  {
    hide Enabled, Apply;
    if first == [] {
      assert first + rest == rest;
    } else {
      assert (first + rest)[0] == first[0] && (first + rest)[1..] == first[1..] + rest;
      RunSplits(Apply(d, first[0]), first[1..], rest);
    }
  }

  // ---------- retention over whole runs ----------

  ghost predicate OwnerDeletes(run: seq<Action>, c: Id) {
    StartRemoval(c, ByOwner) in run
  }

  lemma StepStartsRemoval(d: Durable, a: Action, c: Id)
    requires Inv(d) && Enabled(d, a) && c in d.incidents && !Ends(d.incidents[c].state) && a != StartRemoval(c, ByOwner)
    ensures c in Apply(d, a).incidents && SameWindow(d.incidents[c], Apply(d, a).incidents[c])
    ensures Ends(Apply(d, a).incidents[c].state) ==> Clock(d) >= d.incidents[c].end + RETENTION
  {
    hide FullyCovered, Admissible, Protected, MayRetire, FilesHaveRows, StoredHaveFiles, EdgesKnown, TrustedApart, RowsSane, SetupFirst;
    assert Sane(d.incidents[c]);
  }

  lemma StepClockGrows(d: Durable, a: Action)
    requires Enabled(d, a)
    ensures Clock(d) <= Clock(Apply(d, a))
  {
    hide FullyCovered, Admissible, Protected, MayRetire;
  }

  lemma {:induction false} ClockGrows(d: Durable, run: seq<Action>)
    requires IsRun(d, run)
    ensures Clock(d) <= Clock(After(d, run))
    decreases |run|
  {
    hide Enabled, Apply;
    if run != [] {
      StepClockGrows(d, run[0]);
      ClockGrows(Apply(d, run[0]), run[1..]);
    }
  }

  /**
   In every run, crashes included, in which the Owner does not delete the incident, admitted
   evidence keeps row, edge and file until recorded trusted time reaches the incident's end
   plus the retention.
   */
  lemma {:induction false} EvidenceRetained(d: Durable, run: seq<Action>, c: Id, s: Id)
    requires Inv(d) && IsRun(d, run) && Kept(d, c, s) && !OwnerDeletes(run, c)
    requires Clock(After(d, run)) < d.incidents[c].end + RETENTION
    ensures Kept(After(d, run), c, s) && After(d, run).incidents[c].end == d.incidents[c].end
    decreases |run|
  {
    hide Enabled, Apply, Inv;
    if run != [] {
      var next := Apply(d, run[0]);
      StepStartsRemoval(d, run[0], c);
      StepKeepsEvidence(d, run[0], c, s);
      StepKeepsInv(d, run[0]);
      ClockGrows(d, run);
      EvidenceRetained(next, run[1..], c, s);
    }
  }

  /** Removal itself is never early either. */
  lemma {:induction false} IncidentRetained(d: Durable, run: seq<Action>, c: Id)
    requires Inv(d) && IsRun(d, run) && c in d.incidents && !Ends(d.incidents[c].state) && !OwnerDeletes(run, c)
    requires Clock(After(d, run)) < d.incidents[c].end + RETENTION
    ensures c in After(d, run).incidents && !Ends(After(d, run).incidents[c].state)
    ensures SameWindow(d.incidents[c], After(d, run).incidents[c])
    decreases |run|
  {
    hide Enabled, Apply, Inv;
    if run != [] {
      StepStartsRemoval(d, run[0], c);
      StepKeepsInv(d, run[0]);
      ClockGrows(d, run);
      IncidentRetained(Apply(d, run[0]), run[1..], c);
    }
  }
}
