/**
 The disk ring's durable state and the steps that change it: one ledger
 transaction or one file operation each. A crash falls between two steps, so a
 property of every run of steps is a property of every run with crashes.
 */
module RingSteps {
  import opened Basics
  import opened RingModels
  import opened RingHorizon
  import opened RingIntervals

  type Id = nat
  type SourceId = nat

  datatype SegmentState = Writing | Stored | Missing | Uncertain | Deleting

  datatype Segment = Segment(
    source: SourceId, start: int, end: int, length: nat, state: SegmentState, trusted: bool)

  datatype IncidentState = Active | Complete | Partial | Removing | Removed

  datatype Reason = MainConnectionLost | ServerMovement | CameraTamper

  datatype Incident = Incident(
    reason: Reason, start: int, end: int, completed: Option<int>, expires: Option<int>,
    state: IncidentState, uncertain: bool, sources: set<SourceId>)

  /** The Owner's configuration: sources with their profiles, in order. */
  datatype Setup = Setup(config: RingConfig, sources: seq<SourceId>, profiles: seq<SegmentProfile>)
  {
    ghost predicate Valid() {
      && config.Valid() && AllValid(profiles) && profiles != [] && |sources| == |profiles|
      && forall i, j :: 0 <= i < j < |sources| ==> sources[i] != sources[j]
    }
  }

  /** An incident protects a segment. */
  datatype Edge = Edge(incident: Id, segment: Id)

  /** files maps segments to the bytes allocated for them. */
  datatype Durable = Durable(
    segments: map<Id, Segment>, incidents: map<Id, Incident>, protection: set<Edge>,
    clock: Option<int>, pendingLoss: bool, setup: Option<Setup>, files: map<Id, nat>)

  const EMPTY := Durable(map[], map[], {}, None, false, None, map[])

  function Clock(d: Durable): int {
    if d.clock.Some? then d.clock.value else 0
  }

  ghost predicate Protects(d: Durable, c: Id, s: Id) {
    Edge(c, s) in d.protection && c in d.incidents && d.incidents[c].state != Removed
  }

  ghost predicate Protected(d: Durable, s: Id) {
    exists c :: Protects(d, c, s)
  }

  predicate Ends(state: IncidentState) {
    state == Removing || state == Removed
  }

  predicate Overlaps(seg: Segment, start: int, end: int) {
    seg.end > start && seg.start < end
  }

  /** Every instant of the window lies, for every source, in a stored trusted segment the incident protects. */
  ghost predicate FullyCovered(d: Durable, c: Id)
    requires c in d.incidents
  {
    forall source, t :: source in d.incidents[c].sources && d.incidents[c].start <= t < d.incidents[c].end
                        ==> CoveredAt(d, c, source, t)
  }

  ghost predicate CoveredAt(d: Durable, c: Id, source: SourceId, t: int) {
    exists s :: Edge(c, s) in d.protection && s in d.segments && Evidence(d.segments[s], source) && d.segments[s].start <= t < d.segments[s].end
  }

  ghost predicate Evidence(seg: Segment, source: SourceId) {
    seg.state == Stored && seg.trusted && seg.source == source
  }

  // ---------- steps ----------

  /** Why an incident is removed: the Owner asked, its retention has passed, or its removal was left unfinished. */
  datatype Cause = ByOwner | Expiry(now: int) | Resumed

  datatype Action =
    | RecordClock(now: int)
    | RecordPendingLoss
    | RecordSetup(setup: Setup)
    | OpenIncident(incident: Id, record: Incident, clearing: bool)
    | InsertSegment(segment: Id, row: Segment, now: int)
    | WriteFile(segment: Id, size: nat)
    | UnlinkProvisional(segment: Id)
    | SetMissing(segment: Id)
    | SetStored(segment: Id)
    | MarkDeleting(segment: Id, now: int, trusted: bool)
    | Unlink(segment: Id)
    | RemoveRow(segment: Id)
    | CloseIncident(incident: Id, outcome: IncidentState, now: int)
    | DoubtActive
    | StartRemoval(incident: Id, cause: Cause)
    | DropEdge(incident: Id, segment: Id, mark: bool, now: int, trusted: bool)
    | FinishRemoval(incident: Id)
    | Reconcile(states: map<Id, SegmentState>)

  /** Deletion of an old, unprotected segment may be newly decided at this time. */
  ghost predicate MayRetire(d: Durable, s: Id, now: int, trusted: bool) {
    && s in d.segments && trusted && !d.pendingLoss
    && Clock(d) <= now && d.segments[s].end <= now - PRE
  }

  /** Removal of an incident: on the Owner's word, at a recorded trusted time past its retention, or once started. */
  ghost predicate MayRemove(d: Durable, record: Incident, cause: Cause) {
    match cause
    case ByOwner => record.state != Removed
    case Expiry(now) => Expired(record, now) && d.clock == Some(now)
    case Resumed => record.state == Removing
  }

  /** A closed incident whose retention has passed. */
  ghost predicate Expired(record: Incident, now: int) {
    (record.state == Complete || record.state == Partial) && record.expires.Some? && record.expires.value <= now
  }

  /** The rows a new incident protects. */
  function Matching(d: Durable, setup: Setup, start: int, end: int): set<Id> {
    set s | s in d.segments && Overlaps(d.segments[s], start, end) && d.segments[s].source in setup.sources
  }

  /** A row of exactly a configured source's duration, within its byte bound. */
  ghost predicate FitsProfile(setup: Setup, row: Segment) {
    exists i :: 0 <= i < |setup.sources| && i < |setup.profiles| && setup.sources[i] == row.source && WithinBound(setup.profiles[i], row)
  }

  ghost predicate WithinBound(profile: SegmentProfile, row: Segment) {
    profile.Valid() && row.end - row.start == profile.segmentDuration && 0 < row.length <= profile.SegmentBytes(false)
  }

  /** Trusted capture follows the source's trusted rows; uncertain capture continues its last row without a break. */
  ghost predicate Follows(d: Durable, row: Segment) {
    if row.trusted then
      forall o :: o in d.segments && d.segments[o].source == row.source && d.segments[o].trusted ==> d.segments[o].end <= row.start
    else
      && (exists o :: o in d.segments && d.segments[o].source == row.source && d.segments[o].end == row.start)
      && (forall o :: o in d.segments && d.segments[o].source == row.source ==> d.segments[o].end <= row.start)
  }

  ghost predicate Admissible(d: Durable, row: Segment, now: int) {
    && d.setup.Some? && FitsProfile(d.setup.value, row) && row.end <= now && Follows(d, row)
    && (row.trusted ==> d.clock == Some(now))
  }

  /** A retained incident a new segment belongs to: on trusted time, one that has not expired. */
  predicate Joins(record: Incident, row: Segment, now: int) {
    && !Ends(record.state) && record.start < row.end && record.end > row.start && row.source in record.sources
    && (!row.trusted || record.expires.None? || record.expires.value > now)
  }

  function Joining(d: Durable, row: Segment, now: int): set<Id> {
    set c | c in d.incidents && Joins(d.incidents[c], row, now)
  }

  /** What the ring has established before it takes a step. */
  ghost predicate Enabled(d: Durable, a: Action) {
    match a
    case RecordClock(now) => Clock(d) <= now
    case RecordPendingLoss => d.setup.Some? && d.clock.None?
    case RecordSetup(setup) =>
      && setup.Valid() && !d.pendingLoss
      && forall c :: c in d.incidents ==> d.incidents[c].state != Active
    case OpenIncident(c, record, clearing) =>
      && d.setup.Some? && c !in d.incidents && record.state == Active && record.start < record.end
      && record.completed.None? && record.expires.None?
      && record.sources == (set x | x in d.setup.value.sources)
      && (clearing ==>
            && d.pendingLoss && record.reason == MainConnectionLost && d.clock.Some?
            && record.end == Clock(d) + POST
            && forall s :: s in d.segments ==> record.start <= d.segments[s].start)
    case InsertSegment(s, row, now) =>
      d.setup.Some? && s !in d.segments && s !in d.files && row.state == Writing && Admissible(d, row, now)
    case WriteFile(s, size) => s in d.segments && d.segments[s].state == Writing && s !in d.files
    case UnlinkProvisional(s) => s in d.segments && d.segments[s].state == Writing
    case SetMissing(s) => s in d.segments && d.segments[s].state == Writing
    case SetStored(s) => s in d.segments && d.segments[s].state == Writing && s in d.files
    case MarkDeleting(s, now, trusted) =>
      && s in d.segments && !Protected(d, s)
      && (d.segments[s].state != Deleting ==> d.segments[s].state != Writing && MayRetire(d, s, now, trusted))
    case Unlink(s) => s in d.segments && d.segments[s].state == Deleting && !Protected(d, s)
    case RemoveRow(s) => s in d.segments && d.segments[s].state == Deleting && s !in d.files && !Protected(d, s)
    case CloseIncident(c, outcome, now) =>
      && c in d.incidents && d.incidents[c].state == Active && d.clock == Some(now) && d.incidents[c].end <= now
      && (outcome == Complete || outcome == Partial)
      && (outcome == Complete ==> FullyCovered(d, c) && !d.incidents[c].uncertain)
    case DoubtActive => true
    case StartRemoval(c, cause) => c in d.incidents && MayRemove(d, d.incidents[c], cause)
    case DropEdge(c, s, mark, now, trusted) =>
      && c in d.incidents && d.incidents[c].state == Removing && Edge(c, s) in d.protection
      && (mark ==> MayRetire(d, s, now, trusted) && !Protected(d.(protection := d.protection - {Edge(c, s)}), s))
    case FinishRemoval(c) =>
      && c in d.incidents && d.incidents[c].state == Removing
      && forall s :: Edge(c, s) !in d.protection
    case Reconcile(states) =>
      forall s :: s in states ==>
        && s in d.segments && d.segments[s].state != Deleting
        && states[s] != Deleting && states[s] != Writing
        && (states[s] == Stored ==> s in d.files)
  }

  function WithState(d: Durable, s: Id, state: SegmentState): Durable
    requires s in d.segments
  {
    d.(segments := d.segments[s := d.segments[s].(state := state)])
  }

  function Apply(d: Durable, a: Action): Durable
    requires Enabled(d, a)
  {
    match a
    case RecordClock(now) => d.(clock := Some(now))
    case RecordPendingLoss => d.(pendingLoss := true)
    case RecordSetup(setup) => d.(setup := Some(setup))
    case OpenIncident(c, record, clearing) =>
      d.(incidents := d.incidents[c := record],
         protection := d.protection + (set s | s in Matching(d, d.setup.value, record.start, record.end) :: Edge(c, s)),
         pendingLoss := d.pendingLoss && !clearing)
    case InsertSegment(s, row, now) =>
      d.(segments := d.segments[s := row],
         protection := d.protection + (set c | c in Joining(d, row, now) :: Edge(c, s)),
         incidents := map c | c in d.incidents :: if c in Joining(d, row, now) then Reopened(d.incidents[c], row) else d.incidents[c])
    case WriteFile(s, size) => d.(files := d.files[s := size])
    case UnlinkProvisional(s) => d.(files := d.files - {s})
    case SetMissing(s) => WithState(d, s, Missing)
    case SetStored(s) => WithState(d, s, Stored)
    case MarkDeleting(s, _, _) => WithState(d, s, Deleting)
    case Unlink(s) => d.(files := d.files - {s})
    case RemoveRow(s) =>
      d.(segments := d.segments - {s}, protection := set e | e in d.protection && e.segment != s)
    case CloseIncident(c, outcome, _) =>
      var record := d.incidents[c];
      d.(incidents := d.incidents[c := record.(state := outcome, completed := Some(record.end), expires := Some(record.end + RETENTION))])
    case DoubtActive =>
      d.(incidents := map c | c in d.incidents :: if d.incidents[c].state == Active then d.incidents[c].(uncertain := true) else d.incidents[c])
    case StartRemoval(c, _) => d.(incidents := d.incidents[c := d.incidents[c].(state := Removing)])
    case DropEdge(c, s, mark, _, _) =>
      var dropped := d.(protection := d.protection - {Edge(c, s)});
      if mark then WithState(dropped, s, Deleting) else dropped
    case FinishRemoval(c) => d.(incidents := d.incidents[c := d.incidents[c].(state := Removed)])
    case Reconcile(states) =>
      d.(segments := map s | s in d.segments :: if s in states then d.segments[s].(state := states[s]) else d.segments[s])
  }

  /** A late segment reopens an incident that had already been closed. */
  function Reopened(record: Incident, row: Segment): Incident {
    var doubted := record.(uncertain := record.uncertain || !row.trusted);
    if record.completed.Some? then doubted.(state := Active, completed := None, expires := None) else doubted
  }

  /** Identities already given out. */
  ghost predicate IdsBelow(d: Durable, n: nat) {
    && (forall s :: s in d.segments ==> s < n)
    && (forall c :: c in d.incidents ==> c < n)
  }

  ghost predicate UsesIdsBelow(a: Action, n: nat) {
    (a.OpenIncident? ==> a.incident < n) && (a.InsertSegment? ==> a.segment < n)
  }

  lemma StepKeepsIds(d: Durable, a: Action, n: nat)
    requires Enabled(d, a) && IdsBelow(d, n) && UsesIdsBelow(a, n)
    ensures IdsBelow(Apply(d, a), n)
  {
  }

  // ---------- what every step keeps ----------

  ghost predicate TrustedApart(d: Durable) {
    forall a, b :: a in d.segments && b in d.segments && a != b ==> Apart(d.segments[a], d.segments[b])
  }

  /** Trusted segments of one source never overlap. */
  ghost predicate Apart(x: Segment, y: Segment) {
    x.source == y.source && x.trusted && y.trusted ==> x.end <= y.start || y.end <= x.start
  }

  ghost predicate FilesHaveRows(d: Durable) {
    forall s :: s in d.files ==> s in d.segments
  }

  ghost predicate StoredHaveFiles(d: Durable) {
    forall s :: s in d.segments && d.segments[s].state == Stored ==> s in d.files
  }

  ghost predicate EdgesKnown(d: Durable) {
    forall e :: e in d.protection ==> e.segment in d.segments && e.incident in d.incidents && d.incidents[e.incident].state != Removed
  }

  ghost predicate RowsSane(d: Durable) {
    forall s :: s in d.segments ==> d.segments[s].start < d.segments[s].end && (d.segments[s].trusted ==> d.segments[s].end <= Clock(d) && d.clock.Some?)
  }

  /** Nothing is recorded before a configuration, and time starts at zero. */
  ghost predicate SetupFirst(d: Durable) {
    && (d.setup.None? ==> d.segments == map[] && d.incidents == map[] && !d.pendingLoss)
    && (d.setup.Some? ==> d.setup.value.Valid()) && Clock(d) >= 0
  }

  /** The fields of an incident agree with its state. */
  ghost predicate Sane(record: Incident) {
    && record.start < record.end
    && (record.state == Active ==> record.completed.None? && record.expires.None?)
    && (record.state == Complete || record.state == Partial ==>
          record.completed == Some(record.end) && record.expires == Some(record.end + RETENTION))
  }

  ghost predicate IncidentsSane(d: Durable) {
    forall c :: c in d.incidents ==> Sane(d.incidents[c])
  }

  ghost predicate Inv(d: Durable) {
    && FilesHaveRows(d) && StoredHaveFiles(d) && EdgesKnown(d) && TrustedApart(d)
    && RowsSane(d) && SetupFirst(d) && IncidentsSane(d)
  }

  lemma EmptyInv()
    ensures Inv(EMPTY)
  {
  }

  lemma StepKeepsFile(d: Durable, a: Action, s: Id)
    requires FilesHaveRows(d) && StoredHaveFiles(d) && Enabled(d, a)
    ensures s in Apply(d, a).files ==> s in Apply(d, a).segments
    ensures s in Apply(d, a).segments && Apply(d, a).segments[s].state == Stored ==> s in Apply(d, a).files
  {
    hide FullyCovered, Admissible, MayRetire, Protected, MayRemove, Matching, Joining;
  }

  lemma StepKeepsFiles(d: Durable, a: Action)
    requires Inv(d) && Enabled(d, a)
    ensures FilesHaveRows(Apply(d, a)) && StoredHaveFiles(Apply(d, a))
  {
    hide Enabled, Apply;
    forall s
      ensures s in Apply(d, a).files ==> s in Apply(d, a).segments
      ensures s in Apply(d, a).segments && Apply(d, a).segments[s].state == Stored ==> s in Apply(d, a).files
    {
      StepKeepsFile(d, a, s);
    }
  }

  lemma StepKeepsEdge(d: Durable, a: Action, e: Edge)
    requires EdgesKnown(d) && Enabled(d, a) && e in Apply(d, a).protection
    ensures var after := Apply(d, a);
            e.segment in after.segments && e.incident in after.incidents && after.incidents[e.incident].state != Removed
  {
    hide FullyCovered, Admissible, MayRetire, Protected;
  }

  lemma StepKeepsEdges(d: Durable, a: Action)
    requires Inv(d) && Enabled(d, a)
    ensures EdgesKnown(Apply(d, a))
  {
    hide Enabled, Apply;
    forall e | e in Apply(d, a).protection
      ensures e.segment in Apply(d, a).segments && e.incident in Apply(d, a).incidents
              && Apply(d, a).incidents[e.incident].state != Removed
    {
      StepKeepsEdge(d, a, e);
    }
  }

  /** Rows keep their interval, source and trust for life. */
  ghost predicate SameChronology(d: Durable, e: Durable) {
    forall s :: s in e.segments ==>
      && s in d.segments && e.segments[s].start == d.segments[s].start && e.segments[s].end == d.segments[s].end
      && e.segments[s].source == d.segments[s].source && e.segments[s].trusted == d.segments[s].trusted
  }

  lemma StepKeepsChronology(d: Durable, a: Action)
    requires Enabled(d, a) && !a.InsertSegment?
    ensures SameChronology(d, Apply(d, a)) && (d.clock.Some? ==> Apply(d, a).clock.Some?) && Clock(d) <= Clock(Apply(d, a))
  {
  }

  lemma StepKeepsRows(d: Durable, a: Action)
    requires Inv(d) && Enabled(d, a)
    ensures TrustedApart(Apply(d, a)) && RowsSane(Apply(d, a))
  {
    if a.InsertSegment? {
      InsertKeepsRows(d, a);
    } else {
      hide Apply, Enabled;
      StepKeepsChronology(d, a);
    }
  }

  lemma InsertKeepsRows(d: Durable, a: Action)
    requires Inv(d) && a.InsertSegment? && Enabled(d, a)
    ensures TrustedApart(Apply(d, a)) && RowsSane(Apply(d, a))
  {
  }

  lemma StepKeepsSetup(d: Durable, a: Action)
    requires Inv(d) && Enabled(d, a)
    ensures SetupFirst(Apply(d, a))
  {
  }

  lemma StepKeepsIncident(d: Durable, a: Action, c: Id)
    requires IncidentsSane(d) && Enabled(d, a) && c in Apply(d, a).incidents
    ensures Sane(Apply(d, a).incidents[c])
  {
  }

  lemma StepKeepsIncidents(d: Durable, a: Action)
    requires Inv(d) && Enabled(d, a)
    ensures IncidentsSane(Apply(d, a))
  {
    hide Enabled, Apply;
    forall c | c in Apply(d, a).incidents
      ensures Sane(Apply(d, a).incidents[c])
    {
      StepKeepsIncident(d, a, c);
    }
  }

  lemma StepKeepsInv(d: Durable, a: Action)
    requires Inv(d) && Enabled(d, a)
    ensures Inv(Apply(d, a))
  {
    StepKeepsFiles(d, a);
    StepKeepsEdges(d, a);
    StepKeepsRows(d, a);
    StepKeepsSetup(d, a);
    StepKeepsIncidents(d, a);
  }
}
