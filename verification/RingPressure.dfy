/** The next-write check on the ring's own durable state. */
module RingPressure {
  import opened Basics
  import opened RingArithmetic
  import opened RingModels
  import opened RingHorizon
  import opened RingCharge
  import opened RingRecent
  import opened RingSteps
  import opened RingRows
  import opened RingSimulation
  import opened DiskRing
  import W = RingNextWrite

  /** The end of a source's last trusted row. */
  ghost predicate LastTrustedEndOf(d: Durable, source: SourceId, last: Option<int>) {
    match last
    case None => forall s :: s in d.segments && d.segments[s].source == source ==> !d.segments[s].trusted
    case Some(end) =>
      && (exists s :: s in d.segments && d.segments[s].source == source && d.segments[s].trusted && d.segments[s].end == end)
      && (forall s :: s in d.segments && d.segments[s].source == source && d.segments[s].trusted ==> d.segments[s].end <= end)
  }

  /** Media that ages out of the ring: unprotected and not being written. */
  ghost predicate Ages(d: Durable, s: Id) {
    s in d.segments && d.segments[s].state != Writing && !Protected(d, s)
  }

  predicate Shielding(record: Incident) {
    record.state == Active || record.state == Complete || record.state == Partial
  }

  function AgingRow(d: Durable, s: Id): W.Aging
    requires s in d.segments
  {
    W.Aging(d.segments[s].end, if s in d.files then d.files[s] else 0)
  }

  function ShieldOf(record: Incident): W.Shield {
    W.Shield(record.start, record.end, record.sources)
  }

  ghost predicate ListsAging(d: Durable, ids: seq<Id>, stored: seq<W.Aging>) {
    && Distinct(ids) && |stored| == |ids| && (forall s :: s in ids <==> Ages(d, s))
    && (forall i :: 0 <= i < |ids| ==> ids[i] in d.segments && stored[i] == AgingRow(d, ids[i]))
  }

  ghost predicate ListsShields(d: Durable, ids: seq<Id>, shields: seq<W.Shield>) {
    && Distinct(ids) && |shields| == |ids| && (forall c :: c in ids <==> c in d.incidents && Shielding(d.incidents[c]))
    && (forall i :: 0 <= i < |ids| ==> ids[i] in d.incidents && shields[i] == ShieldOf(d.incidents[ids[i]]))
  }

  /** The situation is the ring's: every source, every row that can age out and every incident that can hold one, each once. */
  ghost predicate Reflects(n: W.Situation, d: Durable, now: int, trusted: bool, m: Measured)
    requires d.setup.Some? && d.setup.value.Valid()
  {
    var setup := d.setup.value;
    && n.now == now && n.trusted == trusted && n.pendingLoss == d.pendingLoss && n.config == setup.config
    && n.free == m.free && n.reserve == m.reserve && n.headroom == m.headroom && n.unit == m.unit
    && |n.sources| == |setup.sources| == |m.recent|
    && (forall i :: 0 <= i < |n.sources| ==>
          && n.sources[i].id == setup.sources[i] && n.sources[i].cadence == setup.profiles[i].segmentDuration
          && n.sources[i].recent == m.recent[i] && LastTrustedEndOf(d, setup.sources[i], n.sources[i].last))
    && (exists ids :: ListsAging(d, ids, n.stored))
    && (exists ids :: ListsShields(d, ids, n.incidents))
  }

  /** What the check assumes holds of every reachable ring state. */
  lemma ReflectionIsChronological(n: W.Situation, d: Durable, now: int, trusted: bool, m: Measured)
    requires Inv(d) && d.setup.Some? && d.setup.value.Valid() && (trusted ==> Clock(d) <= now)
    requires Fits(m, d.setup.value) && Reflects(n, d, now, trusted, m)
    ensures n.Valid() && n.Chronological()
  {
    forall i | 0 <= i < |n.sources|
      ensures SECOND <= n.sources[i].cadence <= PRE && Sound(n.sources[i].recent, n.unit)
      ensures trusted && n.sources[i].last.Some? ==> n.sources[i].last.value <= now
    {
      assert d.setup.value.profiles[i].Valid();
    }
  }

  method AgingRows(d: Durable) returns (stored: seq<W.Aging>)
    ensures exists ids :: ListsAging(d, ids, stored)
  {
    hide Protected, HasEdge;
    var rows := Rows(d.segments);
    var kept: seq<Id> := [];
    stored := [];
    for i := 0 to |rows|
      invariant Distinct(kept) && |stored| == |kept|
      invariant forall s :: s in kept <==> s in rows[..i] && Ages(d, s)
      invariant forall j :: 0 <= j < |kept| ==> kept[j] in d.segments && stored[j] == AgingRow(d, kept[j])
    {
      var s := rows[i];
      assert rows[..i + 1] == rows[..i] + [s];
      assert s !in rows[..i];
      HasEdgeIsProtected(d, s);
      if d.segments[s].state != Writing && !HasEdge(d, s) {
        kept, stored := kept + [s], stored + [AgingRow(d, s)];
      }
    }
    assert rows[..|rows|] == rows;
    assert ListsAging(d, kept, stored);
  }

  method Shields(d: Durable) returns (shields: seq<W.Shield>)
    ensures exists ids :: ListsShields(d, ids, shields)
  {
    var all := Listing(set c | c in d.incidents && Shielding(d.incidents[c]));
    shields := [];
    for i := 0 to |all|
      invariant |shields| == i
      invariant forall j :: 0 <= j < i ==> all[j] in d.incidents && shields[j] == ShieldOf(d.incidents[all[j]])
    {
      assert all[i] in all;
      shields := shields + [ShieldOf(d.incidents[all[i]])];
    }
    assert ListsShields(d, all, shields);
  }

  method Situate(d: Durable, now: int, trusted: bool, m: Measured) returns (n: W.Situation)
    requires Inv(d) && d.setup.Some? && d.setup.value.Valid() && Fits(m, d.setup.value)
    ensures Reflects(n, d, now, trusted, m)
  {
    hide Inv, ListsAging, ListsShields, Sound;
    var setup := d.setup.value;
    var sources: seq<W.Source> := [];
    for i := 0 to |setup.sources|
      invariant |sources| == i
      invariant forall j :: 0 <= j < i ==>
                  && sources[j].id == setup.sources[j] && sources[j].cadence == setup.profiles[j].segmentDuration
                  && sources[j].recent == m.recent[j] && LastTrustedEndOf(d, setup.sources[j], sources[j].last)
    {
      var last := LastEnd(d.segments, setup.sources[i], true);
      sources := sources + [W.Source(setup.sources[i], setup.profiles[i].segmentDuration, last, m.recent[i])];
    }
    var stored := AgingRows(d);
    var shields := Shields(d);
    n := W.Situation(now, trusted, d.pendingLoss, setup.config, sources, stored, shields, m.free, m.reserve, m.headroom, m.unit);
  }

  /** Whether the ring, as it is on disk, would refuse a coming write. */
  method NextWriteRefused(d: Durable, now: int, trusted: bool, m: Measured) returns (refused: bool)
    requires Inv(d) && d.setup.Some? && d.setup.value.Valid() && (trusted ==> Clock(d) <= now) && Fits(m, d.setup.value)
    ensures refused <==> Refuses(Moment(d, now, trusted), m)
    ensures Answers(refused, d, now, trusted, m)
  {
    hide Inv, Reflects, Fits, W.Refuses, Refuses;
    var situation := Situate(d, now, trusted, m);
    ReflectionIsChronological(situation, d, now, trusted, m);
    refused := W.NextWriteRefused(situation);
    SimulationIsRing(situation, d, now, trusted, m);
    forall n | Reflects(n, d, now, trusted, m)
      ensures n.Valid() && n.Chronological() && (refused <==> W.Refuses(n))
    {
      ReflectionIsChronological(n, d, now, trusted, m);
      SimulationIsRing(n, d, now, trusted, m);
    }
  }

  /** The answer of the full simulation, in whatever order rows and incidents are listed. */
  ghost predicate Answers(refused: bool, d: Durable, now: int, trusted: bool, m: Measured)
    requires d.setup.Some? && d.setup.value.Valid()
  {
    && (exists n :: Reflects(n, d, now, trusted, m))
    && (forall n :: Reflects(n, d, now, trusted, m) ==> n.Valid() && n.Chronological() && (refused <==> W.Refuses(n)))
  }

  // ---------- appends ----------

  ghost predicate StreamOf(w: Moment, s: W.Source, x: Stream) {
    s.id == x.source && s.cadence == x.cadence && x.cadence > 0 && LastTrustedEndOf(w.d, x.source, s.last)
  }

  ghost predicate ClockOf(n: W.Situation, w: Moment) {
    n.now == w.now && n.trusted == w.trusted
  }

  lemma FirstIsNext(n: W.Situation, w: Moment, s: W.Source, x: Stream, t: int)
    requires ClockOf(n, w) && StreamOf(w, s, x)
    ensures FirstAppend(w, x, t) <==> t == n.Next(s)
  {
    forall u
      ensures MayAppend(w, x, u) <==> n.Next(s) <= u
    {
      if w.trusted && s.last.Some? {
        var last :| last in w.d.segments && w.d.segments[last].source == x.source && w.d.segments[last].trusted && w.d.segments[last].end == s.last.value;
        assert TrustedOf(w.d.segments[last], x);
      }
    }
    hide MayAppend;
    assert MayAppend(w, x, n.Next(s));
  }

  lemma AppendsAlike(n: W.Situation, w: Moment, s: W.Source, x: Stream, t: int)
    requires ClockOf(n, w) && StreamOf(w, s, x)
    ensures AppendsAt(w, x, t) <==> W.AppendsAt(n, s, t)
  {
    hide FirstAppend, LastTrustedEndOf;
    var first := n.Next(s);
    FirstIsNext(n, w, s, x, first);
    if AppendsAt(w, x, t) {
      var f, k: nat :| FirstAppend(w, x, f) && t == Later(f, x.cadence, k);
      FirstIsNext(n, w, s, x, f);
      MulOrder(0, k, x.cadence);
      MultipleIsMultiple(k, x.cadence);
    }
    if W.AppendsAt(n, s, t) {
      W.CountExists(t - first, x.cadence);
      assert t == Later(first, x.cadence, (t - first) / x.cadence);
    }
  }

  lemma {:induction false} AppendsAreSimulated(n: W.Situation, w: Moment, s: W.Source, x: Stream, t: int)
    requires ClockOf(n, w) && StreamOf(w, s, x)
    ensures Appends(w, x, t) == W.Simulated(n, s, t)
    decreases t - n.now
  {
    hide AppendsAt, W.AppendsAt, StreamOf;
    var all := set u | w.now <= u <= t && AppendsAt(w, x, u);
    if t < n.now {
      assert all == {};
    } else {
      AppendsAreSimulated(n, w, s, x, t - 1);
      AppendsAlike(n, w, s, x, t);
      var before := set u | w.now <= u <= t - 1 && AppendsAt(w, x, u);
      assert all == if AppendsAt(w, x, t) then before + {t} else before;
    }
  }

  // ---------- what is given back ----------

  lemma PhasedAlike(n: W.Situation, w: Moment, s: W.Source, x: Stream)
    requires ClockOf(n, w) && StreamOf(w, s, x)
    ensures Phased(w, x) <==> n.Phased(s)
  {
    if n.Phased(s) {
      var last :| last in w.d.segments && w.d.segments[last].source == x.source && w.d.segments[last].trusted && w.d.segments[last].end == s.last.value;
      assert TrustedOf(w.d.segments[last], x);
    }
  }

  /** Retention outlasts every segment, so an incident that overlaps one just captured has not expired. */
  lemma JoinsIsShield(record: Incident, s: W.Source, x: Stream, at: int)
    requires Sane(record) && s.id == x.source && s.cadence == x.cadence <= PRE
    ensures Joins(record, NewRow(x, at), at) <==> Shielding(record) && W.Shields(ShieldOf(record), s, at)
  {
  }

  /** A coming segment joins exactly the incidents that shield it. */
  lemma JoinsAreShields(n: W.Situation, w: Moment, s: W.Source, x: Stream, at: int)
    requires Inv(w.d) && StreamOf(w, s, x) && x.cadence <= PRE && exists ids :: ListsShields(w.d, ids, n.incidents)
    ensures Joining(w.d, NewRow(x, at), at) != {} <==> W.Shielded(n, s, at)
  {
    var ids :| ListsShields(w.d, ids, n.incidents);
    var row, joining := NewRow(x, at), Joining(w.d, NewRow(x, at), at);
    forall c | c in w.d.incidents
      ensures c in joining <==> Shielding(w.d.incidents[c]) && W.Shields(ShieldOf(w.d.incidents[c]), s, at)
    {
      JoinsIsShield(w.d.incidents[c], s, x, at);
    }
    hide Inv, StreamOf, W.Shields, Joins, Shielding, ShieldOf;
    if i :| 0 <= i < |n.incidents| && W.Shields(n.incidents[i], s, at) {
      assert ids[i] in ids;
      assert ids[i] in joining;
    }
    if c :| c in joining {
      assert c in ids;
      var i :| 0 <= i < |ids| && ids[i] == c;
      assert W.Shields(n.incidents[i], s, at);
    }
  }

  /** A coming segment is selected once it has aged out of the window, unless it is shielded or a loss is pending. */
  lemma TakeableIs(n: W.Situation, w: Moment, s: W.Source, x: Stream, at: int, t: int)
    requires Inv(w.d) && StreamOf(w, s, x) && x.cadence <= PRE && n.config.Valid() && exists ids :: ListsShields(w.d, ids, n.incidents)
    ensures Takeable(w, x, at, t, n.config) <==> !w.d.pendingLoss && at + n.Window() <= t && !W.Shielded(n, s, at)
  {
    JoinsAreShields(n, w, s, x, at);
    forall id | id !in w.d.segments
      ensures Protected(Appended(w.d, id, NewRow(x, at), at), id) <==> Joining(w.d, NewRow(x, at), at) != {}
    {
      AppendedProtected(w.d, id, NewRow(x, at), at);
    }
    hide Inv, Joining, W.Shielded, ListsShields, StreamOf, Protected;
    SomeFreshId(w.d.segments.Keys);
    assert n.Window() >= PRE;
  }

  lemma AppendedProtected(d: Durable, s: Id, row: Segment, at: int)
    requires Inv(d) && s !in d.segments
    ensures Protected(Appended(d, s, row, at), s) <==> Joining(d, row, at) != {}
  {
    var e := Appended(d, s, row, at);
    if c :| c in Joining(d, row, at) {
      assert Protects(e, c, s);
    }
    if c :| Protects(e, c, s) {
      assert Edge(c, s) !in d.protection;
    }
  }

  lemma SomeFreshId(ids: set<Id>)
    ensures exists s: Id :: s !in ids
  {
    var bound := IdBound(ids);
    assert bound !in ids;
  }

  lemma {:induction false} IdBound(ids: set<Id>) returns (bound: Id)
    ensures forall s :: s in ids ==> s < bound
    decreases ids
  {
    bound := 0;
    if x :| x in ids {
      var rest := IdBound(ids - {x});
      assert forall s :: s in ids ==> s == x || s in ids - {x};
      bound := if rest > x then rest else x + 1;
    }
  }

  /** Of a source's coming segments only one appended now can be selected within the simulation. */
  lemma TakenOnlyNow(n: W.Situation, w: Moment, s: W.Source, x: Stream, at: int, t: int)
    requires Inv(w.d) && ClockOf(n, w) && StreamOf(w, s, x) && x.cadence <= PRE && n.config.Valid() && n.now <= t <= n.now + n.Window()
    requires (exists ids :: ListsShields(w.d, ids, n.incidents)) && !w.d.pendingLoss
    ensures w.now <= at <= t && AppendsAt(w, x, at) && Takeable(w, x, at, t, n.config) <==>
            at == n.now && n.Next(s) + n.Window() <= t && !W.Shielded(n, s, n.now)
  {
    assert s.cadence == x.cadence > 0;
    hide Inv, StreamOf, ListsShields, W.Shielded, W.AppendsAt, Takeable, AppendsAt;
    AppendsAlike(n, w, s, x, at);
    TakeableIs(n, w, s, x, at, t);
    AppendsOnlyNow(n, s, at, t);
    assert n.Window() >= 0;
  }

  ghost predicate RetiresNow(n: W.Situation, s: W.Source, t: int) {
    n.Next(s) + n.Window() <= t && !W.Shielded(n, s, n.now)
  }

  lemma TakenOnce(n: W.Situation, w: Moment, s: W.Source, x: Stream, t: int)
    requires Inv(w.d) && ClockOf(n, w) && StreamOf(w, s, x) && x.cadence <= PRE && n.config.Valid() && n.now <= t <= n.now + n.Window()
    requires (exists ids :: ListsShields(w.d, ids, n.incidents)) && !w.d.pendingLoss
    ensures Taken(w, x, t, n.config) == if RetiresNow(n, s, t) then 1 else 0
  {
    var taken := set at | w.now <= at <= t && AppendsAt(w, x, at) && Takeable(w, x, at, t, n.config);
    forall at
      ensures at in taken <==> at == n.now && RetiresNow(n, s, t)
    {
      TakenOnlyNow(n, w, s, x, at, t);
    }
    hide Inv, StreamOf, ListsShields, W.Shielded, Takeable, AppendsAt, RetiresNow;
    assert taken == if RetiresNow(n, s, t) then {n.now} else {};
  }

  /** The coming segments selected by an instant give back what the simulation retires. */
  lemma TakenIsRetired(n: W.Situation, w: Moment, s: W.Source, x: Stream, t: int)
    requires Inv(w.d) && ClockOf(n, w) && StreamOf(w, s, x) && n.Valid() && n.Chronological() && SECOND <= x.cadence <= PRE
    requires (exists ids :: ListsShields(w.d, ids, n.incidents)) && !w.d.pendingLoss && n.now <= t <= n.Latest() && n.Phased(s)
    ensures Taken(w, x, t, n.config) * s.recent.credit == W.Retired(n, s, t - n.Window())
  {
    assert s.cadence == x.cadence;
    hide Inv, StreamOf, ListsShields, LastTrustedEndOf, W.Retired, Taken, RetiresNow, Sound;
    W.LatestWithinPre(n);
    W.WindowCoversPre(n);
    RetiredNow(n, s, t);
    TakenOnce(n, w, s, x, t);
  }

  lemma AppendsOnlyNow(n: W.Situation, s: W.Source, at: int, t: int)
    requires s.cadence > 0 && n.now <= t <= n.now + n.Window()
    ensures n.now <= at && at + n.Window() <= t && W.AppendsAt(n, s, at) <==> at == n.now && n.Next(s) + n.Window() <= t
  {
    if at == n.now && n.Next(s) + n.Window() <= t {
      DivisionUnique(0, s.cadence, 0, 0);
    }
  }

  lemma RetiredNow(n: W.Situation, s: W.Source, t: int)
    requires n.Valid() && n.Chronological() && SECOND <= s.cadence <= PRE && n.now <= t <= n.Latest() && n.Phased(s)
    ensures W.Retired(n, s, t - n.Window()) == if RetiresNow(n, s, t) then s.recent.credit else 0
  {
    W.RetiredOnlyNow(n, s, t);
    W.LatestWithinPre(n);
    W.WindowCoversPre(n);
    assert forall i :: 0 <= i < |n.incidents| && W.Shields(n.incidents[i], s, n.now) ==> W.Recent(n, n.incidents[i]);
  }

  lemma {:induction false} TakenBytesAreRetired(n: W.Situation, w: Moment, m: Measured, t: int, from: nat)
    requires Inv(w.d) && w.Configured() && Fits(m, w.d.setup.value) && Reflects(n, w.d, w.now, w.trusted, m)
    requires n.Valid() && n.Chronological() && !n.pendingLoss && n.now <= t <= n.Latest() && from <= w.Streams()
    ensures TakenBytes(w, m, t, from) == W.RetiredBy(n, n.sources[from..], t)
    decreases w.Streams() - from
  {
    hide Inv, W.Retired, Taken, Phased, ListsShields, ListsAging, Sound, LastTrustedEndOf;
    if from < w.Streams() {
      var s, x := n.sources[from], w.StreamAt(from);
      TakenBytesAreRetired(n, w, m, t, from + 1);
      assert n.sources[from..][1..] == n.sources[from + 1..];
      assert StreamOf(w, s, x);
      PhasedAlike(n, w, s, x);
      if n.Phased(s) {
        TakenIsRetired(n, w, s, x, t);
      }
    }
  }

  // ---------- the rows that age out ----------

  ghost function ExpiredOf(d: Durable, ids: seq<Id>, window: int, t: int): nat
    requires forall i :: 0 <= i < |ids| ==> ids[i] in d.segments
  {
    if ids == [] then 0
    else (if AgingRow(d, ids[0]).end + window <= t then AgingRow(d, ids[0]).allocation else 0) + ExpiredOf(d, ids[1..], window, t)
  }

  lemma {:induction false} ExpiredIsOf(d: Durable, ids: seq<Id>, stored: seq<W.Aging>, window: int, t: int)
    requires |stored| == |ids| && forall i :: 0 <= i < |ids| ==> ids[i] in d.segments && stored[i] == AgingRow(d, ids[i])
    ensures W.ExpiredBy(stored, window, t) == ExpiredOf(d, ids, window, t)
    decreases |ids|
  {
    if ids != [] {
      ExpiredIsOf(d, ids[1..], stored[1..], window, t);
    }
  }

  lemma {:induction false} ExpiredWithout(d: Durable, ids: seq<Id>, k: nat, window: int, t: int)
    requires (forall i :: 0 <= i < |ids| ==> ids[i] in d.segments) && k < |ids|
    ensures ExpiredOf(d, ids, window, t) == ExpiredOf(d, [ids[k]], window, t) + ExpiredOf(d, ids[..k] + ids[k + 1..], window, t)
    decreases k
  {
    assert [ids[k]][1..] == [];
    if k == 0 {
      assert ids[..0] + ids[1..] == ids[1..];
    } else {
      var rest := ids[1..];
      ExpiredWithout(d, rest, k - 1, window, t);
      assert (ids[..k] + ids[k + 1..])[1..] == rest[..k - 1] + rest[k..];
    }
  }

  /** What has aged out of a list is what the rows aged out free, in whatever order they are listed. */
  lemma {:induction false} ExpiredIsFreed(d: Durable, ids: seq<Id>, gone: seq<Id>, window: int, t: int)
    requires (forall i :: 0 <= i < |ids| ==> ids[i] in d.segments) && Distinct(ids) && Distinct(gone)
    requires forall s :: s in gone <==> s in ids && d.segments[s].end + window <= t
    ensures ExpiredOf(d, ids, window, t) == Freed(d, gone)
    decreases |ids|
  {
    if gone == [] {
      NothingExpired(d, ids, window, t);
    } else {
      assert gone[0] in gone;
      var k :| 0 <= k < |ids| && ids[k] == gone[0];
      ExpiredWithout(d, ids, k, window, t);
      assert [ids[k]][1..] == [];
      WithoutOne(ids, k);
      assert gone == [gone[0]] + gone[1..];
      assert gone[0] !in gone[1..];
      ExpiredIsFreed(d, ids[..k] + ids[k + 1..], gone[1..], window, t);
    }
  }

  lemma {:induction false} NothingExpired(d: Durable, ids: seq<Id>, window: int, t: int)
    requires forall i :: 0 <= i < |ids| ==> ids[i] in d.segments && d.segments[ids[i]].end + window > t
    ensures ExpiredOf(d, ids, window, t) == 0
    decreases |ids|
  {
    if ids != [] {
      NothingExpired(d, ids[1..], window, t);
    }
  }

  lemma WithoutOne(ids: seq<Id>, k: nat)
    requires Distinct(ids) && k < |ids|
    ensures var rest := ids[..k] + ids[k + 1..];
            Distinct(rest) && (forall s :: s in rest <==> s in ids && s != ids[k])
  {
    var rest := ids[..k] + ids[k + 1..];
    assert ids == ids[..k] + [ids[k]] + ids[k + 1..];
    assert ids[k] !in ids[..k] && ids[k] !in ids[k + 1..];
    assert forall i :: 0 <= i < |rest| ==> rest[i] == ids[if i < k then i else i + 1];
  }

  /** The stored part of the credit is the bytes of exactly the rows the ring selects by then. */
  lemma StoredIsSelected(n: W.Situation, w: Moment, m: Measured, t: int, bytes: nat)
    requires w.Configured() && Reflects(n, w.d, w.now, w.trusted, m) && !n.pendingLoss
    ensures SelectedBytes(w.d, t, n.config, bytes) <==> bytes == W.ExpiredBy(n.stored, n.Window(), t)
  {
    var ids :| ListsAging(w.d, ids, n.stored);
    ExpiredIsOf(w.d, ids, n.stored, n.Window(), t);
    forall s
      ensures Selected(w.d, s, t, n.config) <==> s in ids && w.d.segments[s].end + n.Window() <= t
    {
      AgedIsSelected(n, w, m, t, s);
    }
    forall gone | Distinct(gone) && (forall s :: s in gone <==> Selected(w.d, s, t, n.config))
      ensures Freed(w.d, gone) == W.ExpiredBy(n.stored, n.Window(), t)
    {
      ExpiredIsFreed(w.d, ids, gone, n.Window(), t);
    }
    hide ExpiredOf, Selected, Freed, W.ExpiredBy, Reflects, Ages;
    var gone := Kept(ids, s => s in w.d.segments && w.d.segments[s].end + n.Window() <= t);
    assert SelectedBytes(w.d, t, n.config, Freed(w.d, gone));
  }

  /** The listed ids that pass a test. */
  lemma {:induction false} Kept(ids: seq<Id>, keep: Id -> bool) returns (kept: seq<Id>)
    requires Distinct(ids)
    ensures Distinct(kept) && forall s :: s in kept <==> s in ids && keep(s)
    decreases |ids|
  {
    kept := [];
    if ids != [] {
      var rest := Kept(ids[1..], keep);
      assert ids == [ids[0]] + ids[1..];
      assert ids[0] !in ids[1..];
      kept := if keep(ids[0]) then [ids[0]] + rest else rest;
    }
  }

  lemma AgedIsSelected(n: W.Situation, w: Moment, m: Measured, t: int, s: Id)
    requires w.Configured() && Reflects(n, w.d, w.now, w.trusted, m) && !n.pendingLoss
    ensures Selected(w.d, s, t, n.config) <==> Ages(w.d, s) && w.d.segments[s].end + n.Window() <= t
  {
    hide Protected;
    assert n.config.Valid();
  }

  // ---------- refusal ----------

  lemma StreamsReflected(n: W.Situation, w: Moment, m: Measured, i: nat)
    requires w.Configured() && Fits(m, w.d.setup.value) && Reflects(n, w.d, w.now, w.trusted, m) && i < w.Streams()
    ensures |n.sources| == w.Streams() && ClockOf(n, w) && StreamOf(w, n.sources[i], w.StreamAt(i)) && n.sources[i].recent == m.recent[i]
  {
    hide ListsAging, ListsShields, LastTrustedEndOf;
    assert w.d.setup.value.profiles[i].Valid();
  }

  lemma BatchAlike(n: W.Situation, w: Moment, m: Measured, t: int)
    requires w.Configured() && Fits(m, w.d.setup.value) && Reflects(n, w.d, w.now, w.trusted, m) && n.Valid()
    ensures Batch(w, m, t) == W.Batch(n, n.sources, t)
  {
    hide Reflects, Appends, W.Simulated, Sound;
    StreamsReflected(n, w, m, 0);
    forall i | 0 <= i < w.Streams()
      ensures Batch(w, m, t)[i] == W.Batch(n, n.sources, t)[i]
    {
      StreamsReflected(n, w, m, i);
      AppendsAreSimulated(n, w, n.sources[i], w.StreamAt(i), t);
    }
  }

  lemma ConsideredAlike(n: W.Situation, w: Moment, m: Measured, t: int)
    requires w.Configured() && Fits(m, w.d.setup.value) && Reflects(n, w.d, w.now, w.trusted, m) && n.Valid()
    ensures Considered(w, t) <==> n.now <= t <= n.Latest() && W.SomeAppend(n, t)
  {
    hide Reflects, AppendsAt, W.AppendsAt, FirstAppend, StreamOf, Sound;
    StreamsReflected(n, w, m, 0);
    forall i | 0 <= i < w.Streams()
      ensures AppendsAt(w, w.StreamAt(i), t) <==> W.AppendsAt(n, n.sources[i], t)
      ensures forall first :: FirstAppend(w, w.StreamAt(i), first) <==> first == n.Next(n.sources[i])
    {
      StreamsReflected(n, w, m, i);
      AppendsAlike(n, w, n.sources[i], w.StreamAt(i), t);
      forall first
        ensures FirstAppend(w, w.StreamAt(i), first) <==> first == n.Next(n.sources[i])
      {
        FirstIsNext(n, w, n.sources[i], w.StreamAt(i), first);
      }
    }
    var slowest :| 0 <= slowest < |n.sources| && n.Latest() == n.Next(n.sources[slowest]);
    assert FirstAppend(w, w.StreamAt(slowest), n.Latest());
  }

  /** The compressed check's simulation refuses at an instant exactly if the ring would. */
  lemma RefusedAlike(n: W.Situation, w: Moment, m: Measured, t: int)
    requires Inv(w.d) && w.Configured() && Fits(m, w.d.setup.value) && Reflects(n, w.d, w.now, w.trusted, m)
    requires n.Valid() && n.Chronological()
    ensures RefusedAt(w, m, t) <==> W.RefusedAt(n, t)
  {
    ConsideredAlike(n, w, m, t);
    BatchAlike(n, w, m, t);
    if Considered(w, t) {
      CreditAlike(n, w, m, t);
    }
    hide Inv, Reflects, Considered, Batch, W.Batch, W.SomeAppend, W.ExpiredBy, W.RetiredBy, TakenBytes, SelectedBytes, RoundUp, Charge, Sound;
  }

  lemma CreditAlike(n: W.Situation, w: Moment, m: Measured, t: int)
    requires Inv(w.d) && w.Configured() && Fits(m, w.d.setup.value) && Reflects(n, w.d, w.now, w.trusted, m)
    requires n.Valid() && n.Chronological() && n.now <= t <= n.Latest()
    ensures exists stored: nat :: SelectedBytes(w.d, t, w.d.setup.value.config, stored)
    ensures forall stored: nat :: SelectedBytes(w.d, t, w.d.setup.value.config, stored) ==>
              W.Reclaimed(n, t) == if w.trusted then stored + TakenBytes(w, m, t, 0) else 0
  {
    hide Inv, Sound, SelectedBytes, W.ExpiredBy, W.RetiredBy, TakenBytes, LastTrustedEndOf, ListsAging, ListsShields;
    if w.d.pendingLoss {
      PendingTakesNothing(w, m, t, 0);
      forall stored: nat
        ensures SelectedBytes(w.d, t, n.config, stored) <==> stored == 0
      {
        PendingSelectsNothing(w.d, t, n.config, stored);
      }
      assert SelectedBytes(w.d, t, n.config, 0);
    } else {
      TakenBytesAreRetired(n, w, m, t, 0);
      assert n.sources[0..] == n.sources;
      forall stored: nat
        ensures SelectedBytes(w.d, t, n.config, stored) <==> stored == W.ExpiredBy(n.stored, n.Window(), t)
      {
        StoredIsSelected(n, w, m, t, stored);
      }
      assert SelectedBytes(w.d, t, n.config, W.ExpiredBy(n.stored, n.Window(), t));
    }
  }

  /** A pending loss stops every reclaim. */
  lemma PendingSelectsNothing(d: Durable, t: int, config: RingConfig, stored: nat)
    requires d.pendingLoss
    ensures SelectedBytes(d, t, config, stored) <==> stored == 0
  {
    assert Distinct([]) && Freed(d, []) == 0;
    if SelectedBytes(d, t, config, stored) {
      var ids :| Distinct(ids) && (forall s :: s in ids <==> Selected(d, s, t, config)) && stored == Freed(d, ids);
      SomeMember(ids);
    }
  }

  lemma SomeMember(ids: seq<Id>)
    ensures ids != [] ==> exists s :: s in ids
  {
    assert ids != [] ==> ids[0] in ids;
  }

  lemma {:induction false} PendingTakesNothing(w: Moment, m: Measured, t: int, from: nat)
    requires w.Configured() && |m.recent| == w.Streams() && from <= w.Streams() && w.d.pendingLoss
    ensures TakenBytes(w, m, t, from) == 0
    decreases w.Streams() - from
  {
    hide AppendsAt, Phased;
    if from < w.Streams() {
      var x := w.StreamAt(from);
      PendingTakesNothing(w, m, t, from + 1);
      assert (set at | w.now <= at <= t && AppendsAt(w, x, at) && Takeable(w, x, at, t, w.d.setup.value.config)) == {};
    }
  }

  /** Every situation that reflects the ring is refused exactly if the ring is. */
  lemma SimulationIsRing(n: W.Situation, d: Durable, now: int, trusted: bool, m: Measured)
    requires Inv(d) && d.setup.Some? && d.setup.value.Valid() && (trusted ==> Clock(d) <= now) && Fits(m, d.setup.value)
    requires Reflects(n, d, now, trusted, m) && n.Valid() && n.Chronological()
    ensures W.Refuses(n) <==> Refuses(Moment(d, now, trusted), m)
  {
    hide Inv, Reflects, W.RefusedAt, RefusedAt, Fits;
    forall t
      ensures RefusedAt(Moment(d, now, trusted), m, t) <==> W.RefusedAt(n, t)
    {
      RefusedAlike(n, Moment(d, now, trusted), m, t);
    }
  }

  /** The recent allocations of every source, out of the ring's rows; `after` is where each source's current profile began. */
  ghost predicate RecentsOf(d: Durable, after: seq<int>, unit: int, atBound: bool, recent: seq<Recent>)
    requires unit > 0 && d.setup.Some? && d.setup.value.Valid()
  {
    var setup := d.setup.value;
    && |after| == |recent| == |setup.sources|
    && forall i :: 0 <= i < |recent| ==>
         setup.profiles[i].Valid() && IsRecent(d, setup.sources[i], setup.profiles[i], after[i], unit, atBound, recent[i])
  }

  method Recents(d: Durable, after: seq<int>, unit: int, atBound: bool) returns (recent: seq<Recent>)
    requires unit > 0 && d.setup.Some? && d.setup.value.Valid() && |after| == |d.setup.value.sources|
    ensures RecentsOf(d, after, unit, atBound, recent) && forall i :: 0 <= i < |recent| ==> Sound(recent[i], unit)
  {
    hide IsRecent, Sound;
    var setup := d.setup.value;
    recent := [];
    for i := 0 to |setup.sources|
      invariant |recent| == i && forall j :: 0 <= j < i ==> Sound(recent[j], unit)
      invariant forall j :: 0 <= j < i ==>
                  setup.profiles[j].Valid() && IsRecent(d, setup.sources[j], setup.profiles[j], after[j], unit, atBound, recent[j])
    {
      assert setup.profiles[i].Valid();
      var one := RecentOf(d, setup.sources[i], setup.profiles[i], after[i], unit, atBound);
      recent := recent + [one];
    }
  }

  ghost predicate RefusesWith(refused: bool, d: Durable, now: int, trusted: bool, m: Measured)
    requires d.setup.Some? && d.setup.value.Valid()
  {
    Fits(m, d.setup.value) && (refused <==> Refuses(Moment(d, now, trusted), m)) && Answers(refused, d, now, trusted, m)
  }

  /** The whole check, from the ring's rows and files and the free space. */
  method RefusesNext(d: Durable, now: int, trusted: bool, after: seq<int>, free: int, reserve: int, headroom: int, unit: int, atBound: bool)
    returns (refused: bool)
    requires Inv(d) && d.setup.Some? && d.setup.value.Valid() && (trusted ==> Clock(d) <= now)
    requires unit > 0 && |after| == |d.setup.value.sources|
    ensures exists recent :: RecentsOf(d, after, unit, atBound, recent)
                             && RefusesWith(refused, d, now, trusted, Measured(recent, free, reserve, headroom, unit))
  {
    hide Inv, Answers, Refuses, RecentsOf, Sound;
    var recent := Recents(d, after, unit, atBound);
    ManyRecents(d, after, unit, atBound, recent);
    refused := NextWriteRefused(d, now, trusted, Measured(recent, free, reserve, headroom, unit));
    assert RefusesWith(refused, d, now, trusted, Measured(recent, free, reserve, headroom, unit));
  }

  lemma ManyRecents(d: Durable, after: seq<int>, unit: int, atBound: bool, recent: seq<Recent>)
    requires unit > 0 && d.setup.Some? && d.setup.value.Valid() && RecentsOf(d, after, unit, atBound, recent)
    ensures |recent| == |d.setup.value.sources|
  {
  }
}
