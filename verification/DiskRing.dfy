/**
 The disk ring's operations. Every change of durable state goes through Take, one
 enabled step at a time, and any step can fail: what the methods do is a run of
 the step model, whatever fails and wherever the process stops.
 */
module DiskRing {
  import opened Basics
  import opened RingArithmetic
  import opened RingModels
  import opened RingHorizon
  import opened RingIntervals
  import opened RingSteps
  import opened RingRows
  import opened RingRuns
  import opened RingOccasions

  class DiskRing {
    /** What SQLite and the media directory hold. */
    var d: Durable
    /** The steps taken so far. */
    ghost var log: seq<Action>
    /** uuid4: identities never repeat. */
    var nextId: nat
    var connected: bool
    /** No transaction or file operation fails. */
    const reliable: bool
    /** Every check of ledger capacity and free space passes, and files get a real allocation. */
    const roomy: bool
    /** The media filesystem's allocation unit. */
    const unit: int
    /** What the operation at work was told, and where in the log it began. */
    ghost var told: Occasion
    ghost var since: nat
    /** It may insert a row by now. */
    ghost var admitting: bool

    ghost predicate Valid()
      reads this
    {
      && IsRun(EMPTY, log) && After(EMPTY, log) == d && Inv(d) && IdsBelow(d, nextId) && unit > 0
      && since <= |log| && AllObey(log[since..], told) && (admitting || NoInserts(log[since..]))
    }

    /** Time that counts as trusted is the one the operation was told. */
    ghost predicate At(now: int, trusted: bool)
      reads this
    {
      trusted ==> Clock(d) <= now && told.trusted && told.now == now
    }

    constructor (reliable: bool, roomy: bool, unit: int)
      requires unit > 0
      ensures Valid() && d == EMPTY && log == [] && this.reliable == reliable && this.roomy == roomy && this.unit == unit
    {
      this.roomy, this.unit := roomy, unit;
      EmptyInv();
      d, log, nextId, connected := EMPTY, [], 0, false;
      told, since, admitting := Occasion(0, false, None), 0, false;
      this.reliable := reliable;
    }

    /** Every operation begins with what it was told. */
    ghost method Begin(now: int, trusted: bool, owner: Option<Id>)
      requires Valid()
      modifies this`told, this`since, this`admitting
      ensures Valid() && told == Occasion(now, trusted && Clock(d) <= now, owner) && since == |log| && !admitting
    {
      told, since, admitting := Occasion(now, trusted && Clock(d) <= now, owner), |log|, false;
    }

    method NewId() returns (id: Id)
      requires Valid()
      modifies this`nextId
      ensures Valid() && id == old(nextId) && nextId == id + 1
      ensures id !in d.segments && id !in d.incidents && id !in d.files
    {
      id := nextId;
      nextId := nextId + 1;
    }

    /** One transaction or file operation: it happens, or it raises and changes nothing. */
    method Take(a: Action) returns (ok: bool)
      requires Valid() && Enabled(d, a) && UsesIdsBelow(a, nextId) && Obeys(a, told) && (a.InsertSegment? ==> admitting)
      modifies this`d, this`log
      ensures Valid() && (reliable ==> ok)
      ensures ok ==> d == Apply(old(d), a) && log == old(log) + [a]
      ensures !ok ==> d == old(d) && log == old(log)
    {
      hide Enabled, Apply, Inv, IdsBelow, Obeys;
      ok := *;
      ok := ok || reliable;
      if ok {
        RunAppends(EMPTY, log, a);
        StepKeepsInv(d, a);
        StepKeepsIds(d, a, nextId);
        ObeysOn(log, since, a, told);
        assert admitting || NoInserts((log + [a])[since..]) by {
          assert (log + [a])[since..] == log[since..] + [a];
        }
        d, log := Apply(d, a), log + [a];
      }
    }

    /** Durable intent, then unlink, then the row: an unprotected segment only. */
    method RemoveSegment(s: Id, now: int, trusted: bool) returns (ok: bool)
      requires Valid() && s in d.segments && At(now, trusted)
      requires !Protected(d, s) && d.segments[s].state != Deleting ==>
                 d.segments[s].state != Writing && MayRetire(d, s, now, trusted)
      modifies this`d, this`log
      ensures old(log) <= log
      ensures Valid() && Touches(old(d), d, s) && SameRest(old(d), d) && d.incidents == old(d).incidents
      ensures d.protection == old(d).protection
      ensures ok ==> !Protected(old(d), s) && Forgot(old(d), d, s)
      ensures reliable ==> (ok <==> !Protected(old(d), s))
      ensures reliable && !ok ==> d == old(d)
    {
      hide Inv, IsRun, After, AllObey, NoInserts, Enabled, Apply, HasEdge, MayRetire, Touches, Marked, Unlinked, Protected, Gone;
      HasEdgeIsProtected(d, s);
      TouchesNothing(d, s);
      if HasEdge(d, s) {
        return false;
      }
      RemovalEnabled(d, s, now, trusted);
      MarkedTouches(d, s);
      GoneTouches(d, s);
      StepsKeepEdges(d, s);
      ok := Take(MarkDeleting(s, now, trusted));
      if !ok {
        return;
      }
      ok := Take(Unlink(s));
      if !ok {
        return;
      }
      ok := Take(RemoveRow(s));
    }

    /** Reclaim what has aged out of the ring, oldest first. */
    method Trim(now: int, trusted: bool) returns (ok: bool)
      requires Valid() && At(now, trusted)
      modifies this`d, this`log
      ensures old(log) <= log
      ensures Valid() && SameRest(old(d), d) && d.incidents == old(d).incidents && SameChronology(old(d), d)
      ensures d.protection == old(d).protection
      ensures reliable ==> ok
      ensures !trusted || d.setup.None? || d.pendingLoss ==> d == old(d)
      ensures trusted && d.setup.Some? ==>
                exists horizon: nat :: IsHorizon(d.setup.value.config, d.setup.value.profiles, horizon)
                  && TrimTook(old(d), d, now, d.setup.value.config, horizon, nextId)
                  && (ok && !d.pendingLoss ==> TrimLeft(d, now, d.setup.value.config, horizon, nextId))
    {
      hide Trims, Inv, IsRun, After, AllObey, NoInserts, IsHorizon, IdsBelow, TrimTook, TrimLeft, MayTrim, Selected, Freed;
      hide TrimmedPrefix, Forgot, Touches, Took, SizesHold, Ordinary, ByEnd, SameChronology;
      SameChronologyHolds(d);
      if !trusted || d.setup.None? {
        return true;
      }
      SetupIsValid(d);
      var setup := d.setup.value;
      ghost var n := nextId;
      var ordinary: int := OrdinaryBytes(d, n);
      var horizon := HorizonUs(setup.config, setup.profiles);
      var ids := SelectedReclaimable(d, now, setup.config);
      SelectedAges(d, ids, now, setup.config);
      var files := d.files;
      StartsTaking(d, ids, now, setup.config, horizon, n);
      NothingFreed(d, ids);
      for i := 0 to |ids|
        invariant old(log) <= log
        invariant Valid() && SameRest(old(d), d) && d.incidents == old(d).incidents && SameChronology(old(d), d)
        invariant d.protection == old(d).protection
        invariant forall s :: Selected(d, s, now, setup.config) <==> s in ids[i..]
        invariant Took(old(d), d, ids, i) && SizesHold(files, d, ids, i) && (i == 0 ==> d == old(d))
        invariant ordinary == Ordinary(d, n) == Ordinary(old(d), n) - Freed(old(d), ids[..i])
        invariant forall j :: 0 <= j < i ==> Trims(old(d), ids, j, now, setup.config, horizon, n)
      {
        var s := ids[i];
        assert s in ids[i..];
        StillThere(old(d), d, ids, i);
        if d.segments[s].end > now - horizon && (setup.config.Duration? || ordinary <= setup.config.bytes) {
          TrimEnds(old(d), d, ids, i, now, horizon, n);
          return true;
        }
        Trimmable(old(d), ids, i, now, setup.config, horizon, n);
        ghost var before := d;
        SelectedMayGo(d, s, now, setup.config);
        ok := RemoveSegment(s, now, trusted);
        if !ok {
          TookPart(old(d), before, d, ids, i);
          ChronologyOn(old(d), before, d, s);
          TrimsPrefix(old(d), d, ids, i, now, setup.config, horizon, n);
          TrimTakes(old(d), d, ids, i, now, setup.config, horizon, n);
          return;
        }
        ForgotKeepsSelected(before, d, s, now, setup.config);
        SuffixDropsFirst(ids, i);
        TookOne(old(d), before, d, ids, i);
        SizesStillHold(files, before, d, ids, i);
        TotalAfter(files, before, d, ids, i, now, setup.config, n);
        ChronologyOn(old(d), before, d, s);
        assert ids[..i + 1] == ids[..i] + [s];
        FreedSnoc(old(d), ids[..i], s);
        ordinary := ordinary - if s in files then files[s] else 0;
      }
      TrimEnds(old(d), d, ids, |ids|, now, horizon, n);
      ok := true;
    }

    /** Make room for one write, oldest selected media first; `fits` stands for the space checks. */
    method FreeForWrite(now: int, trusted: bool) returns (ok: bool)
      requires Valid() && d.setup.Some? && At(now, trusted)
      modifies this`d, this`log
      ensures old(log) <= log
      ensures Valid() && SameRest(old(d), d) && d.incidents == old(d).incidents
      ensures KeepsWriting(old(d), d)
      ensures if trusted then Reclaims(old(d), d, now, d.setup.value.config) else d == old(d)
      ensures reliable && trusted && !ok ==> forall s :: !Selected(d, s, now, d.setup.value.config)
      ensures roomy ==> ok && d == old(d)
    {
      hide Inv, IsRun, After, AllObey, NoInserts, IdsBelow, Selected, Forgot, Touches, Took, ByEnd, Reclaims, KeepsWriting;
      var config := d.setup.value.config;
      WritingKept(d);
      if trusted {
        var ids := SelectedReclaimable(d, now, config);
        SelectedAges(d, ids, now, config);
        StartsTaking(d, ids, now, config, 0, 0);
        for i := 0 to |ids|
          invariant old(log) <= log
          invariant Valid() && SameRest(old(d), d) && d.incidents == old(d).incidents && KeepsWriting(old(d), d)
          invariant forall s :: Selected(d, s, now, config) <==> s in ids[i..]
          invariant Took(old(d), d, ids, i) && (roomy ==> d == old(d))
        {
          TookSoFar(old(d), d, ids, i, now, config);
          var fits: bool := *;
          if fits || roomy {
            return true;
          }
          var s := ids[i];
          assert s in ids[i..];
          ghost var before := d;
          SelectedMayGo(d, s, now, config);
          ok := RemoveSegment(s, now, trusted);
          WritingKeptOn(old(d), before, d, s);
          if !ok {
            TookPart(old(d), before, d, ids, i);
            PrefixReclaims(old(d), d, ids, i, now, config);
            return;
          }
          ForgotKeepsSelected(before, d, s, now, config);
          SuffixDropsFirst(ids, i);
          TookOne(old(d), before, d, ids, i);
        }
        TookSoFar(old(d), d, ids, |ids|, now, config);
      }
      ok := *;
      ok := ok || roomy;
    }

    /** Drop one edge, deleting the segment if neither the ring nor another incident owns it. */
    method DropOne(c: Id, s: Id, now: int, trusted: bool, horizon: nat) returns (ok: bool)
      requires Valid() && At(now, trusted) && horizon >= PRE
      requires c in d.incidents && d.incidents[c].state == Removing && Edge(c, s) in d.protection
      modifies this`d, this`log
      ensures old(log) <= log
      ensures Valid() && SameRest(old(d), d) && d.incidents == old(d).incidents
      ensures reliable ==> ok
      ensures ok ==> d.protection == old(d).protection - {Edge(c, s)}
      ensures ok ==> d.segments == if Released(old(d), c, s, now, trusted, horizon) then old(d).segments - {s} else old(d).segments
      ensures !trusted ==> SameMedia(old(d), d)
    {
      hide Inv, IsRun, After, AllObey, NoInserts, Enabled, Apply, HasEdge, Protected;
      EdgeHasRow(d, c, s);
      var keep := d.pendingLoss || !trusted || d.segments[s].end > now - horizon;
      var dropped := d.(protection := d.protection - {Edge(c, s)});
      var mark := !HasEdge(dropped, s) && !keep;
      HasEdgeIsProtected(dropped, s);
      EdgeDrops(d, c, s, mark, now, trusted);
      ok := Take(DropEdge(c, s, mark, now, trusted));
      if ok && mark {
        ghost var before := d;
        ok := RemoveSegment(s, now, trusted);
        if ok {
          NoEdgeLeft(before, d, s);
        }
      }
    }

    /** Drop an incident's edges one by one, then mark it deleted. */
    method DeleteIncident(c: Id, now: int, trusted: bool, cause: Cause) returns (ok: bool)
      requires Valid() && At(now, trusted) && Obeys(StartRemoval(c, cause), told)
      requires c in d.incidents && d.incidents[c].state != Removed ==> MayRemove(d, d.incidents[c], cause)
      modifies this`d, this`log
      ensures old(log) <= log
      ensures Valid() && SameRest(old(d), d) && SameIncidentsBut(old(d), d, c)
      ensures reliable ==> ok
      ensures !trusted ==> SameMedia(old(d), d)
      ensures c in d.incidents ==> OnlyRemoved(old(d).incidents[c], d.incidents[c])
      ensures ok && c in d.incidents ==> d.incidents[c].state == Removed
      ensures ok && c in d.incidents && old(d).incidents[c].state != Removed ==>
                exists horizon: nat :: IsHorizon(d.setup.value.config, d.setup.value.profiles, horizon)
                  && LetGo(old(d), d, c, now, trusted, horizon)
    {
      hide Inv, IsRun, After, AllObey, NoInserts, Enabled, Apply, IsHorizon, LetGo;
      if c !in d.incidents || d.incidents[c].state == Removed {
        return true;
      }
      IncidentNeedsSetup(d, c);
      var horizon := HorizonUs(d.setup.value.config, d.setup.value.profiles);
      RemovalStarts(d, c, cause);
      ok := Take(StartRemoval(c, cause));
      if !ok {
        return;
      }
      ghost var started := d;
      ok := DropAll(c, now, trusted, horizon);
      if !ok {
        return;
      }
      RemovalFinishes(d, c);
      ghost var emptied := d;
      ok := Take(FinishRemoval(c));
      RemovalLetsGo(old(d), started, emptied, d, c, now, trusted, horizon);
    }

    /** Drop every edge of an incident in removal. */
    method DropAll(c: Id, now: int, trusted: bool, horizon: nat) returns (ok: bool)
      requires Valid() && At(now, trusted) && horizon >= PRE
      requires c in d.incidents && d.incidents[c].state == Removing
      modifies this`d, this`log
      ensures old(log) <= log
      ensures Valid() && SameRest(old(d), d) && d.incidents == old(d).incidents
      ensures reliable ==> ok
      ensures !trusted ==> SameMedia(old(d), d)
      ensures ok ==> LetGo(old(d), d, c, now, trusted, horizon) && forall s :: Edge(c, s) !in d.protection
    {
      hide Inv, IsRun, After, AllObey, NoInserts, Enabled, Apply, Released, LettingGo, LetGo;
      var edges := Listing(set e | e in d.protection && e.incident == c :: e.segment);
      EdgeListing(d, c, edges);
      StartsLettingGo(d, c, now, trusted, horizon);
      assert edges[..0] == [];
      for i := 0 to |edges|
        invariant old(log) <= log
        invariant Valid() && SameRest(old(d), d) && d.incidents == old(d).incidents
        invariant !trusted ==> SameMedia(old(d), d)
        invariant forall s :: Edge(c, s) in d.protection <==> s in edges[i..]
        invariant LettingGo(old(d), d, c, edges[..i], now, trusted, horizon)
      {
        assert edges[i] in edges[i..];
        SuffixDropsFirst(edges, i);
        ghost var before := d;
        ok := DropOne(c, edges[i], now, trusted, horizon);
        if !ok {
          return;
        }
        EdgeHasRow(old(d), c, edges[i]);
        LetsGoOne(old(d), before, d, c, edges, i, now, trusted, horizon);
      }
      assert edges[..|edges|] == edges;
      LetGoAll(old(d), d, c, edges, now, trusted, horizon);
      ok := true;
    }

    /** Whether any source of an incident lacks stored trusted evidence somewhere in its window. */
    method HasGaps(c: Id) returns (gaps: bool)
      requires Valid() && c in d.incidents
      ensures gaps <==> !FullyCovered(d, c)
    {
      var sources := Listing(d.incidents[c].sources);
      var start, end := d.incidents[c].start, d.incidents[c].end;
      for i := 0 to |sources|
        invariant forall k, t :: 0 <= k < i && start <= t < end ==> CoveredAt(d, c, sources[k], t)
      {
        var intervals := EvidenceIntervals(d, c, sources[i]);
        var merged, missing := IntervalsAndGaps(intervals, start, end);
        if missing != [] {
          var t := missing[0].left;
          assert Contains(missing[0], t);
          assert Covers(missing, t);
          return true;
        }
        forall t | start <= t < end
          ensures CoveredAt(d, c, sources[i], t)
        {
          assert !Covers(missing, t);
        }
      }
      return false;
    }

    /** Removals that an earlier process, or an earlier failure, left unfinished. */
    method FinishRemovals(now: int, trusted: bool) returns (ok: bool)
      requires Valid() && At(now, trusted)
      modifies this`d, this`log
      ensures old(log) <= log
      ensures Valid() && SameRest(old(d), d) && d.incidents.Keys == old(d).incidents.Keys
      ensures reliable ==> ok
      ensures forall c :: c in d.incidents && old(d).incidents[c].state != Removing ==> d.incidents[c] == old(d).incidents[c]
      ensures forall c :: c in d.incidents ==> OnlyRemoved(old(d).incidents[c], d.incidents[c])
      ensures ok ==> forall c :: c in d.incidents ==> d.incidents[c].state != Removing
      ensures ok ==> forall c :: c in d.incidents && old(d).incidents[c].state != Removing ==> SameEvidence(old(d), d, c)
      ensures !trusted ==> SameMedia(old(d), d)
    {
      hide Inv, IsRun, After, AllObey, NoInserts, SameEvidence, LetGo, Obeys, IsHorizon, Finishing, IdsBelow;
      var ids := Listing(set c | c in d.incidents && d.incidents[c].state == Removing);
      StartsFinishing(d, ids);
      for i := 0 to |ids|
        invariant old(log) <= log && Valid() && Finishing(old(d), d, ids[i..])
        invariant !trusted ==> SameMedia(old(d), d)
      {
        ghost var before := d;
        NextToFinish(old(d), d, ids, i);
        ResumeObeys(ids[i], told);
        ok := DeleteIncident(ids[i], now, trusted, Resumed);
        if !ok {
          FinishingPart(old(d), before, d, ids, i);
          return;
        }
        FinishesOne(old(d), before, d, ids, i, now, trusted);
      }
      FinishingKeeps(old(d), d, ids[|ids|..]);
      ok := true;
    }

    /** Close every active incident whose window has ended: complete exactly if covered and certain. */
    method CloseDue(now: int) returns (ok: bool)
      requires Valid() && d.clock == Some(now) && At(now, true)
      modifies this`d, this`log
      ensures old(log) <= log
      ensures Valid() && d == old(d).(incidents := d.incidents) && d.incidents.Keys == old(d).incidents.Keys
      ensures reliable ==> ok
      ensures ok ==> forall c :: c in d.incidents ==> d.incidents[c] == ClosedAt(old(d), c, now)
      ensures ok ==> forall c :: c in d.incidents && d.incidents[c].state == Active ==> d.incidents[c].end > now
      ensures forall c :: c in d.incidents ==> d.incidents[c] == old(d).incidents[c] || d.incidents[c] == ClosedAt(old(d), c, now)
      ensures forall c :: c in d.incidents && d.incidents[c].state == Removing ==> old(d).incidents[c].state == Removing
    {
      hide Inv, IsRun, After, AllObey, NoInserts, FullyCovered, ClosingSome, ClosedAt, IdsBelow;
      var ids := Listing(set c | c in d.incidents && d.incidents[c].state == Active && d.incidents[c].end <= now);
      StartsClosing(d, ids, now);
      for i := 0 to |ids|
        invariant old(log) <= log && Valid() && ClosingSome(old(d), d, ids[i..], now)
      {
        IsDue(old(d), d, ids[i..], ids[i], now);
        ghost var before := d;
        ok := CloseOne(ids[i], now);
        if !ok {
          ClosingKeeps(old(d), d, ids[i..], now);
          return;
        }
        ClosedAsBefore(old(d), before, ids[i], now);
        ClosesOne(old(d), before, d, ids, i, now);
      }
      ClosingKeeps(old(d), d, ids[|ids|..], now);
      ok := true;
    }

    /** Close one incident by what its coverage is now. */
    method CloseOne(c: Id, now: int) returns (ok: bool)
      requires Valid() && d.clock == Some(now) && At(now, true)
      requires c in d.incidents && d.incidents[c].state == Active && d.incidents[c].end <= now
      modifies this`d, this`log
      ensures old(log) <= log && Valid() && (reliable ==> ok)
      ensures ok ==> d == old(d).(incidents := d.incidents) && SameIncidentsBut(old(d), d, c) && d.incidents[c] == ClosedAt(old(d), c, now)
      ensures !ok ==> d == old(d)
    {
      hide Inv, IsRun, After, AllObey, NoInserts, Enabled, Apply, FullyCovered, IdsBelow;
      var gaps := HasGaps(c);
      var outcome := if gaps || d.incidents[c].uncertain then Partial else Complete;
      Closes(d, c, outcome, now);
      ok := Take(CloseIncident(c, outcome, now));
    }

    /** Delete every closed incident whose retention has passed, and no other. */
    method ExpireOld(now: int) returns (ok: bool)
      requires Valid() && d.clock == Some(now) && At(now, true)
      requires forall c :: c in d.incidents ==> !Due(d.incidents[c], now)
      modifies this`d, this`log
      ensures old(log) <= log
      ensures Valid() && SameRest(old(d), d) && d.incidents.Keys == old(d).incidents.Keys
      ensures reliable ==> ok
      ensures ok ==> Settled(d, now)
      ensures forall c :: c in d.incidents && !Expired(old(d).incidents[c], now) ==> d.incidents[c] == old(d).incidents[c]
      ensures forall c :: c in d.incidents ==> OnlyRemoved(old(d).incidents[c], d.incidents[c])
    {
      hide Inv, IsRun, After, AllObey, NoInserts, Enabled, Apply, LetGo, IsHorizon, Expiring, IdsBelow;
      var ids := Listing(set c | c in d.incidents && (d.incidents[c].state == Complete || d.incidents[c].state == Partial)
                               && d.incidents[c].expires.Some? && d.incidents[c].expires.value <= now);
      StartsExpiring(d, ids, now);
      for i := 0 to |ids|
        invariant old(log) <= log && Valid() && Expiring(old(d), d, ids, ids[i..], now)
      {
        ghost var before := d;
        NextToExpire(old(d), d, ids, i, now);
        ok := DeleteIncident(ids[i], now, true, Expiry(now));
        if !ok {
          ExpiringPart(old(d), before, d, ids, i, now);
          return;
        }
        ExpiresOne(old(d), before, d, ids, i, now);
      }
      ExpiringKeeps(old(d), d, ids, ids[|ids|..], now);
      ok := true;
    }

    /** Finish removals; on trusted time close what has ended and remove what has expired, otherwise only doubt what is open. */
    method Tick(now: int, trusted: bool) returns (ok: bool)
      requires Valid() && At(now, trusted) && (trusted ==> d.clock == Some(now))
      modifies this`d, this`log
      ensures old(log) <= log
      ensures Valid() && SameRest(old(d), d) && d.incidents.Keys == old(d).incidents.Keys
      ensures reliable ==> ok
      ensures forall c :: c in d.incidents ==> Ticked(old(d).incidents[c], d.incidents[c], now, trusted)
      ensures ok && trusted ==> Settled(d, now)
      ensures ok && trusted ==> forall c :: c in d.incidents && old(d).incidents[c].state == Active ==> ClosedRightly(old(d), d, c)
      ensures !trusted ==> SameMedia(old(d), d)
      ensures ok && !trusted ==> forall c :: c in d.incidents && d.incidents[c].state == Active ==> d.incidents[c].uncertain
      ensures ok ==> forall c :: c in d.incidents ==> d.incidents[c].state != Removing
    {
      hide Inv, IsRun, After, AllObey, NoInserts, Enabled, Apply, IdsBelow, Sane;
      if trusted {
        ok := TickTrusted(now);
        return;
      }
      ok := FinishRemovals(now, false);
      if ok {
        Doubts(d);
        ok := Take(DoubtActive);
      }
    }

    method TickTrusted(now: int) returns (ok: bool)
      requires Valid() && At(now, true) && d.clock == Some(now)
      modifies this`d, this`log
      ensures old(log) <= log
      ensures Valid() && SameRest(old(d), d) && d.incidents.Keys == old(d).incidents.Keys
      ensures reliable ==> ok
      ensures forall c :: c in d.incidents ==> Ticked(old(d).incidents[c], d.incidents[c], now, true)
      ensures ok ==> Settled(d, now)
      ensures ok ==> forall c :: c in d.incidents && old(d).incidents[c].state == Active ==> ClosedRightly(old(d), d, c)
    {
      hide Inv, IsRun, After, AllObey, NoInserts, Enabled, Apply, FullyCovered, SameEvidence, IdsBelow, Ticked, OnlyRemoved, Expired, ClosedAt;
      ok := FinishRemovals(now, true);
      ghost var finished := d;
      if !ok {
        NothingRemoved(d);
        AllTicked(old(d), finished, d, d, now);
        return;
      }
      CoverageStays(old(d), finished);
      ok := CloseDue(now);
      ghost var closed := d;
      if !ok {
        NothingRemoved(d);
        AllTicked(old(d), finished, closed, d, now);
        return;
      }
      ok := ExpireOld(now);
      AllTicked(old(d), finished, closed, d, now);
      ClosedByCoverage(old(d), finished, closed, d, now);
    }

    /** Trusted time must not run backwards; the first one after a pending loss makes its incident. */
    method ObserveClock(now: int, trusted: bool, record: bool) returns (ok: bool, effective: bool)
      requires Valid() && 0 <= now && At(now, trusted && Clock(d) <= now) && !admitting
      modifies this`d, this`log, this`nextId
      ensures Valid() && nextId >= old(nextId) && d.setup == old(d).setup && old(log) <= log
      ensures Respects(old(d), d, told)
      ensures effective <==> trusted && old(Clock(d)) <= now
      ensures effective <==> trusted && (old(d).clock.Some? ==> old(d).clock.value <= now)
      ensures ok && effective ==> Clock(d) <= now
      ensures ok && effective && record ==> d.clock == Some(now) && !d.pendingLoss
      ensures !trusted || !record || now < old(Clock(d)) ==> ok && d == old(d)
      ensures ok && !old(d).pendingLoss && record ==> d == Observed(old(d), now, effective)
      ensures reliable && roomy ==> ok
      decreases trusted, 0
    {
      hide Inv, IsRun, After, AllObey, NoInserts, Enabled, Apply, IdsBelow, Respects;
      OperationRespects(log, d, log, d, since, told);
      if now < Clock(d) {
        return true, false;
      }
      if !trusted || !record {
        return true, trusted;
      }
      Records(d, now);
      ok := Take(RecordClock(now));
      effective := true;
      if ok && d.pendingLoss {
        PendingNeedsSetup(d);
        var start := EarliestStart(d.segments, Max(0, now - PRE));
        var id;
        ok, id := Preserve(MainConnectionLost, start, now + POST, now, false, true);
      }
      OperationRespects(old(log), old(d), log, d, since, told);
    }

    /** Record an incident and protect every row of its window; optionally the one that ends a pending loss. */
    method Preserve(reason: Reason, start: int, end: int, now: int, trusted: bool, clearing: bool)
      returns (ok: bool, id: Id)
      requires Valid() && 0 <= now && At(now, trusted && Clock(d) <= now) && !admitting
      requires clearing ==> Clears(d, reason, start, end, trusted)
      modifies this`d, this`log, this`nextId
      ensures Valid() && nextId >= old(nextId) && d.setup == old(d).setup && old(log) <= log
      ensures Respects(old(d), d, told)
      ensures clearing ==> d.clock == old(d).clock
      ensures ok && clearing ==> !d.pendingLoss
      ensures ok ==> id in d.incidents && id >= old(nextId) && start < end && d.setup.Some?
      ensures ok ==> OpenIncident(id, NewIncident(d.setup.value, reason, start, end, trusted && old(Clock(d)) <= now), clearing) in log
      ensures ok ==> ProtectsWindow(d, id, d.setup.value.sources, start, end)
      ensures ok && trusted && old(Clock(d)) <= now ==> !d.pendingLoss && Settled(d, now)
      ensures reliable && roomy && start < end && old(d).setup.Some? ==> ok
      decreases trusted, 1
    {
      hide Inv, IsRun, After, AllObey, NoInserts, ProtectsWindow, IdsBelow, Respects, Settled;
      OperationRespects(log, d, log, d, since, told);
      id := 0;
      if start >= end || d.setup.None? {
        return false, id;
      }
      var admitted: bool := *;
      if !(admitted || roomy) {
        return false, id;
      }
      var effective;
      ok, effective := ObserveClock(now, trusted, true);
      admitted := *;
      if !ok || !(admitted || roomy) {
        return false, id;
      }
      ok, id := OpenAndTick(reason, start, end, now, effective, clearing);
      OperationRespects(old(log), old(d), log, d, since, told);
    }

    /** Open the incident with its protection in one step, then look after all incidents. */
    method OpenAndTick(reason: Reason, start: int, end: int, now: int, effective: bool, clearing: bool) returns (ok: bool, id: Id)
      requires Valid() && d.setup.Some? && start < end && At(now, effective) && (effective ==> d.clock == Some(now)) && !admitting
      requires clearing ==> Clears(d, reason, start, end, false)
      modifies this`d, this`log, this`nextId
      ensures Valid() && nextId > old(nextId) && id == old(nextId) && old(log) <= log
      ensures d.setup == old(d).setup && d.clock == old(d).clock && (!clearing ==> d.pendingLoss == old(d).pendingLoss)
      ensures ok && clearing ==> !d.pendingLoss
      ensures ok ==> id in d.incidents && ProtectsWindow(d, id, d.setup.value.sources, start, end)
      ensures ok ==> OpenIncident(id, NewIncident(d.setup.value, reason, start, end, effective), clearing) in log
      ensures ok && effective ==> Settled(d, now)
      ensures reliable ==> ok
    {
      hide Inv, IsRun, After, AllObey, NoInserts, ProtectsWindow, IdsBelow, FullyCovered, Ticked, Settled, Clears, ClosedRightly, NewIncident;
      ok, id := Open(reason, start, end, effective, clearing);
      if !ok {
        return;
      }
      ghost var before, recorded := log, d;
      ok := Tick(now, effective);
      OperationKeepsWindow(before, recorded, log, d, since, id, start, end);
      StillLogged(before, log, OpenIncident(id, NewIncident(d.setup.value, reason, start, end, effective), clearing));
    }

    /** One transaction: the incident, and an edge to every row of its window. */
    method Open(reason: Reason, start: int, end: int, effective: bool, clearing: bool) returns (ok: bool, id: Id)
      requires Valid() && d.setup.Some? && start < end && (clearing ==> Clears(d, reason, start, end, false))
      modifies this`d, this`log, this`nextId
      ensures Valid() && nextId > old(nextId) && id == old(nextId) && old(log) <= log && (reliable ==> ok)
      ensures d.setup == old(d).setup && d.clock == old(d).clock
      ensures d.pendingLoss == (old(d).pendingLoss && !(ok && clearing))
      ensures ok ==> d.incidents == old(d).incidents[id := NewIncident(d.setup.value, reason, start, end, effective)]
      ensures ok ==> ProtectsWindow(d, id, d.setup.value.sources, start, end)
      ensures ok ==> OpenIncident(id, NewIncident(d.setup.value, reason, start, end, effective), clearing) in log
    {
      hide Inv, IsRun, After, AllObey, NoInserts, ProtectsWindow, Enabled, Apply, IdsBelow, Clears;
      id := NewId();
      var entry := Incident(reason, start, end, None, None, Active, !effective, set x | x in d.setup.value.sources);
      Opens(d, id, entry, clearing);
      OpensWindow(d, id, entry, clearing);
      ok := Take(OpenIncident(id, entry, clearing));
    }

    /** An incident of the Owner's choosing, for movement or tampering. */
    method PreserveWindow(reason: Reason, start: int, end: int, now: int, trusted: bool) returns (ok: bool, id: Id)
      requires Valid() && 0 <= now
      modifies this`d, this`log, this`nextId, this`told, this`since, this`admitting
      ensures Valid() && old(log) <= log
      ensures Respects(old(d), d, Occasion(now, trusted && old(Clock(d)) <= now, None))
      ensures reason == MainConnectionLost ==> !ok && d == old(d)
      ensures ok ==> id in d.incidents && id !in old(d).incidents && start < end && d.setup.Some?
      ensures ok ==> OpenIncident(id, NewIncident(d.setup.value, reason, start, end, trusted && old(Clock(d)) <= now), false) in log
      ensures ok ==> ProtectsWindow(d, id, d.setup.value.sources, start, end)
      ensures reliable && roomy && reason != MainConnectionLost && start < end && old(d).setup.Some? ==> ok
    {
      hide Inv, IsRun, After, AllObey, NoInserts, IdsBelow, Respects;
      Begin(now, trusted, None);
      ok, id := false, 0;
      if reason != MainConnectionLost {
        ok, id := Preserve(reason, start, end, now, trusted, false);
        if ok {
          IdsOnlyGrow(old(d), old(nextId), id);
        }
      }
      OperationRespects(old(log), old(d), log, d, since, told);
    }

    /** The Owner deletes an incident; then the ring is trimmed. */
    method DeleteIncidentByOwner(c: Id, now: int, trusted: bool) returns (ok: bool)
      requires Valid() && 0 <= now
      modifies this`d, this`log, this`nextId, this`told, this`since, this`admitting
      ensures Valid() && old(log) <= log && (ok && c in d.incidents ==> d.incidents[c].state == Removed)
      ensures Respects(old(d), d, Occasion(now, trusted && old(Clock(d)) <= now, Some(c)))
      ensures ok && trusted && old(Clock(d)) <= now ==> TrimDone(d, now, nextId)
      ensures reliable && roomy ==> ok
    {
      hide Inv, IsRun, After, AllObey, NoInserts, IdsBelow, Respects, TrimTook, TrimLeft, LetGo, IsHorizon;
      Begin(now, trusted, Some(c));
      var effective;
      ok, effective := ObserveClock(now, trusted, true);
      if ok {
        ok := DeleteIncident(c, now, effective, ByOwner);
      }
      if ok {
        ok := Trim(now, effective);
      }
      OperationRespects(old(log), old(d), log, d, since, told);
    }

    /** A periodic trusted or untrusted tick. */
    method TickAt(now: int, trusted: bool) returns (ok: bool)
      requires Valid() && 0 <= now
      modifies this`d, this`log, this`nextId, this`told, this`since, this`admitting
      ensures Valid() && old(log) <= log
      ensures Respects(old(d), d, Occasion(now, trusted && old(Clock(d)) <= now, None))
      ensures ok && trusted && old(Clock(d)) <= now ==> Settled(d, now) && !d.pendingLoss && d.clock == Some(now)
      ensures ok && trusted && old(Clock(d)) <= now ==> TrimDone(d, now, nextId)
      ensures reliable && roomy ==> ok
    {
      hide Inv, IsRun, After, AllObey, NoInserts, IdsBelow, Respects, TrimTook, TrimLeft, IsHorizon;
      Begin(now, trusted, None);
      var effective;
      ok, effective := ObserveClock(now, trusted, true);
      if ok {
        ok := Tick(now, effective);
      }
      if ok {
        ok := Trim(now, effective);
      }
      OperationRespects(old(log), old(d), log, d, since, told);
    }

    /** The anchor of a loss without trusted time: the latest clock, or capture that continues past it. */
    method LossAnchor() returns (anchor: Option<int>)
      requires Valid() && d.setup.Some?
      ensures anchor.None? <==> d.clock.None?
      ensures anchor.Some? ==> IsLossAnchor(d, d.setup.value, anchor.value) && anchor.value >= Clock(d)
    {
      hide Inv, IsRun, After, AllObey, NoInserts, Reaches;
      SetupIsValid(d);
      var setup := d.setup.value;
      anchor := d.clock;
      var rows := Rows(d.segments);
      for i := 0 to |setup.sources|
        invariant d.clock.Some? ==> anchor.Some? && Clock(d) <= anchor.value
        invariant anchor.Some? ==> (anchor == d.clock || exists k :: 0 <= k < i && Reaches(d, setup.sources[k], setup.profiles[k].segmentDuration, anchor.value))
        invariant forall k, b :: 0 <= k < i && Reaches(d, setup.sources[k], setup.profiles[k].segmentDuration, b) ==> anchor.Some? && b <= anchor.value
        invariant d.clock.None? ==> anchor.None?
      {
        var reach := CadenceEnd(d, rows, setup.sources[i], setup.profiles[i].segmentDuration);
        if reach.Some? {
          ReachNeedsClock(d, setup.sources[i], setup.profiles[i].segmentDuration, reach.value);
          if reach.value > anchor.value {
            anchor := reach;
          }
        }
      }
    }

    /** The connection to Main, as observed: an unexpected loss is preserved, or held until time is trusted. */
    method ObserveConnection(authenticated: bool, linked: bool, unexpected: bool, now: int, trusted: bool)
      returns (ok: bool, incident: Option<Id>)
      requires Valid() && 0 <= now
      modifies this
      ensures Valid() && old(log) <= log
      ensures Respects(old(d), d, Occasion(now, trusted && old(Clock(d)) <= now, None))
      ensures ok ==> connected == (authenticated && linked)
      ensures !ok ==> connected == old(connected)
      ensures ok && old(connected) && !(authenticated && linked) && unexpected ==>
                if incident.Some? then incident.value in d.incidents && incident.value !in old(d).incidents
                else d.pendingLoss && d.clock.None?
      ensures ok && incident.Some? ==> LossPreserved(old(d), d, log, incident.value, now, trusted)
      ensures !(old(connected) && !(authenticated && linked) && unexpected) ==> incident.None?
      ensures reliable && roomy && (old(d).setup.Some? || !(old(connected) && !(authenticated && linked) && unexpected)) ==> ok
    {
      hide Inv, IsRun, After, AllObey, NoInserts, IdsBelow, Respects;
      Begin(now, trusted, None);
      ok, incident := NoteConnection(authenticated && linked, unexpected, now, trusted);
      OperationRespects(old(log), old(d), log, d, since, told);
      if ok {
        connected := authenticated && linked;
      }
    }

    /** Act on a connection that has just been observed. */
    method NoteConnection(up: bool, unexpected: bool, now: int, trusted: bool) returns (ok: bool, incident: Option<Id>)
      requires Valid() && 0 <= now && told == Occasion(now, trusted && Clock(d) <= now, None) && !admitting
      modifies this`d, this`log, this`nextId
      ensures Valid() && old(log) <= log
      ensures ok && connected && !up && unexpected ==>
                if incident.Some? then incident.value in d.incidents && incident.value !in old(d).incidents
                else d.pendingLoss && d.clock.None?
      ensures ok && incident.Some? ==> LossPreserved(old(d), d, log, incident.value, now, trusted)
      ensures !(connected && !up && unexpected) ==> incident.None?
      ensures reliable && roomy && (old(d).setup.Some? || !(connected && !up && unexpected)) ==> ok
    {
      hide Inv, IsRun, After, AllObey, NoInserts, Enabled, Apply, IsLossAnchor;
      incident := None;
      var effective;
      ok, effective := ObserveClock(now, trusted, true);
      if !ok || !(connected && !up && unexpected) {
        return;
      }
      TimeFromZero(d);
      if d.setup.None? {
        return false, None;
      }
      var anchor := Some(now);
      if !effective {
        anchor := LossAnchor();
      }
      if anchor.None? {
        Holds(d);
        ok := Take(RecordPendingLoss);
        return;
      }
      var id;
      ok, id := Preserve(MainConnectionLost, Max(0, anchor.value - PRE), anchor.value + POST, now, effective, false);
      incident := Some(id);
      if ok {
        IdsOnlyGrow(old(d), old(nextId), id);
        LossIsPreserved(old(d), d, log, id, now, trusted, anchor.value);
      }
    }

    /** Deletion intent was durable before unlink: resume it, unless an incident protects the segment by now. */
    method ResumeDeletions() returns (ok: bool)
      requires Valid()
      modifies this`d, this`log
      ensures old(log) <= log
      ensures Valid() && SameRest(old(d), d) && d.incidents == old(d).incidents
      ensures ok ==> forall s :: s in d.segments ==> d.segments[s].state != Deleting && SameRow(old(d), d, s)
      ensures reliable ==> (ok <==> forall s :: InDeletion(old(d), s) ==> !Protected(old(d), s))
    {
      hide Inv, IsRun, After, AllObey, NoInserts, Protected, Forgot;
      var ids := Listing(set s | s in d.segments && d.segments[s].state == Deleting);
      assert ids[0..] == ids;
      for i := 0 to |ids|
        invariant old(log) <= log
        invariant Valid() && SameRest(old(d), d) && d.incidents == old(d).incidents
        invariant forall s :: s in ids[i..] <==> InDeletion(d, s)
        invariant forall s :: s in ids[i..] ==> (Protected(d, s) <==> Protected(old(d), s))
        invariant forall s :: InDeletion(old(d), s) ==> s in ids[i..] || !Protected(old(d), s)
        invariant forall s :: s in d.segments ==> SameRow(old(d), d, s)
      {
        var s := ids[i];
        assert s in ids[i..];
        SuffixDropsFirst(ids, i);
        ghost var before := d;
        ok := RemoveSegment(s, 0, false);
        if !ok {
          return;
        }
        ForgotKeepsRest(before, d, s, ids[i + 1..], old(d));
        ForgotKeepsRows(before, d, s);
      }
      assert forall s :: s in d.segments ==> !InDeletion(d, s);
      ok := true;
    }

    /** Open the ledger: check every row against its file, then resume what was being deleted. */
    method Recover(corrupt: set<Id>) returns (ok: bool)
      requires Valid()
      modifies this`d, this`log, this`told, this`since, this`admitting
      ensures old(log) <= log
      ensures Valid() && SameRest(old(d), d)
      ensures Respects(old(d), d, Occasion(0, false, None))
      ensures ok ==> forall s :: s in d.segments ==> Checked(d, s, corrupt)
      ensures ok ==> forall c :: c in d.incidents ==> d.incidents[c].state != Removing
      ensures reliable ==> (ok <==> forall s :: InDeletion(old(d), s) ==> !Protected(old(d), s))
    {
      hide Inv, IsRun, After, AllObey, NoInserts, IdsBelow, Respects, Protected, InDeletion;
      Begin(0, false, None);
      ok := Reopen(corrupt);
      OperationRespects(old(log), old(d), log, d, since, told);
    }

    method Reopen(corrupt: set<Id>) returns (ok: bool)
      requires Valid()
      modifies this`d, this`log
      ensures old(log) <= log
      ensures Valid() && SameRest(old(d), d)
      ensures ok ==> forall s :: s in d.segments ==> Checked(d, s, corrupt)
      ensures ok ==> forall c :: c in d.incidents ==> d.incidents[c].state != Removing
      ensures reliable ==> (ok <==> forall s :: InDeletion(old(d), s) ==> !Protected(old(d), s))
    {
      hide Inv, IsRun, After, AllObey, NoInserts, Enabled, Apply, Protected, IdsBelow, SameEvidence;
      var states := map s | s in d.segments && d.segments[s].state != Deleting ::
                      if s !in d.files then Missing else if s in corrupt then Uncertain else Stored;
      Reconciles(d, states);
      ok := Take(Reconcile(states));
      if !ok {
        return;
      }
      ReconciledSame(old(d), d);
      ok := ResumeDeletions();
      if !ok {
        return;
      }
      ok := FinishRemovals(0, false);
    }

    /** Whether a segment may be appended; uncertain capture that does not continue its source casts doubt on open incidents. */
    method AdmitSegment(row: Segment, now: int) returns (ok: bool)
      requires Valid() && (row.trusted ==> d.clock == Some(now))
      modifies this`d, this`log
      ensures Valid() && old(log) <= log && SameRest(old(d), d)
      ensures ok <==> Admissible(old(d), row, now)
      ensures ok || row.trusted || !InBounds(old(d), row, now) ==> d == old(d)
      ensures reliable && !ok && !row.trusted && InBounds(old(d), row, now) ==>
                forall c :: c in d.incidents && d.incidents[c].state == Active ==> d.incidents[c].uncertain
    {
      hide Inv;
      if d.setup.None? {
        return false;
      }
      SetupIsValid(d);
      var profile := ProfileFor(d.setup.value, row.source);
      if profile.None? {
        return false;
      }
      FitsOnly(d.setup.value, row, profile.value);
      if row.end - row.start != profile.value.segmentDuration || row.end > now || row.length == 0
         || row.length > profile.value.SegmentBytes(false) {
        return false;
      }
      var previous := LastEnd(d.segments, row.source, row.trusted);
      if !row.trusted && (previous.None? || row.start != previous.value) {
        ok := Tick(now, false);
        return false;
      }
      return previous.None? || row.start >= previous.value;
    }

    /** In capacity mode, reclaim until the ordinary limit holds the new segment. */
    method MakeOrdinaryRoom(needed: nat, now: int, trusted: bool) returns (ok: bool)
      requires Valid() && d.setup.Some? && d.setup.value.config.Capacity? && At(now, trusted)
      modifies this`d, this`log
      ensures old(log) <= log
      ensures Valid() && SameRest(old(d), d) && d.incidents == old(d).incidents && SameChronology(old(d), d)
      ensures d.protection == old(d).protection
      ensures if trusted then Reclaims(old(d), d, now, d.setup.value.config) else d == old(d)
      ensures ok ==> Ordinary(d, nextId) + needed <= d.setup.value.config.bytes
      ensures reliable && !ok ==> Ordinary(d, nextId) + needed > d.setup.value.config.bytes
                                  && (trusted ==> forall s :: !Selected(d, s, now, d.setup.value.config))
      ensures trusted ==> OnlyAsNeeded(old(d), d, now, d.setup.value.config, needed, nextId)
    {
      hide Inv, IsRun, After, AllObey, NoInserts, IdsBelow, Selected, Forgot, Touches, Took, SizesHold, Ordinary, ByEnd, SameChronology, Reclaims, Freed, OnlyAsNeeded;
      SameChronologyHolds(d);
      var config := d.setup.value.config;
      ghost var n := nextId;
      var ordinary: int := OrdinaryBytes(d, n);
      var files := d.files;
      if trusted {
        var ids := SelectedReclaimable(d, now, config);
        SelectedAges(d, ids, now, config);
        StartsTaking(d, ids, now, config, 0, n);
        NothingFreed(d, ids);
        for i := 0 to |ids|
          invariant old(log) <= log
          invariant Valid() && SameRest(old(d), d) && d.incidents == old(d).incidents && SameChronology(old(d), d)
          invariant d.protection == old(d).protection
          invariant forall s :: Selected(d, s, now, config) <==> s in ids[i..]
          invariant Took(old(d), d, ids, i) && SizesHold(files, d, ids, i)
          invariant ordinary == Ordinary(d, n) == Ordinary(old(d), n) - Freed(old(d), ids[..i])
          invariant forall j :: 0 <= j < i ==> Ordinary(old(d), n) - Freed(old(d), ids[..j]) + needed > config.bytes
        {
          TookSoFar(old(d), d, ids, i, now, config);
          if ordinary + needed <= config.bytes {
            StillThere(old(d), d, ids, i);
            TakesAsNeeded(old(d), d, ids, i, now, config, needed, n);
            return true;
          }
          var s := ids[i];
          assert s in ids[i..];
          ghost var before := d;
          SelectedMayGo(d, s, now, config);
          ok := RemoveSegment(s, now, trusted);
          ChronologyOn(old(d), before, d, s);
          if !ok {
            TookPart(old(d), before, d, ids, i);
            PrefixReclaims(old(d), d, ids, i, now, config);
            TakesAsNeeded(old(d), d, ids, i, now, config, needed, n);
            return;
          }
          ForgotKeepsSelected(before, d, s, now, config);
          SuffixDropsFirst(ids, i);
          TookOne(old(d), before, d, ids, i);
          SizesStillHold(files, before, d, ids, i);
          TotalAfter(files, before, d, ids, i, now, config, n);
          assert ids[..i + 1] == ids[..i] + [s];
          FreedSnoc(old(d), ids[..i], s);
          ordinary := ordinary - if s in files then files[s] else 0;
        }
        TookSoFar(old(d), d, ids, |ids|, now, config);
        TakesAsNeeded(old(d), d, ids, |ids|, now, config, needed, n);
      }
      ok := ordinary + needed <= config.bytes;
    }

    /** Write the file of a provisional row; a refused write leaves the row missing. */
    method StoreFile(id: Id, bounded: bool, now: int, trusted: bool) returns (ok: bool)
      requires Valid() && d.setup.Some? && At(now, trusted) && (bounded ==> d.setup.value.config.Capacity?)
      requires id in d.segments && d.segments[id].state == Writing && id !in d.files
      modifies this`d, this`log
      ensures old(log) <= log
      ensures Valid() && SameRest(old(d), d) && d.incidents == old(d).incidents
      ensures ok ==> id in d.segments && d.segments[id].state == Stored && id in d.files && d.files[id] >= 512
      ensures ok ==> SetStored(id) in log
      ensures ok && bounded ==> Ordinary(d, nextId) <= d.setup.value.config.bytes
      ensures reliable && !ok ==> id in d.segments && d.segments[id].state == Missing
      ensures reliable && roomy && !bounded ==> ok
    {
      hide Inv, IsRun, After, AllObey, NoInserts, Enabled, Apply, Ordinary, IdsBelow, Reclaims;
      var stored := WriteProvisional(id, bounded, now, trusted);
      if !stored {
        Misses(d, id);
        ok := Take(SetMissing(id));
        return false;
      }
      Stores(d, id);
      StoredSameBytes(d, id, nextId);
      ok := Take(SetStored(id));
    }

    /** Write the file; take it back if its real allocation is not what the ring can count on. */
    method WriteProvisional(id: Id, bounded: bool, now: int, trusted: bool) returns (stored: bool)
      requires Valid() && d.setup.Some? && At(now, trusted) && (bounded ==> d.setup.value.config.Capacity?)
      requires id in d.segments && d.segments[id].state == Writing && id !in d.files
      modifies this`d, this`log
      ensures old(log) <= log
      ensures Valid() && SameRest(old(d), d) && d.incidents == old(d).incidents
      ensures id in d.segments && d.segments[id] == old(d).segments[id]
      ensures stored ==> id in d.files && d.files[id] >= 512 && (bounded ==> Ordinary(d, nextId) <= d.setup.value.config.bytes)
      ensures reliable && !stored ==> id !in d.files
      ensures reliable && roomy && !bounded ==> stored
    {
      hide Inv, IsRun, After, AllObey, NoInserts, Enabled, Apply, Ordinary, IdsBelow, Reclaims;
      var ok := FreeForWrite(now, trusted);
      if !ok {
        return false;
      }
      var blocks: nat := *;
      if roomy && blocks < 512 {
        blocks := 512;
      }
      Writes(d, id, blocks);
      ok := Take(WriteFile(id, blocks));
      if !ok {
        return false;
      }
      var total := OrdinaryBytes(d, nextId);
      if blocks < 512 || (bounded && total > d.setup.value.config.bytes) {
        Unwrites(d, id);
        ok := Take(UnlinkProvisional(id));
        return false;
      }
      return true;
    }

    /** Append one bounded segment to the ring. */
    method Append(source: SourceId, start: int, end: int, length: nat, now: int, clockTrusted: bool)
      returns (ok: bool, id: Id)
      requires Valid() && 0 <= now
      modifies this`d, this`log, this`nextId, this`told, this`since, this`admitting
      ensures Valid() && old(log) <= log
      ensures Respects(old(d), d, Occasion(now, clockTrusted && old(Clock(d)) <= now, None))
      ensures ok ==> id !in old(d).segments && SetStored(id) in log
      ensures ok ==> InsertSegment(id, Segment(source, start, end, length, Writing, clockTrusted && old(Clock(d)) <= now), now) in log
      ensures ok && clockTrusted && old(Clock(d)) <= now ==> Settled(d, now) && TrimDone(d, now, nextId)
      ensures reliable && roomy && AppendsFreely(old(d), Segment(source, start, end, length, Writing, clockTrusted && old(Clock(d)) <= now), now) ==> ok
    {
      hide Inv, IsRun, After, AllObey, NoInserts, IdsBelow, Respects, Settled, TrimDone, Admissible;
      Begin(now, clockTrusted, None);
      id := 0;
      var trusted;
      ok, trusted := ObserveClock(now, clockTrusted, true);
      if ok {
        var row := Segment(source, start, end, length, Writing, trusted);
        ok := AdmitSegment(row, now);
        var capacity: bool := *;
        ok := ok && (capacity || roomy);
        if ok {
          AdmissibleSetup(d, row, now);
          admitting := true;
          ok, id := AppendAdmitted(row, now);
          if ok {
            IdsOnlyGrow(old(d), old(nextId), id);
          }
        }
      }
      OperationRespects(old(log), old(d), log, d, since, told);
    }

    /** Trim first; in capacity mode a segment no incident will protect must then fit the ordinary limit. */
    method MakeRoom(row: Segment, now: int) returns (ok: bool, bounded: bool)
      requires Valid() && Admissible(d, row, now) && d.setup.Some? && At(now, row.trusted)
      modifies this`d, this`log
      ensures Valid() && old(log) <= log && SameRest(old(d), d) && d.incidents == old(d).incidents
      ensures if row.trusted then TakesOnlySelected(old(d), d, now, d.setup.value.config) else d == old(d)
      ensures ok ==> Admissible(d, row, now) && (bounded <==> d.setup.value.config.Capacity? && Joining(d, row, now) == {})
      ensures ok && bounded ==> Ordinary(d, nextId) + RoundUp(row.length, unit) <= d.setup.value.config.bytes
      ensures reliable && d.setup.value.config.Duration? ==> ok && !bounded
    {
      hide Inv, IsRun, After, AllObey, NoInserts, Enabled, Apply, IdsBelow, TrimTook, TrimLeft, Reclaims, Ordinary, Joining, Admissible, SameChronology, IsHorizon, TakesOnlySelected;
      var config := d.setup.value.config;
      ok := Trim(now, row.trusted);
      AdmissibleStill(old(d), d, row, now);
      if row.trusted {
        TrimTakesSelected(old(d), d, now, config, nextId);
      }
      bounded := config.Capacity? && Joining(d, row, now) == {};
      if ok && bounded {
        ghost var trimmed := d;
        ok := MakeOrdinaryRoom(RoundUp(row.length, unit), now, row.trusted);
        AdmissibleStill(trimmed, d, row, now);
        JoiningStill(trimmed, d, row, now);
        if row.trusted {
          TakesOn(old(d), trimmed, d, now, config);
        }
      }
    }

    /** Trim, make room, insert the row with its protection, write the file, and look after the incidents and the ring again. */
    method AppendAdmitted(row: Segment, now: int) returns (ok: bool, id: Id)
      requires Valid() && Admissible(d, row, now) && row.state == Writing && d.setup.Some? && At(now, row.trusted)
      requires told.now == now && admitting && (row.trusted ==> d.clock == Some(now))
      modifies this`d, this`log, this`nextId
      ensures Valid() && old(log) <= log && id >= old(nextId)
      ensures Respects(old(d), d, told)
      ensures ok ==> SetStored(id) in log && InsertSegment(id, row, now) in log
      ensures ok && row.trusted ==> Settled(d, now) && TrimDone(d, now, nextId)
      ensures ok && !row.trusted ==> forall c :: c in d.incidents && d.incidents[c].state == Active ==> d.incidents[c].uncertain
      ensures reliable && roomy && old(d).setup.value.config.Duration? ==> ok
    {
      hide Inv, IsRun, After, AllObey, NoInserts, Enabled, Apply, IdsBelow, TrimTook, TrimLeft, Reclaims, Ordinary, Joining, Admissible, SameChronology, IsHorizon;
      hide TakesOnlySelected, FullyCovered, Respects, TrimDone, Settled;
      ok, id := AppendSteps(row, now);
      OperationRespects(old(log), old(d), log, d, since, told);
    }

    method AppendSteps(row: Segment, now: int) returns (ok: bool, id: Id)
      requires Valid() && Admissible(d, row, now) && row.state == Writing && d.setup.Some? && At(now, row.trusted)
      requires told.now == now && admitting && (row.trusted ==> d.clock == Some(now))
      modifies this`d, this`log, this`nextId
      ensures Valid() && old(log) <= log && id >= old(nextId)
      ensures ok ==> SetStored(id) in log && InsertSegment(id, row, now) in log
      ensures ok && row.trusted ==> Settled(d, now) && TrimDone(d, now, nextId)
      ensures ok && !row.trusted ==> forall c :: c in d.incidents && d.incidents[c].state == Active ==> d.incidents[c].uncertain
      ensures reliable && roomy && old(d).setup.value.config.Duration? ==> ok
    {
      hide Inv, IsRun, After, AllObey, NoInserts, Enabled, Apply, IdsBelow, TrimTook, TrimLeft, Reclaims, Ordinary, Joining, Admissible, SameChronology;
      hide IsHorizon, TakesOnlySelected, FullyCovered, Ticked;
      id := nextId;
      var bounded;
      ok, bounded := MakeRoom(row, now);
      if !ok {
        return;
      }
      id := NewId();
      Inserts(d, id, row, now);
      ok := Take(InsertSegment(id, row, now));
      if !ok {
        return;
      }
      ghost var inserted := log;
      ok := StoreFile(id, bounded, now, row.trusted);
      if !ok {
        return;
      }
      ghost var stored := log;
      ok := Tick(now, row.trusted);
      if !ok {
        return;
      }
      ok := Trim(now, row.trusted);
      StillLogged(inserted, log, InsertSegment(id, row, now));
      StillLogged(stored, log, SetStored(id));
    }

    /** The Owner's configuration: before it commits, only media the current one already gives up may go. */
    method Configure(proposed: Setup, now: int, clockTrusted: bool) returns (ok: bool, committed: bool)
      requires Valid() && proposed.Valid() && 0 <= now
      modifies this`d, this`log, this`told, this`since, this`admitting
      ensures old(log) <= log && Valid() && d.incidents == old(d).incidents
      ensures Respects(old(d), d, Occasion(now, clockTrusted && old(Clock(d)) <= now, None))
      ensures ok ==> d.setup == Some(proposed) && !d.pendingLoss && forall c :: c in d.incidents ==> d.incidents[c].state != Active
      ensures d.setup == (if committed then Some(proposed) else old(d).setup) && (ok ==> committed)
      ensures forall s :: s in old(d).segments && !Unchanged(old(d), d, s) ==>
                clockTrusted && old(Clock(d)) <= now && Selected(old(d), s, now, proposed.config)
                && (GivesUp(old(d), s, now, nextId) || (committed && TrimsUnder(old(d), s, now, proposed, nextId)))
      ensures ok && clockTrusted && old(Clock(d)) <= now ==> TrimDone(d, now, nextId)
      ensures reliable && roomy && !old(d).pendingLoss && (forall c :: c in old(d).incidents ==> old(d).incidents[c].state != Active) ==> ok
    {
      hide Inv, IsRun, After, AllObey, NoInserts, IdsBelow, Respects, Selected, GivesUp, TrimsUnder, TrimDone;
      Begin(now, clockTrusted, None);
      var trusted := clockTrusted && Clock(d) <= now;
      ok, committed := Adopt(proposed, now, trusted);
      OperationRespects(old(log), old(d), log, d, since, told);
    }

    /** Reclaim for a proposal, record it, trim to it. */
    method Adopt(proposed: Setup, now: int, trusted: bool) returns (ok: bool, committed: bool)
      requires Valid() && proposed.Valid() && At(now, trusted)
      modifies this`d, this`log
      ensures old(log) <= log && Valid() && d.incidents == old(d).incidents
      ensures ok ==> d.setup == Some(proposed) && !d.pendingLoss && forall c :: c in d.incidents ==> d.incidents[c].state != Active
      ensures d.setup == (if committed then Some(proposed) else old(d).setup) && (ok ==> committed)
      ensures forall s :: s in old(d).segments && !Unchanged(old(d), d, s) ==>
                trusted && Selected(old(d), s, now, proposed.config)
                && (GivesUp(old(d), s, now, nextId) || (committed && TrimsUnder(old(d), s, now, proposed, nextId)))
      ensures ok && trusted ==> TrimDone(d, now, nextId)
      ensures reliable && roomy && !old(d).pendingLoss && (forall c :: c in old(d).incidents ==> old(d).incidents[c].state != Active) ==> ok
    {
      hide Inv, IsRun, After, AllObey, NoInserts, Enabled, Apply, Selected, IdsBelow, GivesUp, TrimsUnder, TrimTook, TrimLeft, IsHorizon, Ordinary, SameChronology;
      committed := false;
      if d.pendingLoss {
        return false, false;
      }
      if exists c :: c in d.incidents && d.incidents[c].state == Active {
        return false, false;
      }
      var admitted: bool := *;
      if !(admitted || roomy) {
        return false, false;
      }
      if trusted {
        ok := ReclaimFor(proposed, now);
        if !ok {
          return;
        }
      }
      admitted := *;
      if !(admitted || roomy) {
        return false, false;
      }
      Configures(d, proposed);
      SetupAside(d, proposed, nextId);
      committed := Take(RecordSetup(proposed));
      if !committed {
        return false, false;
      }
      ghost var recorded := d;
      ok := Trim(now, trusted);
      if trusted {
        AdoptTakes(old(d), recorded, d, now, proposed, nextId);
      }
    }

    /** Space for a proposal, from what both it and the current configuration give up. */
    method ReclaimFor(proposed: Setup, now: int) returns (ok: bool)
      requires Valid() && proposed.Valid() && At(now, true)
      modifies this`d, this`log
      ensures old(log) <= log
      ensures Valid() && SameRest(old(d), d) && d.incidents == old(d).incidents && d.protection == old(d).protection
      ensures forall s :: s in old(d).segments && !Unchanged(old(d), d, s) ==>
                Selected(old(d), s, now, proposed.config) && GivesUp(old(d), s, now, nextId)
      ensures ok ==> Ordinary(d, nextId) <= Ordinary(old(d), nextId)
      ensures reliable ==> ok
    {
      hide Inv, IsRun, After, AllObey, NoInserts, Forgot, Protected, Selected, GivesUp, Ordinary, IdsBelow, ByEnd, IsHorizon;
      var ids := ConfigurationReclaimable(d, now, proposed.config, nextId);
      SortedDistinct(d.segments, ids);
      for i := 0 to |ids|
        invariant old(log) <= log
        invariant Valid() && SameRest(old(d), d) && d.incidents == old(d).incidents && d.protection == old(d).protection
        invariant forall s :: s in ids[i..] ==> Selected(d, s, now, proposed.config)
        invariant forall s :: s in old(d).segments && s !in ids[..i] ==> Unchanged(old(d), d, s)
        invariant Ordinary(d, nextId) <= Ordinary(old(d), nextId)
      {
        var enough: bool := *;
        if enough {
          return true;
        }
        var s := ids[i];
        assert s in ids[i..];
        assert ids[..i + 1] == ids[..i] + [s];
        SuffixDropsFirst(ids, i);
        SelectedMayGo(d, s, now, proposed.config);
        ghost var before := d;
        ok := RemoveSegment(s, now, true);
        if !ok {
          return;
        }
        ForgotKeepsSelected(before, d, s, now, proposed.config);
        ForgotKeepsRows(before, d, s);
        ForgotOrdinary(before, d, s, nextId);
      }
      ok := true;
    }
  }

  lemma SortedDistinct(m: map<Id, Segment>, ids: seq<Id>)
    requires ByEnd(m, ids)
    ensures Distinct(ids)
  {
  }

  /** A row the current configuration gives up anyway: any selected one, in capacity mode only the oldest beyond its horizon or limit. */
  ghost predicate GivesUp(d: Durable, s: Id, now: int, n: nat) {
    d.setup.Some? ==>
      && d.setup.value.Valid() && Selected(d, s, now, d.setup.value.config)
      && (d.setup.value.config.Capacity? ==> exists current, horizon: nat, k: nat ::
            && IsHorizon(d.setup.value.config, d.setup.value.profiles, horizon)
            && ExactlySelected(d, current, now, d.setup.value.config)
            && LongestGivenUp(d, current, k, now, horizon, d.setup.value.config.bytes, n) && s in current[..k])
  }

  /** A row beyond the horizon of a configuration, or one of a ring over its byte limit. */
  ghost predicate TrimsUnder(d: Durable, s: Id, now: int, setup: Setup, n: nat)
    requires s in d.segments && setup.Valid()
  {
    exists horizon: nat :: IsHorizon(setup.config, setup.profiles, horizon) && MayTrim(d, s, now, setup.config, horizon, n)
  }

  /** A trusted trim is through. */
  ghost predicate TrimDone(d: Durable, now: int, n: nat) {
    d.setup.Some? && d.setup.value.Valid() && !d.pendingLoss ==>
      exists horizon: nat :: IsHorizon(d.setup.value.config, d.setup.value.profiles, horizon) && TrimLeft(d, now, d.setup.value.config, horizon, n)
  }

  ghost predicate TakesOnlySelected(before: Durable, after: Durable, now: int, config: RingConfig) {
    forall s :: s in before.segments && !Unchanged(before, after, s) ==> Selected(before, s, now, config)
  }

  lemma TrimTakesSelected(before: Durable, after: Durable, now: int, config: RingConfig, n: nat)
    requires exists horizon: nat :: TrimTook(before, after, now, config, horizon, n)
    ensures TakesOnlySelected(before, after, now, config)
  {
    hide Selected, MayTrim;
  }

  /** With protection as it was, what is selected later was selected before. */
  lemma SelectedBefore(before: Durable, after: Durable, s: Id, now: int, config: RingConfig)
    requires after.protection == before.protection && after.incidents == before.incidents && after.pendingLoss == before.pendingLoss
    requires Unchanged(before, after, s) && Selected(after, s, now, config)
    ensures Selected(before, s, now, config)
  {
    UnprotectedStays(before, after, s);
  }

  lemma TakesOn(before: Durable, mid: Durable, after: Durable, now: int, config: RingConfig)
    requires TakesOnlySelected(before, mid, now, config) && Reclaims(mid, after, now, config)
    requires mid.protection == before.protection && mid.incidents == before.incidents && mid.pendingLoss == before.pendingLoss
    ensures TakesOnlySelected(before, after, now, config)
  {
    hide Selected;
    forall s | s in before.segments && !Unchanged(before, after, s)
      ensures Selected(before, s, now, config)
    {
      if Unchanged(before, mid, s) {
        SelectedBefore(before, mid, s, now, config);
      }
    }
  }

  lemma {:induction false} SetupAside(d: Durable, setup: Setup, n: nat)
    ensures Ordinary(d.(setup := Some(setup)), n) == Ordinary(d, n)
    decreases n
  {
    if n > 0 {
      SetupAside(d, setup, n - 1);
      UnprotectedStays(d, d.(setup := Some(setup)), n - 1);
    }
  }

  lemma AdoptTakes(before: Durable, recorded: Durable, after: Durable, now: int, proposed: Setup, n: nat)
    requires proposed.Valid() && recorded.protection == before.protection && recorded.incidents == before.incidents
    requires recorded.pendingLoss == before.pendingLoss && Ordinary(recorded, n) <= Ordinary(before, n)
    requires forall s :: s in before.segments && !Unchanged(before, recorded, s) ==>
               Selected(before, s, now, proposed.config) && GivesUp(before, s, now, n)
    requires exists horizon: nat :: IsHorizon(proposed.config, proposed.profiles, horizon)
                                    && TrimTook(recorded, after, now, proposed.config, horizon, n)
    ensures forall s :: s in before.segments && !Unchanged(before, after, s) ==>
              Selected(before, s, now, proposed.config) && (GivesUp(before, s, now, n) || TrimsUnder(before, s, now, proposed, n))
  {
    hide Selected, GivesUp, IsHorizon, Ordinary;
    var horizon: nat :| IsHorizon(proposed.config, proposed.profiles, horizon) && TrimTook(recorded, after, now, proposed.config, horizon, n);
    forall s | s in before.segments && !Unchanged(before, after, s)
      ensures Selected(before, s, now, proposed.config) && (GivesUp(before, s, now, n) || TrimsUnder(before, s, now, proposed, n))
    {
      if Unchanged(before, recorded, s) {
        SelectedBefore(before, recorded, s, now, proposed.config);
        assert MayTrim(before, s, now, proposed.config, horizon, n);
      }
    }
  }

  // ---------- occasions ----------

  lemma ObeysOn(log: seq<Action>, since: nat, a: Action, o: Occasion)
    requires since <= |log| && AllObey(log[since..], o) && Obeys(a, o)
    ensures AllObey((log + [a])[since..], o)
  {
    hide Obeys;
    assert (log + [a])[since..] == log[since..] + [a];
  }

  lemma ResumeObeys(c: Id, o: Occasion)
    ensures Obeys(StartRemoval(c, Resumed), o)
  {
  }

  /** Since every step of the operation obeyed what it was told, the operation respects it. */
  lemma OperationRespects(before: seq<Action>, d: Durable, after: seq<Action>, e: Durable, since: nat, o: Occasion)
    requires IsRun(EMPTY, before) && After(EMPTY, before) == d && Inv(d) && since <= |before| && before <= after
    requires IsRun(EMPTY, after) && After(EMPTY, after) == e && AllObey(after[since..], o)
    ensures Respects(d, e, o)
  {
    var rest := after[|before|..];
    assert AllObey(rest, o) by {
      assert forall i :: 0 <= i < |rest| ==> rest[i] == after[since..][|before| - since + i];
    }
    hide Inv, IsRun, After, AllObey, NoInserts, Respects;
    assert after == before + rest;
    RunSplits(EMPTY, before, rest);
    RunRespects(d, rest, o);
  }

  /** Since the operation has inserted no row, an incident still protects just its window. */
  lemma OperationKeepsWindow(before: seq<Action>, d: Durable, after: seq<Action>, e: Durable, since: nat, c: Id, start: int, end: int)
    requires IsRun(EMPTY, before) && After(EMPTY, before) == d && since <= |before| && before <= after
    requires IsRun(EMPTY, after) && After(EMPTY, after) == e && NoInserts(after[since..])
    requires d.setup.Some? && e.setup == d.setup && ProtectsWindow(d, c, d.setup.value.sources, start, end)
    ensures ProtectsWindow(e, c, e.setup.value.sources, start, end)
  {
    var rest := after[|before|..];
    assert NoInserts(rest) by {
      assert forall i :: 0 <= i < |rest| ==> rest[i] == after[since..][|before| - since + i];
    }
    hide IsRun, After, NoInserts, ProtectsWindow;
    assert after == before + rest;
    RunSplits(EMPTY, before, rest);
    RunKeepsWindow(d, rest, c, d.setup.value.sources, start, end);
  }

  lemma OpensWindow(d: Durable, c: Id, entry: Incident, clearing: bool)
    requires Inv(d) && Enabled(d, OpenIncident(c, entry, clearing))
    ensures ProtectsWindow(Apply(d, OpenIncident(c, entry, clearing)), c, d.setup.value.sources, entry.start, entry.end)
  {
    hide Inv, Shares;
    OpenedProtects(d, OpenIncident(c, entry, clearing));
  }

  // ---------- evidence of other incidents ----------

  /** An incident has the same edges, to the same rows. */
  ghost predicate SameEvidence(before: Durable, after: Durable, c: Id) {
    forall s :: (Edge(c, s) in after.protection <==> Edge(c, s) in before.protection)
                && (Edge(c, s) in before.protection ==> Unchanged(before, after, s))
  }

  lemma EvidenceSame(d: Durable)
    requires Inv(d)
    ensures forall c :: c in d.incidents ==> SameEvidence(d, d, c)
  {
  }

  /** Letting one incident's segments go leaves those of every other one. */
  lemma OthersStay(before: Durable, after: Durable, c: Id, other: Id, now: int, trusted: bool, horizon: nat)
    requires Inv(before) && LetGo(before, after, c, now, trusted, horizon) && other != c
    ensures SameEvidence(before, after, other)
  {
    forall s | Edge(other, s) in before.protection
      ensures Unchanged(before, after, s)
    {
      assert Protects(before.(protection := before.protection - {Edge(c, s)}), other, s);
    }
  }

  /** Incidents in removal are removed but those still listed; every other one is as it was, with its evidence. */
  ghost predicate Finishing(before: Durable, after: Durable, left: seq<Id>) {
    && SameRest(before, after) && after.incidents.Keys == before.incidents.Keys
    && (forall c :: c in left <==> c in after.incidents && after.incidents[c].state == Removing)
    && (forall c :: c in before.incidents ==> OnlyRemoved(before.incidents[c], after.incidents[c]))
    && (forall c :: c in before.incidents && before.incidents[c].state != Removing ==>
          after.incidents[c] == before.incidents[c] && SameEvidence(before, after, c))
  }

  lemma StartsFinishing(d: Durable, ids: seq<Id>)
    requires Inv(d) && forall c :: c in ids <==> c in d.incidents && d.incidents[c].state == Removing
    ensures Finishing(d, d, ids[0..])
  {
    hide Inv, SameEvidence;
    assert ids[0..] == ids;
    EvidenceSame(d);
  }

  lemma NextToFinish(base: Durable, d: Durable, ids: seq<Id>, i: nat)
    requires i < |ids| && Finishing(base, d, ids[i..])
    ensures ids[i] in d.incidents && d.incidents[ids[i]].state == Removing && SameRest(base, d)
  {
    assert ids[i] in ids[i..];
  }

  lemma FinishingKeeps(before: Durable, after: Durable, left: seq<Id>)
    requires Finishing(before, after, left)
    ensures SameRest(before, after) && after.incidents.Keys == before.incidents.Keys
    ensures forall c :: c in after.incidents ==> OnlyRemoved(before.incidents[c], after.incidents[c])
    ensures forall c :: c in after.incidents && before.incidents[c].state != Removing ==>
              after.incidents[c] == before.incidents[c] && SameEvidence(before, after, c)
    ensures left == [] ==> forall c :: c in after.incidents ==> after.incidents[c].state != Removing
  {
    hide SameEvidence;
  }

  lemma FinishingPart(base: Durable, before: Durable, after: Durable, ids: seq<Id>, i: nat)
    requires i < |ids| && Finishing(base, before, ids[i..]) && SameRest(before, after) && SameIncidentsBut(before, after, ids[i])
    requires ids[i] in after.incidents && OnlyRemoved(before.incidents[ids[i]], after.incidents[ids[i]])
    ensures SameRest(base, after) && after.incidents.Keys == base.incidents.Keys
    ensures forall c :: c in after.incidents ==> OnlyRemoved(base.incidents[c], after.incidents[c])
    ensures forall c :: c in after.incidents && base.incidents[c].state != Removing ==> after.incidents[c] == base.incidents[c]
  {
    hide SameEvidence;
    assert ids[i] in ids[i..];
  }

  lemma FinishesOne(base: Durable, before: Durable, after: Durable, ids: seq<Id>, i: nat, now: int, trusted: bool)
    requires Inv(before) && i < |ids| && Distinct(ids) && Finishing(base, before, ids[i..])
    requires SameRest(before, after) && SameIncidentsBut(before, after, ids[i]) && ids[i] in after.incidents
    requires OnlyRemoved(before.incidents[ids[i]], after.incidents[ids[i]]) && after.incidents[ids[i]].state == Removed
    requires exists horizon: nat :: LetGo(before, after, ids[i], now, trusted, horizon)
    ensures Finishing(base, after, ids[i + 1..])
  {
    hide Inv, LetGo;
    FinishingPart(base, before, after, ids, i);
    SuffixDropsFirst(ids, i);
    assert ids[i] in ids[i..];
    var horizon: nat :| LetGo(before, after, ids[i], now, trusted, horizon);
    forall c | c in base.incidents && base.incidents[c].state != Removing
      ensures SameEvidence(base, after, c)
    {
      OthersStay(before, after, ids[i], c, now, trusted, horizon);
    }
  }

  lemma CoverageStays(before: Durable, after: Durable)
    requires after.incidents.Keys == before.incidents.Keys
    requires forall c :: c in after.incidents && before.incidents[c].state != Removing ==>
               SameEvidence(before, after, c) && after.incidents[c] == before.incidents[c]
    ensures forall c :: c in after.incidents && before.incidents[c].state != Removing ==> (FullyCovered(after, c) <==> FullyCovered(before, c))
  {
    forall c | c in after.incidents && before.incidents[c].state != Removing
      ensures FullyCovered(after, c) <==> FullyCovered(before, c)
    {
      forall source, t
        ensures CoveredAt(after, c, source, t) <==> CoveredAt(before, c, source, t)
      {
        if CoveredAt(before, c, source, t) {
          var s :| Edge(c, s) in before.protection && s in before.segments && Evidence(before.segments[s], source) && before.segments[s].start <= t < before.segments[s].end;
          assert Edge(c, s) in after.protection && Unchanged(before, after, s);
        }
        if CoveredAt(after, c, source, t) {
          var s :| Edge(c, s) in after.protection && s in after.segments && Evidence(after.segments[s], source) && after.segments[s].start <= t < after.segments[s].end;
          assert Edge(c, s) in before.protection && Unchanged(before, after, s);
        }
      }
    }
  }

  lemma StillLogged(before: seq<Action>, after: seq<Action>, a: Action)
    requires before <= after && a in before
    ensures a in after
  {
  }

  lemma Configures(d: Durable, setup: Setup)
    requires setup.Valid() && !d.pendingLoss && forall c :: c in d.incidents ==> d.incidents[c].state != Active
    ensures Enabled(d, RecordSetup(setup)) && Apply(d, RecordSetup(setup)) == d.(setup := Some(setup))
  {
  }

  /** Selected rows were taken oldest first, each only while the ones before it were not enough. */
  ghost predicate OnlyAsNeeded(before: Durable, after: Durable, now: int, config: RingConfig, needed: nat, n: nat)
    requires config.Capacity?
  {
    exists ids, k: nat :: ExactlySelected(before, ids, now, config) && NeededPrefix(before, after, ids, k, config.bytes, needed, n)
  }

  ghost predicate NeededPrefix(before: Durable, after: Durable, ids: seq<Id>, k: nat, bytes: nat, needed: nat, n: nat) {
    && TookPrefix(before, after, ids, k)
    && forall i :: 0 <= i <= k && i < |ids| && !Unchanged(before, after, ids[i]) ==> Ordinary(before, n) - Freed(before, ids[..i]) + needed > bytes
  }

  lemma TakesAsNeeded(before: Durable, after: Durable, ids: seq<Id>, k: nat, now: int, config: RingConfig, needed: nat, n: nat)
    requires config.Capacity? && ByEnd(before.segments, ids) && (forall s :: s in ids <==> Selected(before, s, now, config))
    requires TookPrefix(before, after, ids, k) || Took(before, after, ids, k)
    requires forall i :: 0 <= i < k ==> Ordinary(before, n) - Freed(before, ids[..i]) + needed > config.bytes
    requires k < |ids| ==> Unchanged(before, after, ids[k]) || Ordinary(before, n) - Freed(before, ids[..k]) + needed > config.bytes
    ensures OnlyAsNeeded(before, after, now, config, needed, n)
  {
    hide Selected, Ordinary, Freed, ByEnd;
    assert ExactlySelected(before, ids, now, config) && NeededPrefix(before, after, ids, k, config.bytes, needed, n);
  }

  /** The longest prefix of rows given up. */
  method EligiblePrefix(d: Durable, ids: seq<Id>, now: int, horizon: nat, bytes: nat, ghost n: nat) returns (k: nat)
    requires ByEnd(d.segments, ids) && IdsBelow(d, n)
    ensures k <= |ids|
    ensures forall i :: 0 <= i < k ==> GivenUp(d, ids, i, now, horizon, bytes, n)
    ensures k < |ids| ==> !GivenUp(d, ids, k, now, horizon, bytes, n)
  {
    hide IdsBelow, Ordinary;
    var ordinary := OrdinaryBytes(d, n);
    var excess: int := ordinary - bytes;
    k := 0;
    while k < |ids| && (excess > 0 || d.segments[ids[k]].end <= now - horizon)
      invariant k <= |ids| && excess == ordinary - bytes - Freed(d, ids[..k])
      invariant forall i :: 0 <= i < k ==> GivenUp(d, ids, i, now, horizon, bytes, n)
    {
      FreedSnoc(d, ids[..k], ids[k]);
      assert ids[..k + 1] == ids[..k] + [ids[k]];
      excess := excess - if ids[k] in d.files then d.files[ids[k]] else 0;
      k := k + 1;
    }
  }

  /** Rows a proposal may reclaim: selected by it and already given up by the current configuration. */
  method ConfigurationReclaimable(d: Durable, now: int, proposed: RingConfig, ghost n: nat) returns (ids: seq<Id>)
    requires Inv(d) && IdsBelow(d, n)
    ensures ByEnd(d.segments, ids)
    ensures forall s :: s in ids ==> Selected(d, s, now, proposed)
    ensures d.setup.None? ==> forall s :: Selected(d, s, now, proposed) ==> s in ids
    ensures forall s :: s in ids ==> GivesUp(d, s, now, n)
    ensures d.setup.Some? && d.setup.value.config.Duration? ==>
              forall s :: Selected(d, s, now, proposed) && Selected(d, s, now, d.setup.value.config) ==> s in ids
    ensures d.setup.Some? && d.setup.value.config.Capacity? ==> exists current, horizon: nat, k: nat ::
              && IsHorizon(d.setup.value.config, d.setup.value.profiles, horizon)
              && ExactlySelected(d, current, now, d.setup.value.config)
              && LongestGivenUp(d, current, k, now, horizon, d.setup.value.config.bytes, n)
              && forall s :: s in ids <==> Selected(d, s, now, proposed) && s in current[..k]
  {
    hide Inv, Selected, ByEnd, IdsBelow, GivenUp, IsHorizon;
    ids := SelectedReclaimable(d, now, proposed);
    if d.setup.None? {
      return;
    }
    SetupIsValid(d);
    var all := SelectedReclaimable(d, now, d.setup.value.config);
    var current := all;
    if d.setup.value.config.Capacity? {
      var horizon := HorizonUs(d.setup.value.config, d.setup.value.profiles);
      SelectedAges(d, all, now, d.setup.value.config);
      var k := EligiblePrefix(d, all, now, horizon, d.setup.value.config.bytes, n);
      current := all[..k];
      assert ExactlySelected(d, all, now, d.setup.value.config);
      assert LongestGivenUp(d, all, k, now, horizon, d.setup.value.config.bytes, n);
    }
    ids := Intersect(d.segments, ids, current);
    assert forall s :: s in ids ==> GivesUp(d, s, now, n);
  }

  /** A row that is admissible once its time is recorded, in a ring without byte limit or pending loss. */
  ghost predicate AppendsFreely(d: Durable, row: Segment, now: int) {
    && !d.pendingLoss && d.setup.Some? && d.setup.value.config.Duration?
    && Admissible(Observed(d, now, row.trusted), row, now)
  }

  /** A row of its profile that is not in the future. */
  ghost predicate InBounds(d: Durable, row: Segment, now: int) {
    d.setup.Some? && FitsProfile(d.setup.value, row) && row.end <= now
  }

  /** A source has one profile, so a row fits if it fits that one. */
  lemma FitsOnly(setup: Setup, row: Segment, profile: SegmentProfile)
    requires setup.Valid() && exists i :: 0 <= i < |setup.sources| && setup.sources[i] == row.source && setup.profiles[i] == profile
    ensures FitsProfile(setup, row) <==> WithinBound(profile, row)
  {
  }

  lemma AdmissibleSetup(d: Durable, row: Segment, now: int)
    requires Admissible(d, row, now)
    ensures d.setup.Some?
  {
  }

  /** Rows ending earlier may go without making a new row inadmissible, as long as it is trusted or they stay. */
  lemma AdmissibleStill(before: Durable, after: Durable, row: Segment, now: int)
    requires Admissible(before, row, now) && SameRest(before, after)
    requires if row.trusted then SameChronology(before, after) else after == before
    ensures Admissible(after, row, now)
  {
  }

  lemma JoiningStill(before: Durable, after: Durable, row: Segment, now: int)
    requires after.incidents == before.incidents
    ensures Joining(after, row, now) == Joining(before, row, now)
  {
  }

  lemma Inserts(d: Durable, id: Id, row: Segment, now: int)
    requires Inv(d) && Admissible(d, row, now) && row.state == Writing && id !in d.segments && id !in d.files
    ensures Enabled(d, InsertSegment(id, row, now))
    ensures var e := Apply(d, InsertSegment(id, row, now));
            SameRest(d, e) && id in e.segments && e.segments[id] == row && id !in e.files
  {
  }

  lemma Writes(d: Durable, id: Id, size: nat)
    requires id in d.segments && d.segments[id].state == Writing && id !in d.files
    ensures Enabled(d, WriteFile(id, size)) && Apply(d, WriteFile(id, size)) == d.(files := d.files[id := size])
  {
  }

  lemma Unwrites(d: Durable, id: Id)
    requires id in d.segments && d.segments[id].state == Writing
    ensures Enabled(d, UnlinkProvisional(id)) && Apply(d, UnlinkProvisional(id)) == d.(files := d.files - {id})
  {
  }

  lemma Misses(d: Durable, id: Id)
    requires id in d.segments && d.segments[id].state == Writing
    ensures Enabled(d, SetMissing(id)) && Apply(d, SetMissing(id)) == WithState(d, id, Missing)
  {
  }

  lemma Stores(d: Durable, id: Id)
    requires id in d.segments && d.segments[id].state == Writing && id in d.files
    ensures Enabled(d, SetStored(id)) && Apply(d, SetStored(id)) == WithState(d, id, RingSteps.Stored)
  {
  }

  lemma StoredSameBytes(d: Durable, id: Id, n: nat)
    requires id in d.segments
    ensures Ordinary(WithState(d, id, RingSteps.Stored), n) == Ordinary(d, n)
    decreases n
  {
    if n > 0 {
      StoredSameBytes(d, id, n - 1);
      UnprotectedStays(d, WithState(d, id, RingSteps.Stored), n - 1);
    }
  }

  method ProfileFor(setup: Setup, source: SourceId) returns (profile: Option<SegmentProfile>)
    requires setup.Valid()
    ensures profile.Some? <==> source in setup.sources
    ensures profile.Some? ==> profile.value.Valid()
    ensures profile.Some? ==> exists i :: 0 <= i < |setup.sources| && setup.sources[i] == source && setup.profiles[i] == profile.value
  {
    for i := 0 to |setup.sources|
      invariant source !in setup.sources[..i]
    {
      if setup.sources[i] == source {
        return Some(setup.profiles[i]);
      }
    }
    return None;
  }

  /** The latest end of a source's rows, or of its trusted rows. */
  method LastEnd(m: map<Id, Segment>, source: SourceId, onlyTrusted: bool) returns (last: Option<int>)
    ensures forall s :: s in m && m[s].source == source && (onlyTrusted ==> m[s].trusted) ==> last.Some? && m[s].end <= last.value
    ensures last.Some? ==> exists s :: s in m && m[s].source == source && (onlyTrusted ==> m[s].trusted) && m[s].end == last.value
  {
    var ids := Listing(m.Keys);
    last := None;
    for i := 0 to |ids|
      invariant forall k :: 0 <= k < i && m[ids[k]].source == source && (onlyTrusted ==> m[ids[k]].trusted)
                            ==> last.Some? && m[ids[k]].end <= last.value
      invariant last.Some? ==> exists s :: s in m && m[s].source == source && (onlyTrusted ==> m[s].trusted) && m[s].end == last.value
    {
      var row := m[ids[i]];
      if row.source == source && (onlyTrusted ==> row.trusted) && (last.None? || last.value < row.end) {
        last := Some(row.end);
      }
    }
    forall s | s in m && m[s].source == source && (onlyTrusted ==> m[s].trusted)
      ensures last.Some? && m[s].end <= last.value
    {
      assert s in ids;
    }
  }

  /** What recovery establishes of a row: its state is what its file says. */
  ghost predicate Checked(d: Durable, s: Id, corrupt: set<Id>)
    requires s in d.segments
  {
    d.segments[s].state == if s !in d.files then Missing else if s in corrupt then Uncertain else Stored
  }

  lemma IdsOnlyGrow(d: Durable, n: nat, id: Id)
    requires IdsBelow(d, n) && id >= n
    ensures id !in d.incidents && id !in d.segments
  {
  }

  /** The ring after a trusted time was recorded. */
  ghost function Observed(d: Durable, now: int, trusted: bool): Durable {
    if trusted then d.(clock := Some(now)) else d
  }

  /** The incident of a pending loss reaches back to the oldest row and forward through POST. */
  ghost predicate Clears(d: Durable, reason: Reason, start: int, end: int, trusted: bool) {
    && d.pendingLoss && d.setup.Some? && d.clock.Some? && !trusted && reason == MainConnectionLost
    && start < end && end == Clock(d) + POST
    && forall s :: s in d.segments ==> start <= d.segments[s].start
  }

  /** No window has ended unclosed, no retention has passed undeleted, no removal is unfinished. */
  ghost predicate Settled(d: Durable, now: int) {
    forall c :: c in d.incidents ==> !Due(d.incidents[c], now) && !Expired(d.incidents[c], now)
  }

  /** An active incident whose window has ended, or one whose removal is unfinished. */
  ghost predicate Due(record: Incident, now: int) {
    (record.state == Active && record.end <= now) || record.state == Removing
  }

  /** What a tick may make of an incident. */
  ghost predicate Ticked(x: Incident, y: Incident, now: int, trusted: bool) {
    if Ends(x.state) then OnlyRemoved(x, y)
    else if !trusted then y == x || (x.state == Active && y == x.(uncertain := true))
    else if x.state == Active && x.end <= now then
      y == x || (y.state != Active && y == ClosedAs(x, y.state) && (Ends(y.state) ==> x.end + RETENTION <= now))
    else if Expired(x, now) then OnlyRemoved(x, y)
    else y == x
  }

  /** A closed incident: completed at its end, kept for the retention. */
  ghost function ClosedAs(x: Incident, state: IncidentState): Incident {
    x.(state := state, completed := Some(x.end), expires := Some(x.end + RETENTION))
  }

  /** The listed incidents are removed but those still left, which are as they were, like all others. */
  ghost predicate Expiring(before: Durable, after: Durable, ids: seq<Id>, left: seq<Id>, now: int) {
    && SameRest(before, after) && after.incidents.Keys == before.incidents.Keys
    && (forall c :: c in left ==> c in ids) && (forall c :: c in ids <==> c in before.incidents && Expired(before.incidents[c], now))
    && (forall c :: c in before.incidents ==>
          if c in ids && c !in left then after.incidents[c] == before.incidents[c].(state := Removed) else after.incidents[c] == before.incidents[c])
  }

  lemma StartsExpiring(d: Durable, ids: seq<Id>, now: int)
    requires forall c :: c in ids <==> c in d.incidents && Expired(d.incidents[c], now)
    ensures Expiring(d, d, ids, ids[0..], now)
  {
    assert ids[0..] == ids;
  }

  lemma NextToExpire(base: Durable, d: Durable, ids: seq<Id>, i: nat, now: int)
    requires i < |ids| && Expiring(base, d, ids, ids[i..], now)
    ensures ids[i] in d.incidents && Expired(d.incidents[ids[i]], now) && SameRest(base, d)
  {
    assert ids[i] in ids[i..];
  }

  lemma ExpiringPart(base: Durable, before: Durable, after: Durable, ids: seq<Id>, i: nat, now: int)
    requires i < |ids| && Expiring(base, before, ids, ids[i..], now) && SameRest(before, after) && SameIncidentsBut(before, after, ids[i])
    requires ids[i] in after.incidents && OnlyRemoved(before.incidents[ids[i]], after.incidents[ids[i]])
    ensures SameRest(base, after) && after.incidents.Keys == base.incidents.Keys
    ensures forall c :: c in after.incidents && !Expired(base.incidents[c], now) ==> after.incidents[c] == base.incidents[c]
    ensures forall c :: c in after.incidents ==> OnlyRemoved(base.incidents[c], after.incidents[c])
  {
    assert ids[i] in ids[i..];
  }

  lemma ExpiresOne(base: Durable, before: Durable, after: Durable, ids: seq<Id>, i: nat, now: int)
    requires i < |ids| && Distinct(ids) && Expiring(base, before, ids, ids[i..], now)
    requires SameRest(before, after) && SameIncidentsBut(before, after, ids[i]) && ids[i] in after.incidents
    requires OnlyRemoved(before.incidents[ids[i]], after.incidents[ids[i]]) && after.incidents[ids[i]].state == Removed
    ensures Expiring(base, after, ids, ids[i + 1..], now)
  {
    SuffixDropsFirst(ids, i);
    assert ids[i] in ids[i..];
  }

  lemma ExpiringKeeps(before: Durable, after: Durable, ids: seq<Id>, left: seq<Id>, now: int)
    requires Expiring(before, after, ids, left, now) && left == []
    ensures SameRest(before, after) && after.incidents.Keys == before.incidents.Keys
    ensures forall c :: c in after.incidents && !Expired(before.incidents[c], now) ==> after.incidents[c] == before.incidents[c]
    ensures forall c :: c in after.incidents ==> OnlyRemoved(before.incidents[c], after.incidents[c])
    ensures (forall c :: c in before.incidents ==> !Due(before.incidents[c], now)) ==> Settled(after, now)
  {
  }

  /** Removals finished, then due incidents closed, then expired ones removed: that is a tick. */
  lemma TicksThrough(before: Durable, finished: Durable, closed: Durable, after: Durable, c: Id, now: int)
    requires c in before.incidents && c in finished.incidents && c in closed.incidents && c in after.incidents
    requires Sane(before.incidents[c]) && OnlyRemoved(before.incidents[c], finished.incidents[c])
    requires before.incidents[c].state != Removing ==> finished.incidents[c] == before.incidents[c]
    requires closed.incidents[c] == finished.incidents[c] || closed.incidents[c] == ClosedAt(finished, c, now)
    requires OnlyRemoved(closed.incidents[c], after.incidents[c])
    requires !Expired(closed.incidents[c], now) ==> after.incidents[c] == closed.incidents[c]
    ensures Ticked(before.incidents[c], after.incidents[c], now, true)
  {
    hide FullyCovered;
  }

  lemma AllTicked(before: Durable, finished: Durable, closed: Durable, after: Durable, now: int)
    requires Inv(before) && finished.incidents.Keys == closed.incidents.Keys == after.incidents.Keys == before.incidents.Keys
    requires forall c :: c in before.incidents ==> OnlyRemoved(before.incidents[c], finished.incidents[c])
    requires forall c :: c in before.incidents && before.incidents[c].state != Removing ==> finished.incidents[c] == before.incidents[c]
    requires forall c :: c in before.incidents ==>
               closed.incidents[c] == finished.incidents[c] || closed.incidents[c] == ClosedAt(finished, c, now)
    requires forall c :: c in before.incidents ==> OnlyRemoved(closed.incidents[c], after.incidents[c])
    requires forall c :: c in before.incidents && !Expired(closed.incidents[c], now) ==> after.incidents[c] == closed.incidents[c]
    ensures forall c :: c in after.incidents ==> Ticked(before.incidents[c], after.incidents[c], now, true)
  {
    hide FullyCovered, Ticked, ClosedAt, OnlyRemoved, Expired, FilesHaveRows, StoredHaveFiles, EdgesKnown, TrustedApart, RowsSane, SetupFirst;
    forall c | c in after.incidents
      ensures Ticked(before.incidents[c], after.incidents[c], now, true)
    {
      TicksThrough(before, finished, closed, after, c, now);
    }
  }

  /** On a tick that is through, the outcome of a closed incident is its coverage. */
  lemma ClosedByCoverage(before: Durable, finished: Durable, closed: Durable, after: Durable, now: int)
    requires finished.incidents.Keys == closed.incidents.Keys == after.incidents.Keys == before.incidents.Keys
    requires forall c :: c in before.incidents && before.incidents[c].state != Removing ==>
               finished.incidents[c] == before.incidents[c] && (FullyCovered(finished, c) <==> FullyCovered(before, c))
    requires forall c :: c in before.incidents ==> closed.incidents[c] == ClosedAt(finished, c, now)
    requires forall c :: c in before.incidents ==> OnlyRemoved(closed.incidents[c], after.incidents[c])
    ensures forall c :: c in after.incidents && before.incidents[c].state == Active ==> ClosedRightly(before, after, c)
  {
    hide FullyCovered;
  }

  /** Complete means covered with certain time, partial means not. */
  ghost predicate ClosedRightly(before: Durable, after: Durable, c: Id)
    requires c in before.incidents && c in after.incidents
  {
    && (after.incidents[c].state == Complete ==> FullyCovered(before, c) && !before.incidents[c].uncertain)
    && (after.incidents[c].state == Partial ==> !FullyCovered(before, c) || before.incidents[c].uncertain)
  }

  lemma Closes(d: Durable, c: Id, outcome: IncidentState, now: int)
    requires c in d.incidents && d.incidents[c].state == Active && d.clock == Some(now) && d.incidents[c].end <= now
    requires outcome == Partial || (outcome == Complete && FullyCovered(d, c) && !d.incidents[c].uncertain)
    ensures Enabled(d, CloseIncident(c, outcome, now))
    ensures var e := Apply(d, CloseIncident(c, outcome, now));
            && e == d.(incidents := e.incidents) && SameIncidentsBut(d, e, c)
            && e.incidents[c] == d.incidents[c].(state := outcome, completed := Some(d.incidents[c].end),
                                                 expires := Some(d.incidents[c].end + RETENTION))
  {
  }

  lemma Doubts(d: Durable)
    ensures Enabled(d, DoubtActive)
    ensures var e := Apply(d, DoubtActive);
            && e == d.(incidents := e.incidents) && e.incidents.Keys == d.incidents.Keys
            && (forall c :: c in e.incidents && e.incidents[c].state == Active ==> e.incidents[c].uncertain)
            && forall c :: c in e.incidents ==>
                 e.incidents[c] == if d.incidents[c].state == Active then d.incidents[c].(uncertain := true) else d.incidents[c]
  {
  }

  lemma Holds(d: Durable)
    requires d.setup.Some? && d.clock.None?
    ensures Enabled(d, RecordPendingLoss) && Apply(d, RecordPendingLoss) == d.(pendingLoss := true)
  {
  }

  lemma Reconciles(d: Durable, states: map<Id, SegmentState>)
    requires forall s :: s in states ==>
               && s in d.segments && d.segments[s].state != Deleting && states[s] != Deleting && states[s] != Writing
               && (states[s] == Stored ==> s in d.files)
    ensures Enabled(d, Reconcile(states))
    ensures var e := Apply(d, Reconcile(states));
            && e == d.(segments := e.segments) && e.segments.Keys == d.segments.Keys
            && forall s :: s in d.segments ==> e.segments[s].state == if s in states then states[s] else d.segments[s].state
  {
  }

  lemma ReconciledSame(d: Durable, e: Durable)
    requires e == d.(segments := e.segments)
    ensures forall s :: Protected(d, s) <==> Protected(e, s)
  {
    forall s
      ensures Protected(d, s) <==> Protected(e, s)
    {
      UnprotectedStays(d, e, s);
    }
  }

  lemma ForgotKeepsRest(before: Durable, after: Durable, gone: Id, rest: seq<Id>, base: Durable)
    requires Forgot(before, after, gone) && gone !in rest
    requires forall s :: s in rest ==> (Protected(before, s) <==> Protected(base, s))
    ensures forall s :: s in rest ==> (Protected(after, s) <==> Protected(base, s))
  {
    forall s | s in rest
      ensures Protected(after, s) <==> Protected(base, s)
    {
      ForgotKeepsProtection(before, after, gone, s);
    }
  }

  lemma Records(d: Durable, now: int)
    requires Clock(d) <= now
    ensures Enabled(d, RecordClock(now)) && Apply(d, RecordClock(now)) == d.(clock := Some(now))
  {
  }

  lemma TimeFromZero(d: Durable)
    requires Inv(d)
    ensures Clock(d) >= 0
  {
  }

  lemma PendingNeedsSetup(d: Durable)
    requires Inv(d) && d.pendingLoss
    ensures d.setup.Some?
  {
  }

  lemma Opens(d: Durable, c: Id, entry: Incident, clearing: bool)
    requires d.setup.Some? && c !in d.incidents && entry.start < entry.end
    requires entry.state == Active && entry.completed.None? && entry.expires.None?
    requires entry.sources == (set x | x in d.setup.value.sources)
    requires clearing ==> Clears(d, entry.reason, entry.start, entry.end, false)
    ensures Enabled(d, OpenIncident(c, entry, clearing))
    ensures var e := Apply(d, OpenIncident(c, entry, clearing));
            && e.clock == d.clock && e.setup == d.setup && c in e.incidents && e.pendingLoss == (d.pendingLoss && !clearing)
            && e.incidents == d.incidents[c := entry]
  {
  }

  method EarliestStart(m: map<Id, Segment>, bound: int) returns (start: int)
    ensures start <= bound && forall s :: s in m ==> start <= m[s].start
  {
    var ids := Listing(m.Keys);
    start := bound;
    for i := 0 to |ids|
      invariant start <= bound && forall k :: 0 <= k < i ==> start <= m[ids[k]].start
    {
      start := Min(start, m[ids[i]].start);
    }
    forall s | s in m
      ensures start <= m[s].start
    {
      assert s in ids;
    }
  }

  ghost function Marked(d: Durable, s: Id): Durable
    requires s in d.segments
  {
    WithState(d, s, Deleting)
  }

  ghost function Unlinked(d: Durable, s: Id): Durable
    requires s in d.segments
  {
    Marked(d, s).(files := d.files - {s})
  }

  /** The three steps of a removal enable each other and forget just that segment. */
  lemma RemovalEnabled(d: Durable, s: Id, now: int, trusted: bool)
    requires s in d.segments && !Protected(d, s)
    requires d.segments[s].state != Deleting ==> d.segments[s].state != Writing && MayRetire(d, s, now, trusted)
    ensures Enabled(d, MarkDeleting(s, now, trusted)) && Apply(d, MarkDeleting(s, now, trusted)) == Marked(d, s)
    ensures Enabled(Marked(d, s), Unlink(s)) && Apply(Marked(d, s), Unlink(s)) == Unlinked(d, s)
    ensures Enabled(Unlinked(d, s), RemoveRow(s)) && Apply(Unlinked(d, s), RemoveRow(s)) == Gone(d, s)
  {
    UnprotectedStays(d, Marked(d, s), s);
    UnprotectedStays(d, Unlinked(d, s), s);
    assert Unlinked(d, s).segments - {s} == d.segments - {s};
  }

  ghost function Gone(d: Durable, s: Id): Durable {
    d.(segments := d.segments - {s}, files := d.files - {s}, protection := set e | e in d.protection && e.segment != s)
  }

  lemma StepsKeepEdges(d: Durable, s: Id)
    requires Inv(d) && s in d.segments && !Protected(d, s)
    ensures Marked(d, s).protection == d.protection && Unlinked(d, s).protection == d.protection && Gone(d, s).protection == d.protection
    ensures SameRest(d, Marked(d, s)) && SameRest(d, Unlinked(d, s)) && SameRest(d, Gone(d, s)) && Forgot(d, Gone(d, s), s)
    ensures Marked(d, s).incidents == Unlinked(d, s).incidents == Gone(d, s).incidents == d.incidents
  {
    NoEdgeLeft(d, Gone(d, s), s);
  }

  lemma TouchesNothing(d: Durable, s: Id)
    ensures Touches(d, d, s)
  {
  }

  lemma MarkedTouches(d: Durable, s: Id)
    requires s in d.segments && d.segments[s].state != Writing
    ensures Touches(d, Marked(d, s), s) && Touches(d, Unlinked(d, s), s)
  {
  }

  lemma GoneTouches(d: Durable, s: Id)
    requires s in d.segments && d.segments[s].state != Writing
    ensures Touches(d, Gone(d, s), s)
  {
  }

  lemma DurationHorizon(config: RingConfig, profiles: seq<SegmentProfile>, horizon: nat)
    requires AllValid(profiles) && IsHorizon(config, profiles, horizon)
    ensures config.Duration? ==> horizon == config.seconds * SECOND
  {
  }

  /** When no selected row older than the horizon is left, the ring is trimmed. */
  lemma EndsTrim(d: Durable, now: int, horizon: nat, rest: seq<Id>)
    requires d.setup.Some? && d.setup.value.Valid() && !d.pendingLoss && horizon >= PRE
    requires IsHorizon(d.setup.value.config, d.setup.value.profiles, horizon)
    requires forall s :: Selected(d, s, now, d.setup.value.config) <==> s in rest
    requires forall s :: s in rest ==> s in d.segments && d.segments[s].end > now - horizon
    ensures Trimmed(d, now, horizon)
  {
    hide IsHorizon, Protected, Selected;
    forall s | s in d.segments && d.segments[s].state != Writing && !Protected(d, s)
      ensures d.segments[s].end > now - horizon
    {
      OldIsSelected(d, now, horizon, s);
    }
  }

  lemma OldIsSelected(d: Durable, now: int, horizon: nat, s: Id)
    requires d.setup.Some? && d.setup.value.Valid() && !d.pendingLoss && horizon >= PRE
    requires IsHorizon(d.setup.value.config, d.setup.value.profiles, horizon)
    requires s in d.segments && d.segments[s].state != Writing && !Protected(d, s)
    ensures d.segments[s].end <= now - horizon ==> Selected(d, s, now, d.setup.value.config)
  {
    hide IsHorizon, Protected;
    DurationHorizon(d.setup.value.config, d.setup.value.profiles, horizon);
  }

  ghost predicate SameIncidentsBut(before: Durable, after: Durable, c: Id) {
    && after.incidents.Keys == before.incidents.Keys
    && forall o :: o in before.incidents && o != c ==> after.incidents[o] == before.incidents[o]
  }

  lemma IncidentNeedsSetup(d: Durable, c: Id)
    requires Inv(d) && c in d.incidents
    ensures d.setup.Some? && d.setup.value.Valid()
  {
  }

  /** An incident is as it was, or in removal, or removed. */
  ghost predicate OnlyRemoved(x: Incident, y: Incident) {
    y == x || (Ends(y.state) && y == x.(state := y.state))
  }

  lemma NothingRemoved(d: Durable)
    ensures forall c :: c in d.incidents ==> OnlyRemoved(d.incidents[c], d.incidents[c])
  {
  }

  lemma RemovalStarts(d: Durable, c: Id, cause: Cause)
    requires c in d.incidents && MayRemove(d, d.incidents[c], cause)
    ensures Enabled(d, StartRemoval(c, cause))
    ensures var e := Apply(d, StartRemoval(c, cause));
            && e == d.(incidents := e.incidents) && SameIncidentsBut(d, e, c) && e.incidents[c] == d.incidents[c].(state := Removing)
  {
  }

  lemma RemovalFinishes(d: Durable, c: Id)
    requires c in d.incidents && d.incidents[c].state == Removing && forall s :: Edge(c, s) !in d.protection
    ensures Enabled(d, FinishRemoval(c))
    ensures var e := Apply(d, FinishRemoval(c));
            && e == d.(incidents := e.incidents) && SameIncidentsBut(d, e, c) && e.incidents[c] == d.incidents[c].(state := Removed)
  {
  }

  lemma EdgeListing(d: Durable, c: Id, edges: seq<Id>)
    requires forall s :: s in edges <==> s in (set e | e in d.protection && e.incident == c :: e.segment)
    ensures forall s :: Edge(c, s) in d.protection <==> s in edges[0..]
  {
    assert edges[0..] == edges;
    forall s
      ensures Edge(c, s) in d.protection <==> s in edges
    {
      if Edge(c, s) in d.protection {
        assert Edge(c, s).segment in (set e | e in d.protection && e.incident == c :: e.segment);
      }
    }
  }

  lemma EdgeHasRow(d: Durable, c: Id, s: Id)
    requires Inv(d) && Edge(c, s) in d.protection
    ensures s in d.segments
  {
  }

  /** Dropping an edge, with the deletion mark when nothing else owns the segment. */
  lemma EdgeDrops(d: Durable, c: Id, s: Id, mark: bool, now: int, trusted: bool)
    requires c in d.incidents && d.incidents[c].state == Removing && Edge(c, s) in d.protection && s in d.segments
    requires mark ==> MayRetire(d, s, now, trusted) && !Protected(d.(protection := d.protection - {Edge(c, s)}), s)
    ensures Enabled(d, DropEdge(c, s, mark, now, trusted))
    ensures var e := Apply(d, DropEdge(c, s, mark, now, trusted));
            && e == d.(protection := d.protection - {Edge(c, s)}, segments := e.segments)
            && s in e.segments && (mark ==> e.segments[s].state == Deleting && !Protected(e, s) && e.segments - {s} == d.segments - {s})
            && (!mark ==> e.segments == d.segments)
  {
    var a := DropEdge(c, s, mark, now, trusted);
    var dropped := d.(protection := d.protection - {Edge(c, s)});
    UnprotectedStays(dropped, Apply(d, a), s);
    if mark {
      assert Apply(d, a).segments - {s} == d.segments - {s};
    }
  }

  /** The intervals of a source's stored trusted segments that an incident protects. */
  method EvidenceIntervals(d: Durable, c: Id, source: SourceId) returns (intervals: seq<Interval>)
    ensures forall t :: Covers(intervals, t) <==> CoveredAt(d, c, source, t)
  {
    hide Covers, CoveredAt;
    var ids := Listing(set e | e in d.protection && e.incident == c :: e.segment);
    EdgeListing(d, c, ids);
    assert ids[0..] == ids;
    intervals := [];
    NothingShown(d, ids, source);
    for i := 0 to |ids|
      invariant forall t :: Covers(intervals, t) <==> ShownBy(d, ids[..i], source, t)
    {
      var s := ids[i];
      ShownSnoc(d, ids, i, source);
      ghost var before := intervals;
      if s in d.segments && d.segments[s].state == RingSteps.Stored && d.segments[s].trusted && d.segments[s].source == source {
        CoversPush(intervals, Interval(d.segments[s].start, d.segments[s].end));
        intervals := intervals + [Interval(d.segments[s].start, d.segments[s].end)];
      }
      forall t
        ensures Covers(intervals, t) <==> ShownBy(d, ids[..i + 1], source, t)
      {
        assert Covers(intervals, t) <==> Covers(before, t) || Shows(d, s, source, t);
      }
    }
    assert ids[..|ids|] == ids;
    ShownIsCovered(d, c, ids, source);
  }

  ghost predicate Shows(d: Durable, s: Id, source: SourceId, t: int) {
    s in d.segments && Evidence(d.segments[s], source) && d.segments[s].start <= t < d.segments[s].end
  }

  ghost predicate ShownBy(d: Durable, ids: seq<Id>, source: SourceId, t: int) {
    exists s :: s in ids && Shows(d, s, source, t)
  }

  lemma NothingShown(d: Durable, ids: seq<Id>, source: SourceId)
    ensures forall t :: !Covers([], t) && !ShownBy(d, ids[..0], source, t)
  {
  }

  lemma ShownSnoc(d: Durable, ids: seq<Id>, i: nat, source: SourceId)
    requires i < |ids|
    ensures forall t :: ShownBy(d, ids[..i + 1], source, t) <==> ShownBy(d, ids[..i], source, t) || Shows(d, ids[i], source, t)
  {
    assert ids[..i + 1] == ids[..i] + [ids[i]];
  }

  lemma ShownIsCovered(d: Durable, c: Id, ids: seq<Id>, source: SourceId)
    requires forall s :: Edge(c, s) in d.protection <==> s in ids
    ensures forall t :: ShownBy(d, ids, source, t) <==> CoveredAt(d, c, source, t)
  {
    forall t
      ensures ShownBy(d, ids, source, t) <==> CoveredAt(d, c, source, t)
    {
      if ShownBy(d, ids, source, t) {
        var s :| s in ids && Shows(d, s, source, t);
        assert Edge(c, s) in d.protection;
      }
      if CoveredAt(d, c, source, t) {
        var s :| Edge(c, s) in d.protection && s in d.segments && Evidence(d.segments[s], source) && d.segments[s].start <= t < d.segments[s].end;
        assert Shows(d, s, source, t);
      }
    }
  }

  lemma SetupIsValid(d: Durable)
    requires Inv(d) && d.setup.Some?
    ensures d.setup.value.Valid()
  {
  }

  lemma SameChronologyHolds(d: Durable)
    ensures SameChronology(d, d)
  {
  }

  lemma ChronologyOn(base: Durable, before: Durable, after: Durable, s: Id)
    requires SameChronology(base, before) && Touches(before, after, s)
    ensures SameChronology(base, after)
  {
  }

  /** A list of selected rows has each once, by end. */
  lemma SelectedAges(d: Durable, ids: seq<Id>, now: int, config: RingConfig)
    requires ByEnd(d.segments, ids) && forall s :: s in ids <==> Selected(d, s, now, config)
    ensures Distinct(ids) && (d.pendingLoss ==> ids == []) && forall j :: 0 <= j < |ids| ==> ids[j] in d.segments
  {
    assert ids != [] ==> ids[0] in ids;
  }

  lemma SelectedMayGo(d: Durable, s: Id, now: int, config: RingConfig)
    requires Selected(d, s, now, config) && Clock(d) <= now
    ensures s in d.segments && !Protected(d, s) && d.segments[s].state != Writing && MayRetire(d, s, now, true)
  {
  }

  lemma StartsTaking(d: Durable, ids: seq<Id>, now: int, config: RingConfig, horizon: nat, n: nat)
    requires ByEnd(d.segments, ids) && forall s :: s in ids <==> Selected(d, s, now, config)
    ensures Took(d, d, ids, 0) && SizesHold(d.files, d, ids, 0) && TrimTook(d, d, now, config, horizon, n)
    ensures ids[0..] == ids
  {
    hide Selected, Ordinary, Freed;
    TrimTakes(d, d, ids, 0, now, config, horizon, n);
  }

  lemma StillThere(before: Durable, after: Durable, ids: seq<Id>, i: nat)
    requires Took(before, after, ids, i) && i < |ids| && Distinct(ids) && ids[i] in before.segments
    ensures ids[i] in after.segments && after.segments[ids[i]] == before.segments[ids[i]]
  {
    assert ids[i] !in ids[..i];
  }

  /** A row is beyond the horizon, or the ring is over its limit with the rows before it gone. */
  ghost predicate Trims(d: Durable, ids: seq<Id>, i: nat, now: int, config: RingConfig, horizon: nat, n: nat) {
    && i < |ids| && ids[i] in d.segments
    && (d.segments[ids[i]].end <= now - horizon || (config.Capacity? && Ordinary(d, n) - Freed(d, ids[..i]) > config.bytes))
  }

  lemma Trimmable(d: Durable, ids: seq<Id>, i: nat, now: int, config: RingConfig, horizon: nat, n: nat)
    requires i < |ids| && ids[i] in d.segments
    requires d.segments[ids[i]].end <= now - horizon || (config.Capacity? && Ordinary(d, n) - Freed(d, ids[..i]) > config.bytes)
    ensures Trims(d, ids, i, now, config, horizon, n)
  {
  }

  lemma TrimsPrefix(before: Durable, after: Durable, ids: seq<Id>, k: nat, now: int, config: RingConfig, horizon: nat, n: nat)
    requires TookPrefix(before, after, ids, k)
    requires forall i :: 0 <= i < k ==> Trims(before, ids, i, now, config, horizon, n)
    requires k < |ids| && ids[k] in before.segments ==> Unchanged(before, after, ids[k]) || Trims(before, ids, k, now, config, horizon, n)
    ensures TrimmedPrefix(before, after, ids, k, now, config, horizon, n)
  {
    hide Ordinary, Freed, TookPrefix;
    forall i | 0 <= i <= k && i < |ids| && ids[i] in before.segments && !Unchanged(before, after, ids[i])
      ensures Trims(before, ids, i, now, config, horizon, n)
    {
    }
    assert k <= |ids| by {
      PrefixWithin(before, after, ids, k);
    }
  }

  lemma PrefixWithin(before: Durable, after: Durable, ids: seq<Id>, k: nat)
    requires TookPrefix(before, after, ids, k)
    ensures k <= |ids|
  {
  }

  /** When nothing is left, or the next row is within the horizon and the bytes within the limit, the trim is done. */
  lemma TrimEnds(before: Durable, after: Durable, ids: seq<Id>, i: nat, now: int, horizon: nat, n: nat)
    requires after.setup.Some? && after.setup.value.Valid() && horizon >= PRE && SameRest(before, after)
    requires IsHorizon(after.setup.value.config, after.setup.value.profiles, horizon)
    requires ByEnd(before.segments, ids) && i <= |ids| && Distinct(ids)
    requires forall s :: s in ids <==> Selected(before, s, now, after.setup.value.config)
    requires forall s :: s in ids[i..] <==> Selected(after, s, now, after.setup.value.config)
    requires Took(before, after, ids, i)
    requires i < |ids| ==> before.segments[ids[i]].end > now - horizon
                           && (after.setup.value.config.Duration? || Ordinary(after, n) <= after.setup.value.config.bytes)
    requires forall j :: 0 <= j < i ==> Trims(before, ids, j, now, after.setup.value.config, horizon, n)
    ensures TrimTook(before, after, now, after.setup.value.config, horizon, n)
    ensures !after.pendingLoss ==> TrimLeft(after, now, after.setup.value.config, horizon, n)
  {
    hide Selected, IsHorizon, Ordinary, Trimmed, Trims, TrimmedPrefix, TrimTook;
    assert i < |ids| ==> ids[i] !in ids[..i];
    TrimsPrefix(before, after, ids, i, now, after.setup.value.config, horizon, n);
    TrimTakes(before, after, ids, i, now, after.setup.value.config, horizon, n);
    if !after.pendingLoss {
      forall s | s in ids[i..]
        ensures s in after.segments && after.segments[s].end > now - horizon
      {
        LaterEnds(before.segments, ids, i);
        RestUnchanged(before, after, ids, i, s);
      }
      EndsTrim(after, now, horizon, ids[i..]);
    }
  }

  lemma RestUnchanged(before: Durable, after: Durable, ids: seq<Id>, i: nat, s: Id)
    requires Took(before, after, ids, i) && Distinct(ids) && s in ids[i..] && s in before.segments
    ensures s in after.segments && after.segments[s] == before.segments[s]
  {
    var j :| 0 <= j < |ids[i..]| && ids[i..][j] == s;
    assert ids[i + j] == s;
    assert s !in ids[..i];
  }

  lemma TookSoFar(before: Durable, after: Durable, ids: seq<Id>, i: nat, now: int, config: RingConfig)
    requires ByEnd(before.segments, ids) && (forall s :: s in ids <==> Selected(before, s, now, config))
    requires Took(before, after, ids, i)
    ensures Reclaims(before, after, now, config)
  {
    hide Selected;
    PrefixReclaims(before, after, ids, i, now, config);
  }

  lemma WritingKept(d: Durable)
    ensures KeepsWriting(d, d)
  {
  }

  lemma WritingKeptOn(base: Durable, before: Durable, after: Durable, s: Id)
    requires KeepsWriting(base, before) && Touches(before, after, s)
    ensures KeepsWriting(base, after)
  {
  }

  // ---------- letting go of an incident's segments ----------

  /** A segment that nothing owns once this incident lets it go: no other incident, and not the ring. */
  ghost predicate Released(d: Durable, c: Id, s: Id, now: int, trusted: bool, horizon: nat) {
    && s in d.segments && Edge(c, s) in d.protection && !Protected(d.(protection := d.protection - {Edge(c, s)}), s)
    && !d.pendingLoss && trusted && d.segments[s].end <= now - horizon
  }

  /** Just the released segments are gone, and the incident's edges. */
  ghost predicate LetGo(before: Durable, after: Durable, c: Id, now: int, trusted: bool, horizon: nat) {
    && (forall s :: s in before.segments ==>
          if Released(before, c, s, now, trusted, horizon) then s !in after.segments else Unchanged(before, after, s))
    && (forall e :: e in after.protection <==> e in before.protection && e.incident != c)
  }

  ghost predicate LettingGo(before: Durable, after: Durable, c: Id, done: seq<Id>, now: int, trusted: bool, horizon: nat) {
    && (forall s :: s in before.segments ==>
          if s in done && Released(before, c, s, now, trusted, horizon) then s !in after.segments else Unchanged(before, after, s))
    && (forall e :: e in after.protection <==> e in before.protection && !(e.incident == c && e.segment in done))
    && after.pendingLoss == before.pendingLoss && after.incidents == before.incidents
  }

  lemma StartsLettingGo(d: Durable, c: Id, now: int, trusted: bool, horizon: nat)
    ensures LettingGo(d, d, c, [], now, trusted, horizon)
  {
  }

  lemma NoEdgeLeft(before: Durable, after: Durable, s: Id)
    requires Inv(before) && !Protected(before, s) && Forgot(before, after, s)
    ensures after.protection == before.protection
  {
    forall e | e in before.protection
      ensures e.segment != s
    {
      assert e.segment == s ==> Protects(before, e.incident, s);
    }
  }

  lemma ReleasedStill(before: Durable, mid: Durable, c: Id, s: Id, done: seq<Id>, now: int, trusted: bool, horizon: nat)
    requires LettingGo(before, mid, c, done, now, trusted, horizon) && s !in done && s in before.segments
    ensures Released(mid, c, s, now, trusted, horizon) <==> Released(before, c, s, now, trusted, horizon)
  {
    var a, b := before.(protection := before.protection - {Edge(c, s)}), mid.(protection := mid.protection - {Edge(c, s)});
    if x :| Protects(a, x, s) {
      assert Protects(b, x, s);
    }
    if x :| Protects(b, x, s) {
      assert Protects(a, x, s);
    }
  }

  lemma LetsGoOne(before: Durable, mid: Durable, after: Durable, c: Id, edges: seq<Id>, i: nat, now: int, trusted: bool, horizon: nat)
    requires i < |edges| && Distinct(edges) && LettingGo(before, mid, c, edges[..i], now, trusted, horizon)
    requires Edge(c, edges[i]) in mid.protection && (Edge(c, edges[i]) in before.protection ==> edges[i] in before.segments)
    requires after.protection == mid.protection - {Edge(c, edges[i])} && after.pendingLoss == mid.pendingLoss && after.incidents == mid.incidents
    requires after.segments == if Released(mid, c, edges[i], now, trusted, horizon) then mid.segments - {edges[i]} else mid.segments
    ensures LettingGo(before, after, c, edges[..i + 1], now, trusted, horizon)
  {
    assert edges[..i + 1] == edges[..i] + [edges[i]];
    assert edges[i] !in edges[..i];
    ReleasedStill(before, mid, c, edges[i], edges[..i], now, trusted, horizon);
    hide Released;
  }

  lemma LetGoAll(before: Durable, after: Durable, c: Id, edges: seq<Id>, now: int, trusted: bool, horizon: nat)
    requires forall s :: Edge(c, s) in before.protection <==> s in edges
    requires LettingGo(before, after, c, edges, now, trusted, horizon)
    ensures LetGo(before, after, c, now, trusted, horizon) && forall s :: Edge(c, s) !in after.protection
  {
    hide Protected;
  }

  /** Marking the incident first and last changes nothing about its segments. */
  lemma RemovalLetsGo(before: Durable, started: Durable, emptied: Durable, after: Durable, c: Id, now: int, trusted: bool, horizon: nat)
    requires c in before.incidents && before.incidents[c].state != Removed
    requires started == before.(incidents := started.incidents) && SameIncidentsBut(before, started, c) && started.incidents[c].state == Removing
    requires LetGo(started, emptied, c, now, trusted, horizon) && after == emptied.(incidents := after.incidents)
    ensures LetGo(before, after, c, now, trusted, horizon)
  {
    forall s | s in before.segments
      ensures Released(before, c, s, now, trusted, horizon) <==> Released(started, c, s, now, trusted, horizon)
    {
      var a, b := before.(protection := before.protection - {Edge(c, s)}), started.(protection := started.protection - {Edge(c, s)});
      if x :| Protects(a, x, s) {
        assert Protects(b, x, s);
      }
      if x :| Protects(b, x, s) {
        assert Protects(a, x, s);
      }
    }
    hide Protected, Released;
  }

  // ---------- closing incidents ----------

  /** What closing makes of an incident at a trusted time. */
  ghost function ClosedAt(d: Durable, c: Id, now: int): Incident
    requires c in d.incidents
  {
    var record := d.incidents[c];
    if record.state != Active || record.end > now then record
    else record.(state := if FullyCovered(d, c) && !record.uncertain then Complete else Partial,
                 completed := Some(record.end), expires := Some(record.end + RETENTION))
  }

  /** All due incidents are closed but those still listed. */
  ghost predicate ClosingSome(before: Durable, after: Durable, left: seq<Id>, now: int) {
    && after == before.(incidents := after.incidents) && after.incidents.Keys == before.incidents.Keys
    && (forall c :: c in left ==> c in before.incidents && before.incidents[c].state == Active && before.incidents[c].end <= now)
    && (forall c :: c in before.incidents ==> after.incidents[c] == if c in left then before.incidents[c] else ClosedAt(before, c, now))
  }

  lemma StartsClosing(d: Durable, ids: seq<Id>, now: int)
    requires forall c :: c in ids <==> c in d.incidents && d.incidents[c].state == Active && d.incidents[c].end <= now
    ensures ClosingSome(d, d, ids[0..], now)
  {
    assert ids[0..] == ids;
  }

  lemma IsDue(before: Durable, after: Durable, left: seq<Id>, c: Id, now: int)
    requires ClosingSome(before, after, left, now) && left != [] && c == left[0]
    ensures c in before.incidents && c in after.incidents && after.incidents[c] == before.incidents[c]
    ensures after.incidents[c].state == Active && after.incidents[c].end <= now && after == before.(incidents := after.incidents)
  {
    assert c in left;
  }

  lemma ClosingKeeps(before: Durable, after: Durable, left: seq<Id>, now: int)
    requires ClosingSome(before, after, left, now)
    ensures after == before.(incidents := after.incidents) && after.incidents.Keys == before.incidents.Keys
    ensures forall c :: c in after.incidents && after.incidents[c].state == Removing ==> before.incidents[c].state == Removing
    ensures left == [] ==> forall c :: c in after.incidents ==> after.incidents[c] == ClosedAt(before, c, now)
    ensures left == [] ==> forall c :: c in after.incidents && after.incidents[c].state == Active ==> after.incidents[c].end > now
    ensures forall c :: c in after.incidents ==> after.incidents[c] == before.incidents[c] || after.incidents[c] == ClosedAt(before, c, now)
  {
    hide FullyCovered;
  }

  lemma ClosesOne(base: Durable, before: Durable, after: Durable, ids: seq<Id>, i: nat, now: int)
    requires i < |ids| && Distinct(ids) && ClosingSome(base, before, ids[i..], now)
    requires ids[i] in base.incidents && after == before.(incidents := after.incidents) && SameIncidentsBut(before, after, ids[i])
    requires after.incidents[ids[i]] == ClosedAt(base, ids[i], now)
    ensures ClosingSome(base, after, ids[i + 1..], now)
  {
    hide FullyCovered;
    SuffixDropsFirst(ids, i);
  }

  lemma ClosedAsBefore(before: Durable, after: Durable, c: Id, now: int)
    requires c in before.incidents && c in after.incidents && after.incidents[c] == before.incidents[c]
    requires after == before.(incidents := after.incidents)
    ensures ClosedAt(after, c, now) == ClosedAt(before, c, now)
  {
    hide FullyCovered;
    CoveredAsBefore(before, after, c);
  }

  lemma CoveredAsBefore(before: Durable, after: Durable, c: Id)
    requires c in before.incidents && c in after.incidents && after.incidents[c] == before.incidents[c]
    requires after == before.(incidents := after.incidents)
    ensures FullyCovered(after, c) <==> FullyCovered(before, c)
  {
    forall source, t
      ensures CoveredAt(after, c, source, t) <==> CoveredAt(before, c, source, t)
    {
      assert after.segments == before.segments && after.protection == before.protection;
    }
  }

  // ---------- the incident of a lost connection ----------

  /** The record an incident starts with. */
  ghost function NewIncident(setup: Setup, reason: Reason, start: int, end: int, certain: bool): Incident {
    Incident(reason, start, end, None, None, Active, !certain, set x | x in setup.sources)
  }

  ghost predicate AtCadence(row: Segment, source: SourceId, duration: int) {
    row.source == source && row.end - row.start == duration
  }

  ghost predicate RowAt(d: Durable, source: SourceId, duration: int, t: int) {
    exists s :: s in d.segments && AtCadence(d.segments[s], source, duration) && d.segments[s].start == t
  }

  /** Rows at cadence follow each other from one instant to another without a break. */
  ghost predicate Unbroken(d: Durable, source: SourceId, duration: int, from: int, until: int)
    decreases until - from
  {
    from == until || (duration > 0 && from < until && RowAt(d, source, duration, from) && Unbroken(d, source, duration, from + duration, until))
  }

  ghost predicate LastTrusted(d: Durable, source: SourceId, duration: int, end: int) {
    && (exists s :: s in d.segments && AtCadence(d.segments[s], source, duration) && d.segments[s].trusted && d.segments[s].end == end)
    && (forall s :: s in d.segments && AtCadence(d.segments[s], source, duration) && d.segments[s].trusted ==> d.segments[s].end <= end)
  }

  /** A source's capture at cadence reaches from its last trusted end without a break up to here, and no further. */
  ghost predicate Reaches(d: Durable, source: SourceId, duration: int, t: int) {
    exists from :: LastTrusted(d, source, duration, from) && Unbroken(d, source, duration, from, t) && !RowAt(d, source, duration, t)
  }

  /** The latest of the clock and what every source's capture reaches. */
  ghost predicate IsLossAnchor(d: Durable, setup: Setup, anchor: int) {
    && |setup.sources| == |setup.profiles| && d.clock.Some? && Clock(d) <= anchor
    && (anchor == Clock(d) || exists k :: 0 <= k < |setup.sources| && Reaches(d, setup.sources[k], setup.profiles[k].segmentDuration, anchor))
    && (forall k, b :: 0 <= k < |setup.sources| && Reaches(d, setup.sources[k], setup.profiles[k].segmentDuration, b) ==> b <= anchor)
  }

  lemma ReachNeedsClock(d: Durable, source: SourceId, duration: int, t: int)
    requires Inv(d) && Reaches(d, source, duration, t)
    ensures d.clock.Some?
  {
  }

  lemma {:induction false} UnbrokenGrows(d: Durable, source: SourceId, duration: int, from: int, until: int)
    requires duration > 0 && Unbroken(d, source, duration, from, until) && RowAt(d, source, duration, until)
    ensures Unbroken(d, source, duration, from, until + duration)
    decreases until - from
  {
    if from != until {
      UnbrokenGrows(d, source, duration, from + duration, until);
    }
  }

  /** The break is in one place only. */
  lemma {:induction false} ReachUnique(d: Durable, source: SourceId, duration: int, from: int, a: int, b: int)
    requires duration > 0 && Unbroken(d, source, duration, from, a) && Unbroken(d, source, duration, from, b)
    requires !RowAt(d, source, duration, a) && !RowAt(d, source, duration, b)
    ensures a == b
    decreases a - from
  {
    if from != a && from != b {
      ReachUnique(d, source, duration, from + duration, a, b);
    }
  }

  /** How far a source's capture reaches, in one pass over the rows by end. */
  method CadenceEnd(d: Durable, rows: seq<Id>, source: SourceId, duration: int) returns (reach: Option<int>)
    requires ByEnd(d.segments, rows) && (forall s :: s in d.segments ==> s in rows) && duration > 0
    ensures forall b :: Reaches(d, source, duration, b) <==> reach == Some(b)
  {
    hide Unbroken;
    var last := LastTrustedEnd(d, rows, source, duration);
    if last.None? {
      return None;
    }
    var cursor := last.value;
    StartsUnbroken(d, source, duration, cursor);
    for i := 0 to |rows|
      invariant Unbroken(d, source, duration, last.value, cursor)
      invariant forall k :: 0 <= k < i && AtCadence(d.segments[rows[k]], source, duration) ==> d.segments[rows[k]].start != cursor
    {
      var row := d.segments[rows[i]];
      if row.source == source && row.end - row.start == duration && row.start == cursor {
        assert RowAt(d, source, duration, cursor);
        UnbrokenGrows(d, source, duration, last.value, cursor);
        cursor := row.end;
      }
    }
    assert !RowAt(d, source, duration, cursor);
    forall b
      ensures Reaches(d, source, duration, b) <==> b == cursor
    {
      OnlyReach(d, source, duration, last.value, cursor, b);
    }
    return Some(cursor);
  }

  lemma StartsUnbroken(d: Durable, source: SourceId, duration: int, t: int)
    ensures Unbroken(d, source, duration, t, t)
  {
  }

  lemma OnlyReach(d: Durable, source: SourceId, duration: int, last: int, cursor: int, b: int)
    requires duration > 0 && LastTrusted(d, source, duration, last) && Unbroken(d, source, duration, last, cursor)
    requires !RowAt(d, source, duration, cursor)
    ensures Reaches(d, source, duration, b) <==> b == cursor
  {
    hide Unbroken, RowAt;
    if Reaches(d, source, duration, b) {
      var from :| LastTrusted(d, source, duration, from) && Unbroken(d, source, duration, from, b) && !RowAt(d, source, duration, b);
      assert from == last;
      ReachUnique(d, source, duration, last, cursor, b);
    }
  }

  method LastTrustedEnd(d: Durable, rows: seq<Id>, source: SourceId, duration: int) returns (last: Option<int>)
    requires ByEnd(d.segments, rows) && forall s :: s in d.segments ==> s in rows
    ensures last.Some? ==> LastTrusted(d, source, duration, last.value)
    ensures last.None? ==> forall end :: !LastTrusted(d, source, duration, end)
  {
    last := None;
    for i := 0 to |rows|
      invariant forall k :: 0 <= k < i && AtCadence(d.segments[rows[k]], source, duration) && d.segments[rows[k]].trusted ==>
                  last.Some? && d.segments[rows[k]].end <= last.value
      invariant last.Some? ==> exists s :: s in d.segments && AtCadence(d.segments[s], source, duration) && d.segments[s].trusted && d.segments[s].end == last.value
    {
      var row := d.segments[rows[i]];
      if row.source == source && row.end - row.start == duration && row.trusted {
        last := Some(row.end);
      }
    }
  }

  /** The incident of a loss: from PRE before its anchor to POST after, the anchor being now on trusted time. */
  ghost predicate LossPreserved(before: Durable, after: Durable, log: seq<Action>, c: Id, now: int, trusted: bool) {
    after.setup.Some? && exists anchor, record ::
      && OpenIncident(c, record, false) in log && LossRecord(before, record, anchor, now, trusted)
      && ProtectsWindow(after, c, after.setup.value.sources, record.start, record.end)
  }

  ghost predicate LossRecord(before: Durable, record: Incident, anchor: int, now: int, trusted: bool) {
    && record.reason == MainConnectionLost && record.start == Max(0, anchor - PRE) && record.end == anchor + POST
    && if trusted && Clock(before) <= now then anchor == now else before.setup.Some? && IsLossAnchor(before, before.setup.value, anchor)
  }

  lemma LossIsPreserved(before: Durable, after: Durable, log: seq<Action>, c: Id, now: int, trusted: bool, anchor: int)
    requires after.setup.Some? && ProtectsWindow(after, c, after.setup.value.sources, Max(0, anchor - PRE), anchor + POST)
    requires OpenIncident(c, NewIncident(after.setup.value, MainConnectionLost, Max(0, anchor - PRE), anchor + POST, trusted && Clock(before) <= now), false) in log
    requires if trusted && Clock(before) <= now then anchor == now else before.setup.Some? && IsLossAnchor(before, before.setup.value, anchor)
    ensures LossPreserved(before, after, log, c, now, trusted)
  {
    hide ProtectsWindow;
    var record := NewIncident(after.setup.value, MainConnectionLost, Max(0, anchor - PRE), anchor + POST, trusted && Clock(before) <= now);
    assert OpenIncident(c, record, false) in log && LossRecord(before, record, anchor, now, trusted);
  }
}
