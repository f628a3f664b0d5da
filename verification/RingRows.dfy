/** Views of the ledger's rows that the ring's operations share: order, selection, ordinary bytes, and what a removal leaves. */
module RingRows {
  import opened Basics
  import opened RingModels
  import opened RingSteps

  // ---------- rows in order of end ----------

  ghost predicate ByEnd(m: map<Id, Segment>, ids: seq<Id>) {
    && (forall i :: 0 <= i < |ids| ==> ids[i] in m)
    && (forall i, j :: 0 <= i < j < |ids| ==> ids[i] != ids[j] && m[ids[i]].end <= m[ids[j]].end)
  }

  function InsertByEnd(m: map<Id, Segment>, ids: seq<Id>, x: Id): seq<Id>
    requires x in m && forall i :: 0 <= i < |ids| ==> ids[i] in m
  {
    if ids == [] || m[x].end < m[ids[0]].end || (m[x].end == m[ids[0]].end && x <= ids[0]) then [x] + ids
    else [ids[0]] + InsertByEnd(m, ids[1..], x)
  }

  lemma {:induction false} InsertKeepsMembers(m: map<Id, Segment>, ids: seq<Id>, x: Id)
    requires x in m && forall i :: 0 <= i < |ids| ==> ids[i] in m
    ensures forall y :: y in InsertByEnd(m, ids, x) <==> y == x || y in ids
    decreases |ids|
  {
    if ids != [] {
      assert ids == [ids[0]] + ids[1..];
      InsertKeepsMembers(m, ids[1..], x);
    }
  }

  lemma {:induction false} InsertKeepsOrder(m: map<Id, Segment>, ids: seq<Id>, x: Id)
    requires ByEnd(m, ids) && x in m && x !in ids
    ensures ByEnd(m, InsertByEnd(m, ids, x))
    decreases |ids|
  {
    if ids != [] {
      assert ids == [ids[0]] + ids[1..];
      var rest := InsertByEnd(m, ids[1..], x);
      InsertKeepsOrder(m, ids[1..], x);
      InsertKeepsMembers(m, ids[1..], x);
      if m[x].end < m[ids[0]].end || (m[x].end == m[ids[0]].end && x <= ids[0]) {
        PutFirst(m, x, ids);
      } else {
        PutFirst(m, ids[0], rest);
      }
    }
  }

  lemma PutFirst(m: map<Id, Segment>, first: Id, rest: seq<Id>)
    requires ByEnd(m, rest) && first in m && first !in rest && (forall y :: y in rest ==> m[first].end <= m[y].end)
    ensures ByEnd(m, [first] + rest)
  {
    var r := [first] + rest;
    forall i | 0 <= i < |rest|
      ensures rest[i] != first && m[first].end <= m[rest[i]].end
    {
      assert rest[i] in rest;
    }
  }

  /** The members of a set, in some order. */
  method Listing(s: set<Id>) returns (ids: seq<Id>)
    ensures forall y :: y in ids <==> y in s
    ensures forall i, j :: 0 <= i < j < |ids| ==> ids[i] != ids[j]
  {
    ids := [];
    var rest := s;
    while true
      invariant rest <= s
      invariant forall y :: y in ids <==> y in s - rest
      invariant forall i, j :: 0 <= i < j < |ids| ==> ids[i] != ids[j]
      decreases |rest|
    {
      if x :| x in rest {
        ids := ids + [x];
        rest := rest - {x};
      } else {
        assert rest == {};
        return;
      }
    }
  }

  /** All rows, oldest end first. */
  method Rows(m: map<Id, Segment>) returns (ids: seq<Id>)
    ensures ByEnd(m, ids)
    ensures forall y :: y in ids <==> y in m
  {
    var keys := Listing(m.Keys);
    ids := [];
    for i := 0 to |keys|
      invariant ByEnd(m, ids)
      invariant forall y :: y in ids <==> y in keys[..i]
    {
      assert keys[i] !in keys[..i];
      assert keys[..i + 1] == keys[..i] + [keys[i]];
      InsertKeepsOrder(m, ids, keys[i]);
      InsertKeepsMembers(m, ids, keys[i]);
      ids := InsertByEnd(m, ids, keys[i]);
    }
    assert keys[..|keys|] == keys;
  }

  predicate HasEdge(d: Durable, s: Id) {
    exists e :: e in d.protection && e.segment == s && e.incident in d.incidents && d.incidents[e.incident].state != Removed
  }

  lemma HasEdgeIsProtected(d: Durable, s: Id)
    ensures HasEdge(d, s) <==> Protected(d, s)
  {
    if Protected(d, s) {
      var c :| Protects(d, c, s);
      assert Edge(c, s) in d.protection;
    }
    if HasEdge(d, s) {
      var e :| e in d.protection && e.segment == s && e.incident in d.incidents && d.incidents[e.incident].state != Removed;
      assert Protects(d, e.incident, s);
    }
  }

  /** Unprotected, finished and ended before the pre-loss window. */
  ghost predicate Reclaimable(d: Durable, s: Id, now: int) {
    && s in d.segments && d.segments[s].end <= now - PRE && d.segments[s].state != Writing
    && !Protected(d, s) && !d.pendingLoss
  }

  ghost predicate Selected(d: Durable, s: Id, now: int, config: RingConfig) {
    && Reclaimable(d, s, now)
    && (config.Duration? ==> d.segments[s].end <= now - config.seconds * SECOND)
  }

  method SelectedReclaimable(d: Durable, now: int, config: RingConfig) returns (ids: seq<Id>)
    ensures ByEnd(d.segments, ids)
    ensures forall s :: s in ids <==> Selected(d, s, now, config)
  {
    ids := [];
    if d.pendingLoss {
      return;
    }
    var rows := Rows(d.segments);
    for i := 0 to |rows|
      invariant ByEnd(d.segments, ids)
      invariant forall s :: s in ids <==> s in rows[..i] && Selected(d, s, now, config)
    {
      var s := rows[i];
      HasEdgeIsProtected(d, s);
      assert rows[..i + 1] == rows[..i] + [s];
      assert s !in rows[..i];
      if d.segments[s].end <= now - PRE && d.segments[s].state != Writing && !HasEdge(d, s)
         && (config.Duration? ==> d.segments[s].end <= now - config.seconds * SECOND) {
        AppendByEnd(d.segments, rows, i, ids, s);
        ids := ids + [s];
      }
    }
    assert rows[..|rows|] == rows;
  }

  lemma AppendByEnd(m: map<Id, Segment>, rows: seq<Id>, i: nat, ids: seq<Id>, s: Id)
    requires ByEnd(m, rows) && ByEnd(m, ids) && i < |rows| && s == rows[i]
    requires forall x :: x in ids ==> x in rows[..i]
    ensures ByEnd(m, ids + [s])
  {
    forall k | 0 <= k < |ids|
      ensures ids[k] != s && m[ids[k]].end <= m[s].end
    {
      assert ids[k] in rows[..i];
      var j :| 0 <= j < i && rows[j] == ids[k];
    }
  }

  /** Everything of one segment is gone, nothing else has changed. */
  ghost predicate Forgot(before: Durable, after: Durable, s: Id) {
    && after.segments == before.segments - {s} && after.files == before.files - {s}
    && after.protection == (set e | e in before.protection && e.segment != s)
    && SameRest(before, after) && after.incidents == before.incidents
  }

  ghost predicate SameMedia(before: Durable, after: Durable) {
    after.segments == before.segments && after.files == before.files
  }

  /** Time, pending loss and configuration are untouched. */
  ghost predicate SameRest(before: Durable, after: Durable) {
    after.clock == before.clock && after.pendingLoss == before.pendingLoss && after.setup == before.setup
  }

  /** Segments being written keep their row, and have or lack their file as before. */
  ghost predicate KeepsWriting(before: Durable, after: Durable) {
    forall s :: s in before.segments && before.segments[s].state == Writing ==>
      && s in after.segments && after.segments[s] == before.segments[s]
      && (s in after.files <==> s in before.files)
  }

  lemma ForgotKeepsProtection(before: Durable, after: Durable, gone: Id, s: Id)
    requires Forgot(before, after, gone) && s != gone
    ensures Protected(after, s) <==> Protected(before, s)
  {
    if Protected(before, s) {
      var c :| Protects(before, c, s);
      assert Protects(after, c, s);
    }
    if Protected(after, s) {
      var c :| Protects(after, c, s);
      assert Protects(before, c, s);
    }
  }

  lemma ForgotKeepsSelected(before: Durable, after: Durable, gone: Id, now: int, config: RingConfig)
    requires Forgot(before, after, gone)
    ensures forall s :: Selected(after, s, now, config) <==> s != gone && Selected(before, s, now, config)
  {
    forall s
      ensures Selected(after, s, now, config) <==> s != gone && Selected(before, s, now, config)
    {
      if s != gone {
        ForgotKeepsProtection(before, after, gone, s);
      }
    }
  }

  // ---------- ordinary bytes ----------

  /** Bytes a row adds to the ordinary ring: those of its file, unless an incident protects it. */
  ghost function Share(d: Durable, s: Id): nat {
    if s in d.segments && s in d.files && !Protected(d, s) then d.files[s] else 0
  }

  /** The bytes of all unprotected rows with identities below n. */
  ghost function Ordinary(d: Durable, n: nat): nat {
    if n == 0 then 0 else Ordinary(d, n - 1) + Share(d, n - 1)
  }

  ghost function SharesBelow(d: Durable, ids: seq<Id>, n: nat): nat {
    if ids == [] then 0 else (if ids[0] < n then Share(d, ids[0]) else 0) + SharesBelow(d, ids[1..], n)
  }

  ghost predicate Distinct(ids: seq<Id>) {
    forall i, j :: 0 <= i < j < |ids| ==> ids[i] != ids[j]
  }

  lemma {:induction false} SharesGrow(d: Durable, ids: seq<Id>, n: nat)
    requires Distinct(ids)
    ensures SharesBelow(d, ids, n + 1) == SharesBelow(d, ids, n) + if n in ids then Share(d, n) else 0
    decreases |ids|
  {
    hide Share;
    if ids != [] {
      assert ids == [ids[0]] + ids[1..];
      SharesGrow(d, ids[1..], n);
    }
  }

  lemma {:induction false} NoShares(d: Durable, ids: seq<Id>)
    ensures SharesBelow(d, ids, 0) == 0
    decreases |ids|
  {
    if ids != [] {
      NoShares(d, ids[1..]);
    }
  }

  lemma {:induction false} SharesAreOrdinary(d: Durable, ids: seq<Id>, n: nat)
    requires Distinct(ids) && forall s :: s in d.segments ==> s in ids
    ensures SharesBelow(d, ids, n) == Ordinary(d, n)
    decreases n
  {
    if n == 0 {
      NoShares(d, ids);
    } else {
      SharesAreOrdinary(d, ids, n - 1);
      SharesGrow(d, ids, n - 1);
    }
  }

  lemma {:induction false} SharesSnoc(d: Durable, ids: seq<Id>, s: Id, n: nat)
    ensures SharesBelow(d, ids + [s], n) == SharesBelow(d, ids, n) + if s < n then Share(d, s) else 0
    decreases |ids|
  {
    hide Share;
    if ids == [] {
      assert [s][1..] == [];
    } else {
      SharesSnoc(d, ids[1..], s, n);
      assert (ids + [s])[1..] == ids[1..] + [s];
    }
  }

  method OrdinaryBytes(d: Durable, ghost n: nat) returns (total: nat)
    requires IdsBelow(d, n)
    ensures total == Ordinary(d, n)
  {
    hide Ordinary, SharesBelow, IdsBelow;
    var rows := Rows(d.segments);
    total := 0;
    NoSharesYet(d, n);
    for i := 0 to |rows|
      invariant total == SharesBelow(d, rows[..i], n)
    {
      var s := rows[i];
      HasEdgeIsProtected(d, s);
      assert rows[..i + 1] == rows[..i] + [s];
      SharesSnoc(d, rows[..i], s, n);
      BelowBound(d, n, s);
      if s in d.files && !HasEdge(d, s) {
        total := total + d.files[s];
      }
    }
    assert rows[..|rows|] == rows;
    SharesAreOrdinary(d, rows, n);
  }

  lemma NoSharesYet(d: Durable, n: nat)
    ensures SharesBelow(d, [], n) == 0
  {
  }

  lemma BelowBound(d: Durable, n: nat, s: Id)
    requires IdsBelow(d, n) && s in d.segments
    ensures s < n
  {
  }

  /** Removing a row takes just its share away. */
  lemma {:induction false} ForgotOrdinary(before: Durable, after: Durable, gone: Id, n: nat)
    requires Forgot(before, after, gone)
    ensures Ordinary(after, n) == Ordinary(before, n) - if gone < n then Share(before, gone) else 0
    ensures gone < n ==> Share(before, gone) <= Ordinary(before, n)
    decreases n
  {
    hide Protected;
    if n > 0 {
      ForgotOrdinary(before, after, gone, n - 1);
      if n - 1 != gone {
        ForgotKeepsProtection(before, after, gone, n - 1);
      }
    }
  }

  // ---------- what a reclamation may take ----------

  ghost predicate Unchanged(before: Durable, after: Durable, s: Id) {
    s in before.segments && s in after.segments && after.segments[s] == before.segments[s]
  }

  /** Only selected rows were touched, and none before an older selected one. */
  ghost predicate Reclaims(before: Durable, after: Durable, now: int, config: RingConfig) {
    && (forall s :: s in before.segments && !Unchanged(before, after, s) ==> Selected(before, s, now, config))
    && (forall s, t :: s in before.segments && !Unchanged(before, after, s) && Unchanged(before, after, t) && Selected(before, t, now, config)
                       ==> before.segments[s].end <= before.segments[t].end)
  }

  /** Whatever of a removal has happened, only that segment is touched. */
  ghost predicate Touches(before: Durable, after: Durable, s: Id) {
    && SameRest(before, after) && after.incidents == before.incidents
    && KeepsWriting(before, after) && SameChronology(before, after)
    && forall o :: o != s && o in before.segments ==> o in after.segments && after.segments[o] == before.segments[o]
  }

  /** Of a list, just the first k rows are gone. */
  ghost predicate Took(before: Durable, after: Durable, ids: seq<Id>, k: nat) {
    && k <= |ids| && (forall j :: 0 <= j < k ==> ids[j] !in after.segments)
    && (forall s :: s in before.segments && s !in ids[..k] ==> Unchanged(before, after, s))
  }

  lemma TookOne(before: Durable, mid: Durable, after: Durable, ids: seq<Id>, k: nat)
    requires Took(before, mid, ids, k) && k < |ids| && Forgot(mid, after, ids[k])
    ensures Took(before, after, ids, k + 1)
  {
    assert ids[..k + 1] == ids[..k] + [ids[k]];
  }

  lemma TookPart(before: Durable, mid: Durable, after: Durable, ids: seq<Id>, k: nat)
    requires Took(before, mid, ids, k) && k < |ids| && Touches(mid, after, ids[k])
    ensures TookPrefix(before, after, ids, k)
  {
    forall j | 0 <= j < k
      ensures ids[j] !in after.segments
    {
      assert ids[j] !in mid.segments;
    }
  }

  /** The first k of a list are gone, the next may be in removal, the rest is as before. */
  ghost predicate TookPrefix(before: Durable, after: Durable, ids: seq<Id>, k: nat) {
    && k <= |ids| && (forall j :: 0 <= j < k ==> ids[j] !in after.segments)
    && (forall s :: s in before.segments && s !in ids[..k] && !(k < |ids| && s == ids[k]) ==> Unchanged(before, after, s))
  }

  lemma PrefixReclaims(before: Durable, after: Durable, ids: seq<Id>, k: nat, now: int, config: RingConfig)
    requires ByEnd(before.segments, ids) && (forall s :: s in ids <==> Selected(before, s, now, config))
    requires TookPrefix(before, after, ids, k)
    ensures Reclaims(before, after, now, config)
  {
    hide Selected;
    forall s | s in before.segments && !Unchanged(before, after, s)
      ensures Selected(before, s, now, config) && exists i :: 0 <= i <= k && i < |ids| && ids[i] == s
    {
      if s in ids[..k] {
        var i :| 0 <= i < k && ids[..k][i] == s;
        assert ids[i] == s;
      } else {
        assert ids[k] == s;
      }
    }
    forall s, t | s in before.segments && !Unchanged(before, after, s) && Unchanged(before, after, t) && Selected(before, t, now, config)
      ensures before.segments[s].end <= before.segments[t].end
    {
      var i :| 0 <= i <= k && i < |ids| && ids[i] == s;
      var j :| 0 <= j < |ids| && ids[j] == t;
      assert j >= k;
    }
  }

  lemma SuffixDropsFirst(ids: seq<Id>, i: nat)
    requires i < |ids| && forall j, k :: 0 <= j < k < |ids| ==> ids[j] != ids[k]
    ensures forall s :: s in ids[i + 1..] <==> s in ids[i..] && s != ids[i]
  {
    assert ids[i..] == [ids[i]] + ids[i + 1..];
  }

  lemma LaterEnds(m: map<Id, Segment>, ids: seq<Id>, i: nat)
    requires ByEnd(m, ids) && i < |ids|
    ensures forall s :: s in ids[i..] ==> s in m && m[s].end >= m[ids[i]].end
  {
    forall s | s in ids[i..]
      ensures s in m && m[s].end >= m[ids[i]].end
    {
      var j :| 0 <= j < |ids[i..]| && ids[i..][j] == s;
      assert ids[i + j] == s;
    }
  }

  /** The members of one list that are in another, in order. */
  method Intersect(m: map<Id, Segment>, ids: seq<Id>, allowed: seq<Id>) returns (both: seq<Id>)
    requires ByEnd(m, ids)
    ensures ByEnd(m, both) && forall s :: s in both <==> s in ids && s in allowed
  {
    hide ByEnd;
    both := [];
    NoRows(m);
    for i := 0 to |ids|
      invariant ByEnd(m, both)
      invariant forall s :: s in both <==> s in ids[..i] && s in allowed
    {
      assert ids[..i + 1] == ids[..i] + [ids[i]];
      if ids[i] in allowed {
        AppendByEnd(m, ids, i, both, ids[i]);
        both := both + [ids[i]];
      }
    }
    assert ids[..|ids|] == ids;
  }

  lemma NoRows(m: map<Id, Segment>)
    ensures ByEnd(m, [])
  {
  }

  lemma ForgotKeepsRows(before: Durable, after: Durable, gone: Id)
    requires Forgot(before, after, gone)
    ensures forall s :: s in after.segments <==> s in before.segments && s != gone
    ensures forall s :: s in after.segments ==> SameRow(before, after, s)
    ensures forall s :: InDeletion(after, s) <==> InDeletion(before, s) && s != gone
  {
  }

  ghost predicate SameRow(before: Durable, after: Durable, s: Id)
    requires s in after.segments
  {
    s in before.segments && after.segments[s] == before.segments[s] && (s in after.files <==> s in before.files)
  }

  ghost predicate InDeletion(d: Durable, s: Id) {
    s in d.segments && d.segments[s].state == Deleting
  }

  /** Steps that leave edges and incidents alone leave a segment unprotected. */
  lemma UnprotectedStays(before: Durable, after: Durable, s: Id)
    requires after.protection == before.protection && after.incidents == before.incidents
    ensures Protected(after, s) <==> Protected(before, s)
  {
    if Protected(after, s) {
      var c :| Protects(after, c, s);
      assert Protects(before, c, s);
    }
    if Protected(before, s) {
      var c :| Protects(before, c, s);
      assert Protects(after, c, s);
    }
  }

  /** No finished, unprotected segment is older than the horizon. */
  ghost predicate Trimmed(d: Durable, now: int, horizon: nat) {
    forall s :: s in d.segments && d.segments[s].state != Writing && !Protected(d, s)
                ==> d.segments[s].end > now - horizon
  }

  /** What a finished trim has left: nothing beyond the horizon, and in capacity mode nothing over the limit that could go. */
  ghost predicate TrimLeft(d: Durable, now: int, config: RingConfig, horizon: nat, n: nat) {
    && Trimmed(d, now, horizon)
    && (config.Capacity? ==> Ordinary(d, n) <= config.bytes || forall s :: !Selected(d, s, now, config))
  }

  /** Bytes of the files of some rows. */
  ghost function Freed(d: Durable, ids: seq<Id>): nat {
    if ids == [] then 0 else (if ids[0] in d.files then d.files[ids[0]] else 0) + Freed(d, ids[1..])
  }

  lemma NothingFreed(d: Durable, ids: seq<Id>)
    ensures Freed(d, ids[..0]) == 0
  {
  }

  lemma {:induction false} FreedSnoc(d: Durable, ids: seq<Id>, s: Id)
    ensures Freed(d, ids + [s]) == Freed(d, ids) + if s in d.files then d.files[s] else 0
    decreases |ids|
  {
    if ids == [] {
      assert [s][1..] == [];
    } else {
      FreedSnoc(d, ids[1..], s);
      assert (ids + [s])[1..] == ids[1..] + [s];
    }
  }

  /** A row a capacity ring gives up anyway: beyond its horizon, or over its byte limit once the rows before it are gone. */
  ghost predicate GivenUp(d: Durable, ids: seq<Id>, i: nat, now: int, horizon: nat, bytes: nat, n: nat)
    requires i < |ids| && ids[i] in d.segments
  {
    d.segments[ids[i]].end <= now - horizon || Ordinary(d, n) - Freed(d, ids[..i]) > bytes
  }

  ghost predicate ExactlySelected(d: Durable, ids: seq<Id>, now: int, config: RingConfig) {
    ByEnd(d.segments, ids) && forall s :: s in ids <==> Selected(d, s, now, config)
  }

  ghost predicate LongestGivenUp(d: Durable, ids: seq<Id>, k: nat, now: int, horizon: nat, bytes: nat, n: nat) {
    && k <= |ids| && (forall i :: 0 <= i < |ids| ==> ids[i] in d.segments)
    && (forall i :: 0 <= i < k ==> GivenUp(d, ids, i, now, horizon, bytes, n))
    && (k < |ids| ==> !GivenUp(d, ids, k, now, horizon, bytes, n))
  }

  /** What a trim may have taken: selected rows, oldest first, each beyond the horizon or of a ring still over its byte limit. */
  ghost predicate TrimTook(before: Durable, after: Durable, now: int, config: RingConfig, horizon: nat, n: nat) {
    && Reclaims(before, after, now, config)
    && (forall s :: s in before.segments && !Unchanged(before, after, s) ==> MayTrim(before, s, now, config, horizon, n))
    && (exists ids, k: nat :: ExactlySelected(before, ids, now, config) && TrimmedPrefix(before, after, ids, k, now, config, horizon, n))
  }

  /** Each row was taken with the ones before it gone. */
  ghost predicate TrimmedPrefix(before: Durable, after: Durable, ids: seq<Id>, k: nat, now: int, config: RingConfig, horizon: nat, n: nat) {
    && TookPrefix(before, after, ids, k)
    && forall i :: 0 <= i <= k && i < |ids| && ids[i] in before.segments && !Unchanged(before, after, ids[i]) ==>
         before.segments[ids[i]].end <= now - horizon || (config.Capacity? && Ordinary(before, n) - Freed(before, ids[..i]) > config.bytes)
  }

  ghost predicate MayTrim(before: Durable, s: Id, now: int, config: RingConfig, horizon: nat, n: nat)
    requires s in before.segments
  {
    before.segments[s].end <= now - horizon || (config.Capacity? && Ordinary(before, n) > config.bytes)
  }

  lemma TrimTakes(before: Durable, after: Durable, ids: seq<Id>, k: nat, now: int, config: RingConfig, horizon: nat, n: nat)
    requires ByEnd(before.segments, ids) && (forall s :: s in ids <==> Selected(before, s, now, config))
    requires TrimmedPrefix(before, after, ids, k, now, config, horizon, n)
    ensures TrimTook(before, after, now, config, horizon, n)
  {
    hide Selected, Ordinary, Freed;
    PrefixReclaims(before, after, ids, k, now, config);
    assert ExactlySelected(before, ids, now, config);
    forall s | s in before.segments && !Unchanged(before, after, s)
      ensures MayTrim(before, s, now, config, horizon, n)
    {
      if s in ids[..k] {
        var i :| 0 <= i < k && ids[..k][i] == s;
        assert ids[i] == s;
      } else {
        assert ids[k] == s;
      }
    }
  }

  /** Sizes as first listed still hold for what has not been removed. */
  ghost predicate SizesHold(files: map<Id, nat>, d: Durable, ids: seq<Id>, k: nat)
    requires k <= |ids|
  {
    forall s :: s !in ids[..k] ==> (s in d.files <==> s in files) && (s in files ==> d.files[s] == files[s])
  }

  lemma SizesStillHold(files: map<Id, nat>, before: Durable, after: Durable, ids: seq<Id>, k: nat)
    requires k < |ids| && SizesHold(files, before, ids, k) && Forgot(before, after, ids[k])
    ensures SizesHold(files, after, ids, k + 1)
  {
    assert ids[..k + 1] == ids[..k] + [ids[k]];
  }

  /** The running total after a removal, from the sizes as first listed. */
  lemma TotalAfter(files: map<Id, nat>, before: Durable, after: Durable, ids: seq<Id>, k: nat, now: int, config: RingConfig, n: nat)
    requires k < |ids| && Distinct(ids) && SizesHold(files, before, ids, k) && Forgot(before, after, ids[k]) && IdsBelow(before, n)
    requires Selected(before, ids[k], now, config)
    ensures Ordinary(after, n) == Ordinary(before, n) - if ids[k] in files then files[ids[k]] else 0
  {
    assert ids[k] !in ids[..k];
    hide Ordinary, Forgot;
    BelowBound(before, n, ids[k]);
    ForgotOrdinary(before, after, ids[k], n);
  }
}
