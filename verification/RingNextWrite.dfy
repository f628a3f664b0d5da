/**
 Whether any source's next bounded segment would be refused.

 The specification is a plain simulation, one microsecond after another, of every
 append of every source up to the slowest source's next one. The method is the
 compressed check: append counts in closed form, and one test per interval in
 which the reclaimed space does not change. They agree.
 */
module RingNextWrite {
  import opened Basics
  import opened RingArithmetic
  import opened RingModels
  import opened RingCharge
  import opened RingChargeLaws

  /** A configured source, the end of its last trusted segment, and its recent allocations. */
  datatype Source = Source(id: nat, cadence: int, last: Option<int>, recent: Recent)

  /** An unprotected segment that is not being written: its end, and the space it gives back when it ages out. */
  datatype Aging = Aging(end: int, allocation: nat)

  /** The window and sources of an active, complete or partial incident. */
  datatype Shield = Shield(start: int, end: int, sources: set<nat>)

  datatype Situation = Situation(
    now: int, trusted: bool, pendingLoss: bool, config: RingConfig,
    sources: seq<Source>, stored: seq<Aging>, incidents: seq<Shield>,
    free: int, reserve: int, headroom: int, unit: int)
  {
    ghost predicate Valid() {
      && config.Valid() && sources != [] && unit > 0
      && forall i :: 0 <= i < |sources| ==> SECOND <= sources[i].cadence <= PRE && Sound(sources[i].recent, unit)
    }

    /** Trusted segments end no later than trusted time. */
    ghost predicate Chronological() {
      trusted ==> forall i :: 0 <= i < |sources| && sources[i].last.Some? ==> sources[i].last.value <= now
    }

    function Window(): int {
      if config.Duration? then config.seconds * SECOND else PRE
    }

    /** The earliest time a source can append its next segment. */
    function Next(s: Source): int {
      if !trusted || s.last.None? then now else Max(now, s.last.value + s.cadence)
    }

    /** A source whose next segment's interval is known: not overdue. */
    predicate Phased(s: Source) {
      trusted && s.last.Some? && s.last.value + s.cadence >= now
    }

    function LatestOf(part: seq<Source>): (t: int)
      requires part != []
      ensures exists i :: 0 <= i < |part| && t == Next(part[i])
      ensures forall i :: 0 <= i < |part| ==> Next(part[i]) <= t
    {
      if |part| == 1 then Next(part[0])
      else
        assert forall i :: 1 <= i < |part| ==> part[1..][i - 1] == part[i];
        var rest := LatestOf(part[1..]);
        assert exists i :: 0 <= i < |part[1..]| && rest == Next(part[1..][i]);
        if Next(part[0]) >= rest then Next(part[0]) else rest
    }

    /** The slowest source's next append: the simulation's horizon. */
    function Latest(): int
      requires sources != []
    {
      LatestOf(sources)
    }
  }

  // ---------- the full simulation ----------

  ghost predicate AppendsAt(n: Situation, s: Source, t: int)
    requires s.cadence > 0
  {
    t >= n.Next(s) && (t - n.Next(s)) % s.cadence == 0
  }

  /** Appends of a source through instant t, counted one instant at a time. */
  ghost function Simulated(n: Situation, s: Source, t: int): nat
    requires s.cadence > 0
    decreases t - n.now
  {
    if t < n.now then 0 else Simulated(n, s, t - 1) + if AppendsAt(n, s, t) then 1 else 0
  }

  /** A retained incident would protect the segment a source appends at t. */
  ghost predicate Shielded(n: Situation, s: Source, t: int) {
    exists i :: 0 <= i < |n.incidents| && Shields(n.incidents[i], s, t)
  }

  predicate Shields(incident: Shield, s: Source, t: int) {
    s.id in incident.sources && incident.start < t && incident.end > t - s.cadence
  }

  /** Space given back by simulated appends made through instant t, each at its smallest allocation. */
  ghost function Retired(n: Situation, s: Source, t: int): nat
    requires s.cadence > 0
    decreases t - n.now
  {
    if t < n.now then 0
    else Retired(n, s, t - 1) + if AppendsAt(n, s, t) && !Shielded(n, s, t) then s.recent.credit else 0
  }

  ghost function RetiredBy(n: Situation, part: seq<Source>, t: int): nat
    requires forall i :: 0 <= i < |part| ==> part[i].cadence > 0
  {
    if part == [] then 0
    else (if n.Phased(part[0]) then Retired(n, part[0], t - n.Window()) else 0) + RetiredBy(n, part[1..], t)
  }

  ghost function ExpiredBy(stored: seq<Aging>, window: int, t: int): nat {
    if stored == [] then 0
    else (if stored[0].end + window <= t then stored[0].allocation else 0) + ExpiredBy(stored[1..], window, t)
  }

  /** Everything the append path may have reclaimed by instant t. */
  ghost function Reclaimed(n: Situation, t: int): nat
    requires n.Valid()
  {
    if n.trusted && !n.pendingLoss then ExpiredBy(n.stored, n.Window(), t) + RetiredBy(n, n.sources, t) else 0
  }

  ghost function Batch(n: Situation, part: seq<Source>, t: int): (b: seq<Append>)
    requires forall i :: 0 <= i < |part| ==> part[i].cadence > 0
    ensures |b| == |part|
    ensures forall i :: 0 <= i < |part| ==> b[i] == Append(Simulated(n, part[i], t), part[i].recent)
  {
    if part == [] then [] else [Append(Simulated(n, part[0], t), part[0].recent)] + Batch(n, part[1..], t)
  }

  /** What is consumed by all appends through instant t, charged as one batch. */
  ghost function Consumed(n: Situation, t: int): int
    requires n.Valid()
  {
    Charge(Batch(n, n.sources, t), n.unit)
  }

  ghost predicate SomeAppend(n: Situation, t: int)
    requires n.Valid()
  {
    exists i :: 0 <= i < |n.sources| && AppendsAt(n, n.sources[i], t)
  }

  /** Everything through instant t does not fit above reserve and headroom with this much reclaimed. */
  ghost predicate Short(n: Situation, reclaimed: nat, t: int)
    requires n.Valid()
  {
    n.free + reclaimed - Consumed(n, t) < n.reserve + RoundUp(n.headroom, n.unit)
  }

  /** The appends of instant t do not fit above reserve and headroom. */
  ghost predicate RefusedAt(n: Situation, t: int)
    requires n.Valid()
  {
    n.now <= t <= n.Latest() && SomeAppend(n, t) && Short(n, Reclaimed(n, t), t)
  }

  ghost predicate Refuses(n: Situation)
    requires n.Valid()
  {
    exists t :: RefusedAt(n, t)
  }

  // ---------- counts in closed form ----------

  function CountThrough(n: Situation, s: Source, t: int): nat
    requires s.cadence > 0
  {
    if t >= n.Next(s) then CountExists(t - n.Next(s), s.cadence); (t - n.Next(s)) / s.cadence + 1 else 0
  }

  lemma CountExists(x: int, unit: int)
    requires x >= 0 && unit > 0
    ensures x / unit >= 0
  {
  }

  lemma DivStep(x: int, unit: int)
    requires x >= 1 && unit > 0
    ensures x / unit == (x - 1) / unit + if x % unit == 0 then 1 else 0
  {
    var q, r := x / unit, x % unit;
    if r == 0 {
      assert x - 1 == (q - 1) * unit + (unit - 1);
      DivisionUnique(x - 1, unit, q - 1, unit - 1);
    } else {
      DivisionUnique(x - 1, unit, q, r - 1);
    }
  }

  lemma {:induction false} CountIsSimulated(n: Situation, s: Source, t: int)
    requires s.cadence > 0
    ensures CountThrough(n, s, t) == Simulated(n, s, t)
    decreases t - n.now
  {
    if t >= n.now {
      CountIsSimulated(n, s, t - 1);
      var x := t - n.Next(s);
      if x >= 1 {
        DivStep(x, s.cadence);
      } else if x == 0 {
        DivisionUnique(0, s.cadence, 0, 0);
      }
    }
  }

  lemma {:induction false} SimulatedGrows(n: Situation, s: Source, t: int, later: int)
    requires s.cadence > 0 && t <= later
    ensures Simulated(n, s, t) <= Simulated(n, s, later)
    decreases later - t
  {
    if t < later {
      SimulatedGrows(n, s, t, later - 1);
    }
  }

  /** Later batches cost at least as much. */
  lemma ConsumedGrows(n: Situation, t: int, later: int)
    requires n.Valid() && t <= later
    ensures Consumed(n, t) <= Consumed(n, later)
  {
    hide Charge;
    forall i | 0 <= i < |n.sources|
      ensures Simulated(n, n.sources[i], t) <= Simulated(n, n.sources[i], later)
    {
      SimulatedGrows(n, n.sources[i], t, later);
    }
    ChargeMonotone(Batch(n, n.sources, t), Batch(n, n.sources, later), n.unit);
  }

  /** The last append at or before `until`, when there is one from `begin` on. */
  lemma {:induction false} LastAppend(n: Situation, begin: int, until: int) returns (t: int)
    requires n.Valid() && n.now <= begin && begin - 1 <= until
    requires Batch(n, n.sources, begin - 1) != Batch(n, n.sources, until)
    ensures begin <= t <= until && SomeAppend(n, t) && Batch(n, n.sources, t) == Batch(n, n.sources, until)
    decreases until - begin + 1
  {
    if SomeAppend(n, until) {
      t := until;
    } else {
      assert Batch(n, n.sources, until - 1) == Batch(n, n.sources, until);
      t := LastAppend(n, begin, until - 1);
    }
  }

  /** Equal counts at both ends mean no append in between. */
  lemma NoAppend(n: Situation, begin: int, until: int, t: int)
    requires n.Valid() && n.now <= begin <= t <= until
    requires Batch(n, n.sources, begin - 1) == Batch(n, n.sources, until)
    ensures !SomeAppend(n, t)
  {
    forall i | 0 <= i < |n.sources|
      ensures !AppendsAt(n, n.sources[i], t)
    {
      var s := n.sources[i];
      SimulatedGrows(n, s, begin - 1, t - 1);
      SimulatedGrows(n, s, t, until);
      assert Batch(n, n.sources, begin - 1)[i].count == Batch(n, n.sources, until)[i].count;
    }
  }

  // ---------- credits ----------

  datatype Credit = Credit(time: int, amount: nat)

  function CreditBy(credits: seq<Credit>, t: int): nat {
    if credits == [] then 0 else (if credits[0].time <= t then credits[0].amount else 0) + CreditBy(credits[1..], t)
  }

  lemma {:induction false} CreditByConcat(a: seq<Credit>, b: seq<Credit>, t: int)
    ensures CreditBy(a + b, t) == CreditBy(a, t) + CreditBy(b, t)
    decreases |a|
  {
    if a == [] {
      assert a + b == b;
    } else {
      assert (a + b)[1..] == a[1..] + b;
      CreditByConcat(a[1..], b, t);
    }
  }

  /** Media that ages out by the horizon, credited from then on. */
  function StoredCredits(n: Situation, stored: seq<Aging>): seq<Credit>
    requires n.sources != []
  {
    if stored == [] then []
    else (if stored[0].end <= n.Latest() - n.Window() then [Credit(Max(stored[0].end + n.Window(), n.now), stored[0].allocation)] else [])
         + StoredCredits(n, stored[1..])
  }

  predicate Recent(n: Situation, incident: Shield) {
    incident.end > n.now - n.Window()
  }

  /** The code looks at incidents that end after the window began only. */
  predicate ShieldedRecently(n: Situation, s: Source, t: int) {
    exists i :: 0 <= i < |n.incidents| && Recent(n, n.incidents[i]) && Shields(n.incidents[i], s, t)
  }

  /** A phased source's first simulated append, if it ages out by the horizon. */
  function SimulatedCredits(n: Situation, part: seq<Source>): seq<Credit>
    requires n.sources != []
  {
    if part == [] then []
    else
      var at := n.Next(part[0]);
      (if n.Phased(part[0]) && at + n.Window() <= n.Latest() && !ShieldedRecently(n, part[0], at)
       then [Credit(at + n.Window(), part[0].recent.credit)] else [])
      + SimulatedCredits(n, part[1..])
  }

  lemma {:induction false} StoredCreditsExact(n: Situation, stored: seq<Aging>, t: int)
    requires n.sources != [] && n.now <= t <= n.Latest()
    ensures CreditBy(StoredCredits(n, stored), t) == ExpiredBy(stored, n.Window(), t)
    decreases |stored|
  {
    if stored != [] {
      StoredCreditsExact(n, stored[1..], t);
      var head := if stored[0].end <= n.Latest() - n.Window() then [Credit(Max(stored[0].end + n.Window(), n.now), stored[0].allocation)] else [];
      CreditByConcat(head, StoredCredits(n, stored[1..]), t);
    }
  }

  lemma WindowCoversPre(n: Situation)
    requires n.Valid()
    ensures n.Window() >= PRE
  {
  }

  lemma LatestWithinPre(n: Situation)
    requires n.Valid() && n.Chronological()
    ensures n.now <= n.Latest() <= n.now + PRE
  {
    var i :| 0 <= i < |n.sources| && n.Latest() == n.Next(n.sources[i]);
  }

  /** Within the horizon at most an append at exactly `now` can age out. */
  lemma RetiredOnlyNow(n: Situation, s: Source, t: int)
    requires n.Valid() && n.Chronological() && SECOND <= s.cadence <= PRE
    requires n.now <= t <= n.Latest() && n.Phased(s)
    ensures Retired(n, s, t - n.Window()) ==
            if n.Next(s) + n.Window() <= t && !ShieldedRecently(n, s, n.Next(s)) then s.recent.credit else 0
  {
    LatestWithinPre(n);
    WindowCoversPre(n);
    var u := t - n.Window();
    assert u <= n.now <= n.Next(s);
    if u == n.now {
      assert Retired(n, s, u - 1) == 0;
      assert AppendsAt(n, s, u) <==> n.Next(s) == n.now;
      assert forall i :: 0 <= i < |n.incidents| && Shields(n.incidents[i], s, u) ==> Recent(n, n.incidents[i]);
      assert Shielded(n, s, u) <==> ShieldedRecently(n, s, u);
    }
  }

  lemma {:induction false} SimulatedCreditsExact(n: Situation, part: seq<Source>, t: int)
    requires n.Valid() && n.Chronological() && n.now <= t <= n.Latest()
    requires forall i :: 0 <= i < |part| ==> SECOND <= part[i].cadence <= PRE
    ensures CreditBy(SimulatedCredits(n, part), t) == RetiredBy(n, part, t)
    decreases |part|
  {
    if part != [] {
      var s := part[0];
      SimulatedCreditsExact(n, part[1..], t);
      var at := n.Next(s);
      var head := if n.Phased(s) && at + n.Window() <= n.Latest() && !ShieldedRecently(n, s, at) then [Credit(at + n.Window(), s.recent.credit)] else [];
      CreditByConcat(head, SimulatedCredits(n, part[1..]), t);
      if n.Phased(s) {
        RetiredOnlyNow(n, s, t);
      }
    }
  }

  ghost predicate Sorted(credits: seq<Credit>) {
    forall i, j :: 0 <= i < j < |credits| ==> credits[i].time <= credits[j].time
  }

  function Insert(c: Credit, sorted: seq<Credit>): (r: seq<Credit>)
    requires Sorted(sorted)
    ensures Sorted(r) && r != []
    ensures r[0] == c || (sorted != [] && r[0] == sorted[0])
  {
    if sorted == [] || c.time <= sorted[0].time then [c] + sorted
    else [sorted[0]] + Insert(c, sorted[1..])
  }

  function Sort(credits: seq<Credit>): (r: seq<Credit>)
    ensures Sorted(r)
  {
    if credits == [] then [] else Insert(credits[0], Sort(credits[1..]))
  }

  lemma {:induction false} InsertKeepsCredit(c: Credit, sorted: seq<Credit>, t: int)
    requires Sorted(sorted)
    ensures CreditBy(Insert(c, sorted), t) == CreditBy([c], t) + CreditBy(sorted, t)
    decreases |sorted|
  {
    CreditByConcat([c], sorted, t);
    if sorted != [] && c.time > sorted[0].time {
      InsertKeepsCredit(c, sorted[1..], t);
      CreditByConcat([sorted[0]], Insert(c, sorted[1..]), t);
      CreditByConcat([sorted[0]], sorted[1..], t);
      assert sorted == [sorted[0]] + sorted[1..];
    }
  }

  lemma {:induction false} SortKeepsCredit(credits: seq<Credit>, t: int)
    ensures CreditBy(Sort(credits), t) == CreditBy(credits, t)
    decreases |credits|
  {
    if credits != [] {
      SortKeepsCredit(credits[1..], t);
      InsertKeepsCredit(credits[0], Sort(credits[1..]), t);
      CreditByConcat([credits[0]], credits[1..], t);
      assert credits == [credits[0]] + credits[1..];
    }
  }

  ghost predicate Increasing(times: seq<int>) {
    forall i, j :: 0 <= i < j < |times| ==> times[i] < times[j]
  }

  /** The distinct times after now, through latest, at which the credit changes. */
  function Boundaries(credits: seq<Credit>, now: int, latest: int): (times: seq<int>)
    requires Sorted(credits)
    ensures Increasing(times)
    ensures forall i :: 0 <= i < |times| ==> now < times[i] <= latest
    ensures times != [] ==> credits != [] && credits[0].time <= times[0]
    ensures forall i :: 0 <= i < |credits| && now < credits[i].time <= latest ==> credits[i].time in times
  {
    if credits == [] then []
    else
      assert forall i :: 1 <= i < |credits| ==> credits[1..][i - 1] == credits[i];
      var rest := Boundaries(credits[1..], now, latest);
      var time := credits[0].time;
      if now < time <= latest && (rest == [] || rest[0] != time) then [time] + rest else rest
  }

  function Total(credits: seq<Credit>): nat {
    if credits == [] then 0 else Total(credits[..|credits| - 1]) + credits[|credits| - 1].amount
  }

  /** A sorted prefix with everything due is the credit. */
  lemma {:induction false} PrefixIsCredit(credits: seq<Credit>, index: nat, t: int)
    requires index <= |credits|
    requires forall i :: 0 <= i < index ==> credits[i].time <= t
    requires forall i :: index <= i < |credits| ==> credits[i].time > t
    ensures Total(credits[..index]) == CreditBy(credits, t)
    decreases |credits|
  {
    if credits != [] {
      var n := |credits| - 1;
      var front := credits[..n];
      assert credits == front + [credits[n]];
      CreditByConcat(front, [credits[n]], t);
      if index == |credits| {
        PrefixIsCredit(front, n, t);
        assert front[..n] == front && credits[..index] == credits;
      } else {
        PrefixIsCredit(front, index, t);
        assert front[..index] == credits[..index];
      }
    }
  }

  /** Without a credit time in between the credit does not change. */
  lemma {:induction false} CreditConstant(credits: seq<Credit>, begin: int, t: int)
    requires begin <= t && forall i :: 0 <= i < |credits| ==> !(begin < credits[i].time <= t)
    ensures CreditBy(credits, begin) == CreditBy(credits, t)
    decreases |credits|
  {
    if credits != [] {
      CreditConstant(credits[1..], begin, t);
    }
  }

  ghost predicate Constant(n: Situation, begin: int, finish: int, reclaim: nat)
    requires n.Valid()
  {
    && n.now <= begin < finish <= n.Latest() + 1
    && forall t :: begin <= t < finish ==> Reclaimed(n, t) == reclaim
  }

  /** Nothing is refused in an interval without appends, or whose last append fits. */
  lemma IntervalFits(n: Situation, begin: int, finish: int, reclaim: nat)
    requires n.Valid() && Constant(n, begin, finish, reclaim)
    requires Batch(n, n.sources, finish - 1) == Batch(n, n.sources, begin - 1) || !Short(n, reclaim, finish - 1)
    ensures forall t :: begin <= t < finish ==> !RefusedAt(n, t)
  {
    hide Reclaimed, Consumed, SomeAppend, Batch;
    forall t | begin <= t < finish
      ensures !RefusedAt(n, t)
    {
      if Batch(n, n.sources, finish - 1) == Batch(n, n.sources, begin - 1) {
        NoAppend(n, begin, finish - 1, t);
      } else {
        ConsumedGrows(n, t, finish - 1);
      }
    }
  }

  /** If the last append of an interval does not fit, the simulation refuses there. */
  lemma IntervalRefused(n: Situation, begin: int, finish: int, reclaim: nat)
    requires n.Valid() && Constant(n, begin, finish, reclaim)
    requires Batch(n, n.sources, finish - 1) != Batch(n, n.sources, begin - 1) && Short(n, reclaim, finish - 1)
    ensures Refuses(n)
  {
    hide Reclaimed, Charge, SomeAppend, Batch;
    var last := LastAppend(n, begin, finish - 1);
    assert Consumed(n, last) == Consumed(n, finish - 1);
    assert RefusedAt(n, last);
  }

  /** The batch of appends through an instant, in closed form. */
  method CountsThrough(n: Situation, t: int) returns (batch: seq<Append>)
    requires n.Valid()
    ensures batch == Batch(n, n.sources, t)
  {
    batch := [];
    for i := 0 to |n.sources|
      invariant |batch| == i
      invariant forall k :: 0 <= k < i ==> batch[k] == Append(Simulated(n, n.sources[k], t), n.sources[k].recent)
    {
      CountIsSimulated(n, n.sources[i], t);
      batch := batch + [Append(CountThrough(n, n.sources[i], t), n.sources[i].recent)];
    }
  }

  /** All credits of the check, in order of time. */
  function Credits(n: Situation): (r: seq<Credit>)
    requires n.Valid()
    ensures Sorted(r)
  {
    if n.trusted && !n.pendingLoss then Sort(StoredCredits(n, n.stored) + SimulatedCredits(n, n.sources)) else []
  }

  /** Crediting one simulated append per source and only horizon-reaching rows loses nothing. */
  lemma CreditsExact(n: Situation, t: int)
    requires n.Valid() && n.Chronological() && n.now <= t <= n.Latest()
    ensures CreditBy(Credits(n), t) == Reclaimed(n, t)
  {
    if n.trusted && !n.pendingLoss {
      var stored, simulated := StoredCredits(n, n.stored), SimulatedCredits(n, n.sources);
      SortKeepsCredit(stored + simulated, t);
      CreditByConcat(stored, simulated, t);
      StoredCreditsExact(n, n.stored, t);
      SimulatedCreditsExact(n, n.sources, t);
    }
  }

  lemma ReclaimedConstant(n: Situation, begin: int, finish: int)
    requires n.Valid() && n.Chronological() && n.now <= begin < finish <= n.Latest() + 1
    requires forall i :: 0 <= i < |Credits(n)| ==> !(begin < Credits(n)[i].time < finish)
    ensures Constant(n, begin, finish, CreditBy(Credits(n), begin))
  {
    hide Reclaimed, Credits;
    forall t | begin <= t < finish
      ensures Reclaimed(n, t) == CreditBy(Credits(n), begin)
    {
      CreditConstant(Credits(n), begin, t);
      CreditsExact(n, t);
    }
  }

  /** The compressed check: one test per interval of constant credit. */
  method NextWriteRefused(n: Situation) returns (refused: bool)
    requires n.Valid() && n.Chronological()
    ensures refused <==> Refuses(n)
  {
    hide Credits, RefusedAt, Batch, Charge, CreditBy, Boundaries, Reclaimed, Total, Constant;
    LatestWithinPre(n);
    var latest := n.Latest();
    var credits := Credits(n);
    var headroom := RoundUp(n.headroom, n.unit);
    var boundaries := Boundaries(credits, n.now, latest);
    var reclaim, index := 0, 0;
    EmptyTotal(credits);
    for k := 0 to |boundaries| + 1
      invariant index <= |credits| && reclaim == Total(credits[..index])
      invariant k <= |boundaries| ==> forall i :: 0 <= i < index ==> credits[i].time <= Begin(n.now, boundaries, k)
      invariant forall t :: n.now <= t < (if k == 0 then n.now else Finish(latest, boundaries, k - 1)) ==> !RefusedAt(n, t)
    {
      var begin, finish := Begin(n.now, boundaries, k), Finish(latest, boundaries, k);
      while index < |credits| && credits[index].time <= begin
        invariant index <= |credits| && reclaim == Total(credits[..index])
        invariant forall i :: 0 <= i < index ==> credits[i].time <= begin
      {
        TotalSnoc(credits, index);
        reclaim := reclaim + credits[index].amount;
        index := index + 1;
      }
      IntervalCredit(n, boundaries, k, index);
      var counts := CountsThrough(n, finish - 1);
      var before := CountsThrough(n, begin - 1);
      if counts == before {
        IntervalFits(n, begin, finish, reclaim);
        continue;
      }
      BatchSound(n, finish - 1);
      var consumed := BatchCharge(counts, n.unit);
      if n.free + reclaim - consumed < n.reserve + headroom {
        IntervalRefused(n, begin, finish, reclaim);
        return true;
      }
      IntervalFits(n, begin, finish, reclaim);
    }
    OnlyWithinHorizon(n);
    return false;
  }

  /** The k-th interval of constant credit starts here ... */
  function Begin(now: int, boundaries: seq<int>, k: nat): int {
    if 0 < k <= |boundaries| then boundaries[k - 1] else now
  }

  /** ... and ends just before here. */
  function Finish(latest: int, boundaries: seq<int>, k: nat): int {
    if k < |boundaries| then boundaries[k] else latest + 1
  }

  lemma EmptyTotal(credits: seq<Credit>)
    ensures Total(credits[..0]) == 0
  {
  }

  lemma TotalSnoc(credits: seq<Credit>, index: nat)
    requires index < |credits|
    ensures Total(credits[..index + 1]) == Total(credits[..index]) + credits[index].amount
  {
    assert credits[..index + 1][..index] == credits[..index];
  }

  lemma BatchSound(n: Situation, t: int)
    requires n.Valid()
    ensures AllSound(Batch(n, n.sources, t), n.unit)
  {
  }

  lemma OnlyWithinHorizon(n: Situation)
    requires n.Valid()
    ensures forall t :: RefusedAt(n, t) ==> n.now <= t <= n.Latest()
  {
  }

  /** An interval encloses no credit time; the credits taken so far are all there is in it. */
  lemma IntervalCredit(n: Situation, boundaries: seq<int>, k: nat, index: nat)
    requires n.Valid() && n.Chronological() && index <= |Credits(n)|
    requires boundaries == Boundaries(Credits(n), n.now, n.Latest()) && k <= |boundaries|
    requires var begin := Begin(n.now, boundaries, k);
             && (forall i :: 0 <= i < index ==> Credits(n)[i].time <= begin)
             && (index < |Credits(n)| ==> Credits(n)[index].time > begin)
    ensures var begin, finish := Begin(n.now, boundaries, k), Finish(n.Latest(), boundaries, k);
            && n.now <= begin < finish <= n.Latest() + 1
            && Constant(n, begin, finish, Total(Credits(n)[..index]))
  {
    hide Credits, CreditBy, Reclaimed, Boundaries;
    LatestWithinPre(n);
    var credits := Credits(n);
    var begin, finish := Begin(n.now, boundaries, k), Finish(n.Latest(), boundaries, k);
    forall i | 0 <= i < |credits|
      ensures !(begin < credits[i].time < finish)
    {
      if n.now < credits[i].time <= n.Latest() {
        var j :| 0 <= j < |boundaries| && boundaries[j] == credits[i].time;
      }
    }
    PrefixIsCredit(credits, index, begin);
    ReclaimedConstant(n, begin, finish);
  }
}
