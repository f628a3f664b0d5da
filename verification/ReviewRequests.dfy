/**
 Review requests under concurrency: any number of collecting and requesting
 workers, a per-PR ledger lock, and a pull request whose live context changes at
 any moment. Time is the number of steps taken; `past` holds the live context of
 every instant, so a read is an instant of `past`.
 */
module ReviewRequests {
  import opened Basics

  type Context = nat
  type RequestId = nat
  type Worker = nat

  datatype Record = Record(id: RequestId, context: Context, active: bool)

  /** A live context and the instant it was read. */
  datatype Reading = Reading(context: Context, at: nat)

  /** Where a worker is in collect, request_review or publish. */
  datatype Local =
    | Idle
    | ReadBefore(before: Reading)                    // collect: first live read done, lock not yet taken
    | Evaluating(seen: Record, before: Reading)      // collect: lock held, reading the evidence
    | ReadAfter(seen: Record, before: Reading, later: Reading)
    | Mismatch(seen: Record)                         // collect: lock released, must confirm
    | ReadAgain(seen: Record, again: Reading)
    | Requesting(live: Reading)
    | Passed(id: RequestId, context: Context)        // a pass decision not yet published

  /** Why a request was invalidated. */
  datatype Cause = Cause(reading: Reading, decidedAt: nat)

  datatype Event = Event(id: RequestId, at: nat)

  datatype State = State(
    past: seq<Context>, ledger: Option<Record>, lock: Option<Worker>, locals: map<Worker, Local>,
    issued: map<RequestId, Reading>,   // context and recording time of every request
    causes: map<RequestId, Cause>,     // invalidations decided so far
    passes: seq<Event>,     // pass decisions with their time
    published: seq<Event>)  // successes posted, with their time

  function Now(s: State): nat {
    |s.past|
  }

  function Doing(s: State, w: Worker): Local {
    if w in s.locals then s.locals[w] else Idle
  }

  predicate Free(s: State) {
    s.lock.None?
  }

  datatype Step =
    | LiveChanges(context: Context)
    | StartCollect(w: Worker)
    | Decide(w: Worker)
    | ReadLater(w: Worker)
    | Conclude(w: Worker, clean: bool, saved: bool)
    | ReadOnceMore(w: Worker)
    | Confirm(w: Worker, saved: bool)
    | StartRequest(w: Worker)
    | RecordRequest(w: Worker, force: bool, id: RequestId, saved: bool)
    | PublishPass(w: Worker)
    | Stop(w: Worker)

  function Read(s: State): Reading
    requires s.past != []
  {
    Reading(s.past[|s.past| - 1], |s.past| - 1)
  }

  ghost predicate Enabled(s: State, step: Step) {
    && s.past != []
    && match step
       case LiveChanges(_) => true
       case StartCollect(w) => Doing(s, w).Idle?
       case Decide(w) => Doing(s, w).ReadBefore? && Free(s)
       case ReadLater(w) => Doing(s, w).Evaluating?
       case Conclude(w, _, _) => Doing(s, w).ReadAfter?
       case ReadOnceMore(w) => Doing(s, w).Mismatch?
       case Confirm(w, _) => Doing(s, w).ReadAgain? && Free(s)
       case StartRequest(w) => Doing(s, w).Idle?
       case RecordRequest(w, _, id, _) => Doing(s, w).Requesting? && Free(s) && id !in s.issued
       case PublishPass(w) => Doing(s, w).Passed? && Free(s)
       case Stop(w) => true
  }

  function At(s: State, w: Worker, l: Local): State {
    s.(locals := s.locals[w := l])
  }

  /** The ledger entry is rewritten as invalidated, because of a reading. */
  function Invalidate(s: State, r: Record, reading: Reading, saved: bool): State {
    if saved then s.(ledger := Some(r.(active := false)), causes := s.causes[r.id := Cause(reading, Now(s))]) else s
  }

  function Effect(s: State, step: Step): State
    requires Enabled(s, step)
  {
    match step
    case LiveChanges(_) => s
    case StartCollect(w) => At(s, w, ReadBefore(Read(s)))
    case Decide(w) =>
      var before := Doing(s, w).before;
      if s.ledger.None? || !s.ledger.value.active then At(s, w, Idle)
      else if s.ledger.value.context != before.context then At(s, w, Mismatch(s.ledger.value))
      else At(s, w, Evaluating(s.ledger.value, before)).(lock := Some(w))
    case ReadLater(w) =>
      var l := Doing(s, w);
      At(s, w, ReadAfter(l.seen, l.before, Read(s)))
    case Conclude(w, clean, saved) =>
      var l := Doing(s, w);
      var released := At(s, w, Idle).(lock := None);
      if l.later.context != l.before.context then Invalidate(released, l.seen, l.later, saved)
      else if clean then
        At(released, w, Passed(l.seen.id, l.before.context)).(passes := s.passes + [Event(l.seen.id, Now(s))])
      else released
    case ReadOnceMore(w) => At(s, w, ReadAgain(Doing(s, w).seen, Read(s)))
    case Confirm(w, saved) =>
      var l := Doing(s, w);
      var done := At(s, w, Idle);
      if s.ledger.None? || s.ledger.value.id != l.seen.id || !s.ledger.value.active || s.ledger.value.context == l.again.context
      then done
      else Invalidate(done, s.ledger.value, l.again, saved)
    case StartRequest(w) => At(s, w, Requesting(Read(s)))
    case RecordRequest(w, force, id, saved) =>
      var live := Doing(s, w).live;
      var done := At(s, w, Idle);
      if (s.ledger.Some? && s.ledger.value.active && s.ledger.value.context == live.context && !force) || !saved then done
      else done.(ledger := Some(Record(id, live.context, true)), issued := s.issued[id := Reading(live.context, Now(s))])
    case PublishPass(w) =>
      var l := Doing(s, w);
      var done := At(s, w, Idle);
      if s.ledger.Some? && s.ledger.value == Record(l.id, l.context, true)
      then done.(published := s.published + [Event(l.id, Now(s))])
      else done
    case Stop(w) => At(s, w, Idle).(lock := if s.lock == Some(w) then None else s.lock)
  }

  /** A step, and one more instant. */
  function Next(s: State, step: Step): State
    requires Enabled(s, step)
  {
    var context := if step.LiveChanges? then step.context else s.past[|s.past| - 1];
    Effect(s, step).(past := s.past + [context])
  }

  // ---------- what every interleaving keeps ----------

  ghost predicate Known(s: State, r: Record) {
    r.id in s.issued && s.issued[r.id].context == r.context
  }

  /** A reading that happened after a request was recorded. */
  ghost predicate ReadSince(s: State, id: RequestId, reading: Reading) {
    && id in s.issued && s.issued[id].at <= reading.at < |s.past|
    && s.past[reading.at] == reading.context
  }

  ghost predicate LocalOk(s: State, w: Worker, l: Local) {
    match l
    case Evaluating(seen, before) => Known(s, seen) && seen.context == before.context && s.lock == Some(w) && s.ledger == Some(seen) && seen.active
    case ReadAfter(seen, before, later) =>
      Known(s, seen) && seen.context == before.context && s.lock == Some(w) && s.ledger == Some(seen) && seen.active && ReadSince(s, seen.id, later)
    case Mismatch(seen) => Known(s, seen)
    case ReadAgain(seen, again) => Known(s, seen) && ReadSince(s, seen.id, again)
    case _ => true
  }

  /** Every invalidation rests on a live read, made after the request, that differs from its context. */
  ghost predicate Justified(s: State) {
    forall id :: id in s.causes ==>
      ReadSince(s, id, s.causes[id].reading) && s.causes[id].reading.context != s.issued[id].context
      && s.causes[id].decidedAt < Now(s)
  }

  ghost predicate LedgerOk(s: State) {
    s.ledger.Some? ==> Known(s, s.ledger.value) && (s.ledger.value.active <==> s.ledger.value.id !in s.causes)
  }

  ghost predicate Inv(s: State) {
    && s.past != [] && Justified(s) && LedgerOk(s)
    && (forall id :: id in s.issued ==> s.issued[id].at < Now(s))
    && (forall w :: w in s.locals ==> LocalOk(s, w, s.locals[w]))
  }

  lemma StepKeepsReadings(s: State, step: Step, id: RequestId, reading: Reading)
    requires Enabled(s, step) && ReadSince(s, id, reading) && Inv(s)
    ensures ReadSince(Next(s, step), id, reading)
  {
  }

  lemma StepKeepsKnown(s: State, step: Step, r: Record)
    requires Enabled(s, step) && Known(s, r)
    ensures Known(Next(s, step), r)
  {
  }

  lemma StepKeepsLedger(s: State, step: Step)
    requires Enabled(s, step) && Inv(s)
    ensures LedgerOk(Next(s, step))
  {
    var t := Next(s, step);
    if s.ledger.Some? {
      StepKeepsKnown(s, step, s.ledger.value);
    }
  }

  /** A cause is the one before, or the reading a worker decides on now. */
  lemma CauseOf(s: State, step: Step, id: RequestId)
    requires Enabled(s, step) && Inv(s) && id in Next(s, step).causes
    ensures var cause := Next(s, step).causes[id];
            || (id in s.causes && cause == s.causes[id])
            || (ReadSince(s, id, cause.reading) && cause.reading.context != s.issued[id].context && cause.decidedAt == Now(s))
  {
    hide Justified, Known;
    if step.Conclude? || step.Confirm? {
      LocalKnown(s, step.w);
    }
  }

  lemma LocalKnown(s: State, w: Worker)
    requires Inv(s) && (Doing(s, w).ReadAfter? || Doing(s, w).ReadAgain?)
    ensures var l := Doing(s, w);
            && l.seen.id in s.issued && s.issued[l.seen.id].context == l.seen.context
            && (l.ReadAfter? ==> l.seen.context == l.before.context && ReadSince(s, l.seen.id, l.later))
            && (l.ReadAgain? ==> ReadSince(s, l.seen.id, l.again))
            && (s.ledger.Some? ==> Known(s, s.ledger.value))
  {
    assert LocalOk(s, w, s.locals[w]);
  }

  lemma StepKeepsJustified(s: State, step: Step)
    requires Enabled(s, step) && Inv(s)
    ensures Justified(Next(s, step))
  {
    var t := Next(s, step);
    assert Now(t) == Now(s) + 1;
    forall id | id in t.causes
      ensures ReadSince(t, id, t.causes[id].reading) && t.causes[id].reading.context != t.issued[id].context
              && t.causes[id].decidedAt < Now(t)
    {
      CauseOf(s, step, id);
      hide Next, Enabled;
      assert ReadSince(s, id, t.causes[id].reading) && t.causes[id].decidedAt <= Now(s);
      StepKeepsReadings(s, step, id, t.causes[id].reading);
      StepKeepsKnown(s, step, Record(id, s.issued[id].context, true));
    }
  }

  /** A worker the step is not about, or that does not move, keeps its place. */
  lemma StayingLocal(s: State, step: Step, w: Worker)
    requires Enabled(s, step) && Inv(s) && w in s.locals && w in Next(s, step).locals && Next(s, step).locals[w] == s.locals[w]
    ensures LocalOk(Next(s, step), w, s.locals[w])
  {
    var l := s.locals[w];
    if l.Evaluating? || l.ReadAfter? || l.Mismatch? || l.ReadAgain? {
      StepKeepsKnown(s, step, l.seen);
    }
    if l.ReadAfter? {
      StepKeepsReadings(s, step, l.seen.id, l.later);
    } else if l.ReadAgain? {
      StepKeepsReadings(s, step, l.seen.id, l.again);
    }
    if l.Evaluating? || l.ReadAfter? {
      LockHolds(s, step, w);
    }
  }

  /** Only the lock holder changes the ledger or gives up the lock. */
  lemma LockHolds(s: State, step: Step, w: Worker)
    requires Enabled(s, step) && Inv(s) && s.lock == Some(w) && w in s.locals
    requires w in Next(s, step).locals && Next(s, step).locals[w] == s.locals[w]
    requires s.locals[w].Evaluating? || s.locals[w].ReadAfter?
    ensures Next(s, step).lock == Some(w) && Next(s, step).ledger == s.ledger
  {
    assert step.Conclude? && step.w in s.locals ==> LocalOk(s, step.w, s.locals[step.w]);
  }

  lemma MovedLocal(s: State, step: Step, w: Worker)
    requires Enabled(s, step) && Inv(s) && w in Next(s, step).locals
    requires !(w in s.locals && Next(s, step).locals[w] == s.locals[w])
    ensures LocalOk(Next(s, step), w, Next(s, step).locals[w])
  {
    hide Justified;
    var l := Next(s, step).locals[w];
    if l.Evaluating? || l.Mismatch? {
      assert l.seen == s.ledger.value;
      StepKeepsKnown(s, step, l.seen);
    } else if l.ReadAfter? || l.ReadAgain? {
      assert LocalOk(s, w, s.locals[w]) && l.seen == s.locals[w].seen;
      StepKeepsKnown(s, step, l.seen);
    }
  }

  lemma StepKeepsLocal(s: State, step: Step, w: Worker)
    requires Enabled(s, step) && Inv(s) && w in Next(s, step).locals
    ensures LocalOk(Next(s, step), w, Next(s, step).locals[w])
  {
    hide Enabled, Next, Inv, LocalOk;
    if w in s.locals && Next(s, step).locals[w] == s.locals[w] {
      StayingLocal(s, step, w);
    } else {
      MovedLocal(s, step, w);
    }
  }

  lemma StepKeepsInv(s: State, step: Step)
    requires Enabled(s, step) && Inv(s)
    ensures Inv(Next(s, step))
  {
    hide LocalOk, Justified, LedgerOk;
    StepKeepsJustified(s, step);
    StepKeepsLedger(s, step);
    forall w | w in Next(s, step).locals
      ensures LocalOk(Next(s, step), w, Next(s, step).locals[w])
    {
      StepKeepsLocal(s, step, w);
    }
  }

  // ---------- what each step comes to ----------

  /** A request is newly invalidated exactly by a saved conclusion whose two reads differ, or a saved confirmation that still finds it active for another context. */
  lemma InvalidatedExactly(s: State, step: Step, id: RequestId)
    requires Enabled(s, step) && Inv(s)
    ensures id !in s.causes && id in Next(s, step).causes <==>
            || (step.Conclude? && step.saved && Doing(s, step.w).seen.id == id
                && Doing(s, step.w).later.context != Doing(s, step.w).before.context)
            || (step.Confirm? && step.saved && Doing(s, step.w).seen.id == id && s.ledger.Some? && s.ledger.value.active
                && s.ledger.value.id == id && s.ledger.value.context != Doing(s, step.w).again.context)
    ensures id !in s.causes && id in Next(s, step).causes ==> Next(s, step).ledger == Some(s.ledger.value.(active := false))
  {
    if step.Conclude? {
      assert LocalOk(s, step.w, s.locals[step.w]);
    }
  }

  /** A request is recorded exactly if it is saved and forced, or saved with no active request for the context that was read. */
  lemma RequestedExactly(s: State, step: Step)
    requires Enabled(s, step) && step.RecordRequest?
    ensures var live, t := Doing(s, step.w).live, Next(s, step);
            if step.saved && (step.force || s.ledger.None? || !s.ledger.value.active || s.ledger.value.context != live.context)
            then t.ledger == Some(Record(step.id, live.context, true)) && t.issued == s.issued[step.id := Reading(live.context, |s.past|)]
            else t.ledger == s.ledger && t.issued == s.issued
  {
  }

  /** A success is posted exactly while the ledger still holds the active request it was decided for. */
  lemma PublishedExactly(s: State, step: Step)
    requires Enabled(s, step)
    ensures Next(s, step).published != s.published <==>
            && step.PublishPass? && s.ledger.Some? && s.ledger.value.active
            && s.ledger.value.id == Doing(s, step.w).id && s.ledger.value.context == Doing(s, step.w).context
    ensures Next(s, step).published != s.published ==> Next(s, step).published == s.published + [Event(s.ledger.value.id, |s.past|)]
  {
  }

  // ---------- runs ----------

  ghost predicate IsRun(s: State, run: seq<Step>)
    decreases |run|
  {
    run == [] || (Enabled(s, run[0]) && IsRun(Next(s, run[0]), run[1..]))
  }

  ghost function After(s: State, run: seq<Step>): State
    requires IsRun(s, run)
    decreases |run|
  {
    if run == [] then s else After(Next(s, run[0]), run[1..])
  }

  function Start(context: Context): State {
    State([context], None, None, map[], map[], map[], [], [])
  }

  lemma {:induction false} RunKeepsInv(s: State, run: seq<Step>)
    requires Inv(s) && IsRun(s, run)
    ensures Inv(After(s, run))
    decreases |run|
  {
    hide Inv, Enabled, Next;
    if run != [] {
      StepKeepsInv(s, run[0]);
      RunKeepsInv(Next(s, run[0]), run[1..]);
    }
  }

  /** In every interleaving a request is invalidated only because of a later, different live read. */
  lemma InvalidationJustified(context: Context, run: seq<Step>, id: RequestId)
    requires IsRun(Start(context), run) && id in After(Start(context), run).causes
    ensures var s := After(Start(context), run);
            var cause := s.causes[id];
            && id in s.issued && s.issued[id].at <= cause.reading.at < |s.past|
            && s.past[cause.reading.at] == cause.reading.context != s.issued[id].context
  {
    RunKeepsInv(Start(context), run);
  }

  // ---------- invalidated for good ----------

  lemma StepKeepsInvalidated(s: State, step: Step, id: RequestId)
    requires Enabled(s, step) && Inv(s) && id in s.causes
    ensures id in Next(s, step).causes
  {
  }

  /** A pass is decided, and a success posted, only for a request that is not invalidated. */
  lemma PassNotInvalidated(s: State, step: Step, id: RequestId)
    requires Enabled(s, step) && Inv(s) && id in s.causes
    ensures forall e :: e in Next(s, step).passes && e.id == id ==> e in s.passes
    ensures forall e :: e in Next(s, step).published && e.id == id ==> e in s.published
  {
  }

  /** Once invalidated: never active again, no further pass, no further success, in any continuation. */
  lemma {:induction false} InvalidatedForGood(s: State, run: seq<Step>, id: RequestId)
    requires Inv(s) && IsRun(s, run) && id in s.causes
    ensures var t := After(s, run);
            && id in t.causes && (t.ledger.Some? && t.ledger.value.id == id ==> !t.ledger.value.active)
            && (forall e :: e in t.passes && e.id == id ==> e in s.passes)
            && (forall e :: e in t.published && e.id == id ==> e in s.published)
    decreases |run|
  {
    hide Enabled, Next;
    if run != [] {
      StepKeepsInv(s, run[0]);
      StepKeepsInvalidated(s, run[0], id);
      PassNotInvalidated(s, run[0], id);
      InvalidatedForGood(Next(s, run[0]), run[1..], id);
    }
  }
}
