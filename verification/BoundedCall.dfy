/**
 A device call run off the tick thread: a caller that may give up and a worker that
 may finish late, step by step under every interleaving. Each region under the call's
 lock is one step, and so is each release the worker performs afterwards.
 */
module BoundedCall {
  import opened Basics

  type Release = nat

  /** How the function ended: with a value to give away, with none, or by raising. */
  datatype Outcome = Value(v: nat) | Nothing | Error

  /** The fields of a call that both threads use. */
  datatype Call = Call(done: bool, abandoned: bool, finished: bool, deferred: seq<Release>, stored: Option<Outcome>)

  const FRESH := Call(false, false, false, [], None)

  // ---------- the regions under the lock ----------

  function Complete(c: Call, o: Outcome): Call {
    if c.abandoned then c.(finished := true, deferred := [])
    else c.(finished := true, deferred := [], stored := Some(o), done := true)
  }

  function Abandon(c: Call): Call {
    if c.done then c else c.(abandoned := true)
  }

  predicate Accepts(c: Call) {
    !c.finished && c.abandoned
  }

  function Defer(c: Call, r: Release): Call {
    if Accepts(c) then c.(deferred := c.deferred + [r]) else c
  }

  class DeviceCall {
    var done: bool
    var abandoned: bool
    var finished: bool
    var deferred: seq<Release>
    var stored: Option<Outcome>

    ghost function View(): Call
      reads this
    {
      Call(done, abandoned, finished, deferred, stored)
    }

    constructor ()
      ensures View() == FRESH
    {
      done, abandoned, finished, deferred, stored := false, false, false, [], None;
    }

    /** The worker's result, and what it must release itself because the caller gave up. */
    method CompleteLocked(o: Outcome) returns (owed: Option<seq<Release>>)
      modifies this
      ensures View() == Complete(old(View()), o)
      ensures owed == if old(abandoned) then Some(old(deferred)) else None
    {
      finished := true;
      var taken := deferred;
      deferred := [];
      if abandoned {
        return Some(taken);
      }
      stored := Some(o);
      done := true;
      return None;
    }

    /** True if the call had in fact already finished. */
    method AbandonLocked() returns (late: bool)
      modifies this`abandoned
      ensures View() == Abandon(old(View())) && late == done
    {
      if done {
        return true;
      }
      abandoned := true;
      return false;
    }

    /** Hand a release to the blocked call; refused once it has finished. */
    method DeferLocked(r: Release) returns (accepted: bool)
      modifies this`deferred
      ensures View() == Defer(old(View()), r) && accepted == Accepts(old(View()))
    {
      if finished || !abandoned {
        return false;
      }
      deferred := deferred + [r];
      return true;
    }
  }

  // ---------- the two threads ----------

  datatype Worker = Working | Returned(outcome: Outcome) | Releasing(left: seq<Release>, value: Option<nat>) | Over

  /** One call with its worker, and an account of what became of its value and of the releases it took on. */
  datatype Job = Job(call: Call, worker: Worker, outcome: Option<Outcome>,
                     received: seq<Outcome>, discarded: seq<nat>, accepted: seq<Release>, ran: seq<Release>)

  datatype Caller = Idle | Waiting(k: nat) | TimedOut(k: nat) | Taking(k: nat)

  datatype State = State(jobs: seq<Job>, caller: Caller, pending: Option<nat>)

  datatype Step =
    | Start
    | WaitReturns(set': bool)
    | GiveUp
    | Take
    | HandOver(release: Release)
    | FunctionReturns(k: nat, outcome: Outcome)
    | Finish(k: nat)
    | Discard(k: nat)
    | RunRelease(k: nat)
    | SetDone(k: nat)

  predicate Blocked(s: State) {
    s.pending.Some? && s.pending.value < |s.jobs| && !s.jobs[s.pending.value].call.done
  }

  predicate At(s: State, k: nat) {
    k < |s.jobs|
  }

  predicate Enabled(s: State, step: Step) {
    match step
    case Start => s.caller.Idle? && !Blocked(s)
    case WaitReturns(set') => s.caller.Waiting? && At(s, s.caller.k) && set' == s.jobs[s.caller.k].call.done
    case GiveUp => s.caller.TimedOut? && At(s, s.caller.k)
    case Take => s.caller.Taking? && At(s, s.caller.k) && s.jobs[s.caller.k].call.stored.Some?
    case HandOver(_) => s.caller.Idle? && s.pending.Some? && At(s, s.pending.value)
    case FunctionReturns(k, _) => At(s, k) && s.jobs[k].worker.Working?
    case Finish(k) => At(s, k) && s.jobs[k].worker.Returned?
    case Discard(k) => At(s, k) && s.jobs[k].worker.Releasing? && s.jobs[k].worker.value.Some?
    case RunRelease(k) => At(s, k) && s.jobs[k].worker.Releasing? && s.jobs[k].worker.value.None? && s.jobs[k].worker.left != []
    case SetDone(k) => At(s, k) && s.jobs[k].worker == Releasing([], None)
  }

  function Put(s: State, k: nat, j: Job): State
    requires At(s, k)
  {
    s.(jobs := s.jobs[k := j])
  }

  /** What the worker does next with the lock's outcome. */
  function AfterLock(c: Call, o: Outcome): Worker {
    if c.abandoned then Releasing(c.deferred, if o.Value? then Some(o.v) else None) else Over
  }

  function Next(s: State, step: Step): State
    requires Enabled(s, step)
  {
    match step
    case Start => State(s.jobs + [Job(FRESH, Working, None, [], [], [], [])], Waiting(|s.jobs|), s.pending)
    case WaitReturns(set') => s.(caller := if set' then Taking(s.caller.k) else TimedOut(s.caller.k))
    case GiveUp =>
      var k, j := s.caller.k, s.jobs[s.caller.k];
      if j.call.done then s.(caller := Taking(k))
      else Put(s, k, j.(call := Abandon(j.call))).(caller := Idle, pending := Some(k))
    case Take =>
      var k, j := s.caller.k, s.jobs[s.caller.k];
      Put(s, k, j.(received := j.received + [j.call.stored.value])).(caller := Idle, pending := None)
    case HandOver(r) =>
      var k := s.pending.value;
      var j := s.jobs[k];
      Put(s, k, j.(call := Defer(j.call, r), accepted := if Accepts(j.call) then j.accepted + [r] else j.accepted))
    case FunctionReturns(k, o) => Put(s, k, s.jobs[k].(worker := Returned(o), outcome := Some(o)))
    case Finish(k) =>
      var j := s.jobs[k];
      Put(s, k, j.(call := Complete(j.call, j.worker.outcome), worker := AfterLock(j.call, j.worker.outcome)))
    case Discard(k) =>
      var j := s.jobs[k];
      Put(s, k, j.(worker := Releasing(j.worker.left, None), discarded := j.discarded + [j.worker.value.value]))
    case RunRelease(k) =>
      var j := s.jobs[k];
      Put(s, k, j.(worker := Releasing(j.worker.left[1..], None), ran := j.ran + [j.worker.left[0]]))
    case SetDone(k) =>
      var j := s.jobs[k];
      Put(s, k, j.(call := j.call.(done := true), worker := Over))
  }

  // ---------- what every interleaving keeps ----------

  /** The value a call produced, if any. */
  function Product(j: Job): seq<nat> {
    if j.outcome.Some? && j.outcome.value.Value? then [j.outcome.value.v] else []
  }

  predicate CallerOn(s: State, k: nat) {
    !s.caller.Idle? && s.caller.k == k
  }

  /** The account of one job, by where its worker is. */
  predicate JobOk(j: Job) {
    && (match j.worker
        case Working => !j.call.finished && !j.call.done && j.outcome.None? && j.received == [] && j.discarded == []
                        && j.ran == [] && j.call.deferred == j.accepted
        case Returned(o) => !j.call.finished && !j.call.done && j.outcome == Some(o) && j.received == [] && j.discarded == []
                            && j.ran == [] && j.call.deferred == j.accepted
        case Releasing(left, value) =>
          j.call.finished && j.call.abandoned && !j.call.done && j.outcome.Some? && j.received == [] && j.ran + left == j.accepted
          && (if value.Some? then Product(j) == [value.value] && j.discarded == [] else j.discarded == Product(j))
        case Over => j.call.finished && j.call.done && j.outcome.Some? && j.ran == j.accepted
                     && (if j.call.abandoned then j.discarded == Product(j) && j.received == []
                         else j.discarded == [] && j.call.stored == j.outcome && (j.received == [] || j.received == [j.outcome.value])))
    && (!j.call.abandoned ==> j.accepted == [])
  }

  /** Only the call being waited for, or the one given up on, can still be at work. */
  ghost predicate Inv(s: State) {
    && (s.caller.Idle? || At(s, s.caller.k)) && (s.pending.Some? ==> At(s, s.pending.value))
    && (forall k :: 0 <= k < |s.jobs| ==> JobOk(s.jobs[k]))
    && (forall k :: 0 <= k < |s.jobs| && CallerOn(s, k) ==> !s.jobs[k].call.abandoned && s.jobs[k].received == [])
    && (forall k :: 0 <= k < |s.jobs| && !CallerOn(s, k) && !s.jobs[k].call.abandoned ==> s.jobs[k].received != [])
    && (forall k :: 0 <= k < |s.jobs| && !s.jobs[k].call.done ==> CallerOn(s, k) || (s.pending == Some(k) && s.caller.Idle?))
    && (s.caller.Taking? ==> s.jobs[s.caller.k].call.done)
  }

  lemma StepKeepsJob(s: State, step: Step, k: nat)
    requires Inv(s) && Enabled(s, step) && At(Next(s, step), k)
    ensures JobOk(Next(s, step).jobs[k])
  {
    assert k < |s.jobs| ==> JobOk(s.jobs[k]);
  }

  lemma StepKeepsPlaces(s: State, step: Step)
    requires Inv(s) && Enabled(s, step)
    ensures var t := Next(s, step);
            && (t.caller.Idle? || At(t, t.caller.k)) && (t.pending.Some? ==> At(t, t.pending.value))
            && (forall k :: 0 <= k < |t.jobs| && CallerOn(t, k) ==> !t.jobs[k].call.abandoned && t.jobs[k].received == [])
            && (forall k :: 0 <= k < |t.jobs| && !CallerOn(t, k) && !t.jobs[k].call.abandoned ==> t.jobs[k].received != [])
            && (forall k :: 0 <= k < |t.jobs| && !t.jobs[k].call.done ==> CallerOn(t, k) || (t.pending == Some(k) && t.caller.Idle?))
            && (t.caller.Taking? ==> t.jobs[t.caller.k].call.done)
  {
    hide JobOk;
  }

  lemma StepKeepsInv(s: State, step: Step)
    requires Inv(s) && Enabled(s, step)
    ensures Inv(Next(s, step))
  {
    hide JobOk, Enabled, Next;
    var t := Next(s, step);
    forall k | 0 <= k < |t.jobs|
      ensures JobOk(t.jobs[k])
    {
      StepKeepsJob(s, step, k);
    }
    StepKeepsPlaces(s, step);
  }

  // ---------- runs ----------

  const INITIAL := State([], Idle, None)

  predicate IsRun(s: State, steps: seq<Step>)
    decreases |steps|
  {
    steps == [] || (Enabled(s, steps[0]) && IsRun(Next(s, steps[0]), steps[1..]))
  }

  function After(s: State, steps: seq<Step>): State
    requires IsRun(s, steps)
    decreases |steps|
  {
    if steps == [] then s else After(Next(s, steps[0]), steps[1..])
  }

  lemma {:induction false} RunKeepsInv(s: State, steps: seq<Step>)
    requires Inv(s) && IsRun(s, steps)
    ensures Inv(After(s, steps))
    decreases |steps|
  {
    hide Inv, Next;
    if steps != [] {
      StepKeepsInv(s, steps[0]);
      RunKeepsInv(Next(s, steps[0]), steps[1..]);
    }
  }

  /** A call's value is handed to the caller or discarded by the worker: never both, and once both are through, not neither. */
  lemma ValueGoesOnce(steps: seq<Step>, k: nat)
    requires IsRun(INITIAL, steps) && At(After(INITIAL, steps), k)
    ensures var s := After(INITIAL, steps);
            var j := s.jobs[k];
            && (j.received == [] || j.discarded == [])
            && (j.received == [] || (j.outcome.Some? && j.received == [j.outcome.value]))
            && (j.discarded == [] || j.discarded == Product(j))
            && (j.worker.Over? && !CallerOn(s, k) ==>
                  j.outcome.Some? && ((j.received == [j.outcome.value] && j.discarded == []) || (j.received == [] && j.discarded == Product(j))))
  {
    hide IsRun, After;
    RunKeepsInv(INITIAL, steps);
    assert JobOk(After(INITIAL, steps).jobs[k]);
  }

  /** Every accepted release runs once, in the order handed over, after the function returned and before the call counts as done. */
  lemma ReleasesRunOnce(steps: seq<Step>, k: nat)
    requires IsRun(INITIAL, steps) && At(After(INITIAL, steps), k)
    ensures var j := After(INITIAL, steps).jobs[k];
            && j.ran <= j.accepted && (j.call.done ==> j.ran == j.accepted)
            && (j.ran != [] ==> j.outcome.Some? && j.call.abandoned)
  {
    hide IsRun, After;
    RunKeepsInv(INITIAL, steps);
    assert JobOk(After(INITIAL, steps).jobs[k]);
  }

  /** At most one call is outstanding, and a new one starts only when none is. */
  lemma OneOutstanding(steps: seq<Step>, k: nat, m: nat)
    requires IsRun(INITIAL, steps)
    ensures var s := After(INITIAL, steps);
            && (At(s, k) && At(s, m) && !s.jobs[k].call.done && !s.jobs[m].call.done ==> k == m)
            && (Enabled(s, Start) <==> s.caller.Idle? && forall i :: 0 <= i < |s.jobs| ==> s.jobs[i].call.done)
  {
    hide IsRun, After;
    RunKeepsInv(INITIAL, steps);
  }

  // ---------- the worker needs nobody ----------

  function Left(w: Worker): nat {
    match w
    case Working => 0
    case Returned(_) => 0
    case Releasing(left, value) => |left| + (if value.Some? then 2 else 1)
    case Over => 0
  }

  /** Once its function returned, a worker comes to its end by its own steps, whatever the caller does. */
  lemma {:induction false} WorkerFinishes(s: State, k: nat) returns (steps: seq<Step>)
    requires Inv(s) && At(s, k) && !s.jobs[k].worker.Working?
    ensures IsRun(s, steps) && After(s, steps).jobs != [] && At(After(s, steps), k) && After(s, steps).jobs[k].worker.Over?
    ensures forall i :: 0 <= i < |steps| ==> steps[i] in {Finish(k), Discard(k), RunRelease(k), SetDone(k)}
    decreases if s.jobs[k].worker.Returned? then 1 else 0, Left(s.jobs[k].worker)
  {
    var w := s.jobs[k].worker;
    if w.Over? {
      return [];
    }
    var step := if w.Returned? then Finish(k) else if w.value.Some? then Discard(k) else if w.left != [] then RunRelease(k) else SetDone(k);
    StepKeepsInv(s, step);
    var rest := WorkerFinishes(Next(s, step), k);
    steps := [step] + rest;
    assert steps[1..] == rest;
  }
}
