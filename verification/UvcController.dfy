/** One source's identity controller, and the capture manager's use of it. */
module UvcController {
  import opened Basics
  import opened UvcIdentity
  import opened UvcApprovals

  datatype CameraState = Offline | Degraded | Online | Manual
  datatype Reply = Bound(device: Option<Evidence>) | Closed | StorageError

  function SameKey(devices: seq<Evidence>, d: Evidence): nat {
    if Strong(d).None? then 0 else |WithKey(devices, Strong(d).value)|
  }

  lemma {:induction false} WithKeyMember(devices: seq<Evidence>, key: Key, d: Evidence)
    ensures d in WithKey(devices, key) <==> d in devices && Strong(d) == Some(key)
    decreases |devices|
  {
    if devices != [] {
      WithKeyMember(devices[1..], key, d);
      assert devices == [devices[0]] + devices[1..];
    }
  }

  /** The only device with its own key. */
  lemma AloneWithKey(devices: seq<Evidence>, d: Evidence)
    requires d in devices && Strong(d).Some? && SameKey(devices, d) == 1
    ensures OnlyOne(devices, Strong(d).value, d)
  {
    hide WithKey, OnlyOne, Strong;
    var key := Strong(d).value;
    WithKeyMember(devices, key, d);
    var matches := WithKey(devices, key);
    assert matches == [matches[0]];
    WithKeyByPosition(devices, key, d);
  }

  /** Whether approving this device leaves its serial latched as duplicated. */
  predicate Latches(ambiguous: bool, approved: Option<Evidence>, devices: seq<Evidence>, candidate: Evidence) {
    || (ambiguous && approved.Some? && Strong(candidate) == Strong(approved.value))
    || SameKey(devices, candidate) > 1
  }

  /** Saved from a record in step with the controller, an approval stays in step. */
  lemma ApprovalSaved(prior: Record, devices: seq<Evidence>, candidate: Evidence)
    ensures var latch := Latches(prior.ambiguous, prior.approved, devices, candidate);
            Saved(prior, Some(candidate), false, prior.session, latch, false) == Record(Some(candidate), false, prior.session, latch)
  {
  }

  class ReconnectController {
    const id: SourceId
    const store: ApprovalStore
    var token: Option<Token>
    var approved: Option<Evidence>
    var ambiguous: bool
    var requiresApproval: bool
    var state: CameraState
    var bound: Option<Evidence>
    var explicit: bool
    var finished: bool
    /** Whether this session began without a standing approval, and whether the Owner approved since. */
    ghost const mustApprove: bool
    ghost var approvedHere: bool

    /** A binding is the exact approved evidence, or carries the approved serial key, not latched. */
    ghost predicate Consistent()
      reads this
    {
      && (!requiresApproval ==> approved.Some?)
      && (bound.Some? ==> !requiresApproval
                          && if explicit then bound == approved
                             else Strong(bound.value).Some? && Strong(bound.value) == Strong(approved.value) && !ambiguous)
      && (mustApprove && !approvedHere ==> requiresApproval)
    }

    /** The record on disk says what this controller holds. */
    ghost predicate InSync()
      reads this, store
    {
      token.Some? && Get(store.records, id) == Some(Record(approved, requiresApproval, token, ambiguous))
    }

    /** This session is the one on record. */
    ghost predicate Owns()
      reads this, store
    {
      token.Some? && id in store.records && store.records[id].session == token && |store.records| <= MAX_RECORDS
    }

    constructor (id: SourceId, store: ApprovalStore, saved: Record)
      ensures this.id == id && this.store == store && Consistent() && bound.None? && !finished && !approvedHere
      ensures mustApprove == requiresApproval == (saved.requiresApproval || saved.approved.None?)
      ensures token == saved.session && approved == saved.approved && ambiguous == saved.ambiguous
    {
      this.id, this.store, token, approved, ambiguous := id, store, saved.session, saved.approved, saved.ambiguous;
      requiresApproval := saved.requiresApproval || saved.approved.None?;
      mustApprove := saved.requiresApproval || saved.approved.None?;
      state, bound, explicit, finished, approvedHere := Offline, None, false, false, false;
    }

    method Persist(outcome: Outcome) returns (ok: bool)
      requires store.Valid()
      modifies store`records, store`history
      ensures store.Valid() && OnlyOwn(old(store.records), store.records, id)
      ensures Armed(old(store.history), store.history, id, token)
      ensures ok || store.history != old(store.history) ==>
                id in old(store.records) && id in store.records
                && store.records[id] == Saved(old(store.records)[id], approved, requiresApproval, token, ambiguous, false)
      ensures ok ==> token.Some?
      ensures old(Owns()) ==> (outcome == Done ==> ok)
                              && (outcome != FailedBefore ==>
                                  Get(store.records, id) == Some(Saved(old(store.records)[id], approved, requiresApproval, token, ambiguous, false)))
    {
      ok := store.Save(id, approved, requiresApproval, token, ambiguous, false, outcome);
    }

    /** Whether the present binding may stand. */
    predicate Stands(devices: seq<Evidence>)
      reads this
    {
      && bound.Some? && multiset(devices)[bound.value] == 1
      && (explicit || Strong(bound.value).None? || (!ambiguous && SameKey(devices, bound.value) == 1))
    }

    /** Keep, drop or make a binding for the devices now present. */
    method Reconcile(devices: seq<Evidence>, outcome: Outcome) returns (r: Reply)
      requires Consistent() && store.Valid()
      modifies this`bound, this`explicit, this`requiresApproval, this`ambiguous, this`state, store`records, store`history
      ensures Consistent() && store.Valid() && OnlyOwn(old(store.records), store.records, id)
      ensures Armed(old(store.history), store.history, id, token)
      ensures r.Closed? <==> finished
      ensures old(InSync()) && !r.StorageError? ==> InSync()
      ensures r.StorageError? ==> bound.None? && requiresApproval
      ensures old(requiresApproval) || !requiresApproval ==> store.records == old(store.records) && store.history == old(store.history)
      ensures r.Bound? ==> r.device == bound
      ensures r.Bound? && old(requiresApproval) ==> bound.None? && requiresApproval
      ensures r.Bound? && !old(requiresApproval) && old(Stands(devices)) ==> bound == old(bound) && !requiresApproval
      ensures !finished && !old(requiresApproval) && !old(Stands(devices)) ==>
                Rebinds(old(ambiguous), old(approved).value, devices, bound) && !explicit
      ensures !finished && !old(requiresApproval) ==>
                (requiresApproval <==> !old(Stands(devices)) && Contested(old(ambiguous), old(approved).value, devices))
      ensures requiresApproval && !old(requiresApproval) && !old(ambiguous) && Strong(old(approved).value).Some? ==> ambiguous
      ensures r.Bound? && bound.Some? && !explicit ==> !ambiguous && OnlyOne(devices, Strong(approved.value).value, bound.value)
      ensures r.Bound? && bound.Some? && explicit ==> bound == approved && multiset(devices)[bound.value] == 1
      // Discovery alone is never online.
      ensures !finished ==> (requiresApproval ==> state == Manual) && (!requiresApproval && bound.None? ==> state == Offline)
                            && (state == Online ==> old(state) == Online && bound.Some?)
                            && (!old(requiresApproval) && old(Stands(devices)) ==> state == old(state))
                            && (bound.Some? && !old(Stands(devices)) ==> state == if old(state) == Online then Online else Degraded)
    {
      hide Strong, WithKey, OnlyOne, OnlyOwn, Armed, SameKey, MatchReconnect, Chronicle;
      NoWrites(store.records, store.history, id, token);
      if finished {
        return Closed;
      }
      if requiresApproval {
        bound := None;
        state := Manual;
        return Bound(None);
      }
      if Stands(devices) {
        if !explicit {
          AloneWithKey(devices, bound.value);
        }
        return Bound(bound);
      }
      var decision := MatchReconnect(approved.value, devices, ambiguous);
      DecisionMeans(approved.value, devices, ambiguous);
      bound := if decision.Matched? then Some(decision.device) else None;
      explicit := false;
      if decision.Duplicate? || decision.NotUnique? {
        requiresApproval := true;
        ambiguous := ambiguous || decision.Duplicate?;
        state := Manual;
        var ok := Persist(outcome);
        return if ok then Bound(None) else StorageError;
      }
      if decision.Absent? || state != Online {
        state := if decision.Matched? then Degraded else Offline;
      }
      return Bound(bound);
    }

    /** An exact Owner selection: recorded first, then handed over in memory. */
    method Approve(candidate: Evidence, devices: seq<Evidence>, outcome: Outcome) returns (r: Reply)
      requires Consistent() && store.Valid()
      modifies this, store`records, store`history
      ensures Consistent() && store.Valid() && OnlyOwn(old(store.records), store.records, id) && token == old(token)
      ensures Armed(old(store.history), store.history, id, token) && finished == old(finished)
      ensures finished || multiset(devices)[candidate] != 1 ==> r == Closed
      ensures r.Closed? ==> approved == old(approved) && bound == old(bound) && store.history == old(store.history)
      ensures r.Bound? ==> r.device == bound == approved == Some(candidate) && explicit && !requiresApproval && approvedHere && state == Degraded
      ensures !r.Bound? ==> SameMemory(old(approved), old(bound), old(requiresApproval), old(ambiguous), approved, bound, requiresApproval, ambiguous)
                            && approvedHere == old(approvedHere)
      ensures r.Bound? ==> ambiguous == Latches(old(ambiguous), old(approved), devices, candidate)
      ensures old(Owns()) && !finished && multiset(devices)[candidate] == 1 ==>
                && (outcome == Done ==> r.Bound?) && (outcome == FailedAfter ==> r.StorageError?)
                && (outcome != FailedBefore ==>
                    Get(store.records, id) == Some(Saved(old(store.records)[id], Some(candidate), false, token,
                                                         Latches(old(ambiguous), old(approved), devices, candidate), false)))
      ensures old(InSync()) && !r.StorageError? ==> InSync()
    {
      hide WithKey, OnlyOwn, Armed, Strong, Chronicle, StepKeepsLatch, SameKey, Saved, Latches, ApprovalStore.Valid;
      NoWrites(store.records, store.history, id, token);
      if finished || multiset(devices)[candidate] != 1 {
        return Closed;
      }
      var duplicated := Latches(ambiguous, approved, devices, candidate);
      ApprovalSaved(Record(approved, requiresApproval, token, ambiguous), devices, candidate);
      var ok := SaveFor(Some(candidate), false, duplicated, false, outcome);
      if !ok {
        return StorageError;
      }
      approved, bound, explicit := Some(candidate), Some(candidate), true;
      ambiguous, requiresApproval, state, approvedHere := duplicated, false, Degraded, true;
      return Bound(bound);
    }

    /** Save for this session. */
    method SaveFor(evidence: Option<Evidence>, needed: bool, latch: bool, release: bool, outcome: Outcome) returns (ok: bool)
      requires store.Valid()
      modifies store`records, store`history
      ensures store.Valid() && OnlyOwn(old(store.records), store.records, id)
      ensures Extends(old(store.history), store.history, store.records) && (!release ==> Armed(old(store.history), store.history, id, token))
      ensures ok ==> id in old(store.records) && old(store.records)[id].session == token && token.Some?
      ensures ok || store.history != old(store.history) ==>
                id in old(store.records) && id in store.records
                && store.records[id] == Saved(old(store.records)[id], evidence, needed, token, latch, release)
      ensures outcome == FailedBefore ==> !ok && store.history == old(store.history)
      ensures old(Owns()) ==> (outcome == Done ==> ok) && (outcome == FailedAfter ==> !ok && store.history != old(store.history))
                              && (outcome != FailedBefore ==>
                                  Get(store.records, id) == Some(Saved(old(store.records)[id], evidence, needed, token, latch, release)))
    {
      ok := store.Save(id, evidence, needed, token, latch, release, outcome);
    }

    /** Latch that the Owner must approve again. */
    method RequireApproval(outcome: Outcome) returns (ok: bool)
      requires Consistent() && store.Valid()
      modifies this`bound, this`explicit, this`requiresApproval, this`state, store`records, store`history
      ensures Consistent() && store.Valid() && OnlyOwn(old(store.records), store.records, id)
      ensures Armed(old(store.history), store.history, id, token)
      ensures bound.None? && requiresApproval && state == Manual
      ensures old(InSync()) && ok ==> InSync()
      ensures ok ==> id in store.records && store.records[id].requiresApproval && store.records[id].session == token
      ensures old(Owns()) ==> (outcome == Done ==> ok)
                              && (outcome != FailedBefore ==> id in store.records && store.records[id].requiresApproval)
    {
      hide OnlyOwn, Armed, Strong, Chronicle;
      bound, explicit, requiresApproval, state := None, false, true, Manual;
      ok := Persist(outcome);
    }

    method CaptureReady(candidate: Option<Evidence>) returns (ok: bool)
      modifies this`state
      ensures ok <==> !requiresApproval && candidate.Some? && bound == candidate
      ensures ok ==> state == Online
      ensures !ok ==> state == old(state)
    {
      if requiresApproval || candidate.None? || bound != candidate {
        return false;
      }
      state := Online;
      return true;
    }

    method CaptureUnsupported() returns (ok: bool)
      modifies this`state
      ensures ok <==> !requiresApproval && bound.Some?
      ensures state == if ok then Offline else old(state)
    {
      if requiresApproval || bound.None? {
        return false;
      }
      state := Offline;
      return true;
    }

    /** The capture failed or was closed: the binding ends with it. */
    method EndCapture(failed: bool)
      requires Consistent()
      modifies this`bound, this`explicit, this`state
      ensures Consistent() && bound.None? && !explicit
      ensures state == if failed || old(state) in {Degraded, Online} then Offline else old(state)
    {
      bound, explicit := None, false;
      if failed || state == Degraded || state == Online {
        state := Offline;
      }
    }

    /** Release the session, once no capture is bound. */
    method Shutdown(outcome: Outcome) returns (ok: bool)
      requires Consistent() && store.Valid()
      modifies this`token, this`finished, store`records, store`history
      ensures Consistent() && store.Valid() && OnlyOwn(old(store.records), store.records, id)
      ensures Extends(old(store.history), store.history, store.records)
      ensures bound.Some? ==> !ok && finished == old(finished) && token == old(token) && store.history == old(store.history)
      ensures ok ==> finished
      ensures ok && !old(finished) && old(token).Some? ==> id in store.records && store.records[id].session.None?
      ensures old(InSync()) && (ok || store.history != old(store.history)) && !old(finished) ==>
                Get(store.records, id) == Some(Record(approved, requiresApproval, None, ambiguous))
      ensures !ok ==> finished == old(finished) && token == old(token)
      ensures ok && !old(finished) ==> token.None?
      ensures old(Owns()) && bound.None? && !old(finished) ==>
                (ok <==> outcome == Done) && (store.history != old(store.history) <==> outcome != FailedBefore)
      ensures ok && !old(finished) && old(token).Some? ==> store.history != old(store.history)
      ensures old(Owns()) && bound.None? && !old(finished) && outcome == FailedAfter ==>
                !ok && Get(store.records, id) == Some(Saved(old(store.records)[id], approved, requiresApproval, token, ambiguous, true))
    {
      hide OnlyOwn, Strong, Chronicle;
      NoWrites(store.records, store.history, id, token);
      if bound.Some? {
        return false;
      }
      if finished {
        return true;
      }
      if token.Some? {
        ok := SaveFor(approved, requiresApproval, ambiguous, true, outcome);
        if !ok {
          return false;
        }
        token := None;
      }
      finished := true;
      return true;
    }
  }

  ghost predicate SameMemory(approved: Option<Evidence>, bound: Option<Evidence>, needed: bool, latch: bool,
                             approved': Option<Evidence>, bound': Option<Evidence>, needed': bool, latch': bool) {
    approved == approved' && bound == bound' && needed == needed' && latch == latch'
  }

  /** What the matching makes of the devices when no binding stands. */
  ghost predicate Rebinds(ambiguous: bool, approved: Evidence, devices: seq<Evidence>, bound: Option<Evidence>) {
    forall d :: bound == Some(d) <==> !ambiguous && Strong(approved).Some? && OnlyOne(devices, Strong(approved).value, d)
  }

  lemma DecisionMeans(approved: Evidence, devices: seq<Evidence>, ambiguous: bool)
    ensures var decision := MatchReconnect(approved, devices, ambiguous);
            && Rebinds(ambiguous, approved, devices, if decision.Matched? then Some(decision.device) else None)
            && (decision.Duplicate? || decision.NotUnique? <==> Contested(ambiguous, approved, devices))
            && (decision.NotUnique? && Strong(approved).Some? ==> ambiguous)
            && (decision.Matched? ==> !ambiguous && Strong(approved).Some? && Strong(decision.device) == Strong(approved)
                                      && OnlyOne(devices, Strong(approved).value, decision.device))
  {
    hide Strong, MatchReconnect;
    var decision := MatchReconnect(approved, devices, ambiguous);
    forall d
      ensures decision == Matched(d) <==> !ambiguous && Strong(approved).Some? && OnlyOne(devices, Strong(approved).value, d)
    {
      MatchIsUnique(approved, devices, ambiguous, d);
    }
    assert decision.Matched? ==> decision == Matched(decision.device);
    ContestedMeans(approved, devices, ambiguous);
  }

  /** Devices that fit the approval, but not as the one device with an unlatched serial key. */
  ghost predicate Contested(ambiguous: bool, approved: Evidence, devices: seq<Evidence>) {
    match Strong(approved)
    case None => HasModel(devices, ModelOf(approved))
    case Some(key) => !Nobody(devices, key) && (ambiguous || forall d :: !OnlyOne(devices, key, d))
  }

  lemma ContestedMeans(approved: Evidence, devices: seq<Evidence>, ambiguous: bool)
    ensures var decision := MatchReconnect(approved, devices, ambiguous);
            && (decision.Duplicate? || decision.NotUnique? <==> Contested(ambiguous, approved, devices))
            && (decision.NotUnique? && Strong(approved).Some? ==> ambiguous)
  {
    hide Strong, WithKey, OnlyOne;
    if Strong(approved).Some? {
      var key := Strong(approved).value;
      WithKeyByPosition(devices, key, approved);
      forall d
        ensures WithKey(devices, key) == [d] <==> OnlyOne(devices, key, d)
      {
        WithKeyByPosition(devices, key, d);
      }
      var matches := WithKey(devices, key);
      assert |matches| == 1 ==> matches == [matches[0]];
    }
  }

  lemma NoWrites(records: Records, h: seq<Records>, id: SourceId, token: Option<Token>)
    ensures OnlyOwn(records, records, id) && Armed(h, h, id, token)
  {
  }

  /** Every new content of the file still has this session armed. */
  ghost predicate Armed(h: seq<Records>, k: seq<Records>, id: SourceId, token: Option<Token>) {
    h <= k && forall i :: |h| <= i < |k| ==> id in k[i] && k[i][id].session == token && token.Some?
  }

  // ---------- the capture manager's use of a controller ----------

  /** The record of a session that has not been closed. */
  ghost predicate OpenSession(records: Records, id: SourceId) {
    id in records && records[id].session.Some?
  }

  class Source {
    const controller: ReconnectController
    var storageFailed: bool
    var closing: bool
    /** Where in the file's history this session began, and where its release was written, if it was. */
    ghost const began: nat
    ghost var releasedAt: Option<nat>

    ghost predicate Valid()
      reads this, controller, controller.store
    {
      && controller.store.Valid() && controller.Consistent()
      && began < |controller.store.history| && ArmedSince()
      && (!closing ==> controller.token.Some? && !controller.finished && releasedAt.None?)
      && (!closing && !storageFailed ==> controller.InSync())
      && (storageFailed || closing ==> controller.bound.None?)
      && (releasedAt.Some? ==> began < releasedAt.value < |controller.store.history| && ReleasedSince())
    }

    /** In every content of the file from the start to the release, the session is open: a stop there is an unclean one. */
    ghost predicate ArmedSince()
      reads this, controller, controller.store
    {
      forall i :: began <= i < |controller.store.history| && (releasedAt.None? || i < releasedAt.value) ==>
        OpenSession(controller.store.history[i], controller.id)
    }

    /** From the release on the record holds just what the controller held. */
    ghost predicate ReleasedSince()
      requires releasedAt.Some?
      reads this, controller, controller.store
    {
      forall i :: releasedAt.value <= i < |controller.store.history| ==>
        Get(controller.store.history[i], controller.id)
        == Some(Record(controller.approved, controller.requiresApproval, None, controller.ambiguous))
    }

    /** A session started on the file; it needs a new approval unless the last one was closed with a standing one. */
    constructor (id: SourceId, store: ApprovalStore, saved: Record)
      requires store.Valid() && Get(store.records, id) == Some(saved) && saved.session.Some?
      requires saved.approved.None? ==> saved.requiresApproval
      ensures Valid() && !storageFailed && !closing && controller.id == id && controller.store == store
      ensures controller.bound.None? && !controller.approvedHere && controller.mustApprove == saved.requiresApproval
      ensures fresh(controller)
    {
      controller := new ReconnectController(id, store, saved);
      storageFailed, closing, began, releasedAt := false, false, |store.history| - 1, None;
    }

    /** Nothing is done with a controller whose record may not say what it holds. */
    method FailStorage()
      requires controller.store.Valid() && controller.Consistent() && began < |controller.store.history|
      requires !closing && controller.token.Some? && !controller.finished && releasedAt.None? && ArmedSince()
      modifies this`storageFailed, controller`bound
      ensures Valid() && storageFailed
      ensures controller.approvedHere == old(controller.approvedHere)
    {
      storageFailed := true;
      controller.bound := None;
    }

    /** One look at the devices. */
    method Reconcile(devices: seq<Evidence>, outcome: Outcome) returns (bound: Option<Evidence>)
      requires Valid() && !closing
      modifies this`storageFailed, controller, controller.store
      ensures Valid() && !closing && bound == controller.bound
      ensures bound.Some? ==> controller.approved.Some?
      ensures bound.Some? ==>
                || (controller.explicit && bound == controller.approved && multiset(devices)[bound.value] == 1)
                || (Strong(controller.approved.value).Some? && OnlyOne(devices, Strong(controller.approved.value).value, bound.value))
      ensures bound.Some? && !controller.explicit ==>
                controller.id in controller.store.records && !controller.store.records[controller.id].ambiguous
      ensures controller.mustApprove && !controller.approvedHere ==> bound.None?
      ensures controller.approvedHere == old(controller.approvedHere)
      ensures !old(storageFailed) && !old(controller.requiresApproval) ==>
                if old(controller.Stands(devices)) then bound == old(controller.bound)
                else Rebinds(old(controller.ambiguous), old(controller.approved).value, devices, bound)
    {
      if storageFailed {
        return None;
      }
      var r := controller.Reconcile(devices, outcome);
      ArmedOn(old(controller.store.history), controller.store.history, began, controller.id, controller.token);
      if r.StorageError? {
        FailStorage();
        return None;
      }
      bound := controller.bound;
    }

    /** The Owner's choice of an exact device. */
    method Approve(candidate: Evidence, devices: seq<Evidence>, outcome: Outcome) returns (ok: bool)
      requires Valid() && !closing
      modifies this`storageFailed, controller, controller.store
      ensures Valid() && !closing
      ensures ok ==> controller.bound == controller.approved == Some(candidate) && multiset(devices)[candidate] == 1
      ensures ok ==> Get(controller.store.records, controller.id).Some?
                     && Get(controller.store.records, controller.id).value.approved == Some(candidate)
      ensures !ok ==> controller.bound.None? && controller.approvedHere == old(controller.approvedHere)
      ensures !old(storageFailed) && outcome == Done && multiset(devices)[candidate] == 1 ==> ok && !storageFailed && !controller.requiresApproval
    {
      if storageFailed {
        return false;
      }
      ChronicleBounds(controller.store.history);
      controller.EndCapture(false);
      var r := controller.Approve(candidate, devices, outcome);
      ArmedOn(old(controller.store.history), controller.store.history, began, controller.id, controller.token);
      if r.StorageError? {
        FailStorage();
      }
      return r.Bound?;
    }

    /** Two sources resolved to one camera: neither keeps it, and only the Owner can give it back. */
    method Conflict(outcome: Outcome)
      requires Valid() && !closing
      modifies this`storageFailed, controller, controller.store
      ensures Valid() && !closing && controller.bound.None? && controller.approvedHere == old(controller.approvedHere)
      ensures storageFailed || controller.requiresApproval
      ensures !storageFailed ==> controller.id in controller.store.records && controller.store.records[controller.id].requiresApproval
      ensures outcome == Done ==> storageFailed == old(storageFailed)
      ensures old(storageFailed) ==> controller.store.history == old(controller.store.history)
      ensures !old(storageFailed) && outcome == FailedAfter ==>
                controller.id in controller.store.records && controller.store.records[controller.id].requiresApproval
    {
      if storageFailed {
        return;
      }
      var ok := controller.RequireApproval(outcome);
      ArmedOn(old(controller.store.history), controller.store.history, began, controller.id, controller.token);
      if !ok {
        FailStorage();
      }
    }

    /** End of a capture, for whatever reason. */
    method EndCapture(failed: bool)
      requires Valid() && !closing
      modifies controller
      ensures Valid() && controller.bound.None? && controller.approvedHere == old(controller.approvedHere)
    {
      controller.EndCapture(failed);
    }

    /** Release the session, unless its record is in doubt or something is still held. */
    method Close(held: bool, outcome: Outcome) returns (clean: bool)
      requires Valid() && !closing
      modifies this`closing, this`releasedAt, controller, controller.store
      ensures Valid() && closing
      ensures clean ==> !held && !old(storageFailed) && releasedAt.Some?
      ensures held || old(storageFailed) ==> !clean && controller.store.history == old(controller.store.history)
      ensures releasedAt.None? <==> controller.store.history == old(controller.store.history)
      ensures releasedAt.Some? ==> releasedAt.value == |old(controller.store.history)|
      ensures !held && !old(storageFailed) ==> (clean <==> outcome == Done) && (releasedAt.Some? <==> outcome != FailedBefore)
      ensures controller.requiresApproval == old(controller.requiresApproval)
    {
      hide Chronicle, OnlyOwn, Strong, Saved;
      ChronicleBounds(controller.store.history);
      controller.EndCapture(false);
      closing := true;
      if held || storageFailed {
        return false;
      }
      ghost var before := controller.store.history;
      clean := controller.Shutdown(outcome);
      if controller.store.history != before {
        ReleasedHere(before, controller.store.history, controller.store.records);
        releasedAt := Some(|before|);
      }
    }
  }

  lemma ReleasedHere(h: seq<Records>, k: seq<Records>, now: Records)
    requires Extends(h, k, now) && h != k
    ensures |h| < |k| && forall i :: |h| <= i < |k| ==> k[i] == now
  {
    assert |h| == |k| ==> h == k;
  }

  lemma ArmedOn(h: seq<Records>, k: seq<Records>, began: nat, id: SourceId, token: Option<Token>)
    requires began < |h| && Armed(h, k, id, token)
    requires forall i :: began <= i < |h| ==> OpenSession(h[i], id)
    ensures forall i :: began <= i < |k| ==> OpenSession(k[i], id)
  {
    forall i | began <= i < |k|
      ensures OpenSession(k[i], id)
    {
      assert i < |h| ==> h[i] == k[i];
    }
  }

  // ---------- runs ----------

  /**
   A process started where another stopped, at any moment of its session or after its close,
   binds nothing until the Owner approves, unless the session had been released with a
   standing approval: a close that found something held, storage failed or the release
   unwritten does not count.
   */
  method RestartAfterStop(s: Source, ghost k: nat, found: Records, unused: Token, outcome: Outcome) returns (next: Option<Source>)
    requires s.Valid() && s.began <= k < |s.controller.store.history| && found == s.controller.store.history[k]
    requires forall id :: id in found && found[id].session.Some? ==> found[id].session.value < unused
    ensures next.Some? ==> next.value.Valid() && !next.value.closing && next.value.controller.id == s.controller.id
    ensures next.Some? ==> !next.value.controller.approvedHere && next.value.controller.bound.None?
    ensures next.Some? ==> (next.value.controller.mustApprove <==>
                              s.releasedAt.None? || k < s.releasedAt.value || s.controller.requiresApproval)
    ensures next.None? ==> outcome != Done
  {
    var id := s.controller.id;
    var store := new ApprovalStore.AfterStop(s.controller.store, k, found, unused);
    var saved := store.StartSession(id, outcome);
    if saved.None? {
      return None;
    }
    var source := new Source(id, store, saved.value);
    return Some(source);
  }

  /** Through any writes and restarts, a latched key that stays approved stays latched. */
  lemma {:induction false} LatchedForGood(h: seq<Records>, id: SourceId, i: nat, j: nat)
    requires forall n :: 0 < n < |h| ==> StepKeepsLatch(h[n - 1], h[n])
    requires i <= j < |h| && id in h[i] && h[i][id].ambiguous && h[i][id].approved.Some?
    requires forall n :: i <= n <= j ==> id in h[n] && h[n][id].approved.Some? && Approval(h[n][id]) == Approval(h[i][id])
    ensures h[j][id].ambiguous
    decreases j - i
  {
    if i < j {
      LatchedForGood(h, id, i, j - 1);
      assert StepKeepsLatch(h[j - 1], h[j]);
    }
  }

  // ---------- a controller used on after a failed save ----------

  const CAMERA := Evidence("vendor", "product", Some("serial"), "0", 1)
  const TWIN := CAMERA.(rest := 2)

  lemma CameraFacts()
    ensures Strong(CAMERA) == Strong(TWIN) == Some(StrongKey("vendor", "product", "serial", "0"))
    ensures SameKey([CAMERA], CAMERA) == 1 && SameKey([CAMERA, TWIN], CAMERA) == 2
    ensures OnlyOne([CAMERA], Strong(CAMERA).value, CAMERA)
    ensures multiset([CAMERA])[CAMERA] == 1 && multiset([CAMERA, TWIN])[CAMERA] == 1
  {
    assert WithKey([CAMERA], Strong(CAMERA).value) == [CAMERA] by {
      assert [CAMERA][1..] == [];
    }
    assert [CAMERA, TWIN][1..] == [TWIN] && [TWIN][1..] == [];
    assert WithKey([CAMERA, TWIN], Strong(CAMERA).value) == [CAMERA, TWIN];
    WithKeyByPosition([CAMERA], Strong(CAMERA).value, CAMERA);
  }

  lemma OneRecord(a: Records, b: Records, id: SourceId)
    requires OnlyOwn(a, b, id) && a.Keys <= {id}
    ensures b.Keys <= {id} && |b| <= 1
  {
    forall other | other in b
      ensures other == id
    {
      assert other != id ==> Get(a, other) == Get(b, other);
    }
    assert b.Keys <= {id};
    if id in b {
      assert b.Keys == {id};
    } else {
      assert b.Keys == {};
    }
    assert |b| == |b.Keys|;
  }

  /** The same camera approved twice: first beside its twin, with the write reported as failed. */
  method ApprovedTwice() returns (c: ReconnectController)
    ensures c.store.Valid() && c.Consistent() && c.approved == Some(CAMERA) && fresh(c) && fresh(c.store)
    ensures !c.ambiguous && !c.requiresApproval && !c.finished
    ensures c.id in c.store.records && c.store.records[c.id].ambiguous && c.store.records[c.id].approved == Some(CAMERA)
  {
    hide Strong, WithKey, OnlyOne, SameKey, Chronicle, StepKeepsLatch, OnlyOwn, Armed, Extends, CAMERA, TWIN;
    CameraFacts();
    var store := new ApprovalStore();
    var saved := store.StartSession(0, Done);
    c := new ReconnectController(0, store, saved.value);
    ghost var none: Records := map[];
    OneRecord(none, store.records, c.id);
    ghost var before := store.records;
    var first := c.Approve(CAMERA, [CAMERA, TWIN], FailedAfter);
    OneRecord(before, store.records, c.id);
    var second := c.Approve(CAMERA, [CAMERA], Done);
  }

  /** The latch on disk is then unknown to the controller, which rebinds the latched key by itself. */
  method LatchOutOfStep() returns (c: ReconnectController)
    ensures c.store.Valid() && c.Consistent()
    ensures c.bound.Some? && !c.explicit && c.id in c.store.records && c.store.records[c.id].ambiguous
    ensures c.store.records[c.id].approved == c.approved == c.bound
  {
    hide Strong, WithKey, OnlyOne, SameKey, Chronicle, StepKeepsLatch, OnlyOwn, Armed, Extends, CAMERA, TWIN;
    CameraFacts();
    c := ApprovedTwice();
    c.EndCapture(true);
    var r := c.Reconcile([CAMERA], Done);
  }

  /**
   A release written but reported as failed: the controller goes on and binds again, and
   the next session, started with no clean shutdown in between, asks for no approval.
   */
  method ReleasedButRunning() returns (c: ReconnectController, released: bool, next: Record)
    ensures !released && c.Consistent() && c.bound == Some(CAMERA) && !next.requiresApproval
  {
    hide Strong, WithKey, OnlyOne, SameKey, Chronicle, StepKeepsLatch, OnlyOwn, Armed, Extends, CAMERA, TWIN;
    CameraFacts();
    c := ApprovedOnce();
    ghost var before := c.store.records;
    released := c.Shutdown(FailedAfter);
    OneRecord(before, c.store.records, c.id);
    var r := c.Reconcile([CAMERA], Done);
    var saved := c.store.StartSession(c.id, Done);
    next := saved.value;
  }

  method ApprovedOnce() returns (c: ReconnectController)
    ensures c.store.Valid() && c.Consistent() && c.approved == Some(CAMERA) && fresh(c) && fresh(c.store)
    ensures !c.ambiguous && !c.requiresApproval && !c.finished && c.bound.None? && c.Owns() && c.InSync()
    ensures c.store.records.Keys <= {c.id}
  {
    hide Strong, WithKey, OnlyOne, SameKey, Chronicle, StepKeepsLatch, OnlyOwn, Armed, Extends, CAMERA, TWIN;
    CameraFacts();
    var store := new ApprovalStore();
    var saved := store.StartSession(0, Done);
    c := new ReconnectController(0, store, saved.value);
    ghost var none: Records := map[];
    OneRecord(none, store.records, c.id);
    ghost var before := store.records;
    var r := c.Approve(CAMERA, [CAMERA], Done);
    OneRecord(before, store.records, c.id);
    c.EndCapture(false);
  }

  /** A close whose release was written but reported as failed is unclean, and yet the next session asks for no approval. */
  method UncleanButReleased() returns (clean: bool, next: Option<Source>)
    ensures !clean && next.Some? && next.value.Valid() && !next.value.controller.mustApprove
  {
    hide Strong, WithKey, OnlyOne, SameKey, Chronicle, OnlyOwn, Armed, Extends, CAMERA, TWIN;
    CameraFacts();
    var store := new ApprovalStore();
    var saved := store.StartSession(0, Done);
    var source := new Source(0, store, saved.value);
    var ok := source.Approve(CAMERA, [CAMERA], Done);
    clean := source.Close(false, FailedAfter);
    ghost var last := |store.history| - 1;
    next := RestartAfterStop(source, last, store.records, store.nextToken, Done);
  }
}
