/** The durable approval records: one per source, rewritten as a whole and atomically. */
module UvcApprovals {
  import opened Basics
  import opened UvcIdentity

  type SourceId = nat
  type Token = nat

  const MAX_RECORDS := 64

  datatype Record = Record(approved: Option<Evidence>, requiresApproval: bool, session: Option<Token>, ambiguous: bool)

  type Records = map<SourceId, Record>

  /** How a write ends: the fsync after the replace can still fail. */
  datatype Outcome = Done | FailedBefore | FailedAfter

  function Approval(r: Record): Option<Key> {
    if r.approved.None? then None else Strong(r.approved.value)
  }

  /** A latched duplicate stays latched while its key stays approved. */
  predicate KeepsLatch(r: Record, s: Record) {
    r.ambiguous && r.approved.Some? && s.approved.Some? && Approval(r) == Approval(s) ==> s.ambiguous
  }

  ghost predicate StepKeepsLatch(a: Records, b: Records) {
    forall id :: id in a && id in b ==> KeepsLatch(a[id], b[id])
  }

  /** What a session starts from, given what the last one left. */
  function Started(prior: Option<Record>, token: Token): (r: Record)
    ensures r.session == Some(token) && (r.ambiguous <==> prior.Some? && prior.value.ambiguous)
    ensures r.approved.Some? <==> prior.Some? && prior.value.approved.Some?
    ensures r.approved.Some? ==> r.approved == prior.value.approved
    ensures !r.requiresApproval <==> r.approved.Some? && prior.value.session.None? && !prior.value.requiresApproval
  {
    match prior
    case None => Record(None, true, Some(token), false)
    case Some(r) => Record(r.approved, r.requiresApproval || r.session.Some? || r.approved.None?, Some(token), r.ambiguous)
  }

  function Get(records: Records, id: SourceId): Option<Record> {
    if id in records then Some(records[id]) else None
  }

  /** No session changes any record but its own. */
  ghost predicate OnlyOwn(a: Records, b: Records, id: SourceId) {
    forall other :: other != id ==> Get(a, other) == Get(b, other)
  }

  /** What the contents of the file have in common: no latch or record is lost, and the bound holds. */
  ghost predicate Chronicle(h: seq<Records>) {
    && (forall i :: 0 < i < |h| ==> StepKeepsLatch(h[i - 1], h[i]))
    && (forall i :: 0 < i < |h| ==> h[i - 1].Keys <= h[i].Keys)
    && (forall i :: 0 <= i < |h| ==> |h[i]| <= MAX_RECORDS)
  }

  lemma ChronicleGrows(h: seq<Records>, r: Records)
    requires h != [] && Chronicle(h) && StepKeepsLatch(h[|h| - 1], r) && h[|h| - 1].Keys <= r.Keys && |r| <= MAX_RECORDS
    ensures Chronicle(h + [r])
  {
    hide StepKeepsLatch;
  }

  lemma LatchKept(a: Records, id: SourceId, r: Record)
    requires id in a ==> KeepsLatch(a[id], r)
    ensures StepKeepsLatch(a, a[id := r])
  {
    hide Strong;
  }

  lemma ChronicleBounds(h: seq<Records>)
    requires h != [] && Chronicle(h)
    ensures |h[|h| - 1]| <= MAX_RECORDS
  {
  }

  lemma ChronicleStops(h: seq<Records>, k: nat)
    requires k < |h| && Chronicle(h)
    ensures Chronicle(h[..k + 1])
  {
    hide StepKeepsLatch;
  }

  class ApprovalStore {
    var records: Records
    var nextToken: Token
    /** Every content the file has had. */
    ghost var history: seq<Records>

    ghost predicate Valid()
      reads this
    {
      && history != [] && history[|history| - 1] == records && Chronicle(history)
      && (forall id :: id in records && records[id].session.Some? ==> records[id].session.value < nextToken)
    }

    constructor ()
      ensures Valid() && records == map[]
    {
      records, nextToken, history := map[], 0, [map[]];
    }

    /** The file as found by a process started after the last one stopped. */
    constructor AfterStop(s: ApprovalStore, ghost k: nat, found: Records, fresh': Token)
      requires s.Valid() && k < |s.history| && found == s.history[k]
      requires forall id :: id in found && found[id].session.Some? ==> found[id].session.value < fresh'
      ensures Valid() && records == found && history == s.history[..k + 1]
    {
      records, nextToken, history := found, fresh', s.history[..k + 1];
      ChronicleStops(s.history, k);
    }

    /** Replace the file by a changed copy. */
    method Write(id: SourceId, r: Record, outcome: Outcome) returns (ok: bool)
      requires Valid() && (r.session.Some? ==> r.session.value < nextToken)
      requires id in records ==> KeepsLatch(records[id], r)
      modifies this`records, this`history
      ensures Valid() && OnlyOwn(old(records), records, id)
      ensures Extends(old(history), history, records)
      ensures (history == old(history) && records == old(records)) || records == old(records)[id := r]
      ensures ok ==> records == old(records)[id := r]
      ensures outcome == Done && |old(records)[id := r]| <= MAX_RECORDS ==> ok
      ensures outcome == FailedBefore ==> !ok && records == old(records) && history == old(history)
      ensures outcome == FailedAfter && |old(records)[id := r]| <= MAX_RECORDS ==> !ok && history != old(history) && records == old(records)[id := r]
    {
      hide Chronicle, KeepsLatch;
      var changed := records[id := r];
      LatchKept(records, id, r);
      if |changed| > MAX_RECORDS || outcome == FailedBefore {
        return false;
      }
      ChronicleGrows(history, changed);
      records := changed;
      history := history + [records];
      return outcome == Done;
    }

    /** Arm a new session; whatever armed session is found was not closed cleanly. */
    method StartSession(id: SourceId, outcome: Outcome) returns (saved: Option<Record>)
      requires Valid()
      modifies this
      ensures Valid() && OnlyOwn(old(records), records, id) && Extends(old(history), history, records)
      ensures saved.Some? ==> Get(records, id) == saved
      ensures saved.Some? ==> saved.value.session == Some(old(nextToken)) && saved.value == Started(Get(old(records), id), old(nextToken))
      ensures saved.None? ==> outcome != Done || (id !in old(records) && |old(records)| >= MAX_RECORDS)
    {
      var state := Started(Get(records, id), nextToken);
      nextToken := nextToken + 1;
      ChronicleBounds(history);
      assert id in records ==> records.Keys + {id} == records.Keys;
      var ok := Write(id, state, outcome);
      return if ok then Some(state) else None;
    }

    /** Record a decision of the session holding this token. */
    method Save(id: SourceId, approved: Option<Evidence>, requiresApproval: bool, token: Option<Token>, ambiguous: bool,
                release: bool, outcome: Outcome)
      returns (ok: bool)
      requires Valid()
      modifies this`records, this`history
      ensures Valid() && OnlyOwn(old(records), records, id) && Extends(old(history), history, records)
      ensures token.None? || id !in old(records) || old(records)[id].session != token ==>
                !ok && records == old(records) && history == old(history)
      ensures records == old(records) || history != old(history)
      ensures ok || history != old(history) ==>
                token.Some? && id in old(records) && id in records && records[id] == Saved(old(records)[id], approved, requiresApproval, token, ambiguous, release)
      ensures token.Some? && id in old(records) && old(records)[id].session == token && |old(records)| <= MAX_RECORDS ==>
                && (outcome == Done ==> ok)
                && (outcome == FailedAfter ==>
                    !ok && history != old(history) && Get(records, id) == Some(Saved(old(records)[id], approved, requiresApproval, token, ambiguous, release)))
      ensures outcome == FailedBefore ==> !ok && records == old(records) && history == old(history)
    {
      if token.None? || id !in records || records[id].session != token {
        return false;
      }
      hide Chronicle;
      ChronicleBounds(history);
      assert records.Keys == records.Keys + {id};
      ok := Write(id, Saved(records[id], approved, requiresApproval, token, ambiguous, release), outcome);
    }
  }

  ghost predicate Extends(h: seq<Records>, k: seq<Records>, now: Records) {
    h <= k && forall i :: |h| <= i < |k| ==> k[i] == now
  }

  /** What a save writes: the duplicate latch survives for the same key. */
  function Saved(prior: Record, approved: Option<Evidence>, requiresApproval: bool, token: Option<Token>, ambiguous: bool,
                 release: bool): (r: Record)
    ensures KeepsLatch(prior, r) && (ambiguous ==> r.ambiguous)
  {
    var key := if approved.None? then None else Strong(approved.value);
    var latched := ambiguous || (prior.ambiguous && prior.approved.Some? && approved.Some? && Approval(prior) == key);
    Record(approved, requiresApproval || approved.None?, if release then None else token, latched)
  }
}
