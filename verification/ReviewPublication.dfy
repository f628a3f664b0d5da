/**
 The review gate's publication protocol: a write-ahead ledger record against
 GitHub's append-only list of check attempts. Saves and posts can fail before or
 after taking effect and a worker can stop anywhere; every durable state on the
 way is kept in a history, and all of them are safe.

 One pull request and review provider is modelled; the ledger lock serializes workers.
 */
module ReviewPublication {
  import opened Basics

  type Sha = nat
  type RequestId = nat
  type RunId = nat

  const MAX_CHECK_RUN_PAGES := 10
  const PAGE := 100
  const MAX_CHECK_RUN_ATTEMPTS := MAX_CHECK_RUN_PAGES * PAGE

  /** A live pull request context; `rest` stands for head, base, merge base and diff digest. */
  datatype Context = Context(testMerge: Sha, rest: nat)

  datatype PublicationState = Publishing | Success | Revoking

  datatype Publication = Publication(request: RequestId, testMerge: Sha, run: Option<RunId>, state: PublicationState)

  datatype RequestState = Active | Invalidated

  datatype Request = Request(
    id: RequestId, state: RequestState, context: Context,
    reviewWatermark: nat, commentWatermark: nat, published: Option<Publication>)

  /** One Check Run of the dedicated App; ids grow in creation order. */
  datatype Attempt = Attempt(sha: Sha, id: RunId, success: bool)

  /** What survives a crash: the ledger record and GitHub's attempts. */
  datatype Gate = Gate(ledger: Option<Request>, attempts: seq<Attempt>)

  /** The latest attempt on a commit. */
  function Latest(attempts: seq<Attempt>, sha: Sha): Option<Attempt> {
    if attempts == [] then None
    else if attempts[|attempts| - 1].sha == sha then Some(attempts[|attempts| - 1])
    else Latest(attempts[..|attempts| - 1], sha)
  }

  predicate ReadsSuccess(attempts: seq<Attempt>, sha: Sha) {
    var latest := Latest(attempts, sha);
    latest.Some? && latest.value.success
  }

  ghost predicate Names(ledger: Option<Request>, sha: Sha) {
    ledger.Some? && ledger.value.published.Some? && ledger.value.published.value.testMerge == sha
  }

  /** A commit that reads successful is named by the ledger's publication. */
  ghost predicate Safe(g: Gate) {
    forall sha :: ReadsSuccess(g.attempts, sha) ==> Names(g.ledger, sha)
  }

  ghost predicate NoneSuccessful(attempts: seq<Attempt>) {
    forall sha :: !ReadsSuccess(attempts, sha)
  }

  ghost predicate IdsGrow(attempts: seq<Attempt>) {
    forall i, j :: 0 <= i < j < |attempts| ==> attempts[i].id < attempts[j].id
  }

  /** At most one test merge ever reads successful. */
  lemma AtMostOneSuccessful(g: Gate, a: Sha, b: Sha)
    requires Safe(g) && ReadsSuccess(g.attempts, a) && ReadsSuccess(g.attempts, b)
    ensures a == b
  {
    assert Names(g.ledger, a) && Names(g.ledger, b);
  }

  lemma {:induction false} LatestOnCommit(attempts: seq<Attempt>, sha: Sha)
    ensures Latest(attempts, sha).Some? ==> Latest(attempts, sha).value.sha == sha
    decreases |attempts|
  {
    if attempts != [] {
      LatestOnCommit(attempts[..|attempts| - 1], sha);
    }
  }

  lemma PostedLatest(attempts: seq<Attempt>, a: Attempt, sha: Sha)
    ensures Latest(attempts + [a], sha) == if a.sha == sha then Some(a) else Latest(attempts, sha)
  {
    assert (attempts + [a])[..|attempts|] == attempts;
  }

  lemma PostedSafe(g: Gate, a: Attempt)
    requires Safe(g) && (a.success ==> Names(g.ledger, a.sha))
    ensures Safe(g.(attempts := g.attempts + [a]))
    ensures !a.success ==> !ReadsSuccess(g.attempts + [a], a.sha)
  {
    hide Latest;
    forall sha
      ensures ReadsSuccess(g.attempts + [a], sha) ==> Names(g.ledger, sha)
    {
      PostedLatest(g.attempts, a, sha);
    }
    PostedLatest(g.attempts, a, a.sha);
  }

  /** The App's attempts on a commit, oldest first. */
  function RunsOn(attempts: seq<Attempt>, sha: Sha): seq<Attempt> {
    if attempts == [] then []
    else RunsOn(attempts[..|attempts| - 1], sha)
         + if attempts[|attempts| - 1].sha == sha then [attempts[|attempts| - 1]] else []
  }

  lemma {:induction false} RunsOnLatest(attempts: seq<Attempt>, sha: Sha)
    ensures var runs := RunsOn(attempts, sha);
            Latest(attempts, sha) == if runs == [] then None else Some(runs[|runs| - 1])
    ensures forall x :: x in RunsOn(attempts, sha) ==> x in attempts
    decreases |attempts|
  {
    if attempts != [] {
      RunsOnLatest(attempts[..|attempts| - 1], sha);
    }
  }

  lemma {:induction false} RunsOnKeepsOrder(attempts: seq<Attempt>, sha: Sha)
    requires IdsGrow(attempts)
    ensures IdsGrow(RunsOn(attempts, sha))
    decreases |attempts|
  {
    if attempts != [] {
      var front, last := attempts[..|attempts| - 1], attempts[|attempts| - 1];
      RunsOnKeepsOrder(front, sha);
      RunsOnLatest(front, sha);
      var runs := RunsOn(front, sha);
      forall i | 0 <= i < |runs|
        ensures runs[i].id < last.id
      {
        assert runs[i] in front;
      }
    }
  }

  /** Page through a listing; None if it cannot be read completely within the page limit. */
  method ReadPages(listing: seq<Attempt>) returns (runs: Option<seq<Attempt>>)
    ensures runs == if |listing| <= MAX_CHECK_RUN_ATTEMPTS then Some(listing) else None
  {
    var total := |listing|;
    var read: seq<Attempt> := [];
    var page := 0;
    while page < MAX_CHECK_RUN_PAGES
      invariant page <= MAX_CHECK_RUN_PAGES
      invariant |read| == Min(total, page * PAGE) && read == listing[..|read|]
    {
      var items := listing[Min(total, page * PAGE)..Min(total, (page + 1) * PAGE)];
      assert listing[..|read|] + items == listing[..|read| + |items|];
      read := read + items;
      page := page + 1;
      if |read| >= total || items == [] {
        break;
      }
    }
    if |read| != total {
      return None;
    }
    assert listing[..total] == listing;
    return Some(read);
  }

  /** Whether a run is still the newest attempt on its commit, completed and successful. */
  method SuccessIsLatestAttempt(attempts: seq<Attempt>, sha: Sha, run: RunId) returns (latest: bool)
    requires IdsGrow(attempts)
    ensures latest <==> |RunsOn(attempts, sha)| <= MAX_CHECK_RUN_ATTEMPTS
                        && Latest(attempts, sha).Some? && Latest(attempts, sha).value.id == run && Latest(attempts, sha).value.success
  {
    hide RunsOn, Latest;
    RunsOnKeepsOrder(attempts, sha);
    RunsOnLatest(attempts, sha);
    var runs := ReadPages(RunsOn(attempts, sha));
    if runs.None? {
      return false;
    }
    var newest: Option<Attempt> := None;
    for i := 0 to |runs.value|
      invariant newest == if i == 0 then None else Some(runs.value[i - 1])
    {
      if newest.None? || runs.value[i].id > newest.value.id {
        newest := Some(runs.value[i]);
      }
    }
    return newest.Some? && newest.value.id == run && newest.value.success;
  }

  /** The ledger directory and GitHub, shared by all workers. */
  class World {
    var ledger: Option<Request>
    var attempts: seq<Attempt>
    var nextRun: RunId
    var nextRequest: RequestId
    /** Every durable state so far: a crash leaves one of these. */
    ghost var history: seq<Gate>
    /** No save fails; GitHub answers every read and confirms every post. */
    const saves: bool
    const answers: bool

    ghost predicate Valid()
      reads this
    {
      && history != [] && history[|history| - 1] == Gate(ledger, attempts)
      && (forall i :: 0 <= i < |history| ==> Safe(history[i]))
      && IdsGrow(attempts) && (forall a :: a in attempts ==> a.id < nextRun)
      && (ledger.Some? ==> ledger.value.id < nextRequest)
    }

    constructor (saves: bool, answers: bool)
      ensures Valid() && ledger.None? && attempts == [] && this.saves == saves && this.answers == answers
    {
      this.saves, this.answers := saves, answers;
      ledger, attempts, nextRun, nextRequest := None, [], 1, 1;
      history := [Gate(None, [])];
    }

    /** Atomic replace, then a directory fsync that can still fail. */
    method Save(r: Request) returns (ok: bool)
      requires Valid() && Safe(Gate(Some(r), attempts)) && r.id < nextRequest
      modifies this`ledger, this`history
      ensures Valid() && old(history) <= history
      ensures ok ==> ledger == Some(r)
      ensures !ok ==> ledger == old(ledger) || ledger == Some(r)
      ensures saves ==> ok
    {
      hide Safe;
      var replaced: bool := *;
      replaced := replaced || saves;
      if replaced {
        ledger := Some(r);
        history := history + [Gate(ledger, attempts)];
      }
      var synced: bool := *;
      ok := replaced && (synced || saves);
    }

    /** A Check Run post: confirmed, delivered but reported as an error, or not delivered. */
    method Post(sha: Sha, success: bool) returns (run: Option<RunId>)
      requires Valid() && (success ==> Names(ledger, sha))
      modifies this`attempts, this`nextRun, this`history
      ensures Valid() && old(history) <= history
      ensures attempts == old(attempts) || (exists id :: attempts == old(attempts) + [Attempt(sha, id, success)])
      ensures run.Some? ==> attempts == old(attempts) + [Attempt(sha, run.value, success)]
      ensures answers ==> run.Some?
    {
      run := None;
      var delivered: bool := *;
      if delivered || answers {
        var id := nextRun;
        PostedSafe(Gate(ledger, attempts), Attempt(sha, id, success));
        attempts := attempts + [Attempt(sha, id, success)];
        nextRun := nextRun + 1;
        history := history + [Gate(ledger, attempts)];
        var confirmed: bool := *;
        if confirmed || answers {
          run := Some(id);
        }
      }
    }

    method NewRequestId() returns (id: RequestId)
      requires Valid()
      modifies this`nextRequest
      ensures Valid() && id == old(nextRequest) && nextRequest == id + 1
    {
      id := nextRequest;
      nextRequest := nextRequest + 1;
    }
  }

  datatype Verdict = Clean | NotClean | NoReviewYet | Unreadable

  datatype Collected = Raised | Pending | Blocked | Superseded | Pass(request: RequestId, context: Context)

  datatype PassResult =
    | Decided(collected: Collected)
    | FailedAndRevoked      // the collection error is re-raised after the success was superseded
    | FailedUnrevoked       // "the published success could not be revoked"

  /** The in-memory copy of the ledger record, perhaps with its publication marked as revoking. */
  ghost predicate Mirrors(ledger: Option<Request>, r: Request) {
    && ledger.Some?
    && (r == ledger.value
        || (ledger.value.published.Some?
            && r == ledger.value.(published := Some(ledger.value.published.value.(state := Revoking)))))
  }

  /** The ledger's active request is the given one, for the given context. */
  predicate Requested(ledger: Option<Request>, request: RequestId, context: Context) {
    ledger.Some? && ledger.value.state == Active && ledger.value.id == request && ledger.value.context == context
  }

  /** An active request is written off, because some live read of this pass was of another context. */
  ghost predicate Invalidates(was: Option<Request>, now: Option<Request>, before: Option<Context>, again: Option<Context>, after: Option<Context>) {
    && was.Some? && was.value.state == Active && now == Some(was.value.(state := Invalidated))
    && if before != Some(was.value.context) then again.Some? && again.value != was.value.context
       else after.Some? && after.value != was.value.context
  }

  /** What the reviews of an unchanged context mean. */
  function Judged(verdict: Verdict, r: Request): Collected {
    match verdict
    case Unreadable => Raised
    case NotClean => Blocked
    case NoReviewYet => Pending
    case Clean => Pass(r.id, r.context)
  }

  /** The request is published, and its success is still the newest attempt. */
  ghost predicate Stands(ledger: Option<Request>, attempts: seq<Attempt>, request: RequestId, context: Context) {
    && Requested(ledger, request, context) && ledger.value.published.Some?
    && ledger.value.published.value.state == Success && ledger.value.published.value.request == request
    && ledger.value.published.value.testMerge == context.testMerge && ledger.value.published.value.run.Some?
    && |RunsOn(attempts, context.testMerge)| <= MAX_CHECK_RUN_ATTEMPTS
    && Latest(attempts, context.testMerge) == Some(Attempt(context.testMerge, ledger.value.published.value.run.value, true))
  }

  /** When nothing fails, clean results of the requested, unchanged context are published, unless the commit has too many attempts. */
  ghost predicate PassPublished(r: Request, attempts: seq<Attempt>, before: Option<Context>, after: Option<Context>,
                                live: Option<Context>, verdict: Verdict, result: PassResult) {
    verdict == Clean && before == after == live == Some(r.context) && |RunsOn(attempts, r.context.testMerge)| + 1 < MAX_CHECK_RUN_ATTEMPTS ==>
      result == Decided(Pass(r.id, r.context))
  }

  /** The listing of reviews lacks the newest one the last request saw. */
  ghost predicate Regressed(ledger: Option<Request>, reviewIds: seq<nat>) {
    ledger.Some? && ledger.value.reviewWatermark > 0 && forall x :: x in reviewIds ==> x < ledger.value.reviewWatermark
  }

  /** GitHub's attempts only grow, here by failures. */
  ghost predicate OnlyFailures(old': seq<Attempt>, now: seq<Attempt>) {
    old' <= now && forall i :: |old'| <= i < |now| ==> !now[i].success
  }

  /** Attempts only grow, and a new success is on this commit. */
  ghost predicate SuccessesOf(old': seq<Attempt>, now: seq<Attempt>, sha: Sha) {
    old' <= now && forall i :: |old'| <= i < |now| && now[i].success ==> now[i].sha == sha
  }

  ghost predicate NewSuccess(old': seq<Attempt>, now: seq<Attempt>) {
    exists i :: |old'| <= i < |now| && now[i].success
  }

  /** A failure attempt on the commit the ledger names leaves nothing successful. */
  lemma FailureClears(g: Gate, sha: Sha)
    requires Safe(g) && Names(g.ledger, sha)
    ensures forall id :: NoneSuccessful(g.attempts + [Attempt(sha, id, false)])
  {
    forall id
      ensures NoneSuccessful(g.attempts + [Attempt(sha, id, false)])
    {
      forall other
        ensures !ReadsSuccess(g.attempts + [Attempt(sha, id, false)], other)
      {
        PostedLatest(g.attempts, Attempt(sha, id, false), other);
        assert ReadsSuccess(g.attempts, other) ==> Names(g.ledger, other);
      }
    }
  }

  /** One more attempt is at most one more run on a commit. */
  lemma AtMostOneMore(old': seq<Attempt>, now: seq<Attempt>, sha: Sha)
    requires old' <= now && |now| <= |old'| + 1
    ensures |RunsOn(old', sha)| <= |RunsOn(now, sha)| <= |RunsOn(old', sha)| + 1
  {
    if now != old' {
      assert now[..|now| - 1] == old';
    }
  }

  function Carry(r: Request, p: Option<Publication>): Request {
    r.(published := p)
  }

  /** Rewriting a record without changing which commit its publication names stays safe. */
  lemma SameNameSafe(g: Gate, r: Request)
    requires Safe(g) && g.ledger.Some?
    requires r.published.Some? <==> g.ledger.value.published.Some?
    requires r.published.Some? ==> r.published.value.testMerge == g.ledger.value.published.value.testMerge
    ensures Safe(Gate(Some(r), g.attempts))
  {
    forall sha | ReadsSuccess(g.attempts, sha)
      ensures Names(Some(r), sha)
    {
      assert Names(g.ledger, sha);
    }
  }

  /** Once the named commit does not read successful, the publication can be dropped or replaced. */
  lemma DroppedSafe(g: Gate, r: Request)
    requires Safe(g)
    requires forall sha :: Names(g.ledger, sha) ==> !ReadsSuccess(g.attempts, sha)
    ensures NoneSuccessful(g.attempts) && Safe(Gate(Some(r), g.attempts))
  {
    forall sha
      ensures !ReadsSuccess(g.attempts, sha)
    {
      assert ReadsSuccess(g.attempts, sha) ==> Names(g.ledger, sha);
    }
  }

  class Collector {
    const world: World
    /** A failure attempt may have been posted that the ledger does not record. */
    var unrecorded: bool

    constructor (world: World)
      ensures this.world == world && !unrecorded
    {
      this.world := world;
      unrecorded := false;
    }

    /** The ledger record, an unrecorded revocation marked as revoking. */
    method LoadPublication() returns (r: Option<Request>)
      requires world.Valid()
      modifies this`unrecorded
      ensures r.Some? <==> world.ledger.Some?
      ensures r.Some? ==> Mirrors(world.ledger, r.value)
      ensures !old(unrecorded) ==> r == world.ledger
      ensures old(unrecorded) && r.Some? && r.value.published.Some? ==> r.value.published.value.state == Revoking
      ensures unrecorded <==> old(unrecorded) && world.ledger.Some? && world.ledger.value.published.Some?
    {
      r := world.ledger;
      if !unrecorded {
        return;
      }
      if r.None? || r.value.published.None? {
        unrecorded := false;
        return;
      }
      if r.value.published.value.state == Revoking {
        return;
      }
      r := Some(r.value.(published := Some(r.value.published.value.(state := Revoking))));
    }

    /** Post a failure attempt over the standing success; fail closed. */
    method Revoke(request: Request) returns (ok: bool, r: Request)
      requires world.Valid() && Mirrors(world.ledger, request)
      modifies this`unrecorded, world
      ensures world.Valid() && old(world.history) <= world.history && world.nextRequest == old(world.nextRequest)
      ensures ok ==> r == Carry(request, None) && world.ledger == Some(r) && NoneSuccessful(world.attempts)
      ensures !ok ==> world.ledger.Some? && world.ledger.value.id == request.id
      ensures ok && request.published.Some? ==> !unrecorded
      ensures !ok && world.ledger == old(world.ledger) && request.published.Some? && request.published.value.state != Revoking ==> unrecorded
      ensures OnlyFailures(old(world.attempts), world.attempts) && |world.attempts| <= |old(world.attempts)| + 1
      ensures request.published.None? ==> world.attempts == old(world.attempts)
      // A failure attempt that reaches GitHub leaves nothing successful, whatever the ledger could record.
      ensures world.attempts != old(world.attempts) ==> NoneSuccessful(world.attempts)
      ensures world.answers ==> NoneSuccessful(world.attempts)
      ensures world.saves && world.answers ==> ok
    {
      hide Safe, ReadsSuccess;
      r := request;
      if request.published.None? {
        StandingNone(world.ledger.value, world.attempts);
        return true, r;
      }
      var standing := request.published.value;
      if standing.state != Revoking {
        r := Carry(request, Some(standing.(state := Revoking)));
        SameNameSafe(Gate(world.ledger, world.attempts), r);
        var saved := world.Save(r);
        ghost var unsaved := Gate(world.ledger, world.attempts);
        FailureClears(unsaved, standing.testMerge);
        if !saved {
          unrecorded := true;
          var posted := world.Post(standing.testMerge, false);
          return false, r;
        }
      }
      ghost var before := Gate(world.ledger, world.attempts);
      FailureClears(before, standing.testMerge);
      var posted := world.Post(standing.testMerge, false);
      if posted.None? {
        return false, r;
      }
      PostedSafe(before, Attempt(standing.testMerge, posted.value, false));
      r := Carry(r, None);
      DroppedSafe(Gate(world.ledger, world.attempts), r);
      var saved := world.Save(r);
      if !saved {
        return false, r;
      }
      unrecorded := false;
      return true, r;
    }

    /** Supersede whatever success stands. */
    method RevokeStanding() returns (ok: bool)
      requires world.Valid()
      modifies this`unrecorded, world
      ensures world.Valid() && old(world.history) <= world.history
      ensures ok ==> NoneSuccessful(world.attempts)
      ensures OnlyFailures(old(world.attempts), world.attempts)
      ensures world.answers ==> NoneSuccessful(world.attempts)
      ensures world.saves && world.answers ==> ok
    {
      var loaded := LoadPublication();
      if loaded.None? || loaded.value.published.None? {
        NothingStands(Gate(world.ledger, world.attempts));
        return true;
      }
      var r;
      ok, r := Revoke(loaded.value);
    }

    /** Record the intention, post the success, record its run; nothing stands before. */
    method PublishNew(r: Request, context: Context, live: Option<Context>) returns (ok: bool)
      requires world.Valid() && NoneSuccessful(world.attempts) && r.id < world.nextRequest && Requested(Some(r), r.id, context)
      modifies world
      ensures world.Valid() && old(world.history) <= world.history
      ensures ok ==> ReadsSuccess(world.attempts, context.testMerge)
      ensures ok ==> Stands(world.ledger, world.attempts, r.id, context)
      ensures live != Some(context) || |RunsOn(old(world.attempts), context.testMerge)| >= MAX_CHECK_RUN_ATTEMPTS ==>
                !ok && world.attempts == old(world.attempts)
      ensures SuccessesOf(old(world.attempts), world.attempts, context.testMerge)
      ensures world.saves && world.answers && live == Some(context) ==>
                ok || |RunsOn(old(world.attempts), context.testMerge)| >= MAX_CHECK_RUN_ATTEMPTS
    {
      hide Safe, RunsOn, Latest;
      if |RunsOn(world.attempts, context.testMerge)| >= MAX_CHECK_RUN_ATTEMPTS {
        return false;
      }
      var publishing := Carry(r, Some(Publication(r.id, context.testMerge, None, Publishing)));
      DroppedSafe(Gate(world.ledger, world.attempts), publishing);
      ok := world.Save(publishing);
      if !ok || live != Some(context) {
        return false;
      }
      var run := world.Post(context.testMerge, true);
      if run.None? {
        return false;
      }
      LatestIsSuccess(world.attempts, context.testMerge);
      AtMostOneMore(old(world.attempts), world.attempts, context.testMerge);
      PostedLatest(old(world.attempts), Attempt(context.testMerge, run.value, true), context.testMerge);
      var published := Carry(r, Some(Publication(r.id, context.testMerge, run, Success)));
      SameNameSafe(Gate(world.ledger, world.attempts), published);
      ok := world.Save(published);
    }

    /** Publish a pass exactly once; any other standing success is superseded first. */
    method Publish(request: RequestId, context: Context, live: Option<Context>) returns (ok: bool, current: bool)
      requires world.Valid()
      modifies this`unrecorded, world
      ensures world.Valid() && old(world.history) <= world.history
      ensures ok && Requested(old(world.ledger), request, context) ==> current
      ensures ok && current ==> ReadsSuccess(world.attempts, context.testMerge)
      ensures ok && !current ==> NoneSuccessful(world.attempts)
      ensures ok && !old(unrecorded) && Stands(old(world.ledger), old(world.attempts), request, context) ==>
                world.attempts == old(world.attempts) && world.ledger == old(world.ledger)
      ensures SuccessesOf(old(world.attempts), world.attempts, context.testMerge)
      ensures ok && current ==> Stands(world.ledger, world.attempts, request, context)
      ensures NewSuccess(old(world.attempts), world.attempts) ==>
                live == Some(context) && Requested(old(world.ledger), request, context)
                && |RunsOn(old(world.attempts), context.testMerge)| < MAX_CHECK_RUN_ATTEMPTS
      ensures world.saves && world.answers && Requested(old(world.ledger), request, context) && live == Some(context) ==>
                ok || |RunsOn(old(world.attempts), context.testMerge)| + 1 >= MAX_CHECK_RUN_ATTEMPTS
    {
      hide Safe, RunsOn, Latest;
      var loaded := LoadPublication();
      if loaded.None? {
        return false, false;
      }
      var r := loaded.value;
      current := r.state == Active && r.id == request && r.context == context;
      if current && r.published.Some? && r.published.value.state == Success
         && r.published.value.request == r.id && r.published.value.testMerge == context.testMerge && r.published.value.run.Some? {
        var readable: bool := *;
        if !(readable || world.answers) {
          return false, current;
        }
        var latest := SuccessIsLatestAttempt(world.attempts, context.testMerge, r.published.value.run.value);
        LatestOnCommit(world.attempts, context.testMerge);
        if latest {
          return true, current;
        }
      }
      ok, r := Revoke(r);
      AtMostOneMore(old(world.attempts), world.attempts, context.testMerge);
      if !ok || !current {
        return ok, current;
      }
      ok := PublishNew(r, context, live);
    }

    /** Collect under the lock: what the reviews say of the recorded, still live context. */
    method CollectHeld(before: Option<Context>, again: Option<Context>, after: Option<Context>, verdict: Verdict)
      returns (c: Collected)
      requires world.Valid()
      modifies world
      ensures world.Valid() && old(world.history) <= world.history && world.attempts == old(world.attempts)
      ensures c.Pass? ==> world.ledger == old(world.ledger) && Requested(world.ledger, c.request, c.context)
                          && before == after == Some(c.context) && verdict == Clean
      ensures c.Superseded? ==> world.ledger.Some? && world.ledger.value.state == Invalidated
      ensures world.ledger == old(world.ledger) || Invalidates(old(world.ledger), world.ledger, before, again, after)
      ensures old(world.ledger).Some? && old(world.ledger).value.state == Active && before == after == Some(old(world.ledger).value.context) ==>
                world.ledger == old(world.ledger) && c == Judged(verdict, old(world.ledger).value)
      ensures world.saves && old(world.ledger).Some? && old(world.ledger).value.state == Active && before.Some? && again.Some? ==>
                c == Superseded || before.value == old(world.ledger).value.context || again.value == old(world.ledger).value.context
    {
      hide Safe;
      if before.None? {
        return Raised;
      }
      if world.ledger.None? {
        return Pending;
      }
      var r := world.ledger.value;
      if r.state != Active {
        return Superseded;
      }
      var gone := r.(state := Invalidated);
      SameNameSafe(Gate(world.ledger, world.attempts), gone);
      var live := before.value;
      if r.context != live {
        if again.None? {
          return Raised;
        }
        if r.context == again.value {
          return Pending;
        }
        var saved := world.Save(gone);
        return if saved then Superseded else Raised;
      }
      if verdict == Unreadable || after.None? {
        return Raised;
      }
      if after != before {
        var saved := world.Save(gone);
        return if saved then Superseded else Raised;
      }
      return match verdict case NotClean => Blocked case NoReviewYet => Pending case _ => Pass(r.id, live);
    }

    /** One reconciliation pass: collect, then publish or supersede. */
    method CollectAndPublish(before: Option<Context>, again: Option<Context>, after: Option<Context>,
                             verdict: Verdict, live: Option<Context>)
      returns (result: PassResult)
      requires world.Valid()
      modifies this`unrecorded, world
      ensures world.Valid() && old(world.history) <= world.history
      ensures result.Decided? && result.collected.Pass? ==>
                ReadsSuccess(world.attempts, result.collected.context.testMerge)
                && Stands(world.ledger, world.attempts, result.collected.request, result.collected.context)
      ensures result.Decided? && !result.collected.Pass? ==> NoneSuccessful(world.attempts)
      ensures result.FailedAndRevoked? ==> NoneSuccessful(world.attempts)
      // A success is posted only for clean results of the requested context, read the same three times.
      ensures NewSuccess(old(world.attempts), world.attempts) ==>
                && verdict == Clean && before.Some? && before == after == live
                && old(world.ledger).Some? && Requested(old(world.ledger), old(world.ledger).value.id, before.value)
                && SuccessesOf(old(world.attempts), world.attempts, before.value.testMerge)
      ensures world.saves && world.answers ==> !result.FailedUnrevoked?
      ensures world.saves && world.answers && old(world.ledger).Some? && old(world.ledger).value.state == Active ==>
                PassPublished(old(world.ledger).value, old(world.attempts), before, after, live, verdict, result)
    {
      hide Safe, ReadsSuccess;
      var c := CollectHeld(before, again, after, verdict);
      var failed := c.Raised?;
      if c.Pass? {
        var ok, current := Publish(c.request, c.context, live);
        if ok {
          return Decided(c);
        }
        failed := true;
      }
      var revoked := RevokeStanding();
      if !revoked {
        return FailedUnrevoked;
      }
      return if failed then FailedAndRevoked else Decided(c);
    }

    /** Record a request before its trigger is posted. */
    method RequestReview(live: Context, forceNew: bool, reviewIds: seq<nat>, commentIds: seq<nat>)
      returns (ok: bool, created: bool, r: Request)
      requires world.Valid()
      modifies world
      ensures world.Valid() && old(world.history) <= world.history && world.attempts == old(world.attempts)
      ensures ok ==> world.ledger == Some(r) && r.state == Active && r.context == live
      ensures ok && !created ==> world.ledger == old(world.ledger)
      ensures old(world.ledger).Some? && old(world.ledger).value.state == Active && old(world.ledger).value.context == live && !forceNew ==>
                ok && !created
      ensures forceNew && old(world.ledger).Some? && old(world.ledger).value.published.Some? ==> !ok && world.ledger == old(world.ledger)
      ensures Regressed(old(world.ledger), reviewIds) ==> world.ledger == old(world.ledger) && !created
      ensures world.saves && !Regressed(old(world.ledger), reviewIds) ==>
                ok || (forceNew && old(world.ledger).Some? && old(world.ledger).value.published.Some?)
      ensures ok && created && old(world.ledger).Some? ==>
                && r.id != old(world.ledger).value.id && r.published == old(world.ledger).value.published
                && r.reviewWatermark >= old(world.ledger).value.reviewWatermark
                && r.commentWatermark >= old(world.ledger).value.commentWatermark
      ensures ok && created ==> (forall x :: x in reviewIds ==> x <= r.reviewWatermark) && forall x :: x in commentIds ==> x <= r.commentWatermark
      ensures ok && created && forceNew ==> NoneSuccessful(world.attempts)
    {
      hide Safe, ReadsSuccess;
      var existing := world.ledger;
      r := Request(0, Active, live, 0, 0, None);
      if existing.Some? && existing.value.state == Active && existing.value.context == live && !forceNew {
        return true, false, existing.value;
      }
      if forceNew && existing.Some? && existing.value.published.Some? {
        return false, false, r;
      }
      var watermark := MaxId(reviewIds);
      if existing.Some? && watermark < existing.value.reviewWatermark {
        return false, false, r;
      }
      var comments := MaxId(commentIds);
      if existing.Some? {
        comments := Max(comments, existing.value.commentWatermark);
      }
      var id := world.NewRequestId();
      r := Request(id, Active, live, watermark, comments, if existing.Some? then existing.value.published else None);
      if existing.Some? {
        SameNameSafe(Gate(existing, world.attempts), r);
      } else {
        NothingStands(Gate(existing, world.attempts));
        NothingStandsSafe(world.attempts, r);
      }
      if r.published.None? {
        NothingStands(Gate(existing, world.attempts));
      }
      ok := world.Save(r);
      return ok, ok, r;
    }
  }

  method MaxId(ids: seq<nat>) returns (m: nat)
    ensures forall x :: x in ids ==> x <= m
    ensures m == 0 || m in ids
  {
    m := 0;
    for i := 0 to |ids|
      invariant forall k :: 0 <= k < i ==> ids[k] <= m
      invariant m == 0 || m in ids
    {
      if ids[i] > m {
        m := ids[i];
      }
    }
  }

  lemma StandingNone(r: Request, attempts: seq<Attempt>)
    requires Safe(Gate(Some(r), attempts)) && r.published.None?
    ensures NoneSuccessful(attempts)
  {
    NothingStands(Gate(Some(r), attempts));
  }

  lemma NothingStands(g: Gate)
    requires Safe(g) && (g.ledger.Some? ==> g.ledger.value.published.None?)
    ensures NoneSuccessful(g.attempts)
  {
    forall sha
      ensures !ReadsSuccess(g.attempts, sha)
    {
      assert ReadsSuccess(g.attempts, sha) ==> Names(g.ledger, sha);
    }
  }

  lemma NothingStandsSafe(attempts: seq<Attempt>, r: Request)
    requires NoneSuccessful(attempts)
    ensures Safe(Gate(Some(r), attempts))
  {
  }

  lemma LatestIsSuccess(attempts: seq<Attempt>, sha: Sha)
    requires attempts != [] && attempts[|attempts| - 1].sha == sha && attempts[|attempts| - 1].success
    ensures ReadsSuccess(attempts, sha)
  {
  }

  /** Whatever state a crash leaves, a restarted worker finds it safe: nothing else reads successful. */
  lemma EveryCrashStateSafe(world: World, i: nat, sha: Sha)
    requires world.Valid() && i < |world.history| && ReadsSuccess(world.history[i].attempts, sha)
    ensures Names(world.history[i].ledger, sha)
    ensures forall other :: ReadsSuccess(world.history[i].attempts, other) ==> other == sha
  {
    forall other | ReadsSuccess(world.history[i].attempts, other)
      ensures other == sha
    {
      AtMostOneSuccessful(world.history[i], other, sha);
    }
  }
}
