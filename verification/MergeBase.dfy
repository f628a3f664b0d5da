/**
 The unique merge base, proved from a complete bounded commit graph. Commits are
 read one at a time from GitHub; a read can fail, and a malformed answer counts
 as a failure.
 */
module MergeBase {
  import opened Basics

  type Sha = nat

  const MAX_ANCESTRY_COMMITS := 4096
  const MAX_COMMIT_PARENTS := 64

  /** What GitHub answers for a commit: its parents, or nothing usable. */
  type Remote = Sha -> Option<seq<Sha>>

  ghost predicate Distinct(s: seq<Sha>) {
    forall i, j :: 0 <= i < j < |s| ==> s[i] != s[j]
  }

  ghost predicate Acceptable(sha: Sha, parents: seq<Sha>) {
    && |parents| <= 64 && sha !in parents
    && Distinct(parents)
  }

  /** A commit whose parents are known. */
  ghost predicate Readable(remote: Remote, sha: Sha) {
    remote(sha).Some? && Acceptable(sha, remote(sha).value)
  }

  predicate ParentOf(remote: Remote, child: Sha, parent: Sha) {
    remote(child).Some? && parent in remote(child).value
  }

  ghost predicate IsPath(remote: Remote, path: seq<Sha>) {
    path != [] && forall i :: 0 <= i < |path| - 1 ==> ParentOf(remote, path[i], path[i + 1])
  }

  /** An ancestor, every commit being its own. */
  ghost predicate Ancestor(remote: Remote, from: Sha, sha: Sha) {
    exists path :: IsPath(remote, path) && path[0] == from && path[|path| - 1] == sha
  }

  ghost predicate Common(remote: Remote, base: Sha, head: Sha, sha: Sha) {
    Ancestor(remote, base, sha) && Ancestor(remote, head, sha)
  }

  /** The one best common ancestor: every common ancestor is an ancestor of it. */
  ghost predicate IsMergeBase(remote: Remote, base: Sha, head: Sha, b: Sha) {
    Common(remote, base, head, b) && forall c :: Common(remote, base, head, c) ==> Ancestor(remote, b, c)
  }

  /** Commit graphs have no cycles: parents are strictly older. */
  ghost predicate Ranked(remote: Remote, rank: Sha -> nat) {
    forall child, parent :: ParentOf(remote, child, parent) ==> rank(parent) < rank(child)
  }

  lemma SelfAncestor(remote: Remote, sha: Sha)
    ensures Ancestor(remote, sha, sha)
  {
    var path := [sha];
    assert IsPath(remote, path) && path[0] == sha && path[|path| - 1] == sha;
  }

  lemma AncestorStep(remote: Remote, from: Sha, sha: Sha, parent: Sha)
    requires Ancestor(remote, from, sha) && ParentOf(remote, sha, parent)
    ensures Ancestor(remote, from, parent)
  {
    var path :| IsPath(remote, path) && path[0] == from && path[|path| - 1] == sha;
    var longer := path + [parent];
    assert IsPath(remote, longer) && longer[0] == from && longer[|longer| - 1] == parent;
  }

  /** A proper ancestor is a parent of some ancestor. */
  lemma LastStep(remote: Remote, from: Sha, sha: Sha) returns (child: Sha)
    requires Ancestor(remote, from, sha) && from != sha
    ensures Ancestor(remote, from, child) && ParentOf(remote, child, sha)
  {
    var path :| IsPath(remote, path) && path[0] == from && path[|path| - 1] == sha;
    var n := |path| - 2;
    child := path[n];
    var shorter := path[..n + 1];
    assert ParentOf(remote, path[n], path[n + 1]);
    assert forall i :: 0 <= i < |shorter| - 1 ==> ParentOf(remote, path[i], path[i + 1]);
    assert IsPath(remote, shorter) && shorter[0] == from && shorter[|shorter| - 1] == child;
  }

  lemma PathTail(remote: Remote, path: seq<Sha>)
    requires IsPath(remote, path) && |path| > 1
    ensures IsPath(remote, path[1..])
  {
    var rest := path[1..];
    forall i | 0 <= i < |rest| - 1
      ensures ParentOf(remote, rest[i], rest[i + 1])
    {
      var j := i + 1;
      assert ParentOf(remote, path[j], path[j + 1]);
    }
  }

  lemma {:induction false} PathRank(remote: Remote, rank: Sha -> nat, path: seq<Sha>)
    requires Ranked(remote, rank) && IsPath(remote, path)
    ensures rank(path[|path| - 1]) <= rank(path[0])
    decreases |path|
  {
    if |path| > 1 {
      PathTail(remote, path);
      PathRank(remote, rank, path[1..]);
      assert ParentOf(remote, path[0], path[1]);
    }
  }

  lemma AncestorRank(remote: Remote, rank: Sha -> nat, from: Sha, sha: Sha)
    requires Ranked(remote, rank) && Ancestor(remote, from, sha)
    ensures rank(sha) <= rank(from)
  {
    var path :| IsPath(remote, path) && path[0] == from && path[|path| - 1] == sha;
    PathRank(remote, rank, path);
  }

  /** A set closed under parents contains every ancestor of its members. */
  lemma {:induction false} ClosedPath(remote: Remote, closed: set<Sha>, path: seq<Sha>)
    requires IsPath(remote, path) && path[0] in closed
    requires forall x, y :: x in closed && ParentOf(remote, x, y) ==> y in closed
    ensures path[|path| - 1] in closed
    decreases |path|
  {
    if |path| > 1 {
      PathTail(remote, path);
      assert ParentOf(remote, path[0], path[1]);
      ClosedPath(remote, closed, path[1..]);
    }
  }

  lemma ClosedAncestors(remote: Remote, closed: set<Sha>, from: Sha)
    requires from in closed && forall x, y :: x in closed && ParentOf(remote, x, y) ==> y in closed
    ensures forall y :: Ancestor(remote, from, y) ==> y in closed
  {
    forall y | Ancestor(remote, from, y)
      ensures y in closed
    {
      var path :| IsPath(remote, path) && path[0] == from && path[|path| - 1] == y;
      ClosedPath(remote, closed, path);
    }
  }

  // ---------- the graph loops ----------

  ghost predicate FromStarts(remote: Remote, starts: seq<Sha>, sha: Sha) {
    exists i :: 0 <= i < |starts| && Ancestor(remote, starts[i], sha)
  }

  /** The graph holds, for each of its commits, what GitHub answered. */
  ghost predicate Faithful(remote: Remote, graph: map<Sha, seq<Sha>>) {
    forall x :: x in graph ==> Readable(remote, x) && graph[x] == remote(x).value
  }

  /** More ancestors than the limit, or one of them unreadable. */
  ghost predicate Incomplete(remote: Remote, starts: seq<Sha>, limit: nat) {
    || (exists x :: FromStarts(remote, starts, x) && !Readable(remote, x))
    || (exists many: set<Sha> :: |many| > limit && forall x :: x in many ==> FromStarts(remote, starts, x))
  }

  /** The parents of a commit, unless there are too many, one comes twice, or the commit is its own. */
  method CommitParents(remote: Remote, sha: Sha) returns (parents: Option<seq<Sha>>)
    ensures parents.Some? <==> Readable(remote, sha)
    ensures parents.Some? ==> parents == remote(sha)
  {
    parents := remote(sha);
    if parents.Some? {
      DistinctByCount(parents.value);
      if |parents.value| > MAX_COMMIT_PARENTS || |Members(parents.value)| != |parents.value| || sha in parents.value {
        return None;
      }
    }
  }

  function Members(s: seq<Sha>): set<Sha> {
    set x | x in s
  }

  lemma {:induction false} DistinctByCount(s: seq<Sha>)
    ensures |Members(s)| <= |s|
    ensures |Members(s)| == |s| <==> Distinct(s)
    decreases |s|
  {
    if s != [] {
      DistinctByCount(s[1..]);
      FirstAndRest(s);
      assert s == [s[0]] + s[1..];
      assert Members(s) == Members(s[1..]) + {s[0]};
      hide Distinct;
    }
  }

  lemma FirstAndRest(s: seq<Sha>)
    requires s != []
    ensures Distinct(s) <==> s[0] !in s[1..] && Distinct(s[1..])
  {
    var rest := s[1..];
    if s[0] !in rest && Distinct(rest) {
      forall i, j | 0 <= i < j < |s|
        ensures s[i] != s[j]
      {
        assert s[j] == rest[j - 1] && (i > 0 ==> s[i] == rest[i - 1]);
      }
    }
  }

  method AncestorGraph(remote: Remote, starts: seq<Sha>, limit: nat) returns (graph: Option<map<Sha, seq<Sha>>>)
    ensures graph.Some? ==> Faithful(remote, graph.value) && |graph.value| <= limit
                            && forall x :: x in graph.value <==> FromStarts(remote, starts, x)
    ensures graph.None? <==> Incomplete(remote, starts, limit)
  {
    hide Incomplete, Readable, ParentOf, FromStarts;
    var g: map<Sha, seq<Sha>> := map[];
    var pending := starts;
    forall x | x in starts
      ensures FromStarts(remote, starts, x)
    {
      StartIsFromStarts(remote, starts, x);
    }
    while pending != []
      invariant Faithful(remote, g) && |g| <= limit
      invariant forall x :: x in g || x in pending ==> FromStarts(remote, starts, x)
      invariant forall x :: x in starts ==> x in g || x in pending
      invariant forall x, y :: x in g && ParentOf(remote, x, y) ==> y in g || y in pending
      decreases limit - |g|, |pending|
    {
      var sha := pending[|pending| - 1];
      ghost var before := pending;
      pending := pending[..|pending| - 1];
      assert before == pending + [sha];
      if sha in g {
        continue;
      }
      if |g| >= limit {
        TooMany(remote, starts, limit, g, sha);
        return None;
      }
      var answer := CommitParents(remote, sha);
      if answer.None? {
        OneUnreadable(remote, starts, limit, sha);
        return None;
      }
      ReadableParents(remote, sha);
      var parents := answer.value;
      ParentsFromStarts(remote, starts, sha);
      pending := pending + Missing(parents, g[sha := parents]);
      g := g[sha := parents];
    }
    ClosureExact(remote, starts, g);
    WholeIsComplete(remote, starts, limit, g);
    return Some(g);
  }

  lemma StartIsFromStarts(remote: Remote, starts: seq<Sha>, x: Sha)
    requires x in starts
    ensures FromStarts(remote, starts, x)
  {
    SelfAncestor(remote, x);
  }

  lemma OneUnreadable(remote: Remote, starts: seq<Sha>, limit: nat, sha: Sha)
    requires FromStarts(remote, starts, sha) && !Readable(remote, sha)
    ensures Incomplete(remote, starts, limit)
  {
  }

  lemma ReadableParents(remote: Remote, sha: Sha)
    requires Readable(remote, sha)
    ensures remote(sha).Some? && forall y :: ParentOf(remote, sha, y) <==> y in remote(sha).value
  {
  }

  lemma WholeIsComplete(remote: Remote, starts: seq<Sha>, limit: nat, g: map<Sha, seq<Sha>>)
    requires Faithful(remote, g) && |g| <= limit && forall x :: x in g <==> FromStarts(remote, starts, x)
    ensures !Incomplete(remote, starts, limit)
  {
    hide FromStarts;
    forall many: set<Sha> | forall x :: x in many ==> FromStarts(remote, starts, x)
      ensures |many| <= limit
    {
      assert many <= g.Keys;
      SubsetSize(many, g.Keys);
      assert |g.Keys| == |g|;
    }
  }

  lemma {:induction false} SubsetSize(a: set<Sha>, b: set<Sha>)
    requires a <= b
    ensures |a| <= |b|
    decreases |a|
  {
    if x :| x in a {
      SubsetSize(a - {x}, b - {x});
    } else {
      assert a == {};
    }
  }

  /** The parents that are not in the graph yet. */
  function Missing(parents: seq<Sha>, g: map<Sha, seq<Sha>>): (r: seq<Sha>)
    ensures forall x :: x in r <==> x in parents && x !in g
  {
    if parents == [] then []
    else
      assert parents == [parents[0]] + parents[1..];
      (if parents[0] in g then [] else [parents[0]]) + Missing(parents[1..], g)
  }

  lemma ParentsFromStarts(remote: Remote, starts: seq<Sha>, sha: Sha)
    requires FromStarts(remote, starts, sha)
    ensures forall y :: ParentOf(remote, sha, y) ==> FromStarts(remote, starts, y)
  {
    var i :| 0 <= i < |starts| && Ancestor(remote, starts[i], sha);
    forall y | ParentOf(remote, sha, y)
      ensures FromStarts(remote, starts, y)
    {
      AncestorStep(remote, starts[i], sha, y);
    }
  }

  lemma TooMany(remote: Remote, starts: seq<Sha>, limit: nat, g: map<Sha, seq<Sha>>, sha: Sha)
    requires |g| >= limit && sha !in g && FromStarts(remote, starts, sha)
    requires forall x :: x in g ==> FromStarts(remote, starts, x)
    ensures Incomplete(remote, starts, limit)
  {
    var many := g.Keys + {sha};
    assert |many| == |g.Keys| + 1;
    assert |many| > limit && forall x :: x in many ==> FromStarts(remote, starts, x);
  }

  lemma ClosureExact(remote: Remote, starts: seq<Sha>, g: map<Sha, seq<Sha>>)
    requires forall x :: x in g ==> FromStarts(remote, starts, x)
    requires forall x :: x in starts ==> x in g
    requires forall x, y :: x in g && ParentOf(remote, x, y) ==> y in g
    ensures forall x :: x in g <==> FromStarts(remote, starts, x)
  {
    forall x | FromStarts(remote, starts, x)
      ensures x in g
    {
      var i :| 0 <= i < |starts| && Ancestor(remote, starts[i], x);
      ClosedAncestors(remote, g.Keys, starts[i]);
    }
  }

  /** All ancestors of a commit of a complete graph. */
  method Reachable(graph: map<Sha, seq<Sha>>, start: Sha, ghost remote: Remote) returns (result: set<Sha>)
    requires Faithful(remote, graph) && start in graph
    requires forall x, y :: x in graph && ParentOf(remote, x, y) ==> y in graph
    ensures forall x :: x in result <==> Ancestor(remote, start, x)
    ensures result <= graph.Keys
  {
    result := {};
    var pending := [start];
    SelfAncestor(remote, start);
    while pending != []
      invariant result <= graph.Keys && start in result + (set x | x in pending)
      invariant forall x :: x in pending ==> x in graph
      invariant forall x :: x in result || x in pending ==> Ancestor(remote, start, x)
      invariant forall x, y :: x in result && ParentOf(remote, x, y) ==> y in result || y in pending
      decreases graph.Keys - result, |pending|
    {
      var sha := pending[|pending| - 1];
      ghost var before := pending;
      pending := pending[..|pending| - 1];
      assert before == pending + [sha];
      if sha in result {
        continue;
      }
      forall y | ParentOf(remote, sha, y)
        ensures Ancestor(remote, start, y)
      {
        AncestorStep(remote, start, sha, y);
      }
      result := result + {sha};
      pending := pending + graph[sha];
    }
    ClosedAncestors(remote, result, start);
  }

  // ---------- the merge base ----------

  /** Common commits that some common commit has as a parent. */
  method ShadowedBy(graph: map<Sha, seq<Sha>>, common: set<Sha>) returns (shadowed: set<Sha>)
    requires common <= graph.Keys
    ensures forall x :: x in shadowed <==> x in common && exists child :: child in common && x in graph[child]
  {
    shadowed := {};
    var rest := common;
    while true
      invariant rest <= common
      invariant forall x :: x in shadowed <==> x in common && exists child :: child in common - rest && x in graph[child]
      decreases |rest|
    {
      if child :| child in rest {
        var grown := shadowed + (set parent | parent in graph[child] && parent in common);
        ghost var done, done' := common - rest, common - (rest - {child});
        assert done' == done + {child};
        forall x
          ensures x in grown <==> x in common && exists c :: c in done' && x in graph[c]
        {
          if x in grown && x !in shadowed {
            assert child in done' && x in graph[child];
          }
        }
        shadowed := grown;
        rest := rest - {child};
      } else {
        assert common - rest == common;
        return;
      }
    }
  }

  ghost predicate Shadowed(remote: Remote, common: set<Sha>, x: Sha) {
    exists child :: child in common && ParentOf(remote, child, x)
  }

  lemma RankBound(common: set<Sha>, rank: Sha -> nat) returns (bound: nat)
    ensures forall x :: x in common ==> rank(x) <= bound
    decreases |common|
  {
    bound := 0;
    if some :| some in common {
      bound := RankBound(common - {some}, rank);
      bound := if rank(some) > bound then rank(some) else bound;
      assert forall x :: x in common ==> x == some || x in common - {some};
    }
  }

  /** Climbing from child to child among the common commits ends at an unshadowed one. */
  lemma {:induction false} Climb(remote: Remote, rank: Sha -> nat, common: set<Sha>, bound: nat, x: Sha) returns (top: Sha)
    requires Ranked(remote, rank) && x in common && forall y :: y in common ==> rank(y) <= bound
    ensures top in common && !Shadowed(remote, common, top) && Ancestor(remote, top, x)
    decreases bound - rank(x)
  {
    if Shadowed(remote, common, x) {
      var child :| child in common && ParentOf(remote, child, x);
      top := Climb(remote, rank, common, bound, child);
      AncestorStep(remote, top, child, x);
    } else {
      top := x;
      SelfAncestor(remote, x);
    }
  }

  lemma CommonClosed(remote: Remote, base: Sha, head: Sha, x: Sha, y: Sha)
    requires Common(remote, base, head, x) && Ancestor(remote, x, y)
    ensures Common(remote, base, head, y)
  {
    AncestorTransitive(remote, base, x, y);
    AncestorTransitive(remote, head, x, y);
  }

  lemma AncestorTransitive(remote: Remote, a: Sha, b: Sha, c: Sha)
    requires Ancestor(remote, a, b) && Ancestor(remote, b, c)
    ensures Ancestor(remote, a, c)
  {
    var p :| IsPath(remote, p) && p[0] == a && p[|p| - 1] == b;
    var q :| IsPath(remote, q) && q[0] == b && q[|q| - 1] == c;
    var path := p + q[1..];
    forall i | 0 <= i < |path| - 1
      ensures ParentOf(remote, path[i], path[i + 1])
    {
      if i < |p| - 1 {
        assert path[i] == p[i] && path[i + 1] == p[i + 1];
      } else {
        assert path[i] == q[i - |p| + 1] && path[i + 1] == q[i - |p| + 2];
      }
    }
    assert IsPath(remote, path) && path[0] == a && path[|path| - 1] == c;
  }

  /** Unshadowed and alone is exactly best. */
  lemma UnshadowedIsBest(remote: Remote, rank: Sha -> nat, base: Sha, head: Sha, common: set<Sha>, b: Sha)
    requires Ranked(remote, rank) && forall x :: x in common <==> Common(remote, base, head, x)
    ensures IsMergeBase(remote, base, head, b) <==>
            b in common && !Shadowed(remote, common, b) && forall x :: x in common && !Shadowed(remote, common, x) ==> x == b
  {
    if IsMergeBase(remote, base, head, b) {
      BestIsUnshadowed(remote, rank, base, head, common, b);
    }
    if b in common && !Shadowed(remote, common, b) && forall x :: x in common && !Shadowed(remote, common, x) ==> x == b {
      var bound := RankBound(common, rank);
      forall c | Common(remote, base, head, c)
        ensures Ancestor(remote, b, c)
      {
        var top := Climb(remote, rank, common, bound, c);
      }
    }
  }

  lemma BestIsUnshadowed(remote: Remote, rank: Sha -> nat, base: Sha, head: Sha, common: set<Sha>, b: Sha)
    requires Ranked(remote, rank) && (forall x :: x in common <==> Common(remote, base, head, x))
    requires IsMergeBase(remote, base, head, b)
    ensures b in common && !Shadowed(remote, common, b)
    ensures forall x :: x in common && !Shadowed(remote, common, x) ==> x == b
  {
    forall child | child in common
      ensures !ParentOf(remote, child, b)
    {
      AncestorRank(remote, rank, b, child);
    }
    forall x | x in common && x != b
      ensures Shadowed(remote, common, x)
    {
      var child := LastStep(remote, b, x);
      CommonClosed(remote, base, head, b, child);
    }
  }

  lemma MergeBaseUnique(remote: Remote, rank: Sha -> nat, base: Sha, head: Sha, a: Sha, b: Sha)
    requires Ranked(remote, rank) && IsMergeBase(remote, base, head, a) && IsMergeBase(remote, base, head, b)
    ensures a == b
  {
    if a != b {
      var child := LastStep(remote, a, b);
      AncestorRank(remote, rank, a, child);
      AncestorRank(remote, rank, b, a);
    }
  }

  /** The unique best common ancestor, or a refusal. */
  method UniqueMergeBase(remote: Remote, base: Sha, head: Sha, limit: nat, ghost rank: Sha -> nat)
    returns (b: Option<Sha>)
    requires Ranked(remote, rank)
    ensures b.Some? ==> IsMergeBase(remote, base, head, b.value)
    ensures b.Some? <==> 0 < limit <= 4096 && !Incomplete(remote, [base, head], limit)
                         && exists x :: IsMergeBase(remote, base, head, x)
  {
    hide IsMergeBase, Ancestor, Shadowed, Incomplete, Ranked, ParentOf;
    if limit == 0 || limit > MAX_ANCESTRY_COMMITS {
      return None;
    }
    var graph := AncestorGraph(remote, [base, head], limit);
    if graph.None? {
      return None;
    }
    GraphClosed(remote, base, head, graph.value);
    var ofBase := Reachable(graph.value, base, remote);
    var ofHead := Reachable(graph.value, head, remote);
    var common := ofBase * ofHead;
    if common == {} {
      NoCommon(remote, base, head, common);
      return None;
    }
    var shadowed := ShadowedBy(graph.value, common);
    var best := common - shadowed;
    forall x | x in common
      ensures x in shadowed <==> Shadowed(remote, common, x)
    {
      ShadowedInGraph(remote, graph.value, common, x);
    }
    BestDecides(remote, rank, base, head, common, best);
    if some :| some in best {
      if best == {some} {
        return Some(some);
      }
    }
    return None;
  }

  lemma NoCommon(remote: Remote, base: Sha, head: Sha, common: set<Sha>)
    requires common == {} && forall x :: x in common <==> Common(remote, base, head, x)
    ensures forall x :: !IsMergeBase(remote, base, head, x)
  {
    forall x
      ensures !IsMergeBase(remote, base, head, x)
    {
      assert x !in common;
    }
  }

  lemma ShadowedInGraph(remote: Remote, graph: map<Sha, seq<Sha>>, common: set<Sha>, x: Sha)
    requires Faithful(remote, graph) && common <= graph.Keys
    ensures Shadowed(remote, common, x) <==> exists child :: child in common && x in graph[child]
  {
    if Shadowed(remote, common, x) {
      var child :| child in common && ParentOf(remote, child, x);
      assert x in graph[child];
    }
    if exists child :: child in common && x in graph[child] {
      var child :| child in common && x in graph[child];
      assert ParentOf(remote, child, x);
    }
  }

  /** The merge base is the single unshadowed common commit, if there is just one. */
  lemma BestDecides(remote: Remote, rank: Sha -> nat, base: Sha, head: Sha, common: set<Sha>, best: set<Sha>)
    requires Ranked(remote, rank) && forall x: Sha :: x in common <==> Common(remote, base, head, x)
    requires forall x: Sha :: x in best <==> x in common && !Shadowed(remote, common, x)
    ensures forall x: Sha :: IsMergeBase(remote, base, head, x) <==> best == {x}
  {
    hide IsMergeBase, Common, Shadowed, Ranked;
    forall x: Sha
      ensures IsMergeBase(remote, base, head, x) <==> best == {x}
    {
      UnshadowedIsBest(remote, rank, base, head, common, x);
      if IsMergeBase(remote, base, head, x) {
        assert forall y: Sha :: y in best <==> y == x;
        assert best == {x};
      }
    }
  }

  lemma GraphClosed(remote: Remote, base: Sha, head: Sha, g: map<Sha, seq<Sha>>)
    requires forall x :: x in g <==> FromStarts(remote, [base, head], x)
    ensures base in g && head in g
    ensures forall x, y :: x in g && ParentOf(remote, x, y) ==> y in g
  {
    var starts := [base, head];
    SelfAncestor(remote, base);
    SelfAncestor(remote, head);
    assert Ancestor(remote, starts[0], base) && Ancestor(remote, starts[1], head);
    forall x, y | x in g && ParentOf(remote, x, y)
      ensures y in g
    {
      ParentsFromStarts(remote, starts, x);
    }
  }
}
