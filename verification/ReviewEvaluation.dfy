/**
 What the provider's reviews and result comments say of one request. Who an author
 is and whether a text is clean are given; the evaluation decides what counts.
 */
module ReviewEvaluation {
  import opened Basics
  import opened ReviewPublication

  const MAX_REVIEWS := 1000
  const MAX_ISSUE_COMMENTS := 1000
  const MAX_CANDIDATE_REVIEWS := 20
  const CLOCK_SKEW_ALLOWANCE_SECONDS := 300

  /** The configured provider, anybody else, or author data that cannot be read. */
  datatype Author = Provider | Another | Garbled

  /** None stands for a field that cannot be read. */
  datatype Review = Review(id: int, author: Author, commit: Option<Sha>, submitted: Option<int>, clean: Option<bool>)

  /** The commit a result comment names: whether its prefix fits the head, and what it resolves to. */
  datatype Naming = Naming(fitsHead: bool, resolved: Option<Sha>)

  datatype Comment = Comment(id: int, author: Author, marked: Option<bool>, created: Option<int>, edited: bool, naming: Option<Naming>)

  datatype Asked = Asked(reviewWatermark: nat, commentWatermark: nat, requestedAt: int, runtime: nat)

  /** Before this a clean result may belong to a review started under an older base. */
  function Earliest(a: Asked): int {
    a.requestedAt + a.runtime + CLOCK_SKEW_ALLOWANCE_SECONDS
  }

  /** What one item contributes. */
  datatype Finding = Skip | Bad | Unclean(candidate: bool) | CleanAt(at: int)

  function OfReview(r: Review, watermark: nat, head: Sha): Finding {
    if r.id <= watermark || r.author.Another? then Skip
    else if r.author.Garbled? || r.commit.None? then Bad
    else if r.commit.value != head then Skip
    else if r.submitted.None? || r.clean.None? then Bad
    else if r.clean.value then CleanAt(r.submitted.value)
    else Unclean(true)
  }

  function OfComment(c: Comment, watermark: nat, head: Sha): Finding {
    if c.id <= watermark || c.author.Another? then Skip
    else if c.author.Garbled? || c.marked.None? then Bad
    else if !c.marked.value then Skip
    else if c.created.None? then Bad
    else if c.edited || c.naming.None? then Unclean(false)
    else if !c.naming.value.fitsHead then Skip
    else if c.naming.value.resolved.None? then Bad
    else if c.naming.value.resolved.value != head then Unclean(true)
    else CleanAt(c.created.value)
  }

  function FromReviews(reviews: seq<Review>, watermark: nat, head: Sha): seq<Finding> {
    seq(|reviews|, i requires 0 <= i < |reviews| => OfReview(reviews[i], watermark, head))
  }

  function FromComments(comments: seq<Comment>, watermark: nat, head: Sha): seq<Finding> {
    seq(|comments|, i requires 0 <= i < |comments| => OfComment(comments[i], watermark, head))
  }

  predicate Counts(f: Finding) {
    f.CleanAt? || (f.Unclean? && f.candidate)
  }

  function Candidates(fs: seq<Finding>): nat {
    if fs == [] then 0 else Candidates(fs[..|fs| - 1]) + if Counts(fs[|fs| - 1]) then 1 else 0
  }

  ghost predicate Distinct(ids: seq<int>) {
    && (forall i :: 0 <= i < |ids| ==> ids[i] > 0)
    && (forall i, j :: 0 <= i < j < |ids| ==> ids[i] != ids[j])
  }

  function ReviewIds(reviews: seq<Review>): seq<int> {
    seq(|reviews|, i requires 0 <= i < |reviews| => reviews[i].id)
  }

  function CommentIds(comments: seq<Comment>): seq<int> {
    seq(|comments|, i requires 0 <= i < |comments| => comments[i].id)
  }

  /** Both listings are there, whole and readable, and hold the review the watermark was taken from. */
  ghost predicate Listed(a: Asked, reviews: Option<seq<Review>>, comments: Option<seq<Comment>>) {
    && reviews.Some? && |reviews.value| <= 1000 && Distinct(ReviewIds(reviews.value))
    && (a.reviewWatermark > 0 ==> a.reviewWatermark in ReviewIds(reviews.value))
    && comments.Some? && |comments.value| <= 1000 && Distinct(CommentIds(comments.value))
  }

  ghost function Findings(a: Asked, reviews: seq<Review>, comments: seq<Comment>, head: Sha): seq<Finding> {
    FromReviews(reviews, a.reviewWatermark, head) + FromComments(comments, a.commentWatermark, head)
  }

  ghost predicate SomeUnclean(fs: seq<Finding>) {
    exists i :: 0 <= i < |fs| && fs[i].Unclean?
  }

  ghost predicate SomeCleanFrom(fs: seq<Finding>, earliest: int) {
    exists i :: 0 <= i < |fs| && fs[i].CleanAt? && fs[i].at >= earliest
  }

  ghost predicate Readable(fs: seq<Finding>) {
    Bad !in fs && Candidates(fs) <= MAX_CANDIDATE_REVIEWS
  }

  /** A listing has positive, distinct ids. */
  method CheckIds(ids: seq<int>) returns (ok: bool)
    ensures ok <==> Distinct(ids)
  {
    var seen: set<int> := {};
    for i := 0 to |ids|
      invariant forall x :: x in seen <==> x in ids[..i]
      invariant Distinct(ids[..i])
    {
      if ids[i] <= 0 || ids[i] in seen {
        Repeats(ids, i);
        return false;
      }
      NotYet(ids, i);
      seen := seen + {ids[i]};
    }
    assert ids[..|ids|] == ids;
    return true;
  }

  lemma Repeats(ids: seq<int>, i: nat)
    requires i < |ids| && (ids[i] <= 0 || ids[i] in ids[..i])
    ensures !Distinct(ids)
  {
    if ids[i] in ids[..i] {
      var j :| 0 <= j < i && ids[..i][j] == ids[i];
      assert ids[j] == ids[i];
    }
  }

  lemma NotYet(ids: seq<int>, i: nat)
    requires i < |ids| && Distinct(ids[..i]) && ids[i] > 0 && ids[i] !in ids[..i]
    ensures Distinct(ids[..i + 1]) && forall x :: x in ids[..i + 1] <==> x in ids[..i] || x == ids[i]
  {
    var less, more := ids[..i], ids[..i + 1];
    assert more == less + [ids[i]];
    forall j | 0 <= j < i
      ensures more[j] == less[j] && less[j] != ids[i]
    {
      assert less[j] in less;
    }
  }

  /** The running counts over a list of findings. */
  ghost predicate Tallied(fs: seq<Finding>, candidates: nat, blocked: bool, passes: nat, earliest: int) {
    && Readable(fs) && candidates == Candidates(fs)
    && (blocked <==> SomeUnclean(fs)) && (passes > 0 <==> SomeCleanFrom(fs, earliest))
  }

  lemma TallyOne(fs: seq<Finding>, f: Finding, candidates: nat, blocked: bool, passes: nat, earliest: int)
    requires Tallied(fs, candidates, blocked, passes, earliest)
    ensures Candidates(fs + [f]) == candidates + if Counts(f) then 1 else 0
    ensures f != Bad && Candidates(fs + [f]) <= MAX_CANDIDATE_REVIEWS ==>
              Tallied(fs + [f], Candidates(fs + [f]), blocked || f.Unclean?, if f.CleanAt? && f.at >= earliest then passes + 1 else passes, earliest)
  {
    hide Candidates, SomeUnclean, SomeCleanFrom;
    CandidatesSnoc(fs, f);
    UncleanSnoc(fs, f);
    CleanSnoc(fs, f, earliest);
  }

  lemma CandidatesSnoc(fs: seq<Finding>, f: Finding)
    ensures Candidates(fs + [f]) == Candidates(fs) + if Counts(f) then 1 else 0
  {
    assert (fs + [f])[..|fs + [f]| - 1] == fs;
  }

  lemma UncleanSnoc(fs: seq<Finding>, f: Finding)
    ensures SomeUnclean(fs + [f]) <==> SomeUnclean(fs) || f.Unclean?
  {
    var more := fs + [f];
    if i :| 0 <= i < |fs| && fs[i].Unclean? {
      assert more[i].Unclean?;
    }
    assert more[|fs|] == f;
  }

  lemma CleanSnoc(fs: seq<Finding>, f: Finding, earliest: int)
    ensures SomeCleanFrom(fs + [f], earliest) <==> SomeCleanFrom(fs, earliest) || (f.CleanAt? && f.at >= earliest)
  {
    var more := fs + [f];
    if i :| 0 <= i < |fs| && fs[i].CleanAt? && fs[i].at >= earliest {
      assert more[i].CleanAt?;
    }
    assert more[|fs|] == f;
  }

  /** One bad finding, or one candidate too many, cannot be made good. */
  lemma {:induction false} StaysUnreadable(fs: seq<Finding>, n: nat)
    requires n <= |fs| && !Readable(fs[..n])
    ensures !Readable(fs)
    decreases |fs| - n
  {
    if n < |fs| {
      assert fs[..n + 1][..n] == fs[..n];
      assert Bad in fs[..n] ==> Bad in fs[..n + 1];
      StaysUnreadable(fs, n + 1);
    } else {
      assert fs[..n] == fs;
    }
  }

  /** Add one list of findings to the counts; None if it cannot be read. */
  method Tally(fs: seq<Finding>, earliest: int, ghost before: seq<Finding>, candidates: nat, blocked: bool, passes: nat)
    returns (ok: bool, candidates': nat, blocked': bool, passes': nat)
    requires Tallied(before, candidates, blocked, passes, earliest)
    ensures ok <==> Readable(before + fs)
    ensures ok ==> Tallied(before + fs, candidates', blocked', passes', earliest)
  {
    hide Tallied, Readable;
    candidates', blocked', passes' := candidates, blocked, passes;
    assert before + fs[..0] == before;
    for i := 0 to |fs|
      invariant Tallied(before + fs[..i], candidates', blocked', passes', earliest)
    {
      var f := fs[i];
      TallyOne(before + fs[..i], f, candidates', blocked', passes', earliest);
      assert before + fs[..i + 1] == before + fs[..i] + [f];
      if Counts(f) {
        candidates' := candidates' + 1;
      }
      if f.Bad? || candidates' > MAX_CANDIDATE_REVIEWS {
        TooMuch(before + fs[..i + 1], f);
        assert (before + fs)[..|before| + i + 1] == before + fs[..i + 1];
        StaysUnreadable(before + fs, |before| + i + 1);
        return false, candidates', blocked', passes';
      }
      blocked' := blocked' || f.Unclean?;
      if f.CleanAt? && f.at >= earliest {
        passes' := passes' + 1;
      }
    }
    assert before + fs[..|fs|] == before + fs;
    TalliedReads(before + fs, candidates', blocked', passes', earliest);
    ok := true;
  }

  lemma TooMuch(fs: seq<Finding>, f: Finding)
    requires fs != [] && fs[|fs| - 1] == f && (f.Bad? || Candidates(fs) > MAX_CANDIDATE_REVIEWS)
    ensures !Readable(fs)
  {
    assert fs[|fs| - 1] in fs;
  }

  lemma TalliedReads(fs: seq<Finding>, candidates: nat, blocked: bool, passes: nat, earliest: int)
    requires Tallied(fs, candidates, blocked, passes, earliest)
    ensures Readable(fs) && (blocked <==> SomeUnclean(fs)) && (passes > 0 <==> SomeCleanFrom(fs, earliest))
  {
  }

  lemma NothingTallied(earliest: int)
    ensures Tallied([], 0, false, 0, earliest)
  {
  }

  /** Clean only if everything the provider said of this head since the request is clean and something came late enough. */
  method Evaluate(a: Asked, reviews: Option<seq<Review>>, comments: Option<seq<Comment>>, head: Sha) returns (v: Verdict)
    ensures v == Unreadable <==> !Listed(a, reviews, comments) || Malformed(a, reviews.value, comments.value, head)
                                 || CandidateCount(a, reviews.value, comments.value, head) > 20
    ensures v == NotClean <==> v != Unreadable && Blocked(a, reviews.value, comments.value, head)
    ensures v == Clean <==> v != Unreadable && !Blocked(a, reviews.value, comments.value, head) && Earned(a, reviews.value, comments.value, head)
  {
    hide Tallied, Readable, SomeUnclean, SomeCleanFrom, Distinct, FromReviews, FromComments, Malformed, CandidateCount, Blocked, Earned, Candidates;
    if reviews.Some? && comments.Some? {
      FindingsMean(a, reviews.value, comments.value, head);
    }
    if reviews.None? || |reviews.value| > MAX_REVIEWS {
      return Unreadable;
    }
    var ids := ReviewIds(reviews.value);
    var checked := CheckIds(ids);
    if !checked || (a.reviewWatermark > 0 && a.reviewWatermark !in ids) {
      return Unreadable;
    }
    NothingTallied(Earliest(a));
    var ofReviews := FromReviews(reviews.value, a.reviewWatermark, head);
    assert [] + ofReviews == ofReviews;
    var ok, candidates, blocked, passes := Tally(ofReviews, Earliest(a), [], 0, false, 0);
    if !ok {
      if comments.Some? {
        FirstUnreadable(ofReviews, FromComments(comments.value, a.commentWatermark, head));
      }
      return Unreadable;
    }
    if comments.None? || |comments.value| > MAX_ISSUE_COMMENTS {
      return Unreadable;
    }
    checked := CheckIds(CommentIds(comments.value));
    if !checked {
      return Unreadable;
    }
    var ofComments := FromComments(comments.value, a.commentWatermark, head);
    ok, candidates, blocked, passes := Tally(ofComments, Earliest(a), ofReviews, candidates, blocked, passes);
    if !ok {
      return Unreadable;
    }
    TalliedReads(ofReviews + ofComments, candidates, blocked, passes, Earliest(a));
    return if blocked then NotClean else if passes == 0 then NoReviewYet else Clean;
  }

  lemma FirstUnreadable(first: seq<Finding>, second: seq<Finding>)
    requires !Readable(first)
    ensures !Readable(first + second)
  {
    hide Readable;
    assert (first + second)[..|first|] == first;
    StaysUnreadable(first + second, |first|);
  }

  // ---------- what counts, item by item ----------

  /** The provider's review of this head since the request. */
  predicate ReviewOfHead(r: Review, a: Asked, head: Sha) {
    r.author == Provider && r.id > a.reviewWatermark && r.commit == Some(head)
  }

  /** The provider's result comment since the request. */
  predicate ResultComment(c: Comment, a: Asked) {
    c.author == Provider && c.id > a.commentWatermark && c.marked == Some(true)
  }

  /** A result comment, never edited, that names one commit whose prefix fits the head. */
  predicate CommentOnHead(c: Comment, a: Asked) {
    ResultComment(c, a) && !c.edited && c.naming.Some? && c.naming.value.fitsHead
  }

  /** A review since the request, not known to be somebody else's, that lacks what judging it takes. */
  predicate MalformedReview(r: Review, a: Asked, head: Sha) {
    && r.id > a.reviewWatermark
    && (r.author == Garbled || (r.author == Provider && r.commit.None?)
        || (ReviewOfHead(r, a, head) && (r.submitted.None? || r.clean.None?)))
  }

  predicate MalformedComment(c: Comment, a: Asked) {
    && c.id > a.commentWatermark
    && (c.author == Garbled || (c.author == Provider && c.marked.None?)
        || (ResultComment(c, a) && c.created.None?) || (CommentOnHead(c, a) && c.naming.value.resolved.None?))
  }

  ghost predicate Malformed(a: Asked, reviews: seq<Review>, comments: seq<Comment>, head: Sha) {
    || (exists i :: 0 <= i < |reviews| && MalformedReview(reviews[i], a, head))
    || (exists i :: 0 <= i < |comments| && MalformedComment(comments[i], a))
  }

  /** The reviews and result comments to be judged. */
  ghost function CandidateCount(a: Asked, reviews: seq<Review>, comments: seq<Comment>, head: Sha): nat {
    |set i | 0 <= i < |reviews| && ReviewOfHead(reviews[i], a, head)| + |set i | 0 <= i < |comments| && CommentOnHead(comments[i], a)|
  }

  /** An unclean review of this head, or a result comment that is edited, names no single commit, or names another one by the head's prefix. */
  ghost predicate Blocked(a: Asked, reviews: seq<Review>, comments: seq<Comment>, head: Sha) {
    || (exists i :: 0 <= i < |reviews| && ReviewOfHead(reviews[i], a, head) && reviews[i].clean == Some(false))
    || (exists i :: 0 <= i < |comments| && ResultComment(comments[i], a)
          && (comments[i].edited || comments[i].naming.None?
              || (comments[i].naming.value.fitsHead && comments[i].naming.value.resolved != Some(head))))
  }

  /** A clean review of this head, or a result comment that names it, no earlier than a review started after the request can end. */
  ghost predicate Earned(a: Asked, reviews: seq<Review>, comments: seq<Comment>, head: Sha) {
    || (exists i :: 0 <= i < |reviews| && CleanReview(reviews[i], a, head))
    || (exists i :: 0 <= i < |comments| && CleanComment(comments[i], a, head))
  }

  predicate CleanReview(r: Review, a: Asked, head: Sha) {
    ReviewOfHead(r, a, head) && r.clean == Some(true) && r.submitted.Some? && r.submitted.value >= a.requestedAt + a.runtime + 300
  }

  predicate CleanComment(c: Comment, a: Asked, head: Sha) {
    CommentOnHead(c, a) && c.naming.value.resolved == Some(head) && c.created.Some? && c.created.value >= a.requestedAt + a.runtime + 300
  }

  /** What the findings of both listings say is what the items themselves say. */
  lemma FindingsMean(a: Asked, reviews: seq<Review>, comments: seq<Comment>, head: Sha)
    ensures var fs := Findings(a, reviews, comments, head);
            && (!Readable(fs) <==> Malformed(a, reviews, comments, head) || CandidateCount(a, reviews, comments, head) > 20)
            && (Readable(fs) ==> (SomeUnclean(fs) <==> Blocked(a, reviews, comments, head)))
            && (Readable(fs) ==> (SomeCleanFrom(fs, Earliest(a)) <==> Earned(a, reviews, comments, head)))
  {
    hide Readable, SomeUnclean, SomeCleanFrom, CandidateCount, Candidates, Malformed, Blocked, Earned, FromReviews, FromComments;
    BadIsMalformed(a, reviews, comments, head);
    ReadableMeans(Findings(a, reviews, comments, head));
    if Bad !in Findings(a, reviews, comments, head) {
      CandidatesCounted(a, reviews, comments, head);
      UncleanIsBlocked(a, reviews, comments, head);
      CleanIsEarned(a, reviews, comments, head);
    }
  }

  lemma ReadableMeans(fs: seq<Finding>)
    ensures Readable(fs) <==> Bad !in fs && Candidates(fs) <= 20
  {
  }

  lemma BadIsMalformed(a: Asked, reviews: seq<Review>, comments: seq<Comment>, head: Sha)
    ensures Bad in Findings(a, reviews, comments, head) <==> Malformed(a, reviews, comments, head)
  {
    var fs := Findings(a, reviews, comments, head);
    if Bad in fs {
      var i :| 0 <= i < |fs| && fs[i] == Bad;
      if i < |reviews| {
        assert MalformedReview(reviews[i], a, head);
      } else {
        assert MalformedComment(comments[i - |reviews|], a);
      }
    }
    if i :| 0 <= i < |reviews| && MalformedReview(reviews[i], a, head) {
      assert fs[i] == Bad;
    }
    if i :| 0 <= i < |comments| && MalformedComment(comments[i], a) {
      assert fs[|reviews| + i] == Bad;
    }
  }

  lemma {:induction false} CandidatesAreCounting(fs: seq<Finding>)
    ensures Candidates(fs) == |set i | 0 <= i < |fs| && Counts(fs[i])|
    decreases |fs|
  {
    if fs != [] {
      var front := fs[..|fs| - 1];
      CandidatesAreCounting(front);
      var all, some := set i | 0 <= i < |fs| && Counts(fs[i]), set i | 0 <= i < |front| && Counts(front[i]);
      assert all == some + if Counts(fs[|fs| - 1]) then {|fs| - 1} else {};
    }
  }

  lemma CandidatesConcat(first: seq<Finding>, second: seq<Finding>)
    ensures Candidates(first + second) == Candidates(first) + Candidates(second)
    decreases |second|
  {
    if second == [] {
      assert first + second == first;
    } else {
      CandidatesConcat(first, second[..|second| - 1]);
      assert (first + second)[..|first + second| - 1] == first + second[..|second| - 1];
    }
  }

  lemma CandidatesCounted(a: Asked, reviews: seq<Review>, comments: seq<Comment>, head: Sha)
    requires Bad !in Findings(a, reviews, comments, head)
    ensures Candidates(Findings(a, reviews, comments, head)) == CandidateCount(a, reviews, comments, head)
  {
    var first, second := FromReviews(reviews, a.reviewWatermark, head), FromComments(comments, a.commentWatermark, head);
    CandidatesConcat(first, second);
    CandidatesAreCounting(first);
    CandidatesAreCounting(second);
    hide Candidates;
    forall i | 0 <= i < |reviews|
      ensures Counts(first[i]) <==> ReviewOfHead(reviews[i], a, head)
    {
      assert Findings(a, reviews, comments, head)[i] == first[i];
    }
    forall i | 0 <= i < |comments|
      ensures Counts(second[i]) <==> CommentOnHead(comments[i], a)
    {
      assert Findings(a, reviews, comments, head)[|reviews| + i] == second[i];
    }
    assert (set i | 0 <= i < |first| && Counts(first[i])) == (set i | 0 <= i < |reviews| && ReviewOfHead(reviews[i], a, head));
    assert (set i | 0 <= i < |second| && Counts(second[i])) == (set i | 0 <= i < |comments| && CommentOnHead(comments[i], a));
  }

  /** Exactly the unclean items block, however early they came. */
  lemma UncleanIsBlocked(a: Asked, reviews: seq<Review>, comments: seq<Comment>, head: Sha)
    requires Bad !in Findings(a, reviews, comments, head)
    ensures SomeUnclean(Findings(a, reviews, comments, head)) <==> Blocked(a, reviews, comments, head)
  {
    var fs := Findings(a, reviews, comments, head);
    assert forall i :: 0 <= i < |reviews| ==> fs[i] == OfReview(reviews[i], a.reviewWatermark, head);
    assert forall i :: 0 <= i < |comments| ==> fs[|reviews| + i] == OfComment(comments[i], a.commentWatermark, head);
    if i :| 0 <= i < |fs| && fs[i].Unclean? {
      if i >= |reviews| {
        assert fs[i] == OfComment(comments[i - |reviews|], a.commentWatermark, head);
      }
    }
    if i :| 0 <= i < |reviews| && ReviewOfHead(reviews[i], a, head) && reviews[i].clean == Some(false) {
      assert fs[i] != Bad;
    }
    if i :| 0 <= i < |comments| && ResultComment(comments[i], a)
            && (comments[i].edited || comments[i].naming.None?
                || (comments[i].naming.value.fitsHead && comments[i].naming.value.resolved != Some(head))) {
      assert fs[|reviews| + i] != Bad;
      assert fs[|reviews| + i].Unclean?;
    }
  }

  /** A clean verdict rests on a provider result for exactly this head, newer than the request's watermark and late enough. */
  lemma CleanIsEarned(a: Asked, reviews: seq<Review>, comments: seq<Comment>, head: Sha)
    ensures SomeCleanFrom(Findings(a, reviews, comments, head), Earliest(a)) <==> Earned(a, reviews, comments, head)
  {
    var fs := Findings(a, reviews, comments, head);
    if i :| 0 <= i < |fs| && fs[i].CleanAt? && fs[i].at >= Earliest(a) {
      if i < |reviews| {
        assert CleanReview(reviews[i], a, head);
      } else {
        assert CleanComment(comments[i - |reviews|], a, head);
      }
    }
    if i :| 0 <= i < |reviews| && CleanReview(reviews[i], a, head) {
      assert fs[i].CleanAt?;
    }
    if i :| 0 <= i < |comments| && CleanComment(comments[i], a, head) {
      assert fs[|reviews| + i].CleanAt?;
    }
  }
}
