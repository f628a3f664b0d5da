/** Union coverage of a window by segments: merged intervals and the gaps between them. */
module RingIntervals {
  import opened Basics

  datatype Interval = Interval(left: int, right: int)

  predicate Contains(i: Interval, t: int) {
    i.left <= t < i.right
  }

  ghost predicate Covers(s: seq<Interval>, t: int) {
    exists i :: 0 <= i < |s| && Contains(s[i], t)
  }

  ghost predicate SortedByLeft(s: seq<Interval>) {
    forall i, j :: 0 <= i < j < |s| ==> s[i].left <= s[j].left
  }

  /** Non-empty, in order, and with a gap of at least one instant between neighbours. */
  ghost predicate Separated(s: seq<Interval>) {
    && (forall i :: 0 <= i < |s| ==> s[i].left < s[i].right)
    && (forall i, j :: 0 <= i < j < |s| ==> s[i].right < s[j].left)
  }

  function Insert(x: Interval, s: seq<Interval>): (r: seq<Interval>)
    requires SortedByLeft(s)
    ensures SortedByLeft(r) && r != [] && (r[0] == x || (s != [] && r[0] == s[0]))
    ensures forall y :: y in r <==> y == x || y in s
  {
    if s == [] || x.left < s[0].left || (x.left == s[0].left && x.right <= s[0].right) then [x] + s
    else
      assert s == [s[0]] + s[1..];
      [s[0]] + Insert(x, s[1..])
  }

  function Sort(s: seq<Interval>): (r: seq<Interval>)
    ensures SortedByLeft(r)
    ensures forall y :: y in r <==> y in s
  {
    if s == [] then [] else assert s == [s[0]] + s[1..]; Insert(s[0], Sort(s[1..]))
  }

  lemma SortKeepsCoverage(s: seq<Interval>, t: int)
    ensures Covers(Sort(s), t) <==> Covers(s, t)
  {
    var r := Sort(s);
    if Covers(s, t) {
      var i :| 0 <= i < |s| && Contains(s[i], t);
      assert s[i] in r;
    }
    if Covers(r, t) {
      var i :| 0 <= i < |r| && Contains(r[i], t);
      assert r[i] in s;
    }
  }

  ghost predicate Within(s: seq<Interval>, start: int, end: int) {
    forall i :: 0 <= i < |s| ==> start <= s[i].left && s[i].right <= end
  }

  function Extend(merged: seq<Interval>, right: int): seq<Interval>
    requires merged != []
  {
    var n := |merged| - 1;
    merged[..n] + [Interval(merged[n].left, Max(right, merged[n].right))]
  }

  /** A segment that touches the last interval lengthens it. */
  lemma ExtendCovers(merged: seq<Interval>, left: int, right: int)
    requires Separated(merged) && merged != []
    requires merged[|merged| - 1].left <= left <= merged[|merged| - 1].right
    ensures Separated(Extend(merged, right))
    ensures forall t :: Covers(Extend(merged, right), t) <==> Covers(merged, t) || left <= t < right
  {
    var n, r := |merged| - 1, Extend(merged, right);
    CoversSnoc(merged, n);
    assert merged[..n + 1] == merged;
    CoversPush(merged[..n], r[n]);
  }

  lemma PushSeparated(s: seq<Interval>, x: Interval)
    requires Separated(s) && x.left < x.right && (s != [] ==> s[|s| - 1].right < x.left)
    ensures Separated(s + [x])
  {
  }

  /** One more segment in order of start, clipped to the window. */
  method Merge(merged: seq<Interval>, left: int, right: int, ghost start: int, ghost end: int)
    returns (r: seq<Interval>)
    requires Separated(merged) && Within(merged, start, end) && start <= left < right <= end
    requires merged != [] ==> merged[|merged| - 1].left <= left
    ensures Separated(r) && Within(r, start, end) && r != [] && r[|r| - 1].left <= left
    ensures forall t :: Covers(r, t) <==> Covers(merged, t) || left <= t < right
  {
    hide Covers, Separated;
    if merged != [] && left <= merged[|merged| - 1].right {
      ExtendCovers(merged, left, right);
      r := Extend(merged, right);
    } else {
      PushSeparated(merged, Interval(left, right));
      CoversPush(merged, Interval(left, right));
      r := merged + [Interval(left, right)];
    }
  }

  /** The merged coverage of [start, end) and what is missing from it. */
  method IntervalsAndGaps(intervals: seq<Interval>, start: int, end: int)
    returns (merged: seq<Interval>, gaps: seq<Interval>)
    ensures Separated(merged) && Within(merged, start, end)
    ensures Separated(gaps) && Within(gaps, start, end)
    ensures forall t :: Covers(merged, t) <==> start <= t < end && Covers(intervals, t)
    ensures forall t :: Covers(gaps, t) <==> start <= t < end && !Covers(intervals, t)
  {
    hide Sort;
    var sorted := Sort(intervals);
    merged := [];
    for i := 0 to |sorted|
      invariant Separated(merged) && Within(merged, start, end)
      invariant merged != [] && i > 0 ==> merged[|merged| - 1].left <= Max(sorted[i - 1].left, start)
      invariant i == 0 ==> merged == []
      invariant forall t :: Covers(merged, t) <==> start <= t < end && Covers(sorted[..i], t)
    {
      var left, right := Max(sorted[i].left, start), Min(sorted[i].right, end);
      assert i > 0 ==> sorted[i - 1].left <= sorted[i].left;
      CoversSnoc(sorted, i);
      if left < right {
        merged := Merge(merged, left, right, start, end);
      }
    }
    assert sorted[..|sorted|] == sorted;
    forall t
      ensures Covers(sorted, t) <==> Covers(intervals, t)
    {
      SortKeepsCoverage(intervals, t);
    }
    gaps := Gaps(merged, start, end);
  }

  lemma CoversSnoc(s: seq<Interval>, i: nat)
    requires i < |s|
    ensures forall t :: Covers(s[..i + 1], t) <==> Covers(s[..i], t) || Contains(s[i], t)
  {
    forall t
      ensures Covers(s[..i + 1], t) <==> Covers(s[..i], t) || Contains(s[i], t)
    {
      if Covers(s[..i], t) {
        var j :| 0 <= j < i && Contains(s[..i][j], t);
        assert Contains(s[..i + 1][j], t);
      }
      if Contains(s[i], t) {
        assert Contains(s[..i + 1][i], t);
      }
      if Covers(s[..i + 1], t) {
        var j :| 0 <= j < i + 1 && Contains(s[..i + 1][j], t);
        assert j < i ==> Contains(s[..i][j], t);
      }
    }
  }

  /** What separated intervals leave uncovered. */
  method Gaps(merged: seq<Interval>, start: int, end: int) returns (gaps: seq<Interval>)
    requires Separated(merged) && Within(merged, start, end)
    ensures Separated(gaps) && Within(gaps, start, end)
    ensures Complement(gaps, merged, start, end)
  {
    hide Covers, Separated, Complement, Within;
    gaps := [];
    var cursor := start;
    NothingYet(start);
    NoneWithin(start, start);
    assert merged[..0] == [];
    for i := 0 to |merged|
      invariant cursor == if i == 0 then start else merged[i - 1].right
      invariant start <= cursor && Separated(gaps) && Within(gaps, start, cursor)
      invariant gaps != [] ==> i > 0 && gaps[|gaps| - 1].right < cursor
      invariant Complement(gaps, merged[..i], start, cursor)
    {
      StartsAfter(merged, i);
      LiesWithin(merged, i, start, end);
      GapStep(gaps, merged, i, start, cursor);
      WithinGrows(gaps, start, cursor, merged[i].left, merged[i].right);
      if cursor < merged[i].left {
        PushSeparated(gaps, Interval(cursor, merged[i].left));
        gaps := gaps + [Interval(cursor, merged[i].left)];
      }
      cursor := merged[i].right;
    }
    assert merged[..|merged|] == merged;
    if merged != [] {
      LiesWithin(merged, |merged| - 1, start, end);
    }
    LastGap(gaps, merged, start, cursor, end);
    WithinGrows(gaps, start, cursor, end, end);
    NoWindow(gaps, start, cursor, end);
    if cursor < end {
      PushSeparated(gaps, Interval(cursor, end));
      gaps := gaps + [Interval(cursor, end)];
    }
  }

  /** These cover exactly what those leave open from start up to the cursor. */
  ghost predicate Complement(gaps: seq<Interval>, merged: seq<Interval>, start: int, cursor: int) {
    forall t :: Covers(gaps, t) <==> start <= t < cursor && !Covers(merged, t)
  }

  lemma NothingYet(start: int)
    ensures Separated([]) && Complement([], [], start, start)
  {
  }

  lemma NoneWithin(start: int, end: int)
    ensures Within([], start, end)
  {
  }

  lemma LiesWithin(merged: seq<Interval>, i: nat, start: int, end: int)
    requires Within(merged, start, end) && i < |merged|
    ensures start <= merged[i].left && merged[i].right <= end
  {
  }

  lemma WithinGrows(gaps: seq<Interval>, start: int, cursor: int, left: int, right: int)
    requires Within(gaps, start, cursor) && start <= cursor
    ensures left <= right && cursor <= right ==>
              Within(if cursor < left then gaps + [Interval(cursor, left)] else gaps, start, right)
  {
  }

  lemma NoWindow(gaps: seq<Interval>, start: int, cursor: int, end: int)
    requires Within(gaps, start, cursor) && (gaps == [] || cursor <= end)
    ensures cursor >= end ==> Within(gaps, start, end)
  {
  }

  /** The part after the last interval. */
  lemma LastGap(gaps: seq<Interval>, merged: seq<Interval>, start: int, cursor: int, end: int)
    requires Separated(merged) && Complement(gaps, merged, start, cursor) && start <= cursor
    requires if merged == [] then cursor == start else cursor == merged[|merged| - 1].right <= end
    ensures Complement(if cursor < end then gaps + [Interval(cursor, end)] else gaps, merged, start, end)
  {
    hide Covers, Separated;
    CoverageEnds(merged, |merged|, cursor);
    assert merged[..|merged|] == merged;
    CoversPush(gaps, Interval(cursor, end));
  }

  lemma StartsAfter(merged: seq<Interval>, i: nat)
    requires Separated(merged) && i < |merged|
    ensures merged[i].left < merged[i].right && (i > 0 ==> merged[i - 1].right < merged[i].left)
  {
  }

  /** Nothing before index i reaches past the cursor. */
  lemma CoverageEnds(merged: seq<Interval>, i: nat, cursor: int)
    requires Separated(merged) && i <= |merged| && (i > 0 ==> cursor == merged[i - 1].right)
    ensures forall t :: t >= cursor ==> !Covers(merged[..i], t)
  {
  }

  /** The uncovered part up to the end of the next interval. */
  lemma GapStep(gaps: seq<Interval>, merged: seq<Interval>, i: nat, start: int, cursor: int)
    requires Separated(merged) && i < |merged| && start <= cursor
    requires if i == 0 then cursor <= merged[0].left else cursor == merged[i - 1].right
    requires Complement(gaps, merged[..i], start, cursor)
    ensures var gaps' := if cursor < merged[i].left then gaps + [Interval(cursor, merged[i].left)] else gaps;
            Complement(gaps', merged[..i + 1], start, merged[i].right)
  {
    hide Covers;
    CoversSnoc(merged, i);
    CoverageEnds(merged, i, cursor);
    var gap := Interval(cursor, merged[i].left);
    CoversPush(gaps, gap);
    var gaps' := if cursor < merged[i].left then gaps + [gap] else gaps;
    forall t
      ensures Covers(gaps', t) <==> start <= t < merged[i].right && !Covers(merged[..i + 1], t)
    {
      assert Covers(gaps', t) <==> Covers(gaps, t) || Contains(gap, t);
      assert Covers(merged[..i + 1], t) <==> Covers(merged[..i], t) || Contains(merged[i], t);
    }
  }

  lemma CoversPush(s: seq<Interval>, x: Interval)
    ensures forall t :: Covers(s + [x], t) <==> Covers(s, t) || Contains(x, t)
  {
    CoversSnoc(s + [x], |s|);
    assert (s + [x])[..|s|] == s && (s + [x])[..|s| + 1] == s + [x];
  }
}
