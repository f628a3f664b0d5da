/**
 What two chunkings of one stream have in common. Every field of the parser agrees but, between
 images, the saved position; and that agrees exactly if nothing of the last image was finished
 between the places where the two parsers last resumed it.
 */
module MjpegPosition {
  import opened Basics
  import opened MjpegStream
  import opened MjpegParser
  import opened MjpegChunks

  /** The bytes fed so far end inside the n-th image. */
  ghost predicate Inside(k: Bounds, s: Stream, fed: seq<Byte>, n: nat) {
    var r := Run(k, s, fed);
    r.Parsed? && r.state.phase.Frame? && |r.frames| + 1 == n
  }

  /** What had been fed at the last cut inside the n-th image. */
  ghost function LastInside(k: Bounds, s: Stream, chunks: seq<seq<Byte>>, n: nat): Option<seq<Byte>>
    decreases |chunks|
  {
    if Inside(k, s, Concat(chunks), n) then Some(Concat(chunks))
    else if chunks == [] then None
    else LastInside(k, s, chunks[..|chunks| - 1], n)
  }

  /** Where reading resumed at that cut; at the first byte after the SOI if there was none. */
  ghost function Resumed(k: Bounds, s: Stream, at: Option<seq<Byte>>): int {
    if at.None? || !Run(k, s, at.value).Parsed? || !Run(k, s, at.value).state.phase.Frame? then 2
    else ResumePoint(Run(k, s, at.value).state)
  }

  // ---------- the leftover position in closed form ----------

  /** An open image does not end without being emitted. */
  lemma {:induction false} EndsEmitted(k: Bounds, s: Stream, data: seq<Byte>)
    requires s.phase.Frame? && Run(k, s, data).Parsed? && Run(k, s, data).state.phase.Gap?
    ensures Run(k, s, data).frames != []
    decreases |data|
  {
    if data != [] {
      var first := Step(k, s, data[0]);
      if first.frames == [] {
        EndsEmitted(k, first.state, data[1..]);
      }
    }
  }

  /** From one point of a stream to a later one: frames only grow, and an open image stays open until it is emitted. */
  lemma Onward(k: Bounds, s: Stream, a: seq<Byte>, b: seq<Byte>)
    requires a <= b && Run(k, s, b).Parsed?
    ensures Run(k, s, a).Parsed? && |Run(k, s, a).frames| <= |Run(k, s, b).frames|
    ensures Run(k, s, a).state.phase.Frame? && Run(k, s, b).state.phase.Gap? ==> |Run(k, s, a).frames| < |Run(k, s, b).frames|
  {
    hide Run;
    var rest := b[|a|..];
    assert b == a + rest;
    RunAppend(k, s, a, rest);
    var before := Run(k, s, a);
    if before.state.phase.Frame? && Run(k, before.state, rest).state.phase.Gap? {
      EndsEmitted(k, before.state, rest);
    }
  }

  lemma FrontIsPrefix(chunks: seq<seq<Byte>>)
    requires chunks != []
    ensures Concat(chunks[..|chunks| - 1]) <= Concat(chunks)
  {
    var front := chunks[..|chunks| - 1];
    assert chunks == front + [chunks[|chunks| - 1]];
    ConcatAppend(front, chunks[|chunks| - 1]);
  }

  /** No cut before a gap is inside an image completed only after it. */
  lemma {:induction false} NoneInside(k: Bounds, s: Stream, chunks: seq<seq<Byte>>, n: nat)
    requires Run(k, s, Concat(chunks)).Parsed?
    requires |Run(k, s, Concat(chunks)).frames| + 1 < n
             || (|Run(k, s, Concat(chunks)).frames| + 1 == n && Run(k, s, Concat(chunks)).state.phase.Gap?)
    ensures LastInside(k, s, chunks, n).None?
    decreases |chunks|
  {
    hide Run;
    if chunks != [] {
      FrontIsPrefix(chunks);
      Onward(k, s, Concat(chunks[..|chunks| - 1]), Concat(chunks));
      NoneInsideFront(k, s, chunks[..|chunks| - 1], Concat(chunks), n);
    }
  }

  lemma {:induction false} NoneInsideFront(k: Bounds, s: Stream, chunks: seq<seq<Byte>>, later: seq<Byte>, n: nat)
    requires Concat(chunks) <= later && Run(k, s, later).Parsed?
    requires |Run(k, s, later).frames| + 1 < n || (|Run(k, s, later).frames| + 1 == n && Run(k, s, later).state.phase.Gap?)
    ensures LastInside(k, s, chunks, n).None?
    decreases |chunks|
  {
    hide Run;
    Onward(k, s, Concat(chunks), later);
    if chunks != [] {
      FrontIsPrefix(chunks);
      NoneInsideFront(k, s, chunks[..|chunks| - 1], later, n);
    }
  }

  /** Between images the position is where the last image was last resumed. */
  lemma {:induction false} LeftIsResumed(k: Bounds, s: Stream, position: int, chunks: seq<seq<Byte>>)
    requires Run(k, s, Concat(chunks)).Parsed? && Run(k, s, Concat(chunks)).state.phase.Gap?
    requires s.phase.Frame? ==> position == ResumePoint(s)
    ensures var n := |Run(k, s, Concat(chunks)).frames|;
            Left(k, s, position, chunks) == if n == 0 then position else Resumed(k, s, LastInside(k, s, chunks, n))
    decreases |chunks|
  {
    hide Run, ResumePoint;
    if chunks == [] {
      NothingFed(k, s, position);
    } else {
      var front := chunks[..|chunks| - 1];
      FrontIsPrefix(chunks);
      Onward(k, s, Concat(front), Concat(chunks));
      var before, after := Run(k, s, Concat(front)), Run(k, s, Concat(chunks));
      var n := |after.frames|;
      if |before.frames| == n {
        LeftIsResumed(k, s, position, front);
      } else if |before.frames| + 1 == n && before.state.phase.Frame? {
        InsideNow(k, s, front, n);
      } else {
        NoneInside(k, s, front, n);
      }
    }
  }

  lemma InsideNow(k: Bounds, s: Stream, chunks: seq<seq<Byte>>, n: nat)
    requires Inside(k, s, Concat(chunks), n)
    ensures LastInside(k, s, chunks, n) == Some(Concat(chunks))
  {
  }

  // ---------- when two resumptions are the same ----------

  /** The byte goes on with the same marker, segment or escape, which it does not finish. */
  predicate Continues(lex: Lex, b: Byte) {
    match lex
    case Marker => true
    case Lead(first) => first == 0xFF && IsSegmentMarker(b)
    case Length0(_) => true
    case Length1(_, high) => Length(high, b) > 2
    case Body(_, length, seen) => seen + 1 < length
    case Entropy => b == 0xFF
    case EntropyFF => IsSegmentMarker(b)
  }

  /** Nothing of the image is finished by the bytes from one point of the stream to another. */
  ghost predicate NothingEnds(k: Bounds, s: Stream, data: seq<Byte>, x: nat, y: nat)
    requires y <= |data|
  {
    forall z :: x <= z < y ==> Goes(k, s, data, z)
  }

  ghost predicate Goes(k: Bounds, s: Stream, data: seq<Byte>, z: nat)
    requires z < |data|
  {
    var r := Run(k, s, data[..z]);
    r.Parsed? && r.state.phase.Frame? && Continues(r.state.phase.lex, data[z])
  }

  /** One byte never moves the point of resumption back, and leaves it exactly if it finishes nothing. */
  lemma StepResumes(k: Bounds, s: Stream, b: Byte)
    requires s.phase.Frame? && Step(k, s, b).Parsed? && Step(k, s, b).state.phase.Frame?
    ensures ResumePoint(s) <= ResumePoint(Step(k, s, b).state)
    ensures ResumePoint(s) == ResumePoint(Step(k, s, b).state) <==> Continues(s.phase.lex, b)
  {
  }

  lemma Between(k: Bounds, s: Stream, data: seq<Byte>, x: nat, z: nat, y: nat, n: nat)
    requires x <= z <= y <= |data| && Inside(k, s, data[..x], n) && Inside(k, s, data[..y], n)
    ensures Inside(k, s, data[..z], n)
  {
    hide Run;
    assert data[..x] <= data[..z] && data[..z] <= data[..y];
    Onward(k, s, data[..z], data[..y]);
    Onward(k, s, data[..x], data[..z]);
  }

  /** Inside one image the point of resumption stays exactly as long as nothing is finished. */
  lemma {:induction false} SameResumption(k: Bounds, s: Stream, data: seq<Byte>, x: nat, y: nat, n: nat)
    requires x <= y <= |data| && Inside(k, s, data[..x], n) && Inside(k, s, data[..y], n)
    ensures ResumePoint(Run(k, s, data[..x]).state) <= ResumePoint(Run(k, s, data[..y]).state)
    ensures ResumePoint(Run(k, s, data[..x]).state) == ResumePoint(Run(k, s, data[..y]).state) <==> NothingEnds(k, s, data, x, y)
    decreases y - x
  {
    hide Run, ResumePoint, Continues;
    if x < y {
      Between(k, s, data, x, y - 1, y, n);
      SameResumption(k, s, data, x, y - 1, n);
      assert data[..y] == data[..y - 1] + [data[y - 1]];
      RunSnoc(k, s, data[..y - 1], data[y - 1]);
      StepResumes(k, Run(k, s, data[..y - 1]).state, data[y - 1]);
      assert NothingEnds(k, s, data, x, y) <==> NothingEnds(k, s, data, x, y - 1) && Goes(k, s, data, y - 1);
    }
  }

  lemma NotAtStart(k: Bounds, data: seq<Byte>, y: nat, n: nat)
    requires y <= |data| && Inside(k, START, data[..y], n)
    ensures y > 0
  {
    assert data[..0] == [];
  }

  /** An open image was opened by its SOI, that many bytes ago. */
  lemma {:induction false} OpenedAt(k: Bounds, data: seq<Byte>, y: nat, n: nat) returns (x: nat)
    requires y <= |data| && Inside(k, START, data[..y], n)
    ensures x == y - |Run(k, START, data[..y]).state.phase.bytes| + 2 && 0 <= x <= y
    ensures Inside(k, START, data[..x], n) && ResumePoint(Run(k, START, data[..x]).state) == 2
    decreases y
  {
    var now := Run(k, START, data[..y]).state;
    NotAtStart(k, data, y, n);
    assert data[..y] == data[..y - 1] + [data[y - 1]];
    RunSnoc(k, START, data[..y - 1], data[y - 1]);
    var before := Run(k, START, data[..y - 1]);
    hide Run;
    if before.state.phase.Gap? {
      x := y;
    } else {
      x := OpenedAt(k, data, y - 1, n);
    }
  }

  /** The two last resumptions of an image are at the same byte: nothing was finished from one to the other, or since the SOI. */
  ghost predicate SameItem(k: Bounds, data: seq<Byte>, a: Option<seq<Byte>>, b: Option<seq<Byte>>) {
    match (a, b)
    case (None, None) => true
    case (Some(x), Some(y)) =>
      |x| <= |data| && |y| <= |data| && if |x| <= |y| then NothingEnds(k, START, data, |x|, |y|) else NothingEnds(k, START, data, |y|, |x|)
    case (Some(x), None) => SinceOpening(k, data, |x|)
    case (None, Some(y)) => SinceOpening(k, data, |y|)
  }

  ghost predicate SinceOpening(k: Bounds, data: seq<Byte>, y: nat) {
    && y <= |data| && Run(k, START, data[..y]).Parsed? && Run(k, START, data[..y]).state.phase.Frame?
    && var x := y - |Run(k, START, data[..y]).state.phase.bytes| + 2; 0 <= x <= y && NothingEnds(k, START, data, x, y)
  }

  lemma {:induction false} LastInsideIsPrefix(k: Bounds, s: Stream, chunks: seq<seq<Byte>>, n: nat)
    ensures var at := LastInside(k, s, chunks, n); at.Some? ==> at.value <= Concat(chunks) && Inside(k, s, at.value, n)
    decreases |chunks|
  {
    hide Run;
    if chunks != [] {
      FrontIsPrefix(chunks);
      LastInsideIsPrefix(k, s, chunks[..|chunks| - 1], n);
    }
  }

  lemma ResumedSince(k: Bounds, data: seq<Byte>, y: seq<Byte>, n: nat)
    requires y <= data && Inside(k, START, y, n)
    ensures ResumePoint(Run(k, START, y).state) == 2 <==> SinceOpening(k, data, |y|)
  {
    hide Run, ResumePoint;
    assert data[..|y|] == y;
    var x := OpenedAt(k, data, |y|, n);
    SameResumption(k, START, data, x, |y|, n);
  }

  lemma ResumedAlike(k: Bounds, data: seq<Byte>, a: Option<seq<Byte>>, b: Option<seq<Byte>>, n: nat)
    requires a.Some? ==> a.value <= data && Inside(k, START, a.value, n)
    requires b.Some? ==> b.value <= data && Inside(k, START, b.value, n)
    ensures Resumed(k, START, a) == Resumed(k, START, b) <==> SameItem(k, data, a, b)
  {
    hide Run, ResumePoint, SinceOpening;
    if a.Some? {
      assert data[..|a.value|] == a.value;
      ResumedSince(k, data, a.value, n);
    }
    if b.Some? {
      assert data[..|b.value|] == b.value;
      ResumedSince(k, data, b.value, n);
    }
    if a.Some? && b.Some? {
      if |a.value| <= |b.value| {
        SameResumption(k, START, data, |a.value|, |b.value|, n);
      } else {
        SameResumption(k, START, data, |b.value|, |a.value|, n);
      }
    }
  }

  /** Two chunkings leave the same position exactly if the stream ends in an image, has none, or both resumed its last one at the same byte. */
  lemma SamePosition(k: Bounds, a: seq<seq<Byte>>, b: seq<seq<Byte>>)
    requires Concat(a) == Concat(b) && Run(k, START, Concat(a)).Parsed?
    ensures var r := Run(k, START, Concat(a));
            Left(k, START, 0, a) == Left(k, START, 0, b) <==>
            || r.state.phase.Frame? || r.frames == []
            || SameItem(k, Concat(a), LastInside(k, START, a, |r.frames|), LastInside(k, START, b, |r.frames|))
  {
    hide Run, ResumePoint, SameItem;
    var r := Run(k, START, Concat(a));
    if r.state.phase.Gap? {
      LeftIsResumed(k, START, 0, a);
      LeftIsResumed(k, START, 0, b);
      LastInsideIsPrefix(k, START, a, |r.frames|);
      LastInsideIsPrefix(k, START, b, |r.frames|);
      ResumedAlike(k, Concat(a), LastInside(k, START, a, |r.frames|), LastInside(k, START, b, |r.frames|), |r.frames|);
    }
  }

  /** Two new parsers, one stream, two chunkings: both fail, or they agree in frames and fields, and in position exactly as said above. */
  method FeedBothWays(maxFrame: nat, maxGap: nat, a: seq<seq<Byte>>, b: seq<seq<Byte>>)
    returns (ok: bool, first: MjpegFrameParser, second: MjpegFrameParser, frames: seq<seq<Byte>>)
    requires 64 <= maxFrame && Concat(a) == Concat(b)
    ensures ok <==> Run(Bounds(maxFrame, maxGap), START, Concat(a)).Parsed?
    ensures ok ==> first.Valid() && second.Valid() && first.View() == second.View()
                   && Run(Bounds(maxFrame, maxGap), START, Concat(a)) == Parsed(first.View(), frames)
    ensures ok ==> && first.buffer == second.buffer && first.inFrame == second.inFrame && first.entropy == second.entropy
                   && first.scans == second.scans && first.gap == second.gap && first.largeGap == second.largeGap
                   && first.largeGaps == second.largeGaps
    ensures ok ==> (first.position == second.position <==>
                      || first.inFrame || frames == []
                      || SameItem(Bounds(maxFrame, maxGap), Concat(a), LastInside(Bounds(maxFrame, maxGap), START, a, |frames|),
                                  LastInside(Bounds(maxFrame, maxGap), START, b, |frames|)))
  {
    hide Run, Left, ScansOf, SameItem, LastInside, Coherent, Unfinished, LexAt;
    first := new MjpegFrameParser(maxFrame, maxGap);
    second := new MjpegFrameParser(maxFrame, maxGap);
    ok, frames := FeedAll(first, a);
    var ok', frames' := FeedAll(second, b);
    if ok {
      SameViewSameFields(first, second);
      SamePosition(Bounds(maxFrame, maxGap), a, b);
    }
  }
}
