/**
 The meaning of an MJPEG byte stream, one byte at a time.

 This is the reference the incremental parser (module MjpegParser) is proved
 against: a state machine with no buffer positions, no chunks and no searches.
 A run either fails or yields the frames completed on the way and the state
 reached, and by construction it does not know how the bytes were chunked.
 */
module MjpegStream {
  import opened Basics

  const DEFAULT_MAX_GAP_BYTES := 4096

  /** The two bounds a parser is built with. */
  datatype Bounds = Bounds(maxFrame: nat, maxGap: nat) {
    predicate Valid() {
      64 <= maxFrame
    }
  }

  predicate IsRestart(b: Byte) {
    0xD0 <= b <= 0xD7
  }

  /** Markers without a length field (TEM and RSTn). */
  predicate IsStandalone(b: Byte) {
    b == 0x01 || IsRestart(b)
  }

  /** A marker that starts a segment with a two-byte length. */
  predicate IsSegmentMarker(b: Byte) {
    b != 0x00 && b != 0xD8 && b != 0xD9 && b != 0xFF && !IsStandalone(b)
  }

  /** Where in the structure of an image the next byte falls. */
  datatype Lex =
    | Marker                                     // a marker must start here
    | Lead(first: Byte)                          // a marker's first byte, judged with the second
    | Length0(marker: Byte)                      // the length's first byte
    | Length1(marker: Byte, high: Byte)          // the length's second byte
    | Body(marker: Byte, length: nat, seen: nat) // seen of the segment's length bytes
    | Entropy                                    // entropy-coded data
    | EntropyFF                                  // 0xFF inside entropy-coded data

  /** A segment's length field. */
  function Length(high: Byte, low: Byte): nat {
    high as int * 256 + low as int
  }

  datatype LexStep = Bad | More(lex: Lex, scans: nat) | Done

  function AfterSegment(marker: Byte, scans: nat): LexStep {
    if marker == 0xDA then More(Entropy, scans + 1) else More(Marker, scans)
  }

  /** The byte following the 0xFF of a marker. */
  function MarkerByte(b: Byte, scans: nat): LexStep {
    if IsStandalone(b) then More(Marker, scans)
    else if b == 0x00 || b == 0xD8 then Bad
    else if b == 0xD9 then if scans == 0 then Bad else Done
    else More(Length0(b), scans)
  }

  function Consume(lex: Lex, scans: nat, b: Byte): LexStep {
    match lex
    case Marker => More(Lead(b), scans)
    case Lead(first) =>
      if first != 0xFF then Bad
      else if b == 0xFF then More(Lead(b), scans)
      else MarkerByte(b, scans)
    case Length0(m) => More(Length1(m, b), scans)
    case Length1(m, high) =>
      var length := Length(high, b);
      if length < 2 then Bad
      else if length == 2 then AfterSegment(m, scans)
      else More(Body(m, length, 2), scans)
    case Body(m, length, seen) =>
      if seen + 1 >= length then AfterSegment(m, scans) else More(Body(m, length, seen + 1), scans)
    case Entropy => More(if b == 0xFF then EntropyFF else Entropy, scans)
    case EntropyFF =>
      if b == 0x00 || IsRestart(b) then More(Entropy, scans)
      else if b == 0xFF then More(EntropyFF, scans)
      else MarkerByte(b, scans)
  }

  /** Between images, or inside one. */
  datatype Phase =
    | Gap(skipped: nat, pending: bool) // pending: the last byte was 0xFF, not yet counted as skipped
    | Frame(bytes: seq<Byte>, lex: Lex, scans: nat, large: bool)

  datatype Stream = Stream(phase: Phase, largeGaps: nat)

  const START := Stream(Gap(0, false), 0)

  /** The bytes a parser in this state must still hold. */
  function Held(s: Stream): seq<Byte> {
    match s.phase
    case Gap(_, pending) => if pending then [0xFF] else []
    case Frame(bytes, _, _, _) => bytes
  }

  predicate Within(k: Bounds, s: Stream) {
    match s.phase
    case Gap(skipped, _) => skipped <= k.maxGap
    case Frame(bytes, lex, scans, _) =>
      && 2 <= |bytes| <= k.maxFrame
      && (lex.Entropy? || lex.EntropyFF? ==> scans > 0)
      && (lex.Body? ==> 2 <= lex.seen < lex.length)
  }

  datatype Outcome = Failed | Parsed(state: Stream, frames: seq<seq<Byte>>)

  /** What one more byte does. */
  function Step(k: Bounds, s: Stream, b: Byte): Outcome {
    match s.phase
    case Gap(skipped, pending) =>
      if pending && b == 0xD8 then
        Parsed(s.(phase := Frame([0xFF, 0xD8], Marker, 0, skipped > DEFAULT_MAX_GAP_BYTES)), [])
      else
        var skipped' := skipped + (if pending then 1 else 0) + (if b == 0xFF then 0 else 1);
        if skipped' > k.maxGap then Failed else Parsed(s.(phase := Gap(skipped', b == 0xFF)), [])
    case Frame(bytes, lex, scans, large) =>
      var step := Consume(lex, scans, b);
      if step.Bad? || |bytes| + 1 > k.maxFrame then Failed
      else if step.Done? then
        Parsed(Stream(Gap(0, false), s.largeGaps + if large then 1 else 0), [bytes + [b]])
      else Parsed(s.(phase := Frame(bytes + [b], step.lex, step.scans, large)), [])
  }

  function Then(frames: seq<seq<Byte>>, next: Outcome): Outcome {
    if next.Failed? then Failed else Parsed(next.state, frames + next.frames)
  }

  /** The whole stream, from a given state. */
  function Run(k: Bounds, s: Stream, data: seq<Byte>): Outcome
    decreases |data|
  {
    if data == [] then Parsed(s, [])
    else
      var first := Step(k, s, data[0]);
      if first.Failed? then Failed else Then(first.frames, Run(k, first.state, data[1..]))
  }

  lemma {:induction false} RunWithin(k: Bounds, s: Stream, data: seq<Byte>)
    requires k.Valid() && Within(k, s)
    ensures Run(k, s, data).Parsed? ==> Within(k, Run(k, s, data).state)
    decreases |data|
  {
    if data != [] {
      var first := Step(k, s, data[0]);
      if first.Parsed? {
        RunWithin(k, first.state, data[1..]);
      }
    }
  }

  lemma ThenThen(f: seq<seq<Byte>>, g: seq<seq<Byte>>, next: Outcome)
    ensures Then(f, Then(g, next)) == Then(f + g, next)
    ensures Then([], next) == next
  {
    if next.Parsed? {
      assert f + (g + next.frames) == (f + g) + next.frames;
      assert [] + next.frames == next.frames;
    }
  }

  /** Splitting a stream anywhere changes nothing. */
  lemma {:induction false} RunAppend(k: Bounds, s: Stream, a: seq<Byte>, b: seq<Byte>)
    ensures Run(k, s, a + b) ==
            var r := Run(k, s, a);
            if r.Failed? then Failed else Then(r.frames, Run(k, r.state, b))
    decreases |a|
  {
    if a == [] {
      assert a + b == b;
      ThenThen([], [], Run(k, s, b));
    } else {
      assert (a + b)[1..] == a[1..] + b;
      var first := Step(k, s, a[0]);
      if first.Parsed? {
        RunAppend(k, first.state, a[1..], b);
        var r := Run(k, first.state, a[1..]);
        if r.Parsed? {
          ThenThen(first.frames, r.frames, Run(k, r.state, b));
        }
      }
    }
  }

  lemma RunSnoc(k: Bounds, s: Stream, data: seq<Byte>, b: Byte)
    requires Run(k, s, data + [b]).Parsed?
    ensures var r := Run(k, s, data);
            && r.Parsed? && Step(k, r.state, b).Parsed?
            && Run(k, s, data + [b]) == Parsed(Step(k, r.state, b).state, r.frames + Step(k, r.state, b).frames)
  {
    RunAppend(k, s, data, [b]);
    var r := Run(k, s, data);
    var step := Step(k, r.state, b);
    assert [b][1..] == [];
    assert step.Parsed? ==> step.frames + [] == step.frames;
  }

  /** Feeding chunk after chunk, stopping at the first failure. */
  function RunChunks(k: Bounds, s: Stream, chunks: seq<seq<Byte>>): Outcome
    decreases |chunks|
  {
    if chunks == [] then Parsed(s, [])
    else
      var first := Run(k, s, chunks[0]);
      if first.Failed? then Failed else Then(first.frames, RunChunks(k, first.state, chunks[1..]))
  }

  /** Every chunking of a stream fails, or yields the same frames, count and state as the whole. */
  lemma {:induction false} ChunkingIndependence(k: Bounds, s: Stream, chunks: seq<seq<Byte>>)
    ensures RunChunks(k, s, chunks) == Run(k, s, Concat(chunks))
    decreases |chunks|
  {
    if chunks != [] {
      RunAppend(k, s, chunks[0], Concat(chunks[1..]));
      var first := Run(k, s, chunks[0]);
      if first.Parsed? {
        ChunkingIndependence(k, first.state, chunks[1..]);
      }
    }
  }

  /** How the rest of a buffer reads when the image is open at index i. */
  datatype Reading = Broken | Open(lex: Lex, scans: nat) | Closed(end: nat, scans: nat)

  function Read(d: seq<Byte>, i: nat, lex: Lex, scans: nat): Reading
    requires i <= |d|
    decreases |d| - i
  {
    if i == |d| then Open(lex, scans)
    else
      match Consume(lex, scans, d[i])
      case Bad => Broken
      case Done => Closed(i + 1, scans)
      case More(lex', scans') => Read(d, i + 1, lex', scans')
  }

  lemma {:induction false} ReadClosesInside(d: seq<Byte>, i: nat, lex: Lex, scans: nat)
    requires i <= |d|
    ensures Read(d, i, lex, scans).Closed? ==> i < Read(d, i, lex, scans).end <= |d|
    decreases |d| - i
  {
    if i < |d| && Consume(lex, scans, d[i]).More? {
      ReadClosesInside(d, i + 1, Consume(lex, scans, d[i]).lex, Consume(lex, scans, d[i]).scans);
    }
  }

  /** More bytes are read from where the reading stood. */
  lemma {:induction false} ReadAppend(d: seq<Byte>, e: seq<Byte>, i: nat, lex: Lex, scans: nat)
    requires i <= |d| && Read(d, i, lex, scans).Open?
    ensures var r := Read(d, i, lex, scans); Read(d + e, i, lex, scans) == Read(d + e, |d|, r.lex, r.scans)
    decreases |d| - i
  {
    if i < |d| {
      assert (d + e)[i] == d[i];
      var step := Consume(lex, scans, d[i]);
      ReadAppend(d, e, i + 1, step.lex, step.scans);
    }
  }

  /** An image reads the same without what follows it. */
  lemma {:induction false} ReadAlone(d: seq<Byte>, i: nat, lex: Lex, scans: nat)
    requires i <= |d| && Read(d, i, lex, scans).Closed? && Read(d, i, lex, scans).end <= |d|
    ensures i <= Read(d, i, lex, scans).end
    ensures Read(d[..Read(d, i, lex, scans).end], i, lex, scans) == Read(d, i, lex, scans)
    decreases |d| - i
  {
    ReadClosesInside(d, i, lex, scans);
    var end := Read(d, i, lex, scans).end;
    assert d[..end][i] == d[i];
    var step := Consume(lex, scans, d[i]);
    if step.More? {
      ReadAlone(d, i + 1, step.lex, step.scans);
    }
  }

  /** How many scans an image has. */
  function ScansOf(image: seq<Byte>): nat {
    if |image| < 2 then 0
    else
      match Read(image, 2, Marker, 0)
      case Closed(_, scans) => scans
      case _ => 0
  }

  /** How many bytes of the marker, segment or escape being read have been seen. */
  function Pending(lex: Lex): nat {
    match lex
    case Marker => 0
    case Lead(_) => 1
    case Length0(_) => 2
    case Length1(_, _) => 3
    case Body(_, _, seen) => seen + 2
    case Entropy => 0
    case EntropyFF => 1
  }

  /** Where in an open image reading resumes: at the first byte of what is unfinished. */
  function ResumePoint(s: Stream): int
    requires s.phase.Frame?
  {
    |s.phase.bytes| - Pending(s.phase.lex)
  }

  /** The state after an image of n bytes of which `large` followed a long gap. */
  function Ended(s: Stream): Stream
    requires s.phase.Frame?
  {
    Stream(Gap(0, false), s.largeGaps + if s.phase.large then 1 else 0)
  }

  /** Inside an image the stream is its reading, with the frame bound on top. */
  lemma {:induction false} RunFrame(k: Bounds, s: Stream, d: seq<Byte>, i: nat)
    requires i <= |d| && i <= k.maxFrame
    requires s.phase.Frame? && s.phase.bytes == d[..i]
    ensures Run(k, s, d[i..]) ==
            match Read(d, i, s.phase.lex, s.phase.scans)
            case Broken => Failed
            case Open(lex, scans) =>
              if |d| > k.maxFrame then Failed
              else Parsed(s.(phase := Frame(d, lex, scans, s.phase.large)), [])
            case Closed(end, _) =>
              if end > k.maxFrame || end > |d| then Failed
              else Then([d[..end]], Run(k, Ended(s), d[end..]))
    decreases |d| - i
  {
    ReadClosesInside(d, i, s.phase.lex, s.phase.scans);
    if i == |d| {
      assert d[..i] == d;
    } else {
      assert d[i..][1..] == d[i + 1..];
      assert d[..i] + [d[i]] == d[..i + 1];
      var first := Step(k, s, d[i]);
      var step := Consume(s.phase.lex, s.phase.scans, d[i]);
      if step.More? {
        ReadClosesInside(d, i + 1, step.lex, step.scans);
        if i + 1 <= k.maxFrame {
          RunFrame(k, first.state, d, i + 1);
          ThenThen([], [], Run(k, first.state, d[i + 1..]));
        }
      }
    }
  }

  ghost predicate NoSoi(d: seq<Byte>) {
    forall j :: 0 <= j < |d| - 1 ==> !(d[j] == 0xFF && d[j + 1] == 0xD8)
  }

  /** Bytes without an SOI are skipped, a trailing 0xFF being held back. */
  lemma {:induction false} RunSkips(k: Bounds, s: Stream, d: seq<Byte>)
    requires NoSoi(d) && s.phase.Gap? && !s.phase.pending && s.phase.skipped <= k.maxGap
    ensures var keep := if d != [] && d[|d| - 1] == 0xFF then 1 else 0;
            Run(k, s, d) ==
            if s.phase.skipped + |d| - keep > k.maxGap then Failed
            else Parsed(s.(phase := Gap(s.phase.skipped + |d| - keep, keep == 1)), [])
    decreases |d|
  {
    if d != [] {
      var n := |d| - 1;
      assert d == d[..n] + [d[n]];
      RunSkips(k, s, d[..n]);
      RunAppend(k, s, d[..n], [d[n]]);
      var r := Run(k, s, d[..n]);
      if r.Parsed? {
        assert n > 0 ==> d[..n][n - 1] == d[n - 1];
        var last := Step(k, r.state, d[n]);
        assert [d[n]][1..] == [];
        assert Run(k, r.state, [d[n]]) == if last.Failed? then Failed else Then(last.frames, Parsed(last.state, []));
      }
    }
  }

  /** An SOI after `start` bytes without one opens an image. */
  lemma {:induction false} RunFindsSoi(k: Bounds, s: Stream, d: seq<Byte>, start: nat)
    requires s.phase.Gap? && !s.phase.pending && s.phase.skipped <= k.maxGap
    requires start + 1 < |d| && d[start] == 0xFF && d[start + 1] == 0xD8 && NoSoi(d[..start + 1])
    ensures Run(k, s, d) ==
            var total := s.phase.skipped + start;
            if total > k.maxGap then Failed
            else Run(k, s.(phase := Frame([0xFF, 0xD8], Marker, 0, total > DEFAULT_MAX_GAP_BYTES)), d[start + 2..])
  {
    var before := d[..start + 1];
    assert d == before + d[start + 1..];
    RunSkips(k, s, before);
    RunAppend(k, s, before, d[start + 1..]);
    var r := Run(k, s, before);
    if r.Parsed? {
      assert d[start + 1..][1..] == d[start + 2..];
      var rest := Run(k, Step(k, r.state, 0xD8).state, d[start + 2..]);
      ThenThen([], [], rest);
    }
  }
}
