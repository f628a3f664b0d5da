/**
 The incremental MJPEG splitter: a buffer, a saved scan position and a few flags,
 updated in place by Feed and Scan. Feed is proved to be MjpegStream.Run on the
 bytes it is given, whatever the parser was fed before.
 */
module MjpegParser {
  import opened Basics
  import opened MjpegStream

  /** Index of the first FF D8, or -1. */
  function FindSoi(d: seq<Byte>, from: nat): (i: int)
    requires from <= |d|
    requires NoSoi(d[..from]) && (from > 0 ==> from < |d| ==> !(d[from - 1] == 0xFF && d[from] == 0xD8))
    ensures i < 0 ==> NoSoi(d)
    ensures i >= 0 ==> i + 1 < |d| && d[i] == 0xFF && d[i + 1] == 0xD8 && NoSoi(d[..i + 1])
    decreases |d| - from
  {
    if from + 1 >= |d| then -1
    else if d[from] == 0xFF && d[from + 1] == 0xD8 then from
    else FindSoi(d, from + 1)
  }

  ghost predicate NoFF(d: seq<Byte>, i: nat, stop: nat)
    requires stop <= |d|
  {
    forall j :: i <= j < stop ==> d[j] != 0xFF
  }

  lemma NothingBefore(d: seq<Byte>)
    ensures NoSoi(d[..0])
  {
  }

  /** Index of the first FF at or after from, or -1. */
  function FindFF(d: seq<Byte>, from: nat): (i: int)
    requires from <= |d|
    ensures i < 0 ==> NoFF(d, from, |d|)
    ensures i >= 0 ==> from <= i < |d| && d[i] == 0xFF && NoFF(d, from, i)
    decreases |d| - from
  {
    if from == |d| then -1
    else if d[from] == 0xFF then from
    else FindFF(d, from + 1)
  }

  /** The bytes from p on are an unfinished marker, segment or escape. */
  ghost predicate Unfinished(d: seq<Byte>, p: nat, entropy: bool)
    requires p <= |d|
  {
    if entropy then p == |d| || (p + 1 == |d| && d[p] == 0xFF)
    else
      && (p + 2 <= |d| ==> d[p] == 0xFF && IsSegmentMarker(d[p + 1]))
      && (p + 4 <= |d| ==> 2 <= Length(d[p + 2], d[p + 3]) && |d| < p + 2 + Length(d[p + 2], d[p + 3]))
  }

  /** Where in the image the end of the buffer falls. */
  ghost function LexAt(d: seq<Byte>, p: nat, entropy: bool): Lex
    requires p <= |d|
  {
    if entropy then if p == |d| then Entropy else EntropyFF
    else if p == |d| then Marker
    else if p + 1 == |d| then Lead(d[p])
    else if p + 2 == |d| then Length0(d[p + 1])
    else if p + 3 == |d| then Length1(d[p + 1], d[p + 2])
    else Body(d[p + 1], Length(d[p + 2], d[p + 3]), |d| - p - 2)
  }

  function Resume(entropy: bool): Lex {
    if entropy then Entropy else Marker
  }

  lemma {:induction false} ReadSkipsData(d: seq<Byte>, i: nat, stop: nat, scans: nat)
    requires i <= stop <= |d| && NoFF(d, i, stop)
    ensures Read(d, i, Entropy, scans) == Read(d, stop, Entropy, scans)
    decreases stop - i
  {
    if i < stop {
      ReadSkipsData(d, i + 1, stop, scans);
    }
  }

  /** A segment's payload is opaque. */
  lemma {:induction false} ReadSkipsBody(d: seq<Byte>, i: nat, lex: Lex, scans: nat)
    requires i <= |d| && lex.Body? && 2 <= lex.seen < lex.length
    ensures var left := lex.length - lex.seen;
            if i + left <= |d| then
              var next := AfterSegment(lex.marker, scans);
              Read(d, i, lex, scans) == Read(d, i + left, next.lex, next.scans)
            else Read(d, i, lex, scans) == Open(lex.(seen := lex.seen + |d| - i), scans)
    decreases |d| - i
  {
    if i < |d| && lex.seen + 1 < lex.length {
      ReadSkipsBody(d, i + 1, lex.(seen := lex.seen + 1), scans);
    }
  }

  /** A segment marker at p: its length field decides where reading goes on. */
  lemma ReadSegment(d: seq<Byte>, p: nat, scans: nat)
    requires p + 4 <= |d| && d[p] == 0xFF && IsSegmentMarker(d[p + 1])
    ensures var length := Length(d[p + 2], d[p + 3]);
            var r := Read(d, p, Marker, scans);
            if length < 2 then r == Broken
            else if p + 2 + length <= |d| then
              var next := AfterSegment(d[p + 1], scans);
              r == Read(d, p + 2 + length, next.lex, next.scans)
            else r == Open(Body(d[p + 1], length, |d| - p - 2), scans)
  {
    var m, high := d[p + 1], d[p + 2];
    var length := Length(high, d[p + 3]);
    assert Read(d, p, Marker, scans) == Read(d, p + 1, Lead(0xFF), scans);
    assert Read(d, p + 1, Lead(0xFF), scans) == Read(d, p + 2, Length0(m), scans);
    assert Read(d, p + 2, Length0(m), scans) == Read(d, p + 3, Length1(m, high), scans);
    if length > 2 {
      ReadSkipsBody(d, p + 4, Body(m, length, 2), scans);
    }
  }

  /** Reading a saved tail again reproduces the state it stood for. */
  lemma ReadUnfinished(d: seq<Byte>, p: nat, entropy: bool, scans: nat)
    requires p <= |d| && Unfinished(d, p, entropy)
    ensures Read(d, p, Resume(entropy), scans) == Open(LexAt(d, p, entropy), scans)
  {
    if p == |d| {
    } else if entropy {
      assert Read(d, p, Entropy, scans) == Read(d, p + 1, EntropyFF, scans);
    } else {
      assert Read(d, p, Marker, scans) == Read(d, p + 1, Lead(d[p]), scans);
      if p + 4 <= |d| {
        ReadSegment(d, p, scans);
      } else if p + 2 <= |d| {
        assert Read(d, p + 1, Lead(0xFF), scans) == Read(d, p + 2, Length0(d[p + 1]), scans);
        if p + 3 == |d| {
          assert Read(d, p + 2, Length0(d[p + 1]), scans) == Read(d, p + 3, Length1(d[p + 1], d[p + 2]), scans);
        }
      }
    }
  }

  /** A marker or segment that is not complete yet is saved at its first byte. */
  lemma MarkerWaits(d: seq<Byte>, p: nat, scans: nat)
    requires 2 <= p <= |d|
    requires p + 2 <= |d| ==> d[p] == 0xFF && IsSegmentMarker(d[p + 1])
    requires p + 4 <= |d| ==> 2 <= Length(d[p + 2], d[p + 3]) && |d| < p + 2 + Length(d[p + 2], d[p + 3])
    ensures Explains(d, Read(d, p, Marker, scans), NeedMore, p, false, scans)
  {
    ReadUnfinished(d, p, false, scans);
  }

  /** 0xFF inside entropy-coded data: an escape, a fill byte, or the end of the scan. */
  lemma ReadEscape(d: seq<Byte>, p: nat, scans: nat)
    requires p + 2 <= |d| && d[p] == 0xFF
    ensures Read(d, p, Entropy, scans) ==
            if d[p + 1] == 0x00 || IsRestart(d[p + 1]) then Read(d, p + 2, Entropy, scans)
            else if d[p + 1] == 0xFF then Read(d, p + 1, Entropy, scans)
            else Read(d, p, Marker, scans)
  {
    assert Read(d, p, Entropy, scans) == Read(d, p + 1, EntropyFF, scans);
    assert Read(d, p, Marker, scans) == Read(d, p + 1, Lead(0xFF), scans);
    if d[p + 1] == 0xFF {
      assert Read(d, p + 1, Entropy, scans) == Read(d, p + 2, EntropyFF, scans);
    }
  }

  /** A marker that is not the start of a segment. */
  lemma ReadMarker(d: seq<Byte>, p: nat, scans: nat)
    requires p + 2 <= |d| && !(d[p] == 0xFF && IsSegmentMarker(d[p + 1]))
    ensures Read(d, p, Marker, scans) ==
            if d[p] != 0xFF then Broken
            else if d[p + 1] == 0xFF then Read(d, p + 1, Marker, scans)
            else if IsStandalone(d[p + 1]) then Read(d, p + 2, Marker, scans)
            else if d[p + 1] == 0xD9 && scans > 0 then Closed(p + 2, scans)
            else Broken
  {
    assert Read(d, p, Marker, scans) == Read(d, p + 1, Lead(d[p]), scans);
    if d[p + 1] == 0xFF {
      assert Read(d, p + 1, Marker, scans) == Read(d, p + 2, Lead(0xFF), scans);
    }
  }

  /** The saved position, flag and count stand for the whole image so far. */
  ghost predicate Coherent(d: seq<Byte>, p: nat, entropy: bool, scans: nat) {
    2 <= p <= |d| && Read(d, 2, Marker, 0) == Read(d, p, Resume(entropy), scans)
  }

  lemma CoherentStart(d: seq<Byte>)
    requires 2 <= |d|
    ensures Coherent(d, 2, false, 0)
  {
  }

  /** New bytes leave what is saved coherent. */
  lemma CoherentOn(d: seq<Byte>, e: seq<Byte>, p: nat, entropy: bool, scans: nat)
    requires Coherent(d, p, entropy, scans) && Unfinished(d, p, entropy)
    ensures Coherent(d + e, p, entropy, scans)
  {
    hide Read, Unfinished;
    ReadUnfinished(d, p, entropy, scans);
    ReadAppend(d, e, 2, Marker, 0);
    ReadAppend(d, e, p, Resume(entropy), scans);
  }

  /** A scan that stops for more bytes has saved a coherent position. */
  lemma CoherentAfter(d: seq<Byte>, p: nat, entropy: bool, scans: nat, p': nat, entropy': bool, scans': nat)
    requires Coherent(d, p, entropy, scans) && Explains(d, Read(d, p, Resume(entropy), scans), NeedMore, p', entropy', scans')
    ensures Coherent(d, p', entropy', scans')
  {
    hide Read, Unfinished, LexAt;
    ReadUnfinished(d, p', entropy', scans');
  }

  /** A scan that reaches the end of the image has counted its scans. */
  lemma CountedScans(d: seq<Byte>, p: nat, entropy: bool, scans: nat, end: nat, scans': nat)
    requires Coherent(d, p, entropy, scans) && 2 <= end <= |d| && Read(d, p, Resume(entropy), scans) == Closed(end, scans')
    ensures ScansOf(d[..end]) == scans'
  {
    hide Read;
    ReadAlone(d, 2, Marker, 0);
  }

  datatype ScanResult = Malformed | NeedMore | EndOfImage(end: nat)

  /** A scan's result and the position it saved say exactly how the buffer reads. */
  ghost predicate Explains(d: seq<Byte>, reading: Reading, r: ScanResult, p: nat, entropy: bool, scans: nat) {
    match r
    case Malformed => reading == Broken
    case EndOfImage(end) => reading == Closed(end, scans) && 2 <= end <= |d| && !entropy
    case NeedMore =>
      && 2 <= p <= |d| && (entropy ==> scans > 0)
      && Unfinished(d, p, entropy)
      && reading == Open(LexAt(d, p, entropy), scans)
  }

  class MjpegFrameParser {
    const bounds: Bounds
    var buffer: seq<Byte>
    var inFrame: bool
    var entropy: bool
    var scans: nat
    var position: nat
    var gap: nat
    var largeGap: bool
    var largeGaps: nat

    ghost predicate Valid()
      reads this
    {
      && bounds.Valid()
      && if inFrame then
           && 2 <= position <= |buffer| <= bounds.maxFrame
           && gap == 0 && (entropy ==> scans > 0)
           && Unfinished(buffer, position, entropy)
           && Coherent(buffer, position, entropy, scans)
         else
           && (buffer == [] || buffer == [0xFF])
           && gap <= bounds.maxGap
           && !largeGap && !entropy
    }

    /** The stream state this parser stands for. */
    ghost function View(): Stream
      requires Valid()
      reads this
    {
      if inFrame then Stream(Frame(buffer, LexAt(buffer, position, entropy), scans, largeGap), largeGaps)
      else Stream(Gap(gap, buffer == [0xFF]), largeGaps)
    }

    constructor (maxFrameBytes: nat, maxGapBytes: nat)
      requires 64 <= maxFrameBytes
      ensures Valid() && View() == START
      ensures bounds == Bounds(maxFrameBytes, maxGapBytes) && position == 0 && scans == 0
    {
      bounds := Bounds(maxFrameBytes, maxGapBytes);
      buffer, inFrame, entropy, scans, position := [], false, false, 0, 0;
      gap, largeGap, largeGaps := 0, false, 0;
    }

    /** Add bytes; the frames they complete, or failure of the stream. */
    method Feed(data: seq<Byte>) returns (ok: bool, frames: seq<seq<Byte>>)
      requires Valid()
      modifies this
      ensures ok <==> Run(bounds, old(View()), data).Parsed?
      ensures ok ==> Valid() && Run(bounds, old(View()), data) == Parsed(View(), frames)
      // Between images, what is left over: the position of the last resumption, and the scans of the last image.
      ensures ok && !inFrame ==> position == if frames == [] || (old(inFrame) && |frames| == 1) then old(position) else 2
      ensures ok && !inFrame ==> scans == if frames == [] then old(scans) else ScansOf(frames[|frames| - 1])
      ensures ok && !inFrame && old(inFrame) ==> frames != []
    {
      hide Run, Read, Coherent, ScansOf;
      ghost var whole := Run(bounds, View(), data);
      AbsorbInput(data);
      assert inFrame ==> (buffer + data)[..position] == buffer[..position];
      ThenThen([], [], whole);
      if inFrame {
        CoherentOn(buffer, data, position, entropy, scans);
      }
      buffer := buffer + data;
      frames := [];
      while true
        invariant bounds.Valid() && Remains(whole, frames)
        invariant inFrame ==> frames == [] && old(inFrame) && position == old(position)
        invariant !inFrame && frames == [] ==> !old(inFrame) && position == old(position) && scans == old(scans)
        invariant !inFrame && frames != [] ==> position == if old(inFrame) && |frames| == 1 then old(position) else 2
        invariant !inFrame && frames != [] ==> scans == ScansOf(frames[|frames| - 1])
        decreases |buffer|
      {
        var r, image := NextImage(whole, frames);
        if r == Malformed {
          return false, [];
        }
        if r == NeedMore {
          return true, frames;
        }
        frames := frames + [image];
      }
    }

    /** One image out of the buffer, or the end of the buffer. */
    method NextImage(ghost whole: Outcome, ghost done: seq<seq<Byte>>) returns (r: ScanResult, image: seq<Byte>)
      requires bounds.Valid() && Remains(whole, done)
      modifies this
      ensures r.Malformed? ==> whole.Failed?
      ensures r.NeedMore? ==> Valid() && whole == Parsed(View(), done)
      ensures r.NeedMore? && !inFrame ==> old(!inFrame) && position == old(position) && scans == old(scans)
      ensures r.EndOfImage? ==> scans == ScansOf(image)
      ensures r.EndOfImage? ==> !inFrame && Remains(whole, done + [image]) && |buffer| < old(|buffer|)
      ensures r.EndOfImage? ==> position == if old(inFrame) then old(position) else 2
    {
      hide Run, Read, Unfinished, LexAt, Coherent, ScansOf;
      image := [];
      if !inFrame {
        r := SkipGap(whole, done);
        if r == Malformed || !inFrame {
          return;
        }
      }
      ghost var scanning := Scanning();
      RunFrame(bounds, scanning, buffer, position);
      ghost var p, e, n := position, entropy, scans;
      r := Scan();
      if r == Malformed {
        return;
      }
      if r == NeedMore {
        CoherentAfter(buffer, p, e, n, position, entropy, scans);
        if |buffer| > bounds.maxFrame {
          r := Malformed;
        }
        return;
      }
      CountedScans(buffer, p, e, n, r.end, scans);
      if r.end > bounds.maxFrame {
        r := Malformed;
        return;
      }
      image := buffer[..r.end];
      ThenThen(done, [image], Run(bounds, Ended(scanning), buffer[r.end..]));
      buffer := buffer[r.end..];
      inFrame := false;
      if largeGap {
        largeGaps := largeGaps + 1;
        largeGap := false;
      }
    }

    /** Skip to the next SOI, or to the end of the buffer, within the gap bound. */
    method SkipGap(ghost whole: Outcome, ghost done: seq<seq<Byte>>) returns (r: ScanResult)
      requires bounds.Valid() && !inFrame && Remains(whole, done)
      modifies this
      ensures !r.EndOfImage?
      ensures r.Malformed? ==> whole.Failed?
      ensures r.NeedMore? && inFrame ==> Remains(whole, done) && position == 2 && |buffer| <= old(|buffer|)
      ensures r.NeedMore? && !inFrame ==> Valid() && whole == Parsed(View(), done) && position == old(position) && scans == old(scans)
    {
      hide Run, NoSoi, Coherent, FindSoi, Unfinished, LexAt;
      NothingBefore(buffer);
      var start := FindSoi(buffer, 0);
      ghost var here := Stream(Gap(gap, false), largeGaps);
      if start < 0 {
        var keep := if buffer != [] && buffer[|buffer| - 1] == 0xFF then 1 else 0;
        var skipped := |buffer| - keep;
        RunSkips(bounds, here, buffer);
        if gap + skipped > bounds.maxGap {
          return Malformed;
        }
        gap := gap + skipped;
        buffer := buffer[skipped..];
        return NeedMore;
      }
      RunFindsSoi(bounds, here, buffer, start);
      if gap + start > bounds.maxGap {
        return Malformed;
      }
      largeGap := gap + start > DEFAULT_MAX_GAP_BYTES;
      assert buffer[start..][..2] == [0xFF, 0xD8] && buffer[start..][2..] == buffer[start + 2..];
      buffer := buffer[start..];
      gap := 0;
      inFrame, entropy, scans, position := true, false, 0, 2;
      CoherentStart(buffer);
      return NeedMore;
    }

    /** The frames done so far and the unread part of the buffer make up the whole run. */
    ghost predicate Remains(whole: Outcome, done: seq<seq<Byte>>)
      reads this
    {
      if inFrame then
        && 2 <= position <= |buffer| && position <= bounds.maxFrame && gap == 0 && (entropy ==> scans > 0)
        && whole == Then(done, Run(bounds, Scanning(), buffer[position..]))
        && Coherent(buffer, position, entropy, scans)
      else
        && gap <= bounds.maxGap && !largeGap && !entropy
        && whole == Then(done, Run(bounds, Stream(Gap(gap, false), largeGaps), buffer))
    }

    /** The stream state at the scan position, everything before it being read. */
    ghost function Scanning(): Stream
      requires 2 <= position <= |buffer|
      reads this
    {
      Stream(Frame(buffer[..position], Resume(entropy), scans, largeGap), largeGaps)
    }

    /** New bytes continue the reading from the saved position. */
    lemma AbsorbInput(data: seq<Byte>)
      requires Valid()
      ensures inFrame ==> Run(bounds, View(), data) == Run(bounds, Scanning(), (buffer + data)[position..])
      ensures !inFrame ==> Run(bounds, View(), data) == Run(bounds, Stream(Gap(gap, false), largeGaps), buffer + data)
    {
      if inFrame {
        ReadUnfinished(buffer, position, entropy, scans);
        RunFrame(bounds, Scanning(), buffer, position);
        RunAppend(bounds, Scanning(), buffer[position..], data);
        assert (buffer + data)[position..] == buffer[position..] + data;
        ThenThen([], [], Run(bounds, View(), data));
      } else {
        var here := Stream(Gap(gap, false), largeGaps);
        RunSkips(bounds, here, buffer);
        RunAppend(bounds, here, buffer, data);
        ThenThen([], [], Run(bounds, View(), data));
      }
    }

    /** Entropy-coded data from `from`: to the marker that ends the scan, or to the end of the buffer. */
    method SkipEntropy(from: nat) returns (ended: bool, at: nat)
      requires 2 <= from <= |buffer| && entropy && scans > 0
      modifies this`position, this`entropy
      ensures var reading := Read(buffer, from, Entropy, scans);
              if ended then
                !entropy && position == old(position) && from <= at <= |buffer| && reading == Read(buffer, at, Marker, scans)
              else
                entropy && Explains(buffer, reading, NeedMore, position, true, scans)
    {
      hide Read, LexAt, NoFF;
      at := from;
      while true
        invariant from <= at <= |buffer| && entropy && position == old(position)
        invariant Read(buffer, from, Entropy, scans) == Read(buffer, at, Entropy, scans)
        decreases |buffer| - at
      {
        var index := FindFF(buffer, at);
        ReadSkipsData(buffer, at, if index < 0 then |buffer| else index, scans);
        if index < 0 || index + 1 >= |buffer| {
          position := if index < 0 then |buffer| else index;
          ReadUnfinished(buffer, position, true, scans);
          return false, at;
        }
        ReadEscape(buffer, index, scans);
        var following := buffer[index + 1];
        if following == 0x00 || 0xD0 <= following <= 0xD7 {
          at := index + 2;
        } else if following == 0xFF {
          at := index + 1;
        } else {
          entropy := false;
          return true, index;
        }
      }
    }

    /** Read on from the saved position to the end of the image or of the buffer. */
    method Scan() returns (r: ScanResult)
      requires 2 <= position <= |buffer| && (entropy ==> scans > 0)
      modifies this`position, this`entropy, this`scans
      ensures Explains(buffer, Read(buffer, old(position), Resume(old(entropy)), old(scans)), r, position, entropy, scans)
      ensures r.EndOfImage? ==> position == old(position)
    {
      hide Read, LexAt, Unfinished, Consume, MarkerByte;
      var at := position;
      ghost var reading := Read(buffer, at, Resume(entropy), scans);
      while true
        invariant 2 <= at <= |buffer| && position == old(position) && (entropy ==> scans > 0)
        invariant reading == Read(buffer, at, Resume(entropy), scans)
        decreases |buffer| - at, entropy
      {
        if entropy {
          var ended;
          ended, at := SkipEntropy(at);
          if !ended {
            return NeedMore;
          }
        }
        if at + 2 > |buffer| {
          position := at;
          MarkerWaits(buffer, at, scans);
          return NeedMore;
        }
        if !(buffer[at] == 0xFF && IsSegmentMarker(buffer[at + 1])) {
          ReadMarker(buffer, at, scans);
        }
        if buffer[at] != 0xFF {
          return Malformed;
        }
        var marker := buffer[at + 1];
        if marker == 0xFF {
          at := at + 1;
          continue;
        }
        if IsStandalone(marker) {
          at := at + 2;
          continue;
        }
        if marker == 0x00 || marker == 0xD8 {
          return Malformed;
        }
        if marker == 0xD9 {
          if scans == 0 {
            return Malformed;
          }
          return EndOfImage(at + 2);
        }
        if at + 4 > |buffer| {
          position := at;
          MarkerWaits(buffer, at, scans);
          return NeedMore;
        }
        ReadSegment(buffer, at, scans);
        var length := Length(buffer[at + 2], buffer[at + 3]);
        if length < 2 {
          return Malformed;
        }
        if at + 2 + length > |buffer| {
          position := at;
          MarkerWaits(buffer, at, scans);
          return NeedMore;
        }
        at := at + 2 + length;
        if marker == 0xDA {
          scans := scans + 1;
          entropy := true;
        }
      }
    }
  }
}

/** The parser as its users see it: chunk after chunk, and what state that leaves. */
module MjpegChunks {
  import opened Basics
  import opened MjpegStream
  import opened MjpegParser

  /**
   The saved position after a stream, from the chunks before the last feed: of an open image,
   where reading resumes; between images, where the last feed resumed the last image, or 2 if
   it began and ended in one feed.
   */
  ghost function Left(k: Bounds, s: Stream, position: int, chunks: seq<seq<Byte>>): int
    decreases |chunks|
  {
    var after := Run(k, s, Concat(chunks));
    if after.Failed? then position
    else if after.state.phase.Frame? then ResumePoint(after.state)
    else if chunks == [] then position
    else
      var front := chunks[..|chunks| - 1];
      var before := Run(k, s, Concat(front));
      if before.Failed? || |after.frames| == |before.frames| then Left(k, s, position, front)
      else if |after.frames| == |before.frames| + 1 && before.state.phase.Frame? then ResumePoint(before.state)
      else 2
  }

  /** In an open image the parser's position and flag are where and how reading resumes. */
  lemma SavedIsResumePoint(p: MjpegFrameParser)
    requires p.Valid() && p.inFrame
    ensures p.position == ResumePoint(p.View())
    ensures p.entropy <==> p.View().phase.lex.Entropy? || p.View().phase.lex.EntropyFF?
  {
    hide Read, Coherent;
  }

  /** What one more chunk does to what is left over. */
  lemma LeftOn(k: Bounds, s: Stream, position: int, chunks: seq<seq<Byte>>, i: nat)
    requires i < |chunks| && Run(k, s, Concat(chunks[..i])).Parsed?
    requires Run(k, Run(k, s, Concat(chunks[..i])).state, chunks[i]).Parsed?
    ensures var before := Run(k, s, Concat(chunks[..i]));
            var more := Run(k, before.state, chunks[i]);
            && Run(k, s, Concat(chunks[..i + 1])) == Parsed(more.state, before.frames + more.frames)
            && Left(k, s, position, chunks[..i + 1]) ==
               if more.state.phase.Frame? then ResumePoint(more.state)
               else if more.frames == [] then Left(k, s, position, chunks[..i])
               else if |more.frames| == 1 && before.state.phase.Frame? then ResumePoint(before.state)
               else 2
  {
    hide Run;
    var some := chunks[..i + 1];
    assert some == chunks[..i] + [chunks[i]] && some[..|some| - 1] == chunks[..i];
    ConcatAppend(chunks[..i], chunks[i]);
    RunAppend(k, s, Concat(chunks[..i]), chunks[i]);
  }

  /** Feed a stream in the given chunks, giving up at the first failure. */
  method FeedAll(parser: MjpegFrameParser, chunks: seq<seq<Byte>>) returns (ok: bool, frames: seq<seq<Byte>>)
    requires parser.Valid()
    modifies parser
    ensures ok <==> Run(parser.bounds, old(parser.View()), Concat(chunks)).Parsed?
    ensures ok ==> parser.Valid() && Run(parser.bounds, old(parser.View()), Concat(chunks)) == Parsed(parser.View(), frames)
    ensures ok ==> parser.position == Left(parser.bounds, old(parser.View()), old(parser.position), chunks)
    ensures ok && !parser.inFrame ==> parser.scans == if frames == [] then old(parser.scans) else ScansOf(frames[|frames| - 1])
  {
    hide Run, Left, ScansOf, Coherent, Unfinished, LexAt;
    ghost var start, first := parser.View(), parser.position;
    frames := [];
    NothingFed(parser.bounds, start, first);
    if parser.inFrame {
      SavedIsResumePoint(parser);
    }
    assert chunks[..0] == [];
    for i := 0 to |chunks|
      invariant parser.Valid() && Run(parser.bounds, start, Concat(chunks[..i])) == Parsed(parser.View(), frames)
      invariant parser.position == Left(parser.bounds, start, first, chunks[..i])
      invariant !parser.inFrame ==> parser.scans == if frames == [] then old(parser.scans) else ScansOf(frames[|frames| - 1])
    {
      ghost var before := parser.View();
      if parser.inFrame {
        SavedIsResumePoint(parser);
      }
      var more;
      ok, more := parser.Feed(chunks[i]);
      if !ok {
        FailsFrom(parser.bounds, start, chunks, i);
        return false, [];
      }
      LeftOn(parser.bounds, start, first, chunks, i);
      if parser.inFrame {
        SavedIsResumePoint(parser);
      }
      frames := frames + more;
    }
    assert chunks[..|chunks|] == chunks;
    ok := true;
  }

  lemma NothingFed(k: Bounds, s: Stream, position: int)
    ensures Run(k, s, Concat([])) == Parsed(s, [])
    ensures Left(k, s, position, []) == if s.phase.Frame? then ResumePoint(s) else position
  {
  }

  lemma FailsFrom(k: Bounds, s: Stream, chunks: seq<seq<Byte>>, i: nat)
    requires i < |chunks| && Run(k, s, Concat(chunks[..i])).Parsed?
    requires Run(k, Run(k, s, Concat(chunks[..i])).state, chunks[i]).Failed?
    ensures Run(k, s, Concat(chunks)).Failed?
  {
    hide Run;
    ChunkingIndependence(k, s, chunks);
    ChunkingIndependence(k, s, chunks[..i]);
    FailsThere(k, s, chunks, i);
  }

  lemma {:induction false} FailsThere(k: Bounds, s: Stream, chunks: seq<seq<Byte>>, i: nat)
    requires i < |chunks| && RunChunks(k, s, chunks[..i]).Parsed?
    requires Run(k, RunChunks(k, s, chunks[..i]).state, chunks[i]).Failed?
    ensures RunChunks(k, s, chunks).Failed?
    decreases |chunks|
  {
    hide Run;
    if i > 0 {
      assert chunks[..i][0] == chunks[0] && chunks[..i][1..] == chunks[1..][..i - 1];
      FailsThere(k, Run(k, s, chunks[0]).state, chunks[1..], i - 1);
    }
  }

  /** Parsers in the same stream state agree on every field but what is left over between images. */
  lemma SameViewSameFields(a: MjpegFrameParser, b: MjpegFrameParser)
    requires a.Valid() && b.Valid() && a.View() == b.View()
    ensures a.buffer == b.buffer && a.inFrame == b.inFrame && a.gap == b.gap && a.entropy == b.entropy
    ensures a.largeGap == b.largeGap && a.largeGaps == b.largeGaps
    ensures a.inFrame ==> a.scans == b.scans && a.position == b.position
  {
    hide Read, Coherent;
    if a.inFrame {
      SavedIsResumePoint(a);
      SavedIsResumePoint(b);
    }
  }

  const SMALLEST_IMAGE: seq<Byte> := [0xFF, 0xD8, 0xFF, 0xDA, 0x00, 0x02, 0xFF, 0xD9]

  /** Between images the saved position is left over, and depends on the chunking. */
  method StalePosition() returns (whole: MjpegFrameParser, split: MjpegFrameParser)
    ensures whole.Valid() && split.Valid() && whole.View() == split.View() && !whole.inFrame
    ensures whole.position != split.position
  {
    SmallestImageRuns();
    whole := new MjpegFrameParser(64, 0);
    split := new MjpegFrameParser(64, 0);
    var ok, frames := whole.Feed(SMALLEST_IMAGE);
    ok, frames := split.Feed(SMALLEST_IMAGE[..6]);
    ok, frames := split.Feed(SMALLEST_IMAGE[6..]);
  }

  const K := Bounds(64, 0)
  const OPENED := Stream(Frame(SMALLEST_IMAGE[..6], Entropy, 1, false), 0)

  lemma SmallestImageRuns()
    ensures Run(K, START, SMALLEST_IMAGE) == Parsed(START, [SMALLEST_IMAGE])
    ensures Run(K, START, SMALLEST_IMAGE[..6]) == Parsed(OPENED, [])
    ensures Run(K, OPENED, SMALLEST_IMAGE[6..]) == Parsed(START, [SMALLEST_IMAGE])
  {
    var d := SMALLEST_IMAGE;
    SmallestImageOpens();
    assert d == d[..6] + d[6..];
    SmallestImageEnds();
    RunAppend(K, START, d[..6], d[6..]);
  }

  lemma SmallestImageOpens()
    ensures Run(K, START, SMALLEST_IMAGE[..6]) == Parsed(OPENED, [])
  {
    hide Run;
    var d := SMALLEST_IMAGE[..6];
    RunFindsSoi(K, START, d, 0);
    ReadSegment(d, 2, 0);
    assert d[..2] == [0xFF, 0xD8];
    RunFrame(K, Stream(Frame([0xFF, 0xD8], Marker, 0, false), 0), d, 2);
  }

  lemma SmallestImageEnds()
    ensures Run(K, OPENED, SMALLEST_IMAGE[6..]) == Parsed(START, [SMALLEST_IMAGE])
  {
    var d := SMALLEST_IMAGE;
    ReadEscape(d, 6, 1);
    ReadMarker(d, 6, 1);
    assert d[..8] == d && d[8..] == [];
    RunFrame(K, OPENED, d, 6);
  }
}
