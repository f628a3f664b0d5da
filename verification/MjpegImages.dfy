/**
 What a structurally valid JPEG image is (section B.1.1 of ITU-T T.81, as the
 parser's marker rules read it), written as a grammar, and the two halves of the
 parser's promise: it emits every valid image of a stream, and nothing else.
 */
module MjpegImages {
  import opened Basics
  import opened MjpegStream

  /** One element of entropy-coded data: a data byte, or an escape after fill bytes. */
  datatype Coded = Plain(byte: Byte) | Escape(fill: nat, code: Byte)

  datatype Item =
    | Alone(fill: nat, code: Byte)                          // TEM or RSTn
    | Segment(fill: nat, code: Byte, payload: seq<Byte>)    // marker with a length
    | Scan(fill: nat, header: seq<Byte>, data: seq<Coded>)  // SOS segment and its data

  datatype Image = Image(items: seq<Item>, fill: nat)

  const MAX_PAYLOAD := 65533

  predicate ValidCoded(c: Coded) {
    match c
    case Plain(b) => b != 0xFF
    case Escape(_, code) => code == 0x00 || code in RESTARTS
  }

  /** RST0 to RST7. */
  const RESTARTS: set<Byte> := {0xD0, 0xD1, 0xD2, 0xD3, 0xD4, 0xD5, 0xD6, 0xD7}

  /** Every code but TEM, RSTn, SOI, EOI and SOS; 0x00 and 0xFF are no markers. */
  predicate ValidItem(item: Item) {
    match item
    case Alone(_, code) => code == 0x01 || code in RESTARTS
    case Segment(_, code, payload) => (0x02 <= code <= 0xCF || 0xDB <= code <= 0xFE) && |payload| <= MAX_PAYLOAD
    case Scan(_, header, data) => |header| <= MAX_PAYLOAD && forall i :: 0 <= i < |data| ==> ValidCoded(data[i])
  }

  predicate ValidItems(items: seq<Item>) {
    forall i :: 0 <= i < |items| ==> ValidItem(items[i])
  }

  function Scans(items: seq<Item>): nat {
    if items == [] then 0
    else Scans(items[..|items| - 1]) + if items[|items| - 1].Scan? then 1 else 0
  }

  predicate ValidImage(image: Image) {
    ValidItems(image.items) && Scans(image.items) > 0
  }

  /** The 0xFF of a marker, with any number of fill bytes before it. */
  function Fill(n: nat): seq<Byte> {
    if n == 0 then [0xFF] else Fill(n - 1) + [0xFF]
  }

  function LengthBytes(payload: seq<Byte>): seq<Byte>
    requires |payload| <= MAX_PAYLOAD
  {
    [(|payload| + 2) / 256, (|payload| + 2) % 256]
  }

  function CodedBytes(c: Coded): seq<Byte> {
    match c
    case Plain(b) => [b]
    case Escape(fill, code) => Fill(fill) + [code]
  }

  function DataBytes(data: seq<Coded>): seq<Byte> {
    if data == [] then [] else DataBytes(data[..|data| - 1]) + CodedBytes(data[|data| - 1])
  }

  function SegmentBytes(fill: nat, code: Byte, payload: seq<Byte>): seq<Byte>
    requires |payload| <= MAX_PAYLOAD
  {
    Fill(fill) + [code] + LengthBytes(payload) + payload
  }

  function ItemBytes(item: Item): seq<Byte>
    requires ValidItem(item)
  {
    match item
    case Alone(fill, code) => Fill(fill) + [code]
    case Segment(fill, code, payload) => SegmentBytes(fill, code, payload)
    case Scan(fill, header, data) => SegmentBytes(fill, 0xDA, header) + DataBytes(data)
  }

  function ItemsBytes(items: seq<Item>): seq<Byte>
    requires ValidItems(items)
  {
    if items == [] then [] else ItemsBytes(items[..|items| - 1]) + ItemBytes(items[|items| - 1])
  }

  function ImageBytes(image: Image): seq<Byte>
    requires ValidImage(image)
  {
    [0xFF, 0xD8] + ItemsBytes(image.items) + Fill(image.fill) + [0xD9]
  }

  // ---------- every valid image is read as one ----------

  /** Reading a part of an image; Done only on its very last byte. */
  function Reads(lex: Lex, scans: nat, part: seq<Byte>): LexStep
    decreases |part|
  {
    if part == [] then More(lex, scans)
    else
      match Consume(lex, scans, part[0])
      case Bad => Bad
      case Done => if |part| == 1 then Done else Bad
      case More(lex', scans') => Reads(lex', scans', part[1..])
  }

  lemma {:induction false} ReadsAppend(lex: Lex, scans: nat, a: seq<Byte>, b: seq<Byte>)
    requires Reads(lex, scans, a).More?
    ensures var r := Reads(lex, scans, a);
            Reads(lex, scans, a + b) == Reads(r.lex, r.scans, b)
    decreases |a|
  {
    if a == [] {
      assert a + b == b;
    } else {
      assert (a + b)[1..] == a[1..] + b;
      var step := Consume(lex, scans, a[0]);
      ReadsAppend(step.lex, step.scans, a[1..], b);
    }
  }

  /** Between two items, where a marker or, after a scan, more data may follow. */
  predicate Boundary(lex: Lex, scans: nat) {
    lex.Marker? || (lex.Entropy? && scans > 0)
  }

  function Marking(lex: Lex): Lex {
    if lex.Entropy? then EntropyFF else Lead(0xFF)
  }

  lemma {:induction false} ReadsFill(lex: Lex, scans: nat, n: nat)
    requires Boundary(lex, scans)
    ensures Reads(lex, scans, Fill(n)) == More(Marking(lex), scans)
  {
    if n > 0 {
      ReadsFill(lex, scans, n - 1);
      ReadsAppend(lex, scans, Fill(n - 1), [0xFF]);
    }
  }

  lemma {:induction false} ReadsPayload(lex: Lex, scans: nat, part: seq<Byte>)
    requires lex.Body? && 2 <= lex.seen < lex.length && |part| == lex.length - lex.seen
    ensures Reads(lex, scans, part) == AfterSegment(lex.marker, scans)
    decreases |part|
  {
    if lex.seen + 1 < lex.length {
      ReadsPayload(lex.(seen := lex.seen + 1), scans, part[1..]);
    }
  }

  lemma ReadsSegment(lex: Lex, scans: nat, fill: nat, code: Byte, payload: seq<Byte>)
    requires Boundary(lex, scans) && IsSegmentMarker(code) && |payload| <= MAX_PAYLOAD
    ensures Reads(lex, scans, SegmentBytes(fill, code, payload)) == AfterSegment(code, scans)
  {
    var length := |payload| + 2;
    var high: Byte, low: Byte := length / 256, length % 256;
    assert Length(high, low) == length;
    ReadsFill(lex, scans, fill);
    ReadsAppend(lex, scans, Fill(fill), [code] + LengthBytes(payload) + payload);
    assert SegmentBytes(fill, code, payload) == Fill(fill) + ([code] + LengthBytes(payload) + payload);
    var three := [code, high, low];
    assert [code] + LengthBytes(payload) == three;
    if payload == [] {
      assert three + payload == three;
      assert Reads(Marking(lex), scans, three) == Reads(Length0(code), scans, three[1..]);
      assert Reads(Length0(code), scans, [high, low]) == Reads(Length1(code, high), scans, [high, low][1..]);
      assert Reads(Length1(code, high), scans, [low]) == AfterSegment(code, scans);
    } else {
      assert Reads(Marking(lex), scans, three) == Reads(Length0(code), scans, three[1..]);
      assert Reads(Length0(code), scans, [high, low]) == Reads(Length1(code, high), scans, [high, low][1..]);
      assert Reads(Length1(code, high), scans, [low]) == More(Body(code, length, 2), scans);
      ReadsAppend(Marking(lex), scans, three, payload);
      ReadsPayload(Body(code, length, 2), scans, payload);
    }
  }

  lemma {:induction false} ReadsData(scans: nat, data: seq<Coded>)
    requires scans > 0 && forall i :: 0 <= i < |data| ==> ValidCoded(data[i])
    ensures Reads(Entropy, scans, DataBytes(data)) == More(Entropy, scans)
    decreases |data|
  {
    if data != [] {
      var last := data[|data| - 1];
      ReadsData(scans, data[..|data| - 1]);
      ReadsAppend(Entropy, scans, DataBytes(data[..|data| - 1]), CodedBytes(last));
      if last.Escape? {
        ReadsFill(Entropy, scans, last.fill);
        ReadsAppend(Entropy, scans, Fill(last.fill), [last.code]);
      }
    }
  }

  lemma ReadsItem(lex: Lex, scans: nat, item: Item)
    requires Boundary(lex, scans) && ValidItem(item)
    ensures var r := Reads(lex, scans, ItemBytes(item));
            r.More? && Boundary(r.lex, r.scans) && r.scans == scans + if item.Scan? then 1 else 0
  {
    match item
    case Alone(fill, code) =>
      ReadsFill(lex, scans, fill);
      ReadsAppend(lex, scans, Fill(fill), [code]);
    case Segment(fill, code, payload) =>
      ReadsSegment(lex, scans, fill, code, payload);
    case Scan(fill, header, data) =>
      ReadsSegment(lex, scans, fill, 0xDA, header);
      ReadsAppend(lex, scans, SegmentBytes(fill, 0xDA, header), DataBytes(data));
      ReadsData(scans + 1, data);
  }

  lemma {:induction false} ReadsItems(items: seq<Item>)
    requires ValidItems(items)
    ensures var r := Reads(Marker, 0, ItemsBytes(items));
            r.More? && Boundary(r.lex, r.scans) && r.scans == Scans(items)
    decreases |items|
  {
    if items != [] {
      var front := items[..|items| - 1];
      ReadsItems(front);
      var r := Reads(Marker, 0, ItemsBytes(front));
      ReadsItem(r.lex, r.scans, items[|items| - 1]);
      ReadsAppend(Marker, 0, ItemsBytes(front), ItemBytes(items[|items| - 1]));
    }
  }

  lemma {:induction false} ReadsDone(d: seq<Byte>, i: nat, n: nat, lex: Lex, scans: nat)
    requires i <= n <= |d| && Reads(lex, scans, d[i..n]) == Done
    ensures Read(d, i, lex, scans).Closed? && Read(d, i, lex, scans).end == n
    decreases n - i
  {
    if i < n {
      assert d[i..n][0] == d[i];
      assert d[i..n][1..] == d[i + 1..n];
      var step := Consume(lex, scans, d[i]);
      if step.More? {
        ReadsDone(d, i + 1, n, step.lex, step.scans);
      }
    }
  }

  /** After its SOI, an image reads to its end and no further. */
  lemma ImageReads(image: Image)
    requires ValidImage(image)
    ensures Reads(Marker, 0, ImageBytes(image)[2..]) == Done
  {
    hide Fill, ItemsBytes;
    var body := ItemsBytes(image.items);
    ReadsItems(image.items);
    var r := Reads(Marker, 0, body);
    ReadsFill(r.lex, r.scans, image.fill);
    ReadsAppend(Marker, 0, body, Fill(image.fill));
    ReadsAppend(Marker, 0, body + Fill(image.fill), [0xD9]);
    assert ImageBytes(image)[2..] == body + Fill(image.fill) + [0xD9];
  }

  /** A valid image within the frame bound, after a gap within the gap bound, is emitted whole. */
  lemma ImageEmitted(k: Bounds, s: Stream, gap: seq<Byte>, image: Image, rest: seq<Byte>)
    requires s.phase == Gap(0, false) && NoSoi(gap) && |gap| <= k.maxGap
    requires ValidImage(image) && |ImageBytes(image)| <= k.maxFrame
    ensures Run(k, s, gap + ImageBytes(image) + rest) ==
            Then([ImageBytes(image)],
                 Run(k, s.(largeGaps := s.largeGaps + if |gap| > DEFAULT_MAX_GAP_BYTES then 1 else 0), rest))
  {
    hide Run, Read, Reads, ItemsBytes, Fill, ValidImage;
    var bytes := ImageBytes(image);
    var d := bytes + rest;
    ImageReads(image);
    assert d[2..|bytes|] == bytes[2..];
    ReadsDone(d, 2, |bytes|, Marker, 0);

    var all := gap + bytes + rest;
    assert all[..|gap| + 1] == gap + [0xFF];
    RunFindsSoi(k, s, all, |gap|);
    assert all[|gap| + 2..] == d[2..];
    assert d[..2] == [0xFF, 0xD8];
    var inside := s.(phase := Frame([0xFF, 0xD8], Marker, 0, |gap| > DEFAULT_MAX_GAP_BYTES));
    RunFrame(k, inside, d, 2);
    assert d[..|bytes|] == bytes && d[|bytes|..] == rest;
  }

  ghost predicate Splits(k: Bounds, gaps: seq<seq<Byte>>, images: seq<Image>) {
    && |gaps| == |images|
    && (forall i :: 0 <= i < |gaps| ==> NoSoi(gaps[i]) && |gaps[i]| <= k.maxGap)
    && (forall i :: 0 <= i < |images| ==> ValidImage(images[i]) && |ImageBytes(images[i])| <= k.maxFrame)
  }

  function Interleave(gaps: seq<seq<Byte>>, frames: seq<seq<Byte>>): seq<Byte>
    requires |gaps| == |frames|
  {
    if gaps == [] then [] else gaps[0] + frames[0] + Interleave(gaps[1..], frames[1..])
  }

  function LargeGaps(gaps: seq<seq<Byte>>): nat {
    if gaps == [] then 0 else LargeGaps(gaps[1..]) + if |gaps[0]| > DEFAULT_MAX_GAP_BYTES then 1 else 0
  }

  function AllBytes(images: seq<Image>): (r: seq<seq<Byte>>)
    requires forall i :: 0 <= i < |images| ==> ValidImage(images[i])
    ensures |r| == |images|
  {
    if images == [] then [] else [ImageBytes(images[0])] + AllBytes(images[1..])
  }

  /** A stream of valid images with gaps between them is split into exactly those images. */
  lemma {:induction false} StreamSplitExactly(k: Bounds, s: Stream, gaps: seq<seq<Byte>>, images: seq<Image>, rest: seq<Byte>)
    requires s.phase == Gap(0, false) && Splits(k, gaps, images)
    ensures Run(k, s, Interleave(gaps, AllBytes(images)) + rest) ==
            Then(AllBytes(images), Run(k, s.(largeGaps := s.largeGaps + LargeGaps(gaps)), rest))
    decreases |images|
  {
    hide Run, ImageBytes, ValidImage;
    if images == [] {
      assert Interleave(gaps, AllBytes(images)) + rest == rest;
      ThenThen([], [], Run(k, s, rest));
    } else {
      var later := Interleave(gaps[1..], AllBytes(images[1..]));
      var first := ImageBytes(images[0]);
      assert AllBytes(images)[1..] == AllBytes(images[1..]);
      assert Interleave(gaps, AllBytes(images)) + rest == gaps[0] + first + (later + rest);
      ImageEmitted(k, s, gaps[0], images[0], later + rest);
      var s' := s.(largeGaps := s.largeGaps + if |gaps[0]| > DEFAULT_MAX_GAP_BYTES then 1 else 0);
      assert Splits(k, gaps[1..], images[1..]);
      StreamSplitExactly(k, s', gaps[1..], images[1..], rest);
      ThenThen([first], AllBytes(images[1..]), Run(k, s.(largeGaps := s.largeGaps + LargeGaps(gaps)), rest));
    }
  }

  // ---------- every emitted frame is a valid image ----------

  /** The unfinished item at the end of an open image. */
  datatype Partial =
    | Nothing
    | Stray(byte: Byte)
    | Filling(fill: nat)
    | Marked(fill: nat, code: Byte)
    | Half(fill: nat, code: Byte, high: Byte)
    | Filled(fill: nat, code: Byte, high: Byte, low: Byte, payload: seq<Byte>)

  function PartialBytes(p: Partial): seq<Byte> {
    match p
    case Nothing => []
    case Stray(b) => [b]
    case Filling(n) => Fill(n)
    case Marked(n, code) => Fill(n) + [code]
    case Half(n, code, high) => Fill(n) + [code, high]
    case Filled(n, code, high, low, payload) => Fill(n) + [code, high, low] + payload
  }

  predicate Matches(lex: Lex, scans: nat, items: seq<Item>, p: Partial) {
    && ValidItems(items) && scans == Scans(items)
    && match lex {
         case Marker => p == Nothing
         case Lead(b) => if b == 0xFF then p.Filling? else p == Stray(b)
         case Length0(m) => p.Marked? && p.code == m && IsSegmentMarker(m)
         case Length1(m, high) => p.Half? && p.code == m && p.high == high && IsSegmentMarker(m)
         case Body(m, length, seen) =>
           && p.Filled? && p.code == m && Length(p.high, p.low) == length && IsSegmentMarker(m)
           && 2 <= seen < length && |p.payload| == seen - 2
         case Entropy => p == Nothing && items != [] && items[|items| - 1].Scan?
         case EntropyFF => p.Filling? && items != [] && items[|items| - 1].Scan?
       }
  }

  lemma PushItem(items: seq<Item>, item: Item)
    requires ValidItems(items) && ValidItem(item)
    ensures ValidItems(items + [item])
    ensures ItemsBytes(items + [item]) == ItemsBytes(items) + ItemBytes(item)
    ensures Scans(items + [item]) == Scans(items) + if item.Scan? then 1 else 0
  {
    assert (items + [item])[..|items|] == items;
  }

  /** One more element of data for the scan at the end. */
  lemma PushCoded(items: seq<Item>, c: Coded) returns (items': seq<Item>)
    requires ValidItems(items) && items != [] && items[|items| - 1].Scan? && ValidCoded(c)
    ensures ValidItems(items') && Scans(items') == Scans(items) && items' != [] && items'[|items'| - 1].Scan?
    ensures ItemsBytes(items') == ItemsBytes(items) + CodedBytes(c)
  {
    hide Fill, SegmentBytes, CodedBytes;
    var front, last := items[..|items| - 1], items[|items| - 1];
    var longer := last.(data := last.data + [c]);
    assert longer.data[..|last.data|] == last.data;
    assert forall i :: 0 <= i < |longer.data| ==> ValidCoded(longer.data[i]);
    assert ItemBytes(longer) == ItemBytes(last) + CodedBytes(c) by {
      var segment := SegmentBytes(last.fill, 0xDA, last.header);
      assert segment + (DataBytes(last.data) + CodedBytes(c)) == (segment + DataBytes(last.data)) + CodedBytes(c);
    }
    PushItem(front, longer);
    items' := front + [longer];
    assert ItemsBytes(front) + (ItemBytes(last) + CodedBytes(c)) == (ItemsBytes(front) + ItemBytes(last)) + CodedBytes(c);
  }

  /** A segment whose last byte has arrived is an item. */
  lemma PushSegment(items: seq<Item>, fill: nat, code: Byte, high: Byte, low: Byte, payload: seq<Byte>)
    returns (items': seq<Item>)
    requires ValidItems(items) && IsSegmentMarker(code) && Length(high, low) == |payload| + 2
    ensures ItemsOf(items', AfterSegment(code, Scans(items)))
    ensures ItemsBytes(items') == ItemsBytes(items) + (Fill(fill) + [code, high, low] + payload)
  {
    var item := if code == 0xDA then Scan(fill, payload, []) else Segment(fill, code, payload);
    assert LengthBytes(payload) == [high, low];
    assert [code] + [high, low] == [code, high, low];
    assert Fill(fill) + [code] + [high, low] + payload == Fill(fill) + [code, high, low] + payload;
    assert ItemBytes(item) == Fill(fill) + [code, high, low] + payload;
    PushItem(items, item);
    items' := items + [item];
  }

  predicate ItemsOf(items: seq<Item>, step: LexStep)
    requires step.More?
  {
    Matches(step.lex, step.scans, items, Nothing)
  }

  /** The byte after a marker's 0xFF. */
  lemma ExplainMarkerByte(lex: Lex, scans: nat, items: seq<Item>, fill: nat, b: Byte)
    returns (items': seq<Item>, p': Partial)
    requires (lex == Lead(0xFF) || lex.EntropyFF?) && Matches(lex, scans, items, Filling(fill))
    requires Consume(lex, scans, b).More?
    ensures var step := Consume(lex, scans, b); Matches(step.lex, step.scans, items', p')
    ensures ItemsBytes(items') + PartialBytes(p') == ItemsBytes(items) + Fill(fill) + [b]
  {
    hide ItemsBytes, Scans;
    items', p' := items, Nothing;
    if b == 0xFF {
      p' := Filling(fill + 1);
      assert Fill(fill + 1) == Fill(fill) + [b];
    } else if lex.EntropyFF? && (b == 0x00 || IsRestart(b)) {
      items' := PushCoded(items, Escape(fill, b));
    } else if IsStandalone(b) {
      PushItem(items, Alone(fill, b));
      items' := items + [Alone(fill, b)];
    } else {
      p' := Marked(fill, b);
    }
    assert ItemsBytes(items) + (Fill(fill) + [b]) == ItemsBytes(items) + Fill(fill) + [b];
  }

  lemma FirstFill(items: seq<Item>)
    requires ValidItems(items)
    ensures ItemsBytes(items) + PartialBytes(Filling(0)) == ItemsBytes(items) + PartialBytes(Nothing) + [0xFF]
  {
  }

  /** Whatever an open image has read so far stays explained by the grammar. */
  lemma ExplainByte(lex: Lex, scans: nat, items: seq<Item>, p: Partial, b: Byte)
    returns (items': seq<Item>, p': Partial)
    requires Matches(lex, scans, items, p) && Consume(lex, scans, b).More?
    ensures var step := Consume(lex, scans, b); Matches(step.lex, step.scans, items', p')
    ensures ItemsBytes(items') + PartialBytes(p') == ItemsBytes(items) + PartialBytes(p) + [b]
  {
    hide ItemsBytes, Scans, Fill;
    items', p' := items, Nothing;
    var sofar := ItemsBytes(items);
    match lex
    case Marker =>
      FirstFill(items);
      p' := if b == 0xFF then Filling(0) else Stray(b);
    case Lead(_) =>
      items', p' := ExplainMarkerByte(lex, scans, items, p.fill, b);
    case EntropyFF =>
      items', p' := ExplainMarkerByte(lex, scans, items, p.fill, b);
    case Entropy =>
      FirstFill(items);
      if b == 0xFF {
        p' := Filling(0);
      } else {
        items' := PushCoded(items, Plain(b));
      }
    case Length0(m) =>
      p' := Half(p.fill, m, b);
      assert sofar + (Fill(p.fill) + [m, b]) == sofar + (Fill(p.fill) + [m]) + [b];
    case Length1(m, high) =>
      assert sofar + (Fill(p.fill) + [m, high, b]) == sofar + (Fill(p.fill) + [m, high]) + [b];
      assert Fill(p.fill) + [m, high, b] + [] == Fill(p.fill) + [m, high, b];
      if Length(high, b) == 2 {
        items' := PushSegment(items, p.fill, m, high, b, []);
      } else {
        p' := Filled(p.fill, m, high, b, []);
      }
    case Body(m, length, seen) =>
      var longer := p.payload + [b];
      var head := Fill(p.fill) + [m, p.high, p.low];
      assert sofar + (head + longer) == sofar + (head + p.payload) + [b];
      if seen + 1 == length {
        items' := PushSegment(items, p.fill, m, p.high, p.low, longer);
      } else {
        p' := p.(payload := longer);
      }
  }

  ghost predicate IsImage(d: seq<Byte>) {
    exists image :: ValidImage(image) && d == ImageBytes(image)
  }

  /** The bytes of an open image are explained by the grammar. */
  ghost predicate Explained(s: Stream) {
    s.phase.Frame? ==>
      exists items, p :: Matches(s.phase.lex, s.phase.scans, items, p)
                         && s.phase.bytes == [0xFF, 0xD8] + ItemsBytes(items) + PartialBytes(p)
  }

  /** An image that ends is one of the grammar's. */
  lemma ExplainEnd(lex: Lex, scans: nat, items: seq<Item>, p: Partial, b: Byte)
    requires Matches(lex, scans, items, p) && Consume(lex, scans, b) == Done
    ensures IsImage([0xFF, 0xD8] + ItemsBytes(items) + PartialBytes(p) + [b])
  {
    hide Fill, ItemsBytes;
    var image := Image(items, p.fill);
    assert ImageBytes(image) == [0xFF, 0xD8] + ItemsBytes(items) + PartialBytes(p) + [b];
  }

  lemma StepExplained(k: Bounds, s: Stream, b: Byte)
    requires Explained(s) && Step(k, s, b).Parsed?
    ensures Explained(Step(k, s, b).state)
    ensures forall f :: f in Step(k, s, b).frames ==> IsImage(f) && |f| <= k.maxFrame
  {
    hide PartialBytes, ItemsBytes, Consume, IsImage;
    match s.phase
    case Gap(_, _) =>
      if Step(k, s, b).state.phase.Frame? {
        ExplainStart();
      }
    case Frame(bytes, lex, scans, _) =>
      var items, p :| Matches(lex, scans, items, p) && bytes == [0xFF, 0xD8] + ItemsBytes(items) + PartialBytes(p);
      var step := Consume(lex, scans, b);
      if step.More? {
        var items', p' := ExplainByte(lex, scans, items, p, b);
        Regroup([0xFF, 0xD8], ItemsBytes(items), PartialBytes(p), [b], ItemsBytes(items'), PartialBytes(p'));
      } else {
        ExplainEnd(lex, scans, items, p, b);
      }
  }

  lemma ExplainStart()
    ensures Matches(Marker, 0, [], Nothing)
    ensures [0xFF, 0xD8] + ItemsBytes([]) + PartialBytes(Nothing) == [0xFF, 0xD8]
  {
  }

  lemma Regroup(z: seq<Byte>, x: seq<Byte>, y: seq<Byte>, b: seq<Byte>, x': seq<Byte>, y': seq<Byte>)
    requires x' + y' == x + y + b
    ensures z + x + y + b == z + x' + y'
  {
    assert z + x + y + b == z + (x + y + b);
    assert z + x' + y' == z + (x' + y');
  }

  /** Every frame the parser emits, on any input, is a valid image within the bound. */
  lemma {:induction false} FramesAreImages(k: Bounds, s: Stream, data: seq<Byte>)
    requires Explained(s) && Run(k, s, data).Parsed?
    ensures Explained(Run(k, s, data).state)
    ensures forall f :: f in Run(k, s, data).frames ==> IsImage(f) && |f| <= k.maxFrame
    decreases |data|
  {
    if data != [] {
      StepExplained(k, s, data[0]);
      FramesAreImages(k, Step(k, s, data[0]).state, data[1..]);
    }
  }

  // ---------- nothing is lost ----------

  /** The bytes skipped before each frame, and after the last one. */
  ghost predicate Accounts(k: Bounds, data: seq<Byte>, gaps: seq<seq<Byte>>, last: seq<Byte>, r: Outcome) {
    && r.Parsed? && |gaps| == |r.frames|
    && data == Interleave(gaps, r.frames) + last + Held(r.state)
    && (r.state.phase.Gap? ==> |last| == r.state.phase.skipped)
    && (r.state.phase.Gap? && !r.state.phase.pending && last != [] ==> last[|last| - 1] != 0xFF)
    && (forall i :: 0 <= i < |gaps| ==> NoSoi(gaps[i]) && |gaps[i]| <= k.maxGap)
    && NoSoi(if r.state.phase.Gap? then last + Held(r.state) else last) && |last| <= k.maxGap
  }

  lemma {:induction false} InterleavePush(gaps: seq<seq<Byte>>, frames: seq<seq<Byte>>, gap: seq<Byte>, frame: seq<Byte>)
    requires |gaps| == |frames|
    ensures Interleave(gaps + [gap], frames + [frame]) == Interleave(gaps, frames) + gap + frame
    decreases |gaps|
  {
    if gaps != [] {
      assert (gaps + [gap])[1..] == gaps[1..] + [gap] && (frames + [frame])[1..] == frames[1..] + [frame];
      InterleavePush(gaps[1..], frames[1..], gap, frame);
    } else {
      assert gaps + [gap] == [gap] && frames + [frame] == [frame];
    }
  }

  /** Bytes between images extend the last gap; an SOI closes it. */
  lemma AccountsGap(k: Bounds, data: seq<Byte>, gaps: seq<seq<Byte>>, last: seq<Byte>, r: Outcome, b: Byte)
    returns (last': seq<Byte>)
    requires Accounts(k, data, gaps, last, r) && r.state.phase.Gap? && Step(k, r.state, b).Parsed?
    ensures Accounts(k, data + [b], gaps, last', Parsed(Step(k, r.state, b).state, r.frames))
  {
    hide Interleave;
    var s, step := r.state, Step(k, r.state, b);
    var done := Interleave(gaps, r.frames);
    last' := last;
    if s.phase.pending && b == 0xD8 {
      assert done + last + [0xFF] + [b] == done + last + [0xFF, 0xD8];
      NoSoiPrefix(last, [0xFF]);
    } else {
      GapGrows(last, s.phase.pending, b);
      last' := last + (if s.phase.pending then [0xFF] else []) + (if b == 0xFF then [] else [b]);
      assert done + last + Held(s) + [b] == done + last' + Held(step.state);
    }
  }

  /** Bytes of an image are held until it ends. */
  lemma AccountsFrame(k: Bounds, data: seq<Byte>, gaps: seq<seq<Byte>>, last: seq<Byte>, r: Outcome, b: Byte)
    returns (gaps': seq<seq<Byte>>, last': seq<Byte>)
    requires Accounts(k, data, gaps, last, r) && r.state.phase.Frame? && Step(k, r.state, b).Parsed?
    ensures var step := Step(k, r.state, b);
            Accounts(k, data + [b], gaps', last', Parsed(step.state, r.frames + step.frames))
  {
    hide Interleave, Consume, NoSoi;
    var bytes, step := r.state.phase.bytes, Step(k, r.state, b);
    var done := Interleave(gaps, r.frames);
    gaps', last' := gaps, last;
    assert done + last + bytes + [b] == done + last + (bytes + [b]);
    if step.frames == [] {
      assert r.frames + step.frames == r.frames;
    } else {
      InterleavePush(gaps, r.frames, last, bytes + [b]);
      EmptyGap();
      gaps', last' := gaps + [last], [];
      assert done + last + (bytes + [b]) == Interleave(gaps', r.frames + step.frames) + last' + [];
    }
  }

  lemma EmptyGap()
    ensures NoSoi([] + Held(START))
  {
  }

  /** Gaps, frames and what is still held concatenate back to the input. */
  lemma {:induction false} StreamConserved(k: Bounds, data: seq<Byte>) returns (gaps: seq<seq<Byte>>, last: seq<Byte>)
    requires Run(k, START, data).Parsed?
    ensures Accounts(k, data, gaps, last, Run(k, START, data))
    decreases |data|
  {
    if data == [] {
      gaps, last := [], [];
    } else {
      var front, b := data[..|data| - 1], data[|data| - 1];
      assert data == front + [b];
      RunSnoc(k, START, front, b);
      gaps, last := StreamConserved(k, front);
      var r := Run(k, START, front);
      if r.state.phase.Gap? {
        last := AccountsGap(k, front, gaps, last, r, b);
        assert r.frames + Step(k, r.state, b).frames == r.frames;
      } else {
        gaps, last := AccountsFrame(k, front, gaps, last, r, b);
      }
    }
  }

  lemma NoSoiPrefix(a: seq<Byte>, b: seq<Byte>)
    requires NoSoi(a + b)
    ensures NoSoi(a)
  {
    forall j | 0 <= j < |a| - 1
      ensures !(a[j] == 0xFF && a[j + 1] == 0xD8)
    {
      assert (a + b)[j] == a[j] && (a + b)[j + 1] == a[j + 1];
    }
  }

  /** A gap stays without an SOI as long as none completes. */
  lemma GapGrows(last: seq<Byte>, pending: bool, b: Byte)
    requires NoSoi(last + if pending then [0xFF] else []) && !(pending && b == 0xD8)
    requires !pending ==> last != [] ==> last[|last| - 1] != 0xFF
    ensures var grown := last + (if pending then [0xFF] else []) + (if b == 0xFF then [] else [b]);
            NoSoi(grown + if b == 0xFF then [0xFF] else [])
  {
    var whole := last + (if pending then [0xFF] else []);
    var grown := whole + (if b == 0xFF then [] else [b]);
    assert grown + (if b == 0xFF then [0xFF] else []) == whole + [b];
    forall j | 0 <= j < |whole + [b]| - 1
      ensures !((whole + [b])[j] == 0xFF && (whole + [b])[j + 1] == 0xD8)
    {
      if j + 1 < |whole| {
        assert (whole + [b])[j] == whole[j] && (whole + [b])[j + 1] == whole[j + 1];
      } else if pending {
        assert whole[|whole| - 1] == 0xFF;
      } else {
        assert whole == last;
      }
    }
  }
}
