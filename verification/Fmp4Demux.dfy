/** Fragmented MP4: the streaming box parser and the extraction of frames from movie fragments. */
module Fmp4Demux {
  import opened Bytes

  type BoxType = seq<byte>

  const FTYP: BoxType := [0x66, 0x74, 0x79, 0x70]
  const STYP: BoxType := [0x73, 0x74, 0x79, 0x70]
  const SIDX: BoxType := [0x73, 0x69, 0x64, 0x78]
  const FREE: BoxType := [0x66, 0x72, 0x65, 0x65]
  const SKIP: BoxType := [0x73, 0x6B, 0x69, 0x70]
  const MOOV: BoxType := [0x6D, 0x6F, 0x6F, 0x76]
  const MOOF: BoxType := [0x6D, 0x6F, 0x6F, 0x66]
  const MDAT: BoxType := [0x6D, 0x64, 0x61, 0x74]
  const MFHD: BoxType := [0x6D, 0x66, 0x68, 0x64]
  const TRAF: BoxType := [0x74, 0x72, 0x61, 0x66]
  const TFHD: BoxType := [0x74, 0x66, 0x68, 0x64]
  const TFDT: BoxType := [0x74, 0x66, 0x64, 0x74]
  const TRUN: BoxType := [0x74, 0x72, 0x75, 0x6E]

  datatype Track = Track(trackId: u32, isVideo: bool, timescale: u32)

  datatype Diagnostic =
    | MalformedBox(boxType: BoxType, size: u64, headerSize: nat)
    | BoxTooLarge(boxType: BoxType, size: u64)
    | UnknownBox(boxType: BoxType)
    | MdatOverflow(trackId: u32)
    | TrackIdNotFound(trackId: u32)
    | RepeatedInit

  datatype Event =
    | TrackInfo(tracks: seq<Track>)
    | Frame(trackId: u32, isVideo: bool, ptsUs: int, dtsUs: int, keyframe: bool, data: seq<byte>)
    | Diag(diagnostic: Diagnostic)

  // ---------- Box headers ----------

  /** The declared size of the box at the front and the length of its header; size 0 when it is not known. */
  function ReadBoxHeader(buf: seq<byte>): (r: (u64, nat))
    ensures r.1 == 8 || r.1 == 16 || r == (0, 0)
  {
    if |buf| < 8 then (0, 0)
    else
      var size32 := ReadBe32(buf, 0);
      if size32 == 1 then
        if |buf| < 16 then (0, 0) else (ReadBe64(buf, 8), 16)
      else (size32, 8)
  }

  /** What stands at the front of the buffer. */
  datatype Front =
    | Wait
    | Malformed(boxType: BoxType, size: u64, headerSize: nat)
    | Oversized(boxType: BoxType, size: u64)
    | Whole(boxType: BoxType, size: u64, headerSize: nat)

  function NextBox(buf: seq<byte>, max: nat): (f: Front)
    ensures f.Malformed? ==> 8 <= f.headerSize <= |buf|
    ensures f.Oversized? ==> f.size >= 8
    ensures f.Whole? ==> 8 <= f.headerSize <= f.size <= |buf|
  {
    var (size, headerSize) := ReadBoxHeader(buf);
    if size == 0 || headerSize > |buf| then Wait
    else if size < headerSize then Malformed(buf[4..8], size, headerSize)
    else if size > max then Oversized(buf[4..8], size)
    else if |buf| < size then Wait
    else Whole(buf[4..8], size, headerSize)
  }

  /** What the top-level parser hands on. */
  datatype Item =
    | BoxItem(boxType: BoxType, content: seq<byte>)
    | Notice(diagnostic: Diagnostic)

  /** All items at the front, the unconsumed rest, and how much of an oversized box is still to be skipped. */
  datatype Scan = Scan(items: seq<Item>, rest: seq<byte>, skip: nat)

  function ScanBoxes(buf: seq<byte>, max: nat): Scan
    decreases |buf|
  {
    match NextBox(buf, max)
    case Wait => Scan([], buf, 0)
    case Malformed(boxType, size, headerSize) =>
      var later := ScanBoxes(buf[headerSize..], max);
      later.(items := [Notice(MalformedBox(boxType, size, headerSize))] + later.items)
    case Oversized(boxType, size) =>
      if size <= |buf| then
        var later := ScanBoxes(buf[size..], max);
        later.(items := [Notice(BoxTooLarge(boxType, size))] + later.items)
      else Scan([Notice(BoxTooLarge(boxType, size))], [], size - |buf|)
    case Whole(boxType, size, headerSize) =>
      var later := ScanBoxes(buf[size..], max);
      later.(items := [BoxItem(boxType, buf[headerSize..size])] + later.items)
  }

  /** Bytes still to be skipped are dropped first. */
  function Resume(skip: nat, buf: seq<byte>, max: nat): Scan {
    if skip > |buf| then Scan([], [], skip - |buf|) else ScanBoxes(buf[skip..], max)
  }

  // ---------- Child boxes ----------

  /** The complete child boxes from `offset` on, up to the first that is cut off or too small. */
  function ChildBoxes(data: seq<byte>, offset: nat): seq<(BoxType, seq<byte>)>
    decreases |data| - offset
  {
    if offset + 8 > |data| then []
    else
      var (size, headerSize) := ReadBoxHeader(data[offset..]);
      if size < 8 || size < headerSize || offset + size > |data| then []
      else [(data[offset + 4..offset + 8], data[offset + headerSize..offset + size])] + ChildBoxes(data, offset + size)
  }

  // ---------- Track runs ----------

  datatype TrunSample = TrunSample(duration: u32, size: u32, flags: u32, ctsOffset: int)

  function ReadI32(s: seq<byte>, at: nat): int
    requires at + 4 <= |s|
  {
    Signed32(ReadBe32(s, at))
  }

  /** Whether bit `bit` (a power of two) of the flags is set. */
  predicate HasFlag(flags: nat, bit: nat)
    requires bit > 0
  {
    flags / bit % 2 == 1
  }

  /** Bytes one sample entry takes. */
  function EntrySize(flags: nat): nat {
    4 * ((if HasFlag(flags, 0x100) then 1 else 0) + (if HasFlag(flags, 0x200) then 1 else 0)
         + (if HasFlag(flags, 0x400) then 1 else 0) + (if HasFlag(flags, 0x800) then 1 else 0))
  }

  /** The sample entry at `pos`; fields that are absent read as zero, the first sample may take its flags from
      the run. */
  function EntryAt(data: seq<byte>, pos: nat, flags: nat, firstFlags: u32, isFirst: bool): TrunSample
    requires pos + EntrySize(flags) <= |data|
  {
    var p1 := pos + if HasFlag(flags, 0x100) then 4 else 0;
    var p2 := p1 + if HasFlag(flags, 0x200) then 4 else 0;
    var p3 := p2 + if HasFlag(flags, 0x400) then 4 else 0;
    TrunSample(
      if HasFlag(flags, 0x100) then ReadBe32(data, pos) else 0,
      if HasFlag(flags, 0x200) then ReadBe32(data, p1) else 0,
      if HasFlag(flags, 0x400) then ReadBe32(data, p2) else if isFirst then firstFlags else 0,
      if HasFlag(flags, 0x800) then ReadI32(data, p3) else 0)
  }

  /** Up to `count` entries, as many as are complete. */
  function Entries(data: seq<byte>, pos: nat, flags: nat, firstFlags: u32, isFirst: bool, count: nat): seq<TrunSample>
    decreases count
  {
    if count == 0 || pos + EntrySize(flags) > |data| then []
    else
      [EntryAt(data, pos, flags, firstFlags, isFirst)]
      + Entries(data, pos + EntrySize(flags), flags, firstFlags, false, count - 1)
  }

  /** The data offset and the samples of a track run box. */
  function ParseTrun(data: seq<byte>): (int, seq<TrunSample>) {
    if |data| < 8 then (0, [])
    else
      var flags: nat := ReadBe32(data, 0) % 0x100_0000;
      var count := ReadBe32(data, 4);
      var p1 := 8 + if HasFlag(flags, 0x1) then 4 else 0;
      if p1 > |data| then (0, [])
      else
        var dataOffset := if HasFlag(flags, 0x1) then ReadI32(data, 8) else 0;
        var p2 := p1 + if HasFlag(flags, 0x4) then 4 else 0;
        if p2 > |data| then (dataOffset, [])
        else
          var firstFlags := if HasFlag(flags, 0x4) then ReadBe32(data, p1) else 0;
          (dataOffset, Entries(data, p2, flags, firstFlags, true, count))
  }

  datatype TrafFields = TrafFields(trackId: u32, baseDecodeTime: u64, dataOffset: int, samples: seq<TrunSample>)

  const NO_FIELDS := TrafFields(0, 0, 0, [])

  function TakeChild(fields: TrafFields, child: (BoxType, seq<byte>)): TrafFields {
    var (boxType, inner) := child;
    if |inner| < 8 then fields
    else if boxType == TFHD then fields.(trackId := ReadBe32(inner, 4))
    else if boxType == TFDT then
      fields.(baseDecodeTime := if inner[0] == 1 && |inner| >= 12 then ReadBe64(inner, 4) else ReadBe32(inner, 4))
    else if boxType == TRUN then
      var (dataOffset, samples) := ParseTrun(inner);
      fields.(dataOffset := dataOffset, samples := samples)
    else fields
  }

  function TakeChildren(fields: TrafFields, children: seq<(BoxType, seq<byte>)>): TrafFields
    decreases |children|
  {
    if children == [] then fields else TakeChildren(TakeChild(fields, children[0]), children[1..])
  }

  /** A sample is a key frame when it depends on no other, or when nothing is said and it is a sync sample. */
  predicate IsKeyframeFlags(flags: u32) {
    var dependsOn := flags / 0x100_0000 % 4;
    var isNonSync := flags / 0x1_0000 % 2;
    dependsOn == 2 || (dependsOn == 0 && isNonSync == 0)
  }

  function TimescaleToUs(ticks: int, timescale: u32): int {
    if timescale == 0 then 0
    else
      var q := TruncDiv(ticks, timescale);
      q * 1_000_000 + TruncDiv((ticks - q * timescale) * 1_000_000, timescale)
  }

  function FrameOf(track: Track, s: TrunSample, data: seq<byte>, dts: nat): Event {
    Frame(track.trackId, track.isVideo,
          TimescaleToUs(Wrap64(dts + s.ctsOffset), track.timescale), TimescaleToUs(Wrap64(dts), track.timescale),
          IsKeyframeFlags(s.flags), data)
  }

  /** One frame per sample, cut from `mdat` one after the other, until a sample would reach beyond its end. */
  function CutFrames(track: Track, samples: seq<TrunSample>, mdat: seq<byte>, offset: nat, dts: nat): seq<Event>
    decreases |samples|
  {
    if samples == [] then []
    else
      var s := samples[0];
      if offset + s.size > |mdat| then [Diag(MdatOverflow(track.trackId))]
      else
        [FrameOf(track, s, mdat[offset..offset + s.size], dts)]
        + CutFrames(track, samples[1..], mdat, offset + s.size, dts + s.duration)
  }

  function FindTrack(tracks: seq<Track>, id: u32): Option<Track> {
    if tracks == [] then None else if tracks[0].trackId == id then Some(tracks[0]) else FindTrack(tracks[1..], id)
  }

  function ParseTraf(tracks: seq<Track>, data: seq<byte>, mdat: seq<byte>, moofBoxSize: nat): seq<Event> {
    var f := TakeChildren(NO_FIELDS, ChildBoxes(data, 0));
    match FindTrack(tracks, f.trackId)
    case None => [Diag(TrackIdNotFound(f.trackId))]
    case Some(track) =>
      CutFrames(track, f.samples, mdat, if f.dataOffset > 0 then Max(f.dataOffset - (moofBoxSize + 8), 0) else 0,
                f.baseDecodeTime)
  }

  function TrafEvents(tracks: seq<Track>, children: seq<(BoxType, seq<byte>)>, mdat: seq<byte>,
                      moofBoxSize: nat): seq<Event>
    decreases |children|
  {
    if children == [] then []
    else
      (if children[0].0 == TRAF then ParseTraf(tracks, children[0].1, mdat, moofBoxSize) else [])
      + TrafEvents(tracks, children[1..], mdat, moofBoxSize)
  }

  function ExtractFrames(tracks: seq<Track>, moof: seq<byte>, mdat: seq<byte>): seq<Event> {
    TrafEvents(tracks, ChildBoxes(moof, 0), mdat, |moof| + 8)
  }

  // ---------- Top-level boxes ----------

  datatype Boxes = Boxes(tracks: seq<Track>, initParsed: bool, pendingMoof: Option<seq<byte>>)

  datatype BoxStep = BoxStep(boxes: Boxes, events: seq<Event>)

  /** What one item does; `parseMoov` lists the tracks of a movie box. */
  function TakeItem(b: Boxes, item: Item, parseMoov: seq<byte> -> seq<Track>): BoxStep {
    match item
    case Notice(d) => BoxStep(b, [Diag(d)])
    case BoxItem(boxType, content) =>
      if boxType in [FTYP, STYP, SIDX, FREE, SKIP] then BoxStep(b, [])
      else if boxType == MOOV then
        var tracks := (if b.initParsed then [] else b.tracks) + parseMoov(content);
        BoxStep(b.(tracks := tracks, initParsed := true),
                (if b.initParsed then [Diag(RepeatedInit)] else []) + [TrackInfo(tracks)])
      else if boxType == MOOF then BoxStep(b.(pendingMoof := Some(content)), [])
      else if boxType == MDAT then
        BoxStep(b.(pendingMoof := None),
                if b.pendingMoof.Some? then ExtractFrames(b.tracks, b.pendingMoof.value, content) else [])
      else BoxStep(b, [Diag(UnknownBox(boxType))])
  }

  function TakeItems(b: Boxes, items: seq<Item>, parseMoov: seq<byte> -> seq<Track>): BoxStep
    decreases |items|
  {
    if items == [] then BoxStep(b, [])
    else
      var first := TakeItem(b, items[0], parseMoov);
      var later := TakeItems(first.boxes, items[1..], parseMoov);
      BoxStep(later.boxes, first.events + later.events)
  }

  // ---------- The demuxer ----------

  datatype State = State(buffer: seq<byte>, skipRemaining: nat, boxes: Boxes)

  datatype Pushed = Pushed(state: State, events: seq<Event>)

  /** While part of an oversized box is still to be skipped, nothing is buffered. */
  ghost predicate Valid(s: State) {
    s.skipRemaining > 0 ==> s.buffer == []
  }

  function Push(s: State, data: seq<byte>, max: nat, parseMoov: seq<byte> -> seq<Track>): Pushed {
    var scan := Resume(s.skipRemaining, s.buffer + data, max);
    var step := TakeItems(s.boxes, scan.items, parseMoov);
    Pushed(State(scan.rest, scan.skip, step.boxes), step.events)
  }

  lemma {:induction false} TakeItemsConcat(b: Boxes, x: seq<Item>, y: seq<Item>, parseMoov: seq<byte> -> seq<Track>)
    ensures var first := TakeItems(b, x, parseMoov);
            var second := TakeItems(first.boxes, y, parseMoov);
            TakeItems(b, x + y, parseMoov) == BoxStep(second.boxes, first.events + second.events)
    decreases |x|
  {
    hide TakeItem;
    if x == [] {
      assert x + y == y;
    } else {
      assert (x + y)[0] == x[0] && (x + y)[1..] == x[1..] + y;
      TakeItemsConcat(TakeItem(b, x[0], parseMoov).boxes, x[1..], y, parseMoov);
    }
  }

  lemma NextBoxContinues(x: seq<byte>, y: seq<byte>, max: nat)
    requires !NextBox(x, max).Wait?
    ensures NextBox(x + y, max) == NextBox(x, max)
  {
    assert (x + y)[4..8] == x[4..8];
    assert ReadBe32(x + y, 0) == ReadBe32(x, 0);
    if |x| >= 16 {
      assert ReadBe64(x + y, 8) == ReadBe64(x, 8);
    }
  }

  /** Scanning more bytes continues where the scan stopped, whatever the bytes are. */
  lemma {:induction false} ScanContinues(x: seq<byte>, y: seq<byte>, max: nat)
    ensures var first := ScanBoxes(x, max);
            var second := Resume(first.skip, first.rest + y, max);
            ScanBoxes(x + y, max) == Scan(first.items + second.items, second.rest, second.skip)
    decreases |x|
  {
    hide NextBox;
    var front := NextBox(x, max);
    if front.Wait? {
      assert x + y == (x + y)[0..];
      assert [] + ScanBoxes(x + y, max).items == ScanBoxes(x + y, max).items;
    } else {
      NextBoxContinues(x, y, max);
      if front.Oversized? && front.size > |x| {
        ScanSkips(x, y, max, front.boxType, front.size);
      } else {
        var cut := if front.Malformed? then front.headerSize else front.size;
        ScanContinuesAfter(x, y, max, cut);
      }
    }
  }

  /** The next box ends within `x`. */
  lemma ScanContinuesAfter(x: seq<byte>, y: seq<byte>, max: nat, cut: nat)
    requires !NextBox(x, max).Wait? && NextBox(x + y, max) == NextBox(x, max) && 0 < cut <= |x|
    requires cut == if NextBox(x, max).Malformed? then NextBox(x, max).headerSize else NextBox(x, max).size
    ensures var first := ScanBoxes(x, max);
            var second := Resume(first.skip, first.rest + y, max);
            ScanBoxes(x + y, max) == Scan(first.items + second.items, second.rest, second.skip)
    decreases |x|, 0
  {
    hide NextBox, Resume, ScanBoxes;
    var front := NextBox(x, max);
    ScanContinues(x[cut..], y, max);
    assert (x + y)[cut..] == x[cut..] + y;
    if front.Whole? {
      assert (x + y)[front.headerSize..front.size] == x[front.headerSize..front.size];
    }
    var head := if front.Malformed? then Notice(MalformedBox(front.boxType, front.size, front.headerSize))
                else if front.Oversized? then Notice(BoxTooLarge(front.boxType, front.size))
                else BoxItem(front.boxType, x[front.headerSize..front.size]);
    ScanFollows(x, max, front);
    ScanFollows(x + y, max, front);
    var first, later := ScanBoxes(x, max), ScanBoxes(x[cut..], max);
    assert first == Scan([head] + later.items, later.rest, later.skip);
    var second := Resume(first.skip, first.rest + y, max);
    assert [head] + (later.items + second.items) == first.items + second.items;
  }

  lemma ScanSkips(x: seq<byte>, y: seq<byte>, max: nat, boxType: BoxType, size: u64)
    requires NextBox(x, max) == NextBox(x + y, max) == Oversized(boxType, size) && size > |x|
    ensures var first := ScanBoxes(x, max);
            var second := Resume(first.skip, first.rest + y, max);
            ScanBoxes(x + y, max) == Scan(first.items + second.items, second.rest, second.skip)
  {
    hide NextBox;
    assert [] + y == y;
    if size <= |x + y| {
      assert (x + y)[size..] == y[size - |x|..];
    }
  }

  /** Pushing keeps nothing buffered while skipping. */
  lemma {:induction false} ScanSkipsOnlyWhenEmpty(buf: seq<byte>, max: nat)
    ensures ScanBoxes(buf, max).skip > 0 ==> ScanBoxes(buf, max).rest == []
    decreases |buf|
  {
    hide NextBox;
    var front := NextBox(buf, max);
    if !front.Wait? && !(front.Oversized? && front.size > |buf|) {
      ScanSkipsOnlyWhenEmpty(buf[if front.Malformed? then front.headerSize else front.size..], max);
    }
  }

  lemma PushKeepsValid(s: State, data: seq<byte>, max: nat, parseMoov: seq<byte> -> seq<Track>)
    ensures Valid(Push(s, data, max, parseMoov).state)
  {
    var buf := s.buffer + data;
    if s.skipRemaining <= |buf| {
      ScanSkipsOnlyWhenEmpty(buf[s.skipRemaining..], max);
    }
  }

  lemma ResumeContinues(skip: nat, x: seq<byte>, y: seq<byte>, max: nat)
    ensures var first := Resume(skip, x, max);
            var second := Resume(first.skip, first.rest + y, max);
            Resume(skip, x + y, max) == Scan(first.items + second.items, second.rest, second.skip)
  {
    hide ScanBoxes, NextBox;
    if skip > |x| {
      assert [] + y == y;
      if skip <= |x + y| {
        assert (x + y)[skip..] == y[skip - |x|..];
      }
      var second := Resume(skip - |x|, y, max);
      assert [] + second.items == second.items;
    } else {
      assert (x + y)[skip..] == x[skip..] + y;
      ScanContinues(x[skip..], y, max);
    }
  }

  /** Pushing is a homomorphism on chunks: from any state and for all bytes, pushing `a` and then `b` gives the
      same events and the same state as pushing both at once. */
  lemma PushSplits(s: State, a: seq<byte>, b: seq<byte>, max: nat, parseMoov: seq<byte> -> seq<Track>)
    ensures var first := Push(s, a, max, parseMoov);
            var second := Push(first.state, b, max, parseMoov);
            Push(s, a + b, max, parseMoov) == Pushed(second.state, first.events + second.events)
  {
    hide Resume;
    assert s.buffer + (a + b) == s.buffer + a + b;
    ResumeContinues(s.skipRemaining, s.buffer + a, b, max);
    var first := Resume(s.skipRemaining, s.buffer + a, max);
    var second := Resume(first.skip, first.rest + b, max);
    TakeItemsConcat(s.boxes, first.items, second.items, parseMoov);
  }

  ghost function PushAll(s: State, chunks: seq<seq<byte>>, max: nat, parseMoov: seq<byte> -> seq<Track>): Pushed
    decreases |chunks|
  {
    if chunks == [] then Pushed(s, [])
    else
      var first := Push(s, chunks[0], max, parseMoov);
      var later := PushAll(first.state, chunks[1..], max, parseMoov);
      Pushed(later.state, first.events + later.events)
  }

  /** Hence no cutting of a stream into chunks can be told from pushing it whole. */
  lemma {:induction false} ChunksDoNotMatter(s: State, chunks: seq<seq<byte>>, max: nat,
                                             parseMoov: seq<byte> -> seq<Track>)
    requires chunks != []
    ensures PushAll(s, chunks, max, parseMoov) == Push(s, Flatten(chunks), max, parseMoov)
    decreases |chunks|
  {
    hide Push;
    var first := Push(s, chunks[0], max, parseMoov);
    if |chunks| == 1 {
      assert chunks[1..] == [];
      assert Flatten(chunks) == chunks[0] + Flatten(chunks[1..]) == chunks[0];
      assert first.events + [] == first.events;
    } else {
      ChunksDoNotMatter(first.state, chunks[1..], max, parseMoov);
      PushSplits(s, chunks[0], Flatten(chunks[1..]), max, parseMoov);
    }
  }

  // ---------- The streaming demuxer ----------

  class Fmp4Demuxer {
    const maxBoxBytes: nat
    /** Lists the tracks of a movie box. */
    const parseMoov: seq<byte> -> seq<Track>
    var buffer: seq<byte>
    var tracks: seq<Track>
    var initParsed: bool
    var pendingMoof: Option<seq<byte>>
    var skipRemaining: nat

    constructor (maxBoxBytes: nat, parseMoov: seq<byte> -> seq<Track>)
      ensures this.maxBoxBytes == maxBoxBytes && this.parseMoov == parseMoov
      ensures Now() == State([], 0, Boxes([], false, None))
    {
      this.maxBoxBytes, this.parseMoov := maxBoxBytes, parseMoov;
      buffer, tracks, initParsed, pendingMoof, skipRemaining := [], [], false, None, 0;
    }

    ghost function Now(): State
      reads this
    {
      State(buffer, skipRemaining, Boxes(tracks, initParsed, pendingMoof))
    }

    method PushBytes(data: seq<byte>) returns (events: seq<Event>)
      modifies this
      ensures var pushed := Push(old(Now()), data, maxBoxBytes, parseMoov);
              Now() == pushed.state && events == pushed.events
    {
      events := [];
      var buf := buffer + data;
      if skipRemaining > 0 {
        var skip := Min(skipRemaining, |buf|);
        buf := buf[skip..];
        skipRemaining := skipRemaining - skip;
        if skipRemaining > 0 {
          buffer := [];
          return;
        }
      }
      assert buf[0..] == buf;
      var items;
      items, buffer, skipRemaining := SplitBoxes(buf);
      events := TakeAll(items);
    }

    method Flush() returns (events: seq<Event>)
      modifies this`buffer
      ensures Now() == old(Now()).(buffer := []) && events == []
    {
      buffer := [];
      return [];
    }

    /** The top-level loop; every round that goes on leaves a shorter buffer. */
    method SplitBoxes(data: seq<byte>) returns (items: seq<Item>, rest: seq<byte>, skip: nat)
      ensures Scan(items, rest, skip) == ScanBoxes(data, maxBoxBytes)
    {
      hide ScanBoxes, NextBox;
      items, rest, skip := [], data, 0;
      ghost var whole := ScanBoxes(data, maxBoxBytes);
      while true
        invariant skip == 0
        invariant whole.rest == ScanBoxes(rest, maxBoxBytes).rest
        invariant whole.skip == ScanBoxes(rest, maxBoxBytes).skip
        invariant whole.items == items + ScanBoxes(rest, maxBoxBytes).items
        decreases |rest|
      {
        var front := ReadFront(rest);
        ScanFollows(rest, maxBoxBytes, front);
        if front.Wait? {
          break;
        } else if front.Malformed? {
          items := items + [Notice(MalformedBox(front.boxType, front.size, front.headerSize))];
          rest := rest[front.headerSize..];
        } else if front.Oversized? {
          items := items + [Notice(BoxTooLarge(front.boxType, front.size))];
          if front.size <= |rest| {
            rest := rest[front.size..];
          } else {
            skip := front.size - |rest|;
            rest := [];
            break;
          }
        } else {
          items := items + [BoxItem(front.boxType, rest[front.headerSize..front.size])];
          rest := rest[front.size..];
        }
      }
      assert items + [] == items;
    }

    method ReadFront(buf: seq<byte>) returns (front: Front)
      ensures front == NextBox(buf, maxBoxBytes)
    {
      if |buf| < 8 {
        return Wait;
      }
      var (boxSize, headerSize) := ReadBoxHeader(buf);
      if boxSize == 0 || headerSize > |buf| {
        return Wait;
      }
      var boxType := buf[4..8];
      if boxSize < headerSize {
        return Malformed(boxType, boxSize, headerSize);
      }
      if boxSize > maxBoxBytes {
        return Oversized(boxType, boxSize);
      }
      return if |buf| < boxSize then Wait else Whole(boxType, boxSize, headerSize);
    }

    method TakeAll(items: seq<Item>) returns (events: seq<Event>)
      modifies `tracks, `initParsed, `pendingMoof
      ensures var step := TakeItems(old(Now()).boxes, items, parseMoov);
              Now().boxes == step.boxes && events == step.events
    {
      hide TakeItem;
      events := [];
      ghost var whole := TakeItems(Now().boxes, items, parseMoov);
      for i := 0 to |items|
        invariant whole.boxes == TakeItems(Now().boxes, items[i..], parseMoov).boxes
        invariant whole.events == events + TakeItems(Now().boxes, items[i..], parseMoov).events
      {
        assert items[i..][1..] == items[i + 1..];
        var more := Process(items[i]);
        events := events + more;
      }
    }

    method Process(item: Item) returns (events: seq<Event>)
      modifies `tracks, `initParsed, `pendingMoof
      ensures var step := TakeItem(old(Now()).boxes, item, parseMoov);
              Now().boxes == step.boxes && events == step.events
    {
      events := [];
      match item
      case Notice(d) =>
        events := [Diag(d)];
      case BoxItem(boxType, content) =>
        if boxType in [FTYP, STYP, SIDX, FREE, SKIP] {
        } else if boxType == MOOV {
          if initParsed {
            events := [Diag(RepeatedInit)];
            tracks := [];
          }
          tracks := tracks + parseMoov(content);
          initParsed := true;
          events := events + [TrackInfo(tracks)];
        } else if boxType == MOOF {
          pendingMoof := Some(content);
        } else if boxType == MDAT {
          if pendingMoof.Some? {
            events := FramesOfFragment(tracks, pendingMoof.value, content);
            pendingMoof := None;
          }
        } else {
          events := [Diag(UnknownBox(boxType))];
        }
    }
  }

  lemma ScanFollows(buf: seq<byte>, max: nat, front: Front)
    requires front == NextBox(buf, max)
    ensures front.Wait? ==> ScanBoxes(buf, max) == Scan([], buf, 0)
    ensures front.Malformed? ==>
              var later := ScanBoxes(buf[front.headerSize..], max);
              ScanBoxes(buf, max)
              == later.(items := [Notice(MalformedBox(front.boxType, front.size, front.headerSize))] + later.items)
    ensures front.Oversized? && front.size <= |buf| ==>
              var later := ScanBoxes(buf[front.size..], max);
              ScanBoxes(buf, max) == later.(items := [Notice(BoxTooLarge(front.boxType, front.size))] + later.items)
    ensures front.Oversized? && front.size > |buf| ==>
              ScanBoxes(buf, max) == Scan([Notice(BoxTooLarge(front.boxType, front.size))], [], front.size - |buf|)
    ensures front.Whole? ==>
              var later := ScanBoxes(buf[front.size..], max);
              ScanBoxes(buf, max)
              == later.(items := [BoxItem(front.boxType, buf[front.headerSize..front.size])] + later.items)
  {
    hide NextBox;
  }

  // ---------- Loops over child boxes and samples ----------

  lemma ChildFollows(data: seq<byte>, offset: nat, size: nat, headerSize: nat)
    requires offset + 8 <= |data| && ReadBoxHeader(data[offset..]) == (size, headerSize)
    ensures if size < 8 || size < headerSize || offset + size > |data| then ChildBoxes(data, offset) == []
            else ChildBoxes(data, offset)
                 == [(data[offset + 4..offset + 8], data[offset + headerSize..offset + size])]
                   + ChildBoxes(data, offset + size)
  {
    hide ReadBoxHeader;
  }

  method ListChildren(data: seq<byte>) returns (children: seq<(BoxType, seq<byte>)>)
    ensures children == ChildBoxes(data, 0)
  {
    hide ReadBoxHeader;
    children := [];
    var offset := 0;
    ghost var all := ChildBoxes(data, 0);
    while offset + 8 <= |data|
      invariant children + ChildBoxes(data, offset) == all
      decreases |data| - offset
    {
      var (boxSize, headerSize) := ReadBoxHeader(data[offset..]);
      ChildFollows(data, offset, boxSize, headerSize);
      if boxSize < 8 || boxSize < headerSize || offset + boxSize > |data| {
        return;
      }
      hide ChildBoxes;
      children := children + [(data[offset + 4..offset + 8], data[offset + headerSize..offset + boxSize])];
      offset := offset + boxSize;
    }
  }

  method FramesOfFragment(tracks: seq<Track>, moof: seq<byte>, mdat: seq<byte>) returns (events: seq<Event>)
    ensures events == ExtractFrames(tracks, moof, mdat)
  {
    hide ParseTraf, ChildBoxes;
    var children := ListChildren(moof);
    events := [];
    for i := 0 to |children|
      invariant events + TrafEvents(tracks, children[i..], mdat, |moof| + 8)
             == TrafEvents(tracks, children, mdat, |moof| + 8)
    {
      assert children[i..][1..] == children[i + 1..];
      if children[i].0 == TRAF {
        var more := FramesOfTraf(tracks, children[i].1, mdat, |moof| + 8);
        events := events + more;
      }
    }
  }

  method FramesOfTraf(tracks: seq<Track>, data: seq<byte>, mdat: seq<byte>, moofBoxSize: nat)
    returns (events: seq<Event>)
    ensures events == ParseTraf(tracks, data, mdat, moofBoxSize)
  {
    hide ChildBoxes, TakeChild;
    var children := ListChildren(data);
    var fields := NO_FIELDS;
    for i := 0 to |children|
      invariant TakeChildren(fields, children[i..]) == TakeChildren(NO_FIELDS, children)
    {
      assert children[i..][1..] == children[i + 1..];
      fields := TakeChild(fields, children[i]);
    }
    var track := FindTrack(tracks, fields.trackId);
    if track.None? {
      return [Diag(TrackIdNotFound(fields.trackId))];
    }
    var base := if fields.dataOffset > 0 then Max(fields.dataOffset - (moofBoxSize + 8), 0) else 0;
    events := CutAll(track.value, fields.samples, mdat, base, fields.baseDecodeTime);
  }

  method CutAll(track: Track, samples: seq<TrunSample>, mdat: seq<byte>, base: nat, baseDecodeTime: nat)
    returns (events: seq<Event>)
    ensures events == CutFrames(track, samples, mdat, base, baseDecodeTime)
  {
    hide FrameOf;
    events := [];
    var mdatOffset: nat, currentDts: nat := base, baseDecodeTime;
    for i := 0 to |samples|
      invariant events + CutFrames(track, samples[i..], mdat, mdatOffset, currentDts)
             == CutFrames(track, samples, mdat, base, baseDecodeTime)
    {
      assert samples[i..][1..] == samples[i + 1..];
      var s := samples[i];
      if mdatOffset + s.size > |mdat| {
        events := events + [Diag(MdatOverflow(track.trackId))];
        return;
      }
      events := events + [FrameOf(track, s, mdat[mdatOffset..mdatOffset + s.size], currentDts)];
      mdatOffset := mdatOffset + s.size;
      currentDts := currentDts + s.duration;
    }
  }
}
