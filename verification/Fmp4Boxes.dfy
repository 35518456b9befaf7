/** Fragmented MP4 as other writers make it: boxes with either kind of header, boxes that are too large or malformed,
    and what becomes of a fragment's samples. */
module Fmp4Boxes {
  import opened Bytes
  import opened Fmp4Demux

  // ---------- Names ----------

  predicate IsName(boxType: BoxType, name: string) {
    |boxType| == |name| && forall i :: 0 <= i < |name| ==> boxType[i] == name[i] as int
  }

  /** The types are the names the format gives them. */
  lemma BoxNames()
    ensures IsName(FTYP, "ftyp") && IsName(STYP, "styp") && IsName(SIDX, "sidx") && IsName(FREE, "free")
    ensures IsName(SKIP, "skip") && IsName(MOOV, "moov") && IsName(MOOF, "moof") && IsName(MDAT, "mdat")
    ensures IsName(MFHD, "mfhd") && IsName(TRAF, "traf") && IsName(TFHD, "tfhd") && IsName(TFDT, "tfdt")
    ensures IsName(TRUN, "trun")
  {
  }

  // ---------- Headers of boxes ----------

  /** A box as it may stand in a file: with a size of 32 or of 64 bits, or with a size that does not even cover its
      header. */
  datatype TopBox =
    | Plain(boxType: BoxType, content: seq<byte>)
    | Wide(boxType: BoxType, content: seq<byte>)
    | Short(boxType: BoxType, size: u64)
    | ShortWide(boxType: BoxType, size: u64)

  predicate Writable(b: TopBox) {
    && |b.boxType| == 4
    && match b
       case Plain(_, content) => 8 + |content| < 0x1_0000_0000
       case Wide(_, content) => 16 + |content| < TWO64
       case Short(_, size) => 2 <= size < 8
       case ShortWide(_, size) => 1 <= size < 16
  }

  function WriteBox(b: TopBox): seq<byte>
    requires Writable(b)
  {
    match b
    case Plain(boxType, content) => Be32(8 + |content|) + boxType + content
    case Wide(boxType, content) => Be32(1) + boxType + Be64(16 + |content|) + content
    case Short(boxType, size) => Be32(size) + boxType
    case ShortWide(boxType, size) => Be32(1) + boxType + Be64(size)
  }

  function SizeOf(b: TopBox): nat
    requires b.Plain? || b.Wide?
  {
    (if b.Plain? then 8 else 16) + |b.content|
  }

  /** What the parser is to make of a box: its content, or a notice that it is too large or malformed. */
  function ItemOf(b: TopBox, max: nat): Item
    requires Writable(b)
  {
    match b
    case Short(boxType, size) => Notice(MalformedBox(boxType, size, 8))
    case ShortWide(boxType, size) => Notice(MalformedBox(boxType, size, 16))
    case _ =>
      if SizeOf(b) > max then Notice(BoxTooLarge(b.boxType, SizeOf(b))) else BoxItem(b.boxType, b.content)
  }

  lemma PlainHeader(boxType: BoxType, size: u32, rest: seq<byte>)
    requires |boxType| == 4 && size > 1
    ensures var buf := Be32(size) + boxType + rest;
            ReadBoxHeader(buf) == (size, 8) && buf[4..8] == boxType && buf[8..] == rest
  {
    hide Be32, ReadBe32;
    var buf := Be32(size) + boxType + rest;
    assert buf[0..4] == Be32(size);
    ReadBe32At(buf, 0, size);
  }

  lemma WideHeader(boxType: BoxType, size: u64, rest: seq<byte>)
    requires |boxType| == 4
    ensures var buf := Be32(1) + boxType + Be64(size) + rest;
            ReadBoxHeader(buf) == (size, 16) && buf[4..8] == boxType && buf[16..] == rest
  {
    hide Be32, Be64, ReadBe32, ReadBe64;
    var buf := Be32(1) + boxType + Be64(size) + rest;
    assert buf[0..4] == Be32(1) && buf[8..16] == Be64(size);
    ReadBe32At(buf, 0, 1);
    ReadBe64At(buf, 8, size);
  }

  lemma PlainFront(boxType: BoxType, content: seq<byte>, rest: seq<byte>, max: nat)
    requires Writable(Plain(boxType, content))
    ensures var later := ScanBoxes(rest, max);
            ScanBoxes(WriteBox(Plain(boxType, content)) + rest, max)
            == later.(items := [ItemOf(Plain(boxType, content), max)] + later.items)
  {
    hide ScanBoxes, Be32, ReadBoxHeader;
    var buf, size := WriteBox(Plain(boxType, content)) + rest, 8 + |content|;
    assert buf == Be32(size) + boxType + (content + rest);
    PlainHeader(boxType, size, content + rest);
    assert buf[8..size] == content && buf[size..] == rest;
    ScanFollows(buf, max, NextBox(buf, max));
  }

  lemma WideFront(boxType: BoxType, content: seq<byte>, rest: seq<byte>, max: nat)
    requires Writable(Wide(boxType, content))
    ensures var later := ScanBoxes(rest, max);
            ScanBoxes(WriteBox(Wide(boxType, content)) + rest, max)
            == later.(items := [ItemOf(Wide(boxType, content), max)] + later.items)
  {
    hide ScanBoxes, Be32, Be64, ReadBoxHeader;
    var buf, size := WriteBox(Wide(boxType, content)) + rest, 16 + |content|;
    assert buf == Be32(1) + boxType + Be64(size) + (content + rest);
    WideHeader(boxType, size, content + rest);
    assert buf[16..size] == content && buf[size..] == rest;
    ScanFollows(buf, max, NextBox(buf, max));
  }

  lemma ShortFront(b: TopBox, rest: seq<byte>, max: nat)
    requires Writable(b) && (b.Short? || b.ShortWide?)
    ensures var later := ScanBoxes(rest, max);
            ScanBoxes(WriteBox(b) + rest, max) == later.(items := [ItemOf(b, max)] + later.items)
  {
    hide ScanBoxes, Be32, Be64, ReadBoxHeader;
    var buf := WriteBox(b) + rest;
    if b.Short? {
      PlainHeader(b.boxType, b.size, rest);
    } else {
      WideHeader(b.boxType, b.size, rest);
    }
    ScanFollows(buf, max, NextBox(buf, max));
  }

  /** The box at the front is found whatever follows it. */
  lemma FrontIsRead(b: TopBox, rest: seq<byte>, max: nat)
    requires Writable(b)
    ensures var later := ScanBoxes(rest, max);
            ScanBoxes(WriteBox(b) + rest, max) == later.(items := [ItemOf(b, max)] + later.items)
  {
    hide ScanBoxes, WriteBox, ItemOf, Writable;
    if b.Plain? {
      PlainFront(b.boxType, b.content, rest, max);
    } else if b.Wide? {
      WideFront(b.boxType, b.content, rest, max);
    } else {
      ShortFront(b, rest, max);
    }
  }

  ghost predicate AllWritable(boxes: seq<TopBox>) {
    forall i :: 0 <= i < |boxes| ==> Writable(boxes[i])
  }

  function WriteBoxes(boxes: seq<TopBox>): seq<byte>
    requires AllWritable(boxes)
  {
    if boxes == [] then [] else WriteBox(boxes[0]) + WriteBoxes(boxes[1..])
  }

  function ItemsOf(boxes: seq<TopBox>, max: nat): seq<Item>
    requires AllWritable(boxes)
  {
    if boxes == [] then [] else [ItemOf(boxes[0], max)] + ItemsOf(boxes[1..], max)
  }

  /** Any boxes, followed by anything: oversized ones are skipped whole with one notice, malformed ones lose their
      header alone, and all others are found, before the parser goes on with what follows. */
  lemma {:induction false} AnyBoxesAreFound(boxes: seq<TopBox>, rest: seq<byte>, max: nat)
    requires AllWritable(boxes)
    ensures var later := ScanBoxes(rest, max);
            ScanBoxes(WriteBoxes(boxes) + rest, max) == later.(items := ItemsOf(boxes, max) + later.items)
  {
    hide WriteBox, ItemOf, ScanBoxes;
    if boxes == [] {
      assert [] + rest == rest;
      assert [] + ScanBoxes(rest, max).items == ScanBoxes(rest, max).items;
    } else {
      var tail := WriteBoxes(boxes[1..]) + rest;
      assert WriteBoxes(boxes) + rest == WriteBox(boxes[0]) + tail;
      FrontIsRead(boxes[0], tail, max);
      AnyBoxesAreFound(boxes[1..], rest, max);
      var items, later := ItemsOf(boxes[1..], max), ScanBoxes(rest, max).items;
      assert [ItemOf(boxes[0], max)] + (items + later) == ItemsOf(boxes, max) + later;
    }
  }

  /** Of a box that is too large, the part that has arrived is dropped, and the rest is skipped as it arrives. */
  lemma CutOversizedIsSkipped(b: TopBox, n: nat, max: nat)
    requires Writable(b) && (b.Plain? || b.Wide?) && SizeOf(b) > max && 16 <= n < |WriteBox(b)|
    ensures ScanBoxes(WriteBox(b)[..n], max) == Scan([ItemOf(b, max)], [], |WriteBox(b)| - n)
  {
    hide ScanBoxes, Be32, Be64, ReadBoxHeader;
    var buf := WriteBox(b)[..n];
    match b
    case Plain(boxType, content) =>
      assert buf == Be32(8 + |content|) + boxType + content[..n - 8];
      PlainHeader(boxType, 8 + |content|, content[..n - 8]);
      ScanFollows(buf, max, NextBox(buf, max));
    case Wide(boxType, content) =>
      assert buf == Be32(1) + boxType + Be64(16 + |content|) + content[..n - 16];
      WideHeader(boxType, 16 + |content|, content[..n - 16]);
      ScanFollows(buf, max, NextBox(buf, max));
    case _ =>
  }

  /** A size of zero is taken for one that is not known yet: the parser waits for good. */
  lemma SizeZeroWaits(rest: seq<byte>, max: nat)
    ensures ScanBoxes([0, 0, 0, 0] + rest, max) == Scan([], [0, 0, 0, 0] + rest, 0)
  {
    var buf := [0, 0, 0, 0] + rest;
    assert NextBox(buf, max).Wait?;
  }

  // ---------- Fragments and movie boxes ----------

  lemma TakeNext(b: Boxes, item: Item, rest: seq<Item>, parseMoov: seq<byte> -> seq<Track>)
    ensures var first := TakeItem(b, item, parseMoov);
            var later := TakeItems(first.boxes, rest, parseMoov);
            TakeItems(b, [item] + rest, parseMoov) == BoxStep(later.boxes, first.events + later.events)
  {
    hide TakeItem;
    assert ([item] + rest)[1..] == rest;
  }

  /** A fragment is used for the next media data alone; a later fragment takes its place before that. */
  lemma FragmentIsUsedOnce(b: Boxes, first: seq<byte>, second: seq<byte>, data: seq<byte>, more: seq<byte>,
                           parseMoov: seq<byte> -> seq<Track>)
    ensures TakeItems(b, [BoxItem(MOOF, first)]
                         + ([BoxItem(MOOF, second)] + ([BoxItem(MDAT, data)] + ([BoxItem(MDAT, more)] + []))),
                      parseMoov)
         == BoxStep(b.(pendingMoof := None), ExtractFrames(b.tracks, second, data))
  {
    hide ExtractFrames, TakeItems;
    var last := [BoxItem(MDAT, more)] + [];
    var later := [BoxItem(MDAT, data)] + last;
    var b1, b2, b3 := b.(pendingMoof := Some(first)), b.(pendingMoof := Some(second)), b.(pendingMoof := None);
    TakeNext(b, BoxItem(MOOF, first), [BoxItem(MOOF, second)] + later, parseMoov);
    TakeNext(b1, BoxItem(MOOF, second), later, parseMoov);
    TakeNext(b2, BoxItem(MDAT, data), last, parseMoov);
    TakeNext(b3, BoxItem(MDAT, more), [], parseMoov);
    TakeNone(b3, parseMoov);
    var events := ExtractFrames(b.tracks, second, data);
    assert [] + ([] + (events + ([] + []))) == events;
  }

  lemma TakeNone(b: Boxes, parseMoov: seq<byte> -> seq<Track>)
    ensures TakeItems(b, [], parseMoov) == BoxStep(b, [])
  {
  }

  /** A second movie box takes the place of the first, and is reported before the new tracks. */
  lemma SecondMovieReplaces(first: seq<byte>, second: seq<byte>, parseMoov: seq<byte> -> seq<Track>)
    ensures TakeItems(Boxes([], false, None), [BoxItem(MOOV, first)] + ([BoxItem(MOOV, second)] + []), parseMoov)
         == BoxStep(Boxes(parseMoov(second), true, None),
                    [TrackInfo(parseMoov(first)), Diag(RepeatedInit), TrackInfo(parseMoov(second))])
  {
    hide TakeItems;
    assert [] + parseMoov(first) == parseMoov(first) && [] + parseMoov(second) == parseMoov(second);
    TakeNext(Boxes([], false, None), BoxItem(MOOV, first), [BoxItem(MOOV, second)] + [], parseMoov);
    TakeNext(Boxes(parseMoov(first), true, None), BoxItem(MOOV, second), [], parseMoov);
    TakeNone(Boxes(parseMoov(second), true, None), parseMoov);
  }

  /** The types that mean something, and those that are passed over in silence. */
  predicate IsKnown(boxType: BoxType) {
    boxType in {FTYP, STYP, SIDX, FREE, SKIP, MOOV, MOOF, MDAT}
  }

  /** A box of any other type is reported and changes nothing; a box that is passed over is not even reported. */
  lemma OtherBoxesAreReported(b: Boxes, boxType: BoxType, content: seq<byte>, parseMoov: seq<byte> -> seq<Track>)
    ensures !IsKnown(boxType) ==>
              TakeItem(b, BoxItem(boxType, content), parseMoov) == BoxStep(b, [Diag(UnknownBox(boxType))])
    ensures boxType in {FTYP, STYP, SIDX, FREE, SKIP} ==>
              TakeItem(b, BoxItem(boxType, content), parseMoov) == BoxStep(b, [])
  {
  }

  // ---------- Children of a fragment ----------

  /** A track header box: the track's number stands behind version and flags, whatever follows. */
  lemma AnyTfhdIsRead(f: TrafFields, head: seq<byte>, id: u32, tail: seq<byte>)
    requires |head| == 4
    ensures TakeChild(f, (TFHD, head + Be32(id) + tail)) == f.(trackId := id)
  {
    hide Be32, ReadBe32;
    var inner := head + Be32(id) + tail;
    assert inner[4..8] == Be32(id);
    ReadBe32At(inner, 4, id);
  }

  /** A decode time box: 64 bits in version 1, 32 bits otherwise. */
  lemma AnyTfdtIsRead(f: TrafFields, version: byte, flags: seq<byte>, time: u64, tail: seq<byte>)
    requires |flags| == 3 && (version == 1 || time < 0x1_0000_0000)
    ensures TakeChild(f, (TFDT, [version] + flags + (if version == 1 then Be64(time) else Be32(time)) + tail))
         == f.(baseDecodeTime := time)
  {
    hide Be32, Be64, ReadBe32, ReadBe64;
    var inner := [version] + flags + (if version == 1 then Be64(time) else Be32(time)) + tail;
    if version == 1 {
      assert inner[4..12] == Be64(time);
      ReadBe64At(inner, 4, time);
    } else {
      assert inner[4..8] == Be32(time);
      ReadBe32At(inner, 4, time);
    }
  }

  /** Boxes of other types, and boxes too short for their fields, say nothing. */
  lemma OtherChildIsIgnored(f: TrafFields, boxType: BoxType, inner: seq<byte>)
    requires boxType !in {TFHD, TFDT, TRUN} || |inner| < 8
    ensures TakeChild(f, (boxType, inner)) == f
  {
  }

  /** Where a fragment's track says nothing at all, it is track 0 at time 0 without samples. */
  lemma NothingSaid()
    ensures TakeChildren(NO_FIELDS, []) == TrafFields(0, 0, 0, [])
  {
  }

  // ---------- Samples ----------

  /** A sample is a key frame when it is said to depend on no other, or when nothing is said of that and it is not
      marked as no sync sample; none of the other bits matter. */
  lemma KeyframeBits(high: nat, dependsOn: nat, middle: nat, nonSync: nat, low: nat)
    requires high < 0x40 && dependsOn < 4 && middle < 0x80 && nonSync < 2 && low < 0x1_0000
    ensures var flags := high * 0x400_0000 + dependsOn * 0x100_0000 + middle * 0x2_0000 + nonSync * 0x1_0000 + low;
            IsKeyframeFlags(flags) <==> dependsOn == 2 || (dependsOn == 0 && nonSync == 0)
  {
    var flags := high * 0x400_0000 + dependsOn * 0x100_0000 + middle * 0x2_0000 + nonSync * 0x1_0000 + low;
    assert flags / 0x100_0000 == high * 4 + dependsOn;
    assert flags / 0x1_0000 == high * 0x400 + dependsOn * 0x100 + middle * 2 + nonSync;
    assert (high * 4 + dependsOn) % 4 == dependsOn;
    assert (high * 0x400 + dependsOn * 0x100 + middle * 2 + nonSync) % 2 == nonSync;
  }

  function SizeSum(samples: seq<TrunSample>, k: nat): nat
    requires k <= |samples|
  {
    if k == 0 then 0 else samples[0].size + SizeSum(samples[1..], k - 1)
  }

  function DurationSum(samples: seq<TrunSample>, k: nat): nat
    requires k <= |samples|
  {
    if k == 0 then 0 else samples[0].duration + DurationSum(samples[1..], k - 1)
  }

  /** Sample `k` of a run as a frame: its bytes behind those of the samples before it, its decode time behind their
      durations. */
  function FrameAt(track: Track, samples: seq<TrunSample>, mdat: seq<byte>, offset: nat, dts: nat, k: nat): Event
    requires k < |samples| && offset + SizeSum(samples, k) + samples[k].size <= |mdat|
  {
    var from, time, s := offset + SizeSum(samples, k), dts + DurationSum(samples, k), samples[k];
    Frame(track.trackId, track.isVideo,
          TimescaleToUs(Wrap64(time + s.ctsOffset), track.timescale), TimescaleToUs(Wrap64(time), track.timescale),
          IsKeyframeFlags(s.flags), mdat[from..from + s.size])
  }

  /** The first `n` samples lie within the media data, and the one after them does not. */
  predicate Reaches(samples: seq<TrunSample>, size: nat, offset: nat, n: nat) {
    && n <= |samples|
    && (forall k :: 0 <= k < n ==> offset + SizeSum(samples, k) + samples[k].size <= size)
    && (n < |samples| ==> offset + SizeSum(samples, n) + samples[n].size > size)
  }

  lemma NextSums(samples: seq<TrunSample>, k: nat)
    requires k < |samples|
    ensures SizeSum(samples, k + 1) == samples[0].size + SizeSum(samples[1..], k)
    ensures DurationSum(samples, k + 1) == samples[0].duration + DurationSum(samples[1..], k)
  {
  }

  lemma ReachesOn(samples: seq<TrunSample>, size: nat, offset: nat, n: nat)
    requires n > 0 && Reaches(samples, size, offset, n)
    ensures offset + samples[0].size <= size && Reaches(samples[1..], size, offset + samples[0].size, n - 1)
  {
    assert SizeSum(samples, 0) == 0;
    hide SizeSum;
    assert offset + SizeSum(samples, 0) + samples[0].size <= size;
    var rest := samples[1..];
    forall k | 0 <= k < n - 1 ensures offset + samples[0].size + SizeSum(rest, k) + rest[k].size <= size {
      NextSums(samples, k);
      assert offset + SizeSum(samples, k + 1) + samples[k + 1].size <= size;
    }
    if n < |samples| {
      NextSums(samples, n - 1);
    }
  }

  /** Samples are cut one after the other until one reaches beyond the media data; that is reported once, and only
      then. */
  lemma {:induction false} CutFramesAre(track: Track, samples: seq<TrunSample>, mdat: seq<byte>, offset: nat, dts: nat,
                                        n: nat)
    requires Reaches(samples, |mdat|, offset, n)
    ensures var events := CutFrames(track, samples, mdat, offset, dts);
            && |events| == n + (if n < |samples| then 1 else 0)
            && (forall k :: 0 <= k < n ==> events[k] == FrameAt(track, samples, mdat, offset, dts, k))
            && (n < |samples| ==> events[n] == Diag(MdatOverflow(track.trackId)))
    decreases n
  {
    hide FrameOf, FrameAt;
    if n > 0 {
      ReachesOn(samples, |mdat|, offset, n);
      var s, rest := samples[0], samples[1..];
      CutFramesAre(track, rest, mdat, offset + s.size, dts + s.duration, n - 1);
      var events, later := CutFrames(track, samples, mdat, offset, dts),
                           CutFrames(track, rest, mdat, offset + s.size, dts + s.duration);
      assert events == [FrameOf(track, s, mdat[offset..offset + s.size], dts)] + later;
      hide CutFrames, Reaches;
      assert Reaches(samples, |mdat|, offset, n) && Reaches(rest, |mdat|, offset + s.size, n - 1);
      forall k | 0 <= k < n
        ensures offset + SizeSum(samples, k) + samples[k].size <= |mdat|
        ensures events[k] == FrameAt(track, samples, mdat, offset, dts, k)
      {
        SampleFits(samples, |mdat|, offset, n, k);
        if k > 0 {
          assert events[k] == later[k - 1];
          SampleFits(rest, |mdat|, offset + s.size, n - 1, k - 1);
          FrameMoves(track, samples, mdat, offset, dts, k - 1);
        } else {
          FirstFrame(track, samples, mdat, offset, dts);
        }
      }
    } else if samples != [] {
      assert offset + SizeSum(samples, 0) + samples[0].size > |mdat|;
    }
  }

  lemma SampleFits(samples: seq<TrunSample>, size: nat, offset: nat, n: nat, k: nat)
    requires Reaches(samples, size, offset, n) && k < n
    ensures k < |samples| && offset + SizeSum(samples, k) + samples[k].size <= size
  {
    hide SizeSum;
  }

  lemma FirstFrame(track: Track, samples: seq<TrunSample>, mdat: seq<byte>, offset: nat, dts: nat)
    requires samples != [] && offset + SizeSum(samples, 0) + samples[0].size <= |mdat|
    ensures offset + samples[0].size <= |mdat|
    ensures FrameAt(track, samples, mdat, offset, dts, 0)
         == FrameOf(track, samples[0], mdat[offset..offset + samples[0].size], dts)
  {
    hide IsKeyframeFlags, TimescaleToUs, Wrap64;
  }

  lemma FrameMoves(track: Track, samples: seq<TrunSample>, mdat: seq<byte>, offset: nat, dts: nat, k: nat)
    requires samples != [] && k < |samples[1..]|
    requires offset + samples[0].size + SizeSum(samples[1..], k) + samples[1..][k].size <= |mdat|
    requires offset + SizeSum(samples, k + 1) + samples[k + 1].size <= |mdat|
    ensures FrameAt(track, samples, mdat, offset, dts, k + 1)
         == FrameAt(track, samples[1..], mdat, offset + samples[0].size, dts + samples[0].duration, k)
  {
    hide IsKeyframeFlags, TimescaleToUs, Wrap64, SizeSum, DurationSum;
    NextSums(samples, k);
  }

  /** A fragment of a track that is not known gives no frame, and is reported with the number it names. */
  lemma UnknownTrackIsReported(tracks: seq<Track>, children: seq<byte>, mdat: seq<byte>, moofBoxSize: nat)
    ensures var f := TakeChildren(NO_FIELDS, ChildBoxes(children, 0));
            (forall t :: t in tracks ==> t.trackId != f.trackId) ==>
              ParseTraf(tracks, children, mdat, moofBoxSize) == [Diag(TrackIdNotFound(f.trackId))]
  {
    hide ChildBoxes, TakeChildren;
    var f := TakeChildren(NO_FIELDS, ChildBoxes(children, 0));
    if forall t :: t in tracks ==> t.trackId != f.trackId {
      NotFound(tracks, f.trackId);
    }
  }

  /** A fragment of a known track is cut from its data offset, which counts from the front of the movie fragment box;
      an offset that is missing, or that points before the media data, stands for their front. */
  lemma FragmentStart(tracks: seq<Track>, children: seq<byte>, mdat: seq<byte>, moofBoxSize: nat)
    ensures var f := TakeChildren(NO_FIELDS, ChildBoxes(children, 0));
            var front := moofBoxSize + 8;
            FindTrack(tracks, f.trackId).Some? ==>
              ParseTraf(tracks, children, mdat, moofBoxSize)
              == CutFrames(FindTrack(tracks, f.trackId).value, f.samples, mdat,
                           if f.dataOffset <= front then 0 else f.dataOffset - front, f.baseDecodeTime)
  {
    hide ChildBoxes, TakeChildren, CutFrames;
  }

  /** The track found is the first with that number. */
  lemma {:induction false} FirstTrackIsFound(tracks: seq<Track>, id: u32, i: nat)
    requires i < |tracks| && tracks[i].trackId == id && forall j :: 0 <= j < i ==> tracks[j].trackId != id
    ensures FindTrack(tracks, id) == Some(tracks[i])
  {
    if i > 0 {
      FirstTrackIsFound(tracks[1..], id, i - 1);
    }
  }

  lemma {:induction false} NotFound(tracks: seq<Track>, id: u32)
    requires forall t :: t in tracks ==> t.trackId != id
    ensures FindTrack(tracks, id) == None
  {
    if tracks != [] {
      assert tracks[0] in tracks;
      NotFound(tracks[1..], id);
    }
  }
}
