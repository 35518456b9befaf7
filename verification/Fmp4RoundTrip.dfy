/** Fragmented MP4: what the demuxer makes of the segments the muxer writes. */
module Fmp4RoundTrip {
  import opened Bytes
  import opened Fmp4Demux
  import opened Fmp4Mux

  // ---------- Boxes ----------

  /** Each box can state its size in 32 bits, and it is not larger than `max`. */
  ghost predicate Fits(boxes: seq<(BoxType, seq<byte>)>, max: nat) {
    forall i :: 0 <= i < |boxes| ==>
      |boxes[i].0| == 4 && 8 + |boxes[i].1| <= max && 8 + |boxes[i].1| < 0x1_0000_0000
  }

  lemma HeaderOf(boxType: BoxType, content: seq<byte>, rest: seq<byte>)
    requires |boxType| == 4 && 8 + |content| < 0x1_0000_0000
    ensures var s := BoxBytes(boxType, content) + rest;
            ReadBoxHeader(s) == (8 + |content|, 8)
            && s[4..8] == boxType && s[8..8 + |content|] == content && s[8 + |content|..] == rest
  {
    var s := BoxBytes(boxType, content) + rest;
    assert s == Be32(8 + |content|) + (boxType + content + rest);
    assert s[0..4] == Be32(8 + |content|);
    ReadBe32At(s, 0, 8 + |content|);
  }

  function BoxItems(boxes: seq<(BoxType, seq<byte>)>): seq<Item> {
    seq(|boxes|, i requires 0 <= i < |boxes| => BoxItem(boxes[i].0, boxes[i].1))
  }

  /** The top-level parser finds the boxes that were written, and leaves nothing behind. */
  lemma {:induction false} ScanFindsBoxes(boxes: seq<(BoxType, seq<byte>)>, max: nat)
    requires Fits(boxes, max)
    ensures ScanBoxes(JoinBoxes(boxes), max) == Scan(BoxItems(boxes), [], 0)
  {
    hide BoxBytes;
    if boxes != [] {
      var (boxType, content) := boxes[0];
      var rest := JoinBoxes(boxes[1..]);
      HeaderOf(boxType, content, rest);
      ScanFindsBoxes(boxes[1..], max);
      ScanFollows(JoinBoxes(boxes), max, Whole(boxType, 8 + |content|, 8));
      assert BoxItems(boxes) == [BoxItem(boxType, content)] + BoxItems(boxes[1..]);
    }
  }

  /** So does the parser of child boxes. */
  lemma {:induction false} ChildrenAreFound(before: seq<byte>, boxes: seq<(BoxType, seq<byte>)>)
    requires Fits(boxes, 0xFFFF_FFFF)
    ensures ChildBoxes(before + JoinBoxes(boxes), |before|) == boxes
    decreases |boxes|
  {
    hide BoxBytes, ReadBoxHeader;
    var data := before + JoinBoxes(boxes);
    if boxes != [] {
      var (boxType, content) := boxes[0];
      var rest := JoinBoxes(boxes[1..]);
      HeaderOf(boxType, content, rest);
      var after := before + BoxBytes(boxType, content);
      assert data == after + rest;
      assert data[|before|..] == BoxBytes(boxType, content) + rest;
      SubSlice(data, |before|, |data|, 4, 8);
      SubSlice(data, |before|, |data|, 8, 8 + |content|);
      ChildFollows(data, |before|, 8 + |content|, 8);
      assert data[|before| + 4..|before| + 8] == boxType;
      assert data[|before| + 8..|before| + 8 + |content|] == content;
      ChildrenAreFound(after, boxes[1..]);
      assert ChildBoxes(data, |before| + 8 + |content|) == boxes[1..];
      assert boxes[0] == (boxType, content);
      assert [boxes[0]] + boxes[1..] == boxes;
    } else {
      assert data == before;
    }
  }

  // ---------- Track runs ----------

  /** What the run says of sample `i`. */
  function RunSample(part: Part, i: nat): TrunSample
    requires i < |part.samples|
  {
    var s := part.samples[i];
    TrunSample(Duration(part, i), U32(|s.data|), if part.track.isVideo then SampleFlags(s) else 0,
               if part.track.isVideo then Signed32(CtsBits(part, s)) else 0)
  }

  function RunSamples(part: Part): seq<TrunSample> {
    seq(|part.samples|, i requires 0 <= i < |part.samples| => RunSample(part, i))
  }

  lemma EntryIsRead(part: Part, i: nat, data: seq<byte>, pos: nat, isFirst: bool)
    requires i < |part.samples| && pos + |EntryBytes(part, i)| <= |data|
    requires data[pos..pos + |EntryBytes(part, i)|] == EntryBytes(part, i)
    ensures EntrySize(TrunFlags(part.track.isVideo)) == |EntryBytes(part, i)|
    ensures EntryAt(data, pos, TrunFlags(part.track.isVideo), 0, isFirst) == RunSample(part, i)
  {
    hide Duration, CtsBits, Be32, ReadBe32, SampleFlags, U32;
    var s, n := part.samples[i], |EntryBytes(part, i)|;
    SubSlice(data, pos, pos + n, 0, 4);
    SubSlice(data, pos, pos + n, 4, 8);
    ReadBe32At(data, pos, Duration(part, i));
    ReadBe32At(data, pos + 4, U32(|s.data|));
    if part.track.isVideo {
      SubSlice(data, pos, pos + n, 8, 12);
      SubSlice(data, pos, pos + n, 12, 16);
      ReadBe32At(data, pos + 8, SampleFlags(s));
      ReadBe32At(data, pos + 12, CtsBits(part, s));
    }
  }

  lemma {:induction false} EntriesAreRead(part: Part, i: nat, data: seq<byte>, pos: nat, isFirst: bool)
    requires i <= |part.samples| && pos <= |data| && data[pos..] == EntriesBytes(part, i)
    ensures Entries(data, pos, TrunFlags(part.track.isVideo), 0, isFirst, |part.samples| - i) == RunSamples(part)[i..]
    decreases |part.samples| - i
  {
    hide EntryBytes, EntryAt, RunSample, TrunFlags, EntrySize;
    if i < |part.samples| {
      var entry := EntryBytes(part, i);
      assert data[pos..] == entry + EntriesBytes(part, i + 1);
      SubSlice(data, pos, |data|, 0, |entry|);
      SubSlice(data, pos, |data|, |entry|, |data| - pos);
      EntryIsRead(part, i, data, pos, isFirst);
      EntriesAreRead(part, i + 1, data, pos + |entry|, false);
      assert RunSamples(part)[i..] == [RunSample(part, i)] + RunSamples(part)[i + 1..];
    }
  }

  lemma RunIsRead(part: Part, offset: nat)
    requires offset < 0x8000_0000 && |part.samples| < 0x1_0000_0000
    ensures ParseTrun(TrunContent(part, offset)) == (offset, RunSamples(part))
  {
    hide TrunContent, RunSamples, Entries, ReadBe32, EntriesBytes;
    var data := TrunContent(part, offset);
    TrunHeadIsRead(part, offset);
    EntriesAreRead(part, 0, data, 12, true);
    assert RunSamples(part)[0..] == RunSamples(part);
  }

  lemma FlagsAreRead(data: seq<byte>, isVideo: bool)
    requires |data| >= 4 && data[..4] == VersionFlags(if isVideo then 1 else 0, TrunFlags(isVideo))
    ensures ReadBe32(data, 0) % 0x100_0000 == TrunFlags(isVideo)
  {
    var head := data[..4];
    assert data[0] == head[0] && data[1] == head[1] && data[2] == head[2] && data[3] == head[3];
  }

  lemma TrunHeadIsRead(part: Part, offset: nat)
    requires offset < 0x8000_0000 && |part.samples| < 0x1_0000_0000
    ensures var data := TrunContent(part, offset);
            |data| >= 12 && ReadBe32(data, 0) % 0x100_0000 == TrunFlags(part.track.isVideo)
            && ReadBe32(data, 4) == |part.samples| && ReadBe32(data, 8) == offset
            && data[12..] == EntriesBytes(part, 0)
  {
    hide EntriesBytes, Be32;
    var data := TrunContent(part, offset);
    FlagsAreRead(data, part.track.isVideo);
    hide ReadBe32, VersionFlags;
    assert data[4..8] == Be32(|part.samples|);
    assert data[8..12] == Be32(offset);
    ReadBe32At(data, 4, |part.samples|);
    ReadBe32At(data, 8, offset);
  }

  lemma TrunContentSize(part: Part, offset: int)
    ensures |TrunContent(part, offset)| + 52 == TrafSize(part)
  {
    EntriesSize(part, 0);
  }

  lemma TfhdIsRead(track: MuxTrack)
    ensures ReadBe32(TfhdContent(track), 4) == track.trackId
  {
    ReadBe32At(TfhdContent(track), 4, track.trackId);
  }

  lemma TfdtIsRead(part: Part)
    ensures TfdtContent(part)[0] == 1 && ReadBe64(TfdtContent(part), 4) == BaseTicks(part)
  {
    hide BaseTicks;
    assert TfdtContent(part)[4..12] == Be64(BaseTicks(part));
    ReadBe64At(TfdtContent(part), 4, BaseTicks(part));
  }

  lemma TakeThree(f: TrafFields, a: (BoxType, seq<byte>), b: (BoxType, seq<byte>), c: (BoxType, seq<byte>))
    ensures TakeChildren(f, [a, b, c]) == TakeChild(TakeChild(TakeChild(f, a), b), c)
  {
    hide TakeChild;
    assert [a, b, c][1..] == [b, c] && [b, c][1..] == [c] && [c][1..] == [];
    var f2 := TakeChild(TakeChild(f, a), b);
    assert TakeChildren(f2, [c]) == TakeChildren(TakeChild(f2, c), []);
  }

  lemma TrafIsRead(part: Part, offset: nat)
    requires offset < 0x8000_0000 && TrafSize(part) < 0x1_0000_0000
    ensures TakeChildren(NO_FIELDS, ChildBoxes(TrafBox(part, offset).1, 0))
         == TrafFields(part.track.trackId, BaseTicks(part), offset, RunSamples(part))
  {
    hide ChildBoxes, JoinBoxes, TrunContent, BaseTicks, RunSamples, ParseTrun, EntriesBytes;
    var boxes := TrafBoxes(part, offset);
    TrafLayout(part, offset);
    TrunContentSize(part, offset);
    assert [] + JoinBoxes(boxes) == JoinBoxes(boxes);
    ChildrenAreFound([], boxes);
    RunIsRead(part, offset);
    TfhdIsRead(part.track);
    TfdtIsRead(part);
    hide ReadBe32, ReadBe64, TfhdContent, TfdtContent;
    TakeThree(NO_FIELDS, boxes[0], boxes[1], boxes[2]);
    var f1 := TakeChild(NO_FIELDS, boxes[0]);
    var f2 := TakeChild(f1, boxes[1]);
    assert f1 == NO_FIELDS.(trackId := part.track.trackId);
    assert f2 == f1.(baseDecodeTime := BaseTicks(part));
  }

  // ---------- Frames ----------

  /** The decode tick the demuxer reaches at sample `i` by adding up durations. */
  function DecodeTicks(part: Part, i: nat): nat
    requires i <= |part.samples|
  {
    if i == 0 then BaseTicks(part) else DecodeTicks(part, i - 1) + Duration(part, i - 1)
  }

  /** The frame that sample `i` comes back as. */
  function SampleFrame(track: Track, part: Part, i: nat): Event
    requires i < |part.samples|
  {
    var s, ticks := part.samples[i], DecodeTicks(part, i);
    var cts := if part.track.isVideo then Signed32(CtsBits(part, s)) else 0;
    Frame(track.trackId, track.isVideo,
          TimescaleToUs(Wrap64(ticks + cts), track.timescale), TimescaleToUs(Wrap64(ticks), track.timescale),
          part.track.isVideo ==> s.isKeyframe, s.data)
  }

  function PartFrames(track: Track, part: Part): (frames: seq<Event>)
    ensures |frames| == |part.samples|
  {
    seq(|part.samples|, i requires 0 <= i < |part.samples| => SampleFrame(track, part, i))
  }

  ghost predicate SmallSamples(part: Part) {
    forall i :: 0 <= i < |part.samples| ==> |part.samples[i].data| < 0x1_0000_0000
  }

  lemma FrameIsCut(track: Track, part: Part, i: nat)
    requires i < |part.samples| && |part.samples[i].data| < 0x1_0000_0000
    ensures RunSample(part, i).size == |part.samples[i].data|
    ensures FrameOf(track, RunSample(part, i), part.samples[i].data, DecodeTicks(part, i))
         == SampleFrame(track, part, i)
    ensures DecodeTicks(part, i + 1) == DecodeTicks(part, i) + RunSample(part, i).duration
  {
    hide DecodeTicks, Duration, CtsBits, TimescaleToUs, Wrap64;
    assert DecodeTicks(part, i + 1) == DecodeTicks(part, i) + Duration(part, i) by { TicksStep(part, i); }
  }

  lemma TicksStep(part: Part, i: nat)
    requires i < |part.samples|
    ensures DecodeTicks(part, i + 1) == DecodeTicks(part, i) + Duration(part, i)
  {
  }

  lemma PrefixSplits(s: seq<byte>, at: nat, first: seq<byte>, later: seq<byte>)
    requires at <= |s| && first + later <= s[at..]
    ensures at + |first| <= |s| && s[at..at + |first|] == first && later <= s[at + |first|..]
  {
    var both := first + later;
    assert s[at..][..|both|] == both;
    assert s[at..at + |first|] == both[..|first|];
    assert s[at + |first|..][..|later|] == both[|first|..];
  }

  /** Cutting from where a part's bytes begin gives the part's frames, whatever lies before and after them. */
  lemma {:induction false} FramesAreCut(track: Track, part: Part, i: nat, mdat: seq<byte>, offset: nat)
    requires i <= |part.samples| && SmallSamples(part)
    requires offset <= |mdat| && DataBytes(part.samples[i..]) <= mdat[offset..]
    ensures CutFrames(track, RunSamples(part)[i..], mdat, offset, DecodeTicks(part, i)) == PartFrames(track, part)[i..]
    decreases |part.samples| - i
  {
    hide RunSample, FrameOf, SampleFrame, DecodeTicks;
    if i < |part.samples| {
      var data := part.samples[i].data;
      assert part.samples[i..][0] == part.samples[i] && part.samples[i..][1..] == part.samples[i + 1..];
      PrefixSplits(mdat, offset, data, DataBytes(part.samples[i + 1..]));
      FrameIsCut(track, part, i);
      assert RunSamples(part)[i..][0] == RunSample(part, i) && RunSamples(part)[i..][1..] == RunSamples(part)[i + 1..];
      FramesAreCut(track, part, i + 1, mdat, offset + |data|);
      assert RunSamples(part)[i..] == [RunSample(part, i)] + RunSamples(part)[i + 1..];
      assert PartFrames(track, part)[i..] == [SampleFrame(track, part, i)] + PartFrames(track, part)[i + 1..];
    }
  }

  /** The demuxer knows the tracks of all parts. */
  ghost predicate Known(tracks: seq<Track>, parts: seq<Part>) {
    forall i :: 0 <= i < |parts| ==> FindTrack(tracks, parts[i].track.trackId).Some?
  }

  lemma {:induction false} FoundHasId(tracks: seq<Track>, id: u32)
    requires FindTrack(tracks, id).Some?
    ensures FindTrack(tracks, id).value in tracks && FindTrack(tracks, id).value.trackId == id
  {
    if tracks[0].trackId != id {
      FoundHasId(tracks[1..], id);
    }
  }

  /** The frames of all parts, part by part. */
  function SegmentFrames(tracks: seq<Track>, parts: seq<Part>): seq<Event>
    requires Known(tracks, parts)
  {
    if parts == [] then []
    else
      var n := |parts| - 1;
      SegmentFrames(tracks, parts[..n]) + PartFrames(FindTrack(tracks, parts[n].track.trackId).value, parts[n])
  }

  lemma {:induction false} DataOfPart(parts: seq<Part>, k: nat)
    requires k < |parts|
    ensures AllData(parts[..k]) + DataBytes(parts[k].samples) <= AllData(parts)
    decreases |parts|
  {
    hide DataBytes;
    var n := |parts| - 1;
    if k < n {
      assert parts[..n][..k] == parts[..k];
      DataOfPart(parts[..n], k);
    }
  }

  lemma {:induction false} SamplesAreSmall(samples: seq<Sample>)
    ensures forall i :: 0 <= i < |samples| ==> |samples[i].data| <= |DataBytes(samples)|
  {
    if samples != [] {
      SamplesAreSmall(samples[1..]);
    }
  }

  lemma {:induction false} TrafsAreSmall(parts: seq<Part>, k: nat)
    requires k < |parts|
    ensures TrafSize(parts[k]) <= TrafsSize(parts)
    decreases |parts|
  {
    hide TrafSize;
    var n := |parts| - 1;
    if k < n {
      TrafsAreSmall(parts[..n], k);
    }
  }

  /** A traf written with its patched data offset gives exactly its part's frames. */
  lemma TrafComesBack(tracks: seq<Track>, parts: seq<Part>, k: nat)
    requires k < |parts| && Known(tracks, parts) && MoofSize(parts) + 8 + |AllData(parts)| < 0x8000_0000
    ensures var box := TrafBox(parts[k], Offsets(parts, MoofSize(parts) + 8)[k]);
            ParseTraf(tracks, box.1, AllData(parts), MoofSize(parts))
            == PartFrames(FindTrack(tracks, parts[k].track.trackId).value, parts[k])
  {
    hide AllData, DataBytes, ChildBoxes, TakeChildren, TrafBox, TrafSize, TrafsSize, FindTrack, RunSamples;
    hide PartFrames, CutFrames;
    var part, mdat, at := parts[k], AllData(parts), |AllData(parts[..k])|;
    var offset := MoofSize(parts) + 8 + at;
    DataOfPart(parts, k);
    TrafsAreSmall(parts, k);
    SamplesAreSmall(part.samples);
    TrafIsRead(part, offset);
    assert part.samples[0..] == part.samples;
    assert mdat[at..] == mdat[|AllData(parts[..k])|..];
    var track := FindTrack(tracks, part.track.trackId).value;
    FramesAreCut(track, part, 0, mdat, at);
    assert RunSamples(part)[0..] == RunSamples(part);
    assert PartFrames(track, part)[0..] == PartFrames(track, part);
  }

  lemma {:induction false} TrafEventsConcat(tracks: seq<Track>, a: seq<(BoxType, seq<byte>)>,
                                            b: seq<(BoxType, seq<byte>)>, mdat: seq<byte>, moofBoxSize: nat)
    ensures TrafEvents(tracks, a + b, mdat, moofBoxSize)
         == TrafEvents(tracks, a, mdat, moofBoxSize) + TrafEvents(tracks, b, mdat, moofBoxSize)
    decreases |a|
  {
    hide ParseTraf;
    if a == [] {
      assert a + b == b;
    } else {
      assert (a + b)[0] == a[0] && (a + b)[1..] == a[1..] + b;
      TrafEventsConcat(tracks, a[1..], b, mdat, moofBoxSize);
    }
  }

  lemma TrafEventsOne(tracks: seq<Track>, box: (BoxType, seq<byte>), mdat: seq<byte>, moofBoxSize: nat)
    ensures TrafEvents(tracks, [box], mdat, moofBoxSize)
         == if box.0 == TRAF then ParseTraf(tracks, box.1, mdat, moofBoxSize) else []
  {
    hide ParseTraf;
    assert [box][1..] == [];
  }

  lemma {:induction false} TrafsComeBack(tracks: seq<Track>, parts: seq<Part>, k: nat)
    requires k <= |parts| && Known(tracks, parts) && MoofSize(parts) + 8 + |AllData(parts)| < 0x8000_0000
    ensures var trafs := Trafs(parts, Offsets(parts, MoofSize(parts) + 8));
            TrafEvents(tracks, trafs[..k], AllData(parts), MoofSize(parts)) == SegmentFrames(tracks, parts[..k])
    decreases k
  {
    hide ParseTraf, AllData, MoofSize, TrafBox, FindTrack, PartFrames, TrafEvents, Trafs, Offsets;
    var mdat, size := AllData(parts), MoofSize(parts);
    var trafs := Trafs(parts, Offsets(parts, size + 8));
    if k > 0 {
      TrafsComeBack(tracks, parts, k - 1);
      assert trafs[..k] == trafs[..k - 1] + [trafs[k - 1]];
      assert parts[..k][..k - 1] == parts[..k - 1];
      TrafEventsConcat(tracks, trafs[..k - 1], [trafs[k - 1]], mdat, size);
      TrafEventsOne(tracks, trafs[k - 1], mdat, size);
      IsTraf(parts[k - 1], Offsets(parts, size + 8)[k - 1]);
      TrafComesBack(tracks, parts, k - 1);
    } else {
      NoTrafEvents(tracks, mdat, size);
      assert trafs[..0] == [] && parts[..0] == [];
    }
  }

  lemma NoTrafEvents(tracks: seq<Track>, mdat: seq<byte>, moofBoxSize: nat)
    ensures TrafEvents(tracks, [], mdat, moofBoxSize) == []
  {
  }

  /** Demuxing a written fragment gives the frames of its parts: each data offset leads to its part's first byte. */
  lemma FragmentComesBack(tracks: seq<Track>, sequence: u32, parts: seq<Part>)
    requires Known(tracks, parts) && MoofSize(parts) + 8 + |AllData(parts)| < 0x8000_0000
    ensures ExtractFrames(tracks, FragmentBoxes(sequence, parts)[0].1, AllData(parts)) == SegmentFrames(tracks, parts)
  {
    hide AllData, JoinBoxes, ChildBoxes, ParseTraf, TrafEvents, SegmentFrames, TrafBox, TrafsSize;
    var offsets := Offsets(parts, MoofSize(parts) + 8);
    var boxes, trafs := MoofBoxes(sequence, parts, offsets), Trafs(parts, offsets);
    MoofLayout(sequence, parts, offsets);
    MoofChildren(sequence, parts, offsets);
    assert |JoinBoxes(boxes)| + 8 == MoofSize(parts);
    TrafEventsConcat(tracks, [boxes[0]], trafs, AllData(parts), MoofSize(parts));
    TrafEventsOne(tracks, boxes[0], AllData(parts), MoofSize(parts));
    TrafsComeBack(tracks, parts, |parts|);
    assert trafs[..|parts|] == trafs && parts[..|parts|] == parts;
  }

  lemma MoofChildren(sequence: u32, parts: seq<Part>, offsets: seq<int>)
    requires |parts| == |offsets| && MoofSize(parts) < 0x8000_0000
    ensures ChildBoxes(JoinBoxes(MoofBoxes(sequence, parts, offsets)), 0) == MoofBoxes(sequence, parts, offsets)
  {
    hide JoinBoxes, ChildBoxes, TrafBox, TrafsSize, TrafSize, MfhdContent;
    var boxes := MoofBoxes(sequence, parts, offsets);
    assert |MfhdContent(sequence)| == 8 by { MfhdSize(sequence); }
    assert Fits(boxes, 0xFFFF_FFFF) by {
      forall j | 0 <= j < |boxes| ensures |boxes[j].0| == 4 && 8 + |boxes[j].1| < 0x8000_0000 {
        if j > 0 {
          assert boxes[j] == TrafBox(parts[j - 1], offsets[j - 1]);
          TrafLayout(parts[j - 1], offsets[j - 1]);
          TrafsAreSmall(parts, j - 1);
          IsTraf(parts[j - 1], offsets[j - 1]);
        }
      }
    }
    assert [] + JoinBoxes(boxes) == JoinBoxes(boxes);
    ChildrenAreFound([], boxes);
  }

  lemma MfhdSize(sequence: u32)
    ensures |MfhdContent(sequence)| == 8
  {
  }

  // ---------- Segments ----------

  function SegmentSize(styp: bool, sidx: bool, parts: seq<Part>): nat {
    (if styp then 24 else 0) + (if sidx then 48 else 0) + MoofSize(parts) + 8 + |AllData(parts)|
  }

  /** Leading boxes are passed over. */
  lemma {:induction false} LeadIsIgnored(b: Boxes, lead: seq<(BoxType, seq<byte>)>, parseMoov: seq<byte> -> seq<Track>)
    requires forall i :: 0 <= i < |lead| ==> lead[i].0 == STYP || lead[i].0 == SIDX
    ensures TakeItems(b, BoxItems(lead), parseMoov) == BoxStep(b, [])
    decreases |lead|
  {
    if lead != [] {
      assert BoxItems(lead)[1..] == BoxItems(lead[1..]);
      assert TakeItem(b, BoxItems(lead)[0], parseMoov) == BoxStep(b, []);
      hide TakeItem;
      LeadIsIgnored(b, lead[1..], parseMoov);
    }
  }

  lemma FragmentIsTaken(b: Boxes, moof: seq<byte>, mdat: seq<byte>, parseMoov: seq<byte> -> seq<Track>)
    ensures TakeItems(b, [BoxItem(MOOF, moof), BoxItem(MDAT, mdat)], parseMoov)
         == BoxStep(b.(pendingMoof := None), ExtractFrames(b.tracks, moof, mdat))
  {
    hide ExtractFrames;
    var first := TakeItem(b, BoxItem(MOOF, moof), parseMoov);
    assert first == BoxStep(b.(pendingMoof := Some(moof)), []);
    var second := TakeItem(first.boxes, BoxItem(MDAT, mdat), parseMoov);
    assert second == BoxStep(b.(pendingMoof := None), ExtractFrames(b.tracks, moof, mdat));
    hide TakeItem;
    var items := [BoxItem(MOOF, moof), BoxItem(MDAT, mdat)];
    assert items[1..] == [BoxItem(MDAT, mdat)] && items[1..][1..] == [];
    assert TakeItems(first.boxes, [BoxItem(MDAT, mdat)], parseMoov) == BoxStep(second.boxes, second.events + []);
  }

  lemma LeadFits(styp: bool, sidx: bool, tracks: seq<MuxTrack>, samples: seq<Sample>, size: nat)
    ensures var lead := Lead(styp, sidx, tracks, samples, size);
            forall i :: 0 <= i < |lead| ==>
              (lead[i].0 == STYP && styp && 8 + |lead[i].1| == 24)
              || (lead[i].0 == SIDX && sidx && 8 + |lead[i].1| == 48)
  {
    hide SidxHead, AnyKeyframe, FragmentDuration;
  }

  /** A whole segment, pushed at once with nothing buffered, gives the frames of its parts and leaves nothing. */
  lemma SegmentComesBack(styp: bool, sidx: bool, tracks: seq<MuxTrack>, samples: seq<Sample>, sequence: u32,
                         boxes: Boxes, max: nat, parseMoov: seq<byte> -> seq<Track>)
    requires var parts := SegmentParts(tracks, samples);
             Known(boxes.tracks, parts)
             && SegmentSize(styp, sidx, parts) < 0x8000_0000 && SegmentSize(styp, sidx, parts) <= max
    ensures Push(State([], 0, boxes), JoinBoxes(SegmentBoxes(styp, sidx, tracks, samples, sequence)), max, parseMoov)
         == Pushed(State([], 0, boxes.(pendingMoof := None)),
                   SegmentFrames(boxes.tracks, SegmentParts(tracks, samples)))
  {
    hide SegmentParts, JoinBoxes, MoofBoxes, AllData, SegmentFrames, ScanBoxes, Lead;
    hide TakeItems, ExtractFrames, SegmentSize, Fits, Offsets;
    var parts := SegmentParts(tracks, samples);
    var fragment := FragmentBoxes(sequence, parts);
    var lead := Lead(styp, sidx, tracks, samples, |JoinBoxes(fragment)|);
    var all := lead + fragment;
    SegmentFits(styp, sidx, tracks, samples, sequence, max);
    ScanFindsBoxes(all, max);
    var bytes := JoinBoxes(all);
    assert ([] + bytes)[0..] == bytes;
    var tail := [BoxItem(MOOF, fragment[0].1), BoxItem(MDAT, AllData(parts))];
    assert BoxItems(all) == BoxItems(lead) + tail;
    TakeItemsConcat(boxes, BoxItems(lead), tail, parseMoov);
    LeadFits(styp, sidx, tracks, samples, |JoinBoxes(fragment)|);
    LeadIsIgnored(boxes, lead, parseMoov);
    FragmentIsTaken(boxes, fragment[0].1, AllData(parts), parseMoov);
    PartsFit(styp, sidx, parts);
    FragmentComesBack(boxes.tracks, sequence, parts);
  }

  lemma PartsFit(styp: bool, sidx: bool, parts: seq<Part>)
    ensures MoofSize(parts) + 8 + |AllData(parts)| <= SegmentSize(styp, sidx, parts)
  {
    hide MoofSize, AllData;
  }

  lemma SegmentFits(styp: bool, sidx: bool, tracks: seq<MuxTrack>, samples: seq<Sample>, sequence: u32, max: nat)
    requires var parts := SegmentParts(tracks, samples);
             SegmentSize(styp, sidx, parts) < 0x8000_0000 && SegmentSize(styp, sidx, parts) <= max
    ensures Fits(SegmentBoxes(styp, sidx, tracks, samples, sequence), max)
  {
    hide SegmentParts, JoinBoxes, MoofBoxes, AllData, Lead, MoofSize, Offsets;
    var parts := SegmentParts(tracks, samples);
    var fragment := FragmentBoxes(sequence, parts);
    var lead := Lead(styp, sidx, tracks, samples, |JoinBoxes(fragment)|);
    LeadFits(styp, sidx, tracks, samples, |JoinBoxes(fragment)|);
    FragmentSizes(sequence, parts);
    hide FragmentBoxes;
    assert SegmentBoxes(styp, sidx, tracks, samples, sequence) == lead + fragment;
  }

  lemma FragmentSizes(sequence: u32, parts: seq<Part>)
    ensures var fragment := FragmentBoxes(sequence, parts);
            |fragment| == 2 && fragment[0].0 == MOOF && fragment[1].0 == MDAT
            && 8 + |fragment[0].1| == MoofSize(parts) && |fragment[1].1| == |AllData(parts)|
  {
    hide JoinBoxes, MoofBoxes, AllData;
    MoofLayout(sequence, parts, Offsets(parts, MoofSize(parts) + 8));
  }

  // ---------- Per track ----------

  /** The payloads and key frame marks of the frames of one track. */
  function Received(events: seq<Event>, id: u32): seq<(seq<byte>, bool)> {
    if events == [] then []
    else
      var n := |events| - 1;
      Received(events[..n], id)
      + if events[n].Frame? && events[n].trackId == id then [(events[n].data, events[n].keyframe)] else []
  }

  /** The payloads of the samples of one track; audio samples count as key frames. */
  function Sent(samples: seq<Sample>, id: u32, isVideo: bool): seq<(seq<byte>, bool)> {
    if samples == [] then []
    else
      var n := |samples| - 1;
      Sent(samples[..n], id, isVideo)
      + if samples[n].trackId == id then [(samples[n].data, isVideo ==> samples[n].isKeyframe)] else []
  }

  lemma {:induction false} ReceivedConcat(a: seq<Event>, b: seq<Event>, id: u32)
    ensures Received(a + b, id) == Received(a, id) + Received(b, id)
    decreases |b|
  {
    if b == [] {
      assert a + b == a;
    } else {
      var n := |b| - 1;
      assert (a + b)[..|a| + n] == a + b[..n] && (a + b)[|a| + n] == b[n];
      ReceivedConcat(a, b[..n], id);
    }
  }

  lemma {:induction false} SentConcat(a: seq<Sample>, b: seq<Sample>, id: u32, isVideo: bool)
    ensures Sent(a + b, id, isVideo) == Sent(a, id, isVideo) + Sent(b, id, isVideo)
    decreases |b|
  {
    if b == [] {
      assert a + b == a;
    } else {
      var n := |b| - 1;
      assert (a + b)[..|a| + n] == a + b[..n] && (a + b)[|a| + n] == b[n];
      SentConcat(a, b[..n], id, isVideo);
    }
  }

  ghost predicate DistinctIds(tracks: seq<MuxTrack>) {
    forall i, j :: 0 <= i < j < |tracks| ==> tracks[i].trackId != tracks[j].trackId
  }

  /** Every sample of a part is of the part's track. */
  ghost predicate Pure(part: Part) {
    forall i :: 0 <= i < |part.samples| ==> part.samples[i].trackId == part.track.trackId
  }

  lemma {:induction false} PartReceived(track: Track, part: Part, n: nat, id: u32)
    requires n <= |part.samples| && Pure(part) && track.trackId == part.track.trackId
    ensures Received(PartFrames(track, part)[..n], id)
         == if part.track.trackId == id then Sent(part.samples[..n], id, part.track.isVideo) else []
    decreases n
  {
    hide DecodeTicks, TimescaleToUs, CtsBits, Wrap64;
    if n > 0 {
      var frames := PartFrames(track, part);
      PartReceived(track, part, n - 1, id);
      assert frames[..n][..n - 1] == frames[..n - 1] && part.samples[..n][..n - 1] == part.samples[..n - 1];
      assert frames[..n][n - 1] == SampleFrame(track, part, n - 1) && part.samples[..n][n - 1] == part.samples[n - 1];
    }
  }

  /** A group is exactly the samples of its track, in order. */
  lemma {:induction false} GroupIsSent(tracks: seq<MuxTrack>, samples: seq<Sample>, k: nat, isVideo: bool)
    requires k < |tracks| && DistinctIds(tracks)
    ensures var group := GroupOf(tracks, samples, k);
            (forall i :: 0 <= i < |group| ==> group[i].trackId == tracks[k].trackId)
            && Sent(group, tracks[k].trackId, isVideo) == Sent(samples, tracks[k].trackId, isVideo)
    decreases |samples|
  {
    if samples != [] {
      var n := |samples| - 1;
      GroupIsSent(tracks, samples[..n], k, isVideo);
      var group := GroupOf(tracks, samples[..n], k);
      hide Sent;
      var id := tracks[k].trackId;
      assert samples == samples[..n] + [samples[n]];
      SentSnoc(group, samples[n], id, isVideo);
      SentSnoc(samples[..n], samples[n], id, isVideo);
      if samples[n].trackId == id {
        assert GroupOf(tracks, samples, k) == group + [samples[n]];
      } else {
        assert GroupOf(tracks, samples, k) == group;
      }
    }
  }

  lemma SentSnoc(samples: seq<Sample>, last: Sample, id: u32, isVideo: bool)
    ensures Sent(samples + [last], id, isVideo)
         == Sent(samples, id, isVideo) + if last.trackId == id then [(last.data, isVideo ==> last.isKeyframe)] else []
  {
    assert (samples + [last])[..|samples|] == samples;
  }

  /** What is received of track `k` is what was sent of it. */
  lemma {:induction false} PartsReceived(known: seq<Track>, tracks: seq<MuxTrack>, samples: seq<Sample>, n: nat, k: nat)
    requires n <= |tracks| && k < |tracks| && DistinctIds(tracks)
    requires Known(known, PartsOf(tracks, Groups(tracks, samples), n))
    ensures Received(SegmentFrames(known, PartsOf(tracks, Groups(tracks, samples), n)), tracks[k].trackId)
         == if k < n then Sent(samples, tracks[k].trackId, tracks[k].isVideo) else []
    decreases n
  {
    hide GroupOf, PartFrames, FindTrack, Sent, Received, PartsOf, SegmentFrames;
    var groups, id := Groups(tracks, samples), tracks[k].trackId;
    if n == 0 {
      NoParts(tracks, groups);
      NothingReceived(known, id);
    } else {
      var before, after := PartsOf(tracks, groups, n - 1), PartsOf(tracks, groups, n);
      NextPart(tracks, groups, n - 1);
      GroupIsSent(tracks, samples, n - 1, tracks[n - 1].isVideo);
      assert Known(known, before) by {
        forall i | 0 <= i < |before| ensures FindTrack(known, before[i].track.trackId).Some? {
          assert before[i] == after[i];
        }
      }
      PartsReceived(known, tracks, samples, n - 1, k);
      if groups[n - 1] == [] {
        NothingSent(id, tracks[k].isVideo);
      } else {
        var part: Part := Part(tracks[n - 1], groups[n - 1]);
        assert after[|before|] == part;
        var track := FindTrack(known, part.track.trackId).value;
        FoundHasId(known, part.track.trackId);
        SegmentFramesSnoc(known, before, part);
        ReceivedConcat(SegmentFrames(known, before), PartFrames(track, part), id);
        PartReceived(track, part, |part.samples|, id);
        assert PartFrames(track, part)[..|part.samples|] == PartFrames(track, part);
        assert part.samples[..|part.samples|] == part.samples;
      }
    }
  }

  lemma NothingReceived(known: seq<Track>, id: u32)
    ensures Received(SegmentFrames(known, []), id) == []
  {
  }

  lemma NothingSent(id: u32, isVideo: bool)
    ensures Sent([], id, isVideo) == []
  {
  }

  lemma SegmentFramesSnoc(known: seq<Track>, before: seq<Part>, part: Part)
    requires Known(known, before + [part]) && FindTrack(known, part.track.trackId).Some?
    ensures Known(known, before)
    ensures SegmentFrames(known, before + [part])
         == SegmentFrames(known, before) + PartFrames(FindTrack(known, part.track.trackId).value, part)
  {
    hide FindTrack, PartFrames;
    assert (before + [part])[..|before|] == before && (before + [part])[|before|] == part;
    forall i | 0 <= i < |before| ensures FindTrack(known, before[i].track.trackId).Some? {
      assert before[i] == (before + [part])[i];
    }
  }

  // ---------- Whole streams ----------

  /** The bytes of all segments written one after the other. */
  function StreamBytes(styp: bool, sidx: bool, tracks: seq<MuxTrack>, segments: seq<seq<Sample>>,
                       sequence: u32): seq<byte>
    decreases |segments|
  {
    if segments == [] then []
    else if segments[0] == [] then StreamBytes(styp, sidx, tracks, segments[1..], sequence)
    else
      JoinBoxes(SegmentBoxes(styp, sidx, tracks, segments[0], U32(sequence + 1)))
      + StreamBytes(styp, sidx, tracks, segments[1..], U32(sequence + 1))
  }

  /** The muxer's tracks have distinct ids, and the demuxer knows each of them. */
  ghost predicate TracksAgree(tracks: seq<MuxTrack>, known: seq<Track>) {
    DistinctIds(tracks) && forall i :: 0 <= i < |tracks| ==> FindTrack(known, tracks[i].trackId).Some?
  }

  ghost predicate SegmentsFit(styp: bool, sidx: bool, tracks: seq<MuxTrack>, segments: seq<seq<Sample>>, max: nat) {
    forall i :: 0 <= i < |segments| ==>
      SegmentSize(styp, sidx, SegmentParts(tracks, segments[i])) < 0x8000_0000
      && SegmentSize(styp, sidx, SegmentParts(tracks, segments[i])) <= max
  }

  lemma {:induction false} PartsAreKnown(known: seq<Track>, tracks: seq<MuxTrack>, groups: seq<seq<Sample>>, n: nat)
    requires n <= |tracks| == |groups| && forall i :: 0 <= i < |tracks| ==> FindTrack(known, tracks[i].trackId).Some?
    ensures Known(known, PartsOf(tracks, groups, n))
    decreases n
  {
    hide FindTrack;
    if n > 0 {
      PartsAreKnown(known, tracks, groups, n - 1);
    }
  }

  /** A frame for every matched sample and nothing else: no diagnostics. */
  ghost predicate OnlyFrames(events: seq<Event>) {
    forall i :: 0 <= i < |events| ==> events[i].Frame?
  }

  lemma {:induction false} SegmentGivesOnlyFrames(known: seq<Track>, parts: seq<Part>)
    requires Known(known, parts)
    ensures OnlyFrames(SegmentFrames(known, parts))
    decreases |parts|
  {
    hide FindTrack, DecodeTicks, TimescaleToUs, CtsBits, Wrap64;
    if parts != [] {
      SegmentGivesOnlyFrames(known, parts[..|parts| - 1]);
    }
  }

  lemma {:induction false} StreamPushed(styp: bool, sidx: bool, tracks: seq<MuxTrack>, segments: seq<seq<Sample>>,
                                        sequence: u32, boxes: Boxes, max: nat,
                                        parseMoov: seq<byte> -> seq<Track>, k: nat)
    requires TracksAgree(tracks, boxes.tracks) && SegmentsFit(styp, sidx, tracks, segments, max)
    ensures var bytes := StreamBytes(styp, sidx, tracks, segments, sequence);
            var pushed := Push(State([], 0, boxes), bytes, max, parseMoov);
            pushed.state.buffer == [] && pushed.state.skipRemaining == 0 && pushed.state.boxes.tracks == boxes.tracks
            && OnlyFrames(pushed.events)
            && (k < |tracks| ==>
                  Received(pushed.events, tracks[k].trackId)
                    == Sent(Flatten(segments), tracks[k].trackId, tracks[k].isVideo))
    decreases |segments|
  {
    hide Push, SegmentParts, JoinBoxes, SegmentBoxes, SegmentSize, SegmentFrames, Received, Sent, FindTrack;
    var (id, isVideo) := if k < |tracks| then (tracks[k].trackId, tracks[k].isVideo) else (0, false);
    if segments == [] {
      NothingPushed(boxes, max, parseMoov);
      NothingReceived([], id);
      NothingSent(id, isVideo);
      NoFrames();
    } else {
      var samples, later := segments[0], Flatten(segments[1..]);
      assert Flatten(segments) == samples + later;
      if samples == [] {
        assert samples + later == later;
        StreamPushed(styp, sidx, tracks, segments[1..], sequence, boxes, max, parseMoov, k);
      } else {
        var next := U32(sequence + 1);
        var bytes := JoinBoxes(SegmentBoxes(styp, sidx, tracks, samples, next));
        var rest := StreamBytes(styp, sidx, tracks, segments[1..], next);
        OneSegmentPushed(styp, sidx, tracks, samples, next, boxes, max, parseMoov, k);
        PushSplits(State([], 0, boxes), bytes, rest, max, parseMoov);
        var first := Push(State([], 0, boxes), bytes, max, parseMoov);
        StreamPushed(styp, sidx, tracks, segments[1..], next, first.state.boxes, max, parseMoov, k);
        var second := Push(first.state, rest, max, parseMoov);
        ReceivedConcat(first.events, second.events, id);
        SentConcat(samples, later, id, isVideo);
      }
    }
  }

  lemma NoFrames()
    ensures SegmentFrames([], []) == []
  {
  }

  lemma NothingPushed(boxes: Boxes, max: nat, parseMoov: seq<byte> -> seq<Track>)
    ensures Push(State([], 0, boxes), [], max, parseMoov) == Pushed(State([], 0, boxes), [])
  {
    hide NextBox;
    assert NextBox([], max) == Wait by { NothingInFront(max); }
    ScanFollows([], max, Wait);
    var nothing: seq<byte> := [];
    assert (nothing + nothing)[0..] == nothing;
  }

  lemma NothingInFront(max: nat)
    ensures NextBox([], max) == Wait
  {
  }

  lemma OneSegmentPushed(styp: bool, sidx: bool, tracks: seq<MuxTrack>, samples: seq<Sample>, sequence: u32,
                         boxes: Boxes, max: nat, parseMoov: seq<byte> -> seq<Track>, k: nat)
    requires TracksAgree(tracks, boxes.tracks)
    requires SegmentSize(styp, sidx, SegmentParts(tracks, samples)) < 0x8000_0000
    requires SegmentSize(styp, sidx, SegmentParts(tracks, samples)) <= max
    ensures var bytes := JoinBoxes(SegmentBoxes(styp, sidx, tracks, samples, sequence));
            var pushed := Push(State([], 0, boxes), bytes, max, parseMoov);
            pushed.state == State([], 0, boxes.(pendingMoof := None))
            && OnlyFrames(pushed.events)
            && (k < |tracks| ==>
                  Received(pushed.events, tracks[k].trackId) == Sent(samples, tracks[k].trackId, tracks[k].isVideo))
  {
    hide Push, JoinBoxes, SegmentBoxes, SegmentSize, SegmentFrames, Received, Sent, FindTrack, PartsOf, GroupOf;
    PartsAreKnown(boxes.tracks, tracks, Groups(tracks, samples), |tracks|);
    SegmentComesBack(styp, sidx, tracks, samples, sequence, boxes, max, parseMoov);
    SegmentGivesOnlyFrames(boxes.tracks, SegmentParts(tracks, samples));
    if k < |tracks| {
      PartsReceived(boxes.tracks, tracks, samples, |tracks|, k);
    }
  }

  /** Whatever segments are written, and however their bytes are cut into chunks, the demuxer gives for every track
      exactly the payloads of its samples in order with the right key frame marks, no diagnostics, and ends with
      nothing buffered. */
  lemma StreamComesBack(styp: bool, sidx: bool, tracks: seq<MuxTrack>, segments: seq<seq<Sample>>, sequence: u32,
                        chunks: seq<seq<byte>>, boxes: Boxes, max: nat, parseMoov: seq<byte> -> seq<Track>)
    requires TracksAgree(tracks, boxes.tracks) && SegmentsFit(styp, sidx, tracks, segments, max)
    requires Flatten(chunks) == StreamBytes(styp, sidx, tracks, segments, sequence)
    ensures var pushed := PushAll(State([], 0, boxes), chunks, max, parseMoov);
            pushed.state.buffer == [] && pushed.state.skipRemaining == 0
            && OnlyFrames(pushed.events)
            && forall k :: 0 <= k < |tracks| ==>
                 Received(pushed.events, tracks[k].trackId)
                   == Sent(Flatten(segments), tracks[k].trackId, tracks[k].isVideo)
  {
    hide Push, StreamBytes, SegmentsFit, TracksAgree, OnlyFrames, Received, Sent;
    var start := State([], 0, boxes);
    if chunks == [] {
      NothingPushed(boxes, max, parseMoov);
    } else {
      ChunksDoNotMatter(start, chunks, max, parseMoov);
    }
    StreamPushed(styp, sidx, tracks, segments, sequence, boxes, max, parseMoov, 0);
    forall k | 0 <= k < |tracks|
      ensures Received(PushAll(start, chunks, max, parseMoov).events, tracks[k].trackId)
           == Sent(Flatten(segments), tracks[k].trackId, tracks[k].isVideo)
    {
      StreamPushed(styp, sidx, tracks, segments, sequence, boxes, max, parseMoov, k);
    }
  }

  // ---------- Timing ----------

  /** For microseconds at least zero, the ticks are the exact quotient rounded down. */
  lemma TicksAreFloor(us: nat, timescale: u32)
    ensures UsToTimescale(us, timescale) == us * timescale / 1_000_000
  {
    var q, r := us / 1_000_000, us % 1_000_000;
    assert us == q * 1_000_000 + r && r == us - q * 1_000_000;
    assert r * timescale >= 0;
    assert us * timescale == (q * timescale) * 1_000_000 + r * timescale by {
      assert us * timescale == (q * 1_000_000 + r) * timescale;
      assert (q * 1_000_000 + r) * timescale == q * 1_000_000 * timescale + r * timescale;
      assert q * 1_000_000 * timescale == (q * timescale) * 1_000_000;
    }
    FloorSplits(q * timescale, r * timescale);
  }

  lemma FloorSplits(whole: int, x: nat)
    ensures (whole * 1_000_000 + x) / 1_000_000 == whole + x / 1_000_000
  {
  }

  lemma FloorAdds(a: nat, b: nat)
    ensures a / 1_000_000 + b / 1_000_000 <= (a + b) / 1_000_000 <= a / 1_000_000 + b / 1_000_000 + 1
  {
  }

  /** The exact decode time of a sample in ticks, rounded down. */
  function TrueTicks(part: Part, i: nat): int
    requires i < |part.samples|
  {
    part.samples[i].dtsUs * part.track.timescale / 1_000_000
  }

  /** Decode times start at zero or later and do not fall; times and steps fit their fields. */
  ghost predicate Timed(part: Part) {
    part.samples[0].dtsUs >= 0 && UsToTimescale(part.samples[0].dtsUs, part.track.timescale) < TWO64
    && forall i :: 0 < i < |part.samples| ==>
         part.samples[i - 1].dtsUs <= part.samples[i].dtsUs
         && UsToTimescale(part.samples[i].dtsUs as int - part.samples[i - 1].dtsUs, part.track.timescale)
            < 0x1_0000_0000
  }

  /** The sum of truncated durations falls short of the exact decode tick by at most one tick per sample, and
      never runs ahead of it; each fragment starts without error. */
  lemma {:induction false} TicksFollowTime(part: Part, i: nat)
    requires Timed(part) && i < |part.samples|
    ensures part.samples[i].dtsUs >= 0
    ensures TrueTicks(part, i) - i <= DecodeTicks(part, i) <= TrueTicks(part, i)
  {
    hide UsToTimescale;
    var ts := part.track.timescale;
    if i == 0 {
      TicksAreFloor(part.samples[0].dtsUs, ts);
      ProductNotNegative(part.samples[0].dtsUs, ts);
    } else {
      TicksFollowTime(part, i - 1);
      DurationIsFloor(part, i);
      hide Timed, Duration;
      var before: nat, step: nat := part.samples[i - 1].dtsUs, part.samples[i].dtsUs as int - part.samples[i - 1].dtsUs;
      assert part.samples[i].dtsUs == before + step;
      StepFollows(before, step, ts, DecodeTicks(part, i - 1), i - 1);
    }
  }

  lemma DurationIsFloor(part: Part, i: nat)
    requires Timed(part) && 0 < i < |part.samples|
    ensures part.samples[i - 1].dtsUs <= part.samples[i].dtsUs
    ensures var step := part.samples[i].dtsUs as int - part.samples[i - 1].dtsUs;
            Duration(part, i - 1) == step * part.track.timescale / 1_000_000
  {
    hide UsToTimescale;
    var step := part.samples[i].dtsUs as int - part.samples[i - 1].dtsUs;
    TicksAreFloor(step, part.track.timescale);
    ProductNotNegative(step, part.track.timescale);
  }

  lemma StepFollows(before: nat, step: nat, ts: nat, ticks: nat, i: nat)
    requires before * ts / 1_000_000 - i <= ticks <= before * ts / 1_000_000
    ensures var exact, after := (before + step) * ts / 1_000_000, ticks + step * ts / 1_000_000;
            exact - (i + 1) <= after <= exact
  {
    ProductNotNegative(before, ts);
    ProductNotNegative(step, ts);
    assert (before + step) * ts == before * ts + step * ts;
    FloorAdds(before * ts, step * ts);
  }

  lemma ProductNotNegative(a: nat, b: nat)
    ensures a * b >= 0
  {
  }

  lemma MicrosAreFloor(ticks: nat, timescale: u32)
    requires timescale > 0
    ensures TimescaleToUs(ticks, timescale) * timescale <= ticks * 1_000_000
    ensures ticks * 1_000_000 < (TimescaleToUs(ticks, timescale) + 1) * timescale
  {
    var ts: int := timescale;
    var q, r: int := ticks / ts, ticks % ts;
    assert ticks == q * ts + r && r == ticks - q * ts;
    var x := r * 1_000_000;
    var micros := x / ts;
    assert TimescaleToUs(ticks, timescale) == q * 1_000_000 + micros;
    assert x == micros * ts + x % ts;
    assert (q * 1_000_000 + micros) * ts == q * ts * 1_000_000 + micros * ts;
  }

  /** Hence the decode time a frame comes back with is never late, and early by less than one microsecond plus one
      tick for itself and for each sample before it in the fragment. */
  lemma TimeComesBack(track: Track, part: Part, i: nat)
    requires Timed(part) && i < |part.samples| && track.timescale == part.track.timescale > 0
    requires DecodeTicks(part, i) < TWO63
    ensures var early := part.samples[i].dtsUs as int - SampleFrame(track, part, i).dtsUs;
            early >= 0 && early * track.timescale < (i + 1) * 1_000_000 + track.timescale
  {
    hide Timed, DecodeTicks, TimescaleToUs, CtsBits;
    TicksFollowTime(part, i);
    var ts: int, ticks, d: int := track.timescale, DecodeTicks(part, i), part.samples[i].dtsUs;
    var back := TimescaleToUs(ticks, ts);
    MicrosAreFloor(ticks, ts);
    assert SampleFrame(track, part, i).dtsUs == back by {
      assert Wrap64(ticks) == ticks;
    }
    ClockBounds(d, back, ts, ticks, i);
  }

  lemma ClockBounds(d: nat, back: int, ts: int, ticks: nat, i: nat)
    requires ts > 0 && d * ts / 1_000_000 - i <= ticks <= d * ts / 1_000_000
    requires back * ts <= ticks * 1_000_000 < (back + 1) * ts
    ensures d - back >= 0 && (d - back) * ts < (i + 1) * 1_000_000 + ts
  {
    assert ticks * 1_000_000 <= d * ts < (ticks + i + 1) * 1_000_000;
    assert (d - back) * ts == d * ts - back * ts;
    assert (back + 1) * ts == back * ts + ts;
    Cancel(d, back, ts);
  }

  lemma Cancel(a: int, b: int, c: int)
    requires c > 0 && a * c >= b * c
    ensures a >= b
  {
    assert (a - b) * c == a * c - b * c;
  }

  lemma TicksOfOpposite(us: int, timescale: u32)
    requires us >= 0
    ensures UsToTimescale(-us, timescale) == -UsToTimescale(us, timescale)
  {
    var q: int, r: int := us / 1_000_000, us % 1_000_000;
    ProductNotNegative(r, timescale);
    assert TruncDiv(-us, 1_000_000) == -q && TruncDiv(us, 1_000_000) == q;
    assert -us - -q * 1_000_000 == -r && us - q * 1_000_000 == r;
    assert (-r) * timescale == -(r * timescale) && (-q) * timescale == -(q * timescale);
    assert TruncDiv(-(r * timescale), 1_000_000) == -TruncDiv(r * timescale, 1_000_000);
  }

  lemma MicrosOfOpposite(ticks: int, timescale: u32)
    requires ticks >= 0 && timescale > 0
    ensures TimescaleToUs(-ticks, timescale) == -TimescaleToUs(ticks, timescale)
  {
    var ts: int := timescale;
    var q, r: int := ticks / ts, ticks % ts;
    assert ticks == q * ts + r;
    assert TruncDiv(-ticks, ts) == -q && TruncDiv(ticks, ts) == q;
    assert (-q) * ts == -(q * ts);
    assert TruncDiv(-(r * 1_000_000), ts) == -TruncDiv(r * 1_000_000, ts);
  }

  /** Truncation toward zero loses less than one tick, in either direction. */
  lemma TicksTruncate(us: int, timescale: u32)
    ensures us * timescale - 1_000_000 < UsToTimescale(us, timescale) * 1_000_000 < us * timescale + 1_000_000
    ensures us >= 0 ==> 0 <= UsToTimescale(us, timescale) * 1_000_000 <= us * timescale
  {
    hide UsToTimescale;
    var size: int := if us >= 0 then us else -us;
    TicksAreFloor(size, timescale);
    ProductNotNegative(size, timescale);
    if us < 0 {
      TicksOfOpposite(size, timescale);
      assert us * timescale == -(size * timescale);
    }
  }

  lemma MicrosTruncate(ticks: int, timescale: u32)
    requires timescale > 0
    ensures ticks * 1_000_000 - timescale < TimescaleToUs(ticks, timescale) * timescale
    ensures TimescaleToUs(ticks, timescale) * timescale < ticks * 1_000_000 + timescale
    ensures ticks >= 0 ==> TimescaleToUs(ticks, timescale) * timescale <= ticks * 1_000_000
  {
    hide TimescaleToUs;
    var size: int := if ticks >= 0 then ticks else -ticks;
    var micros := TimescaleToUs(size, timescale);
    MicrosAreFloor(size, timescale);
    assert (micros + 1) * timescale == micros * timescale + timescale;
    if ticks < 0 {
      MicrosOfOpposite(size, timescale);
      assert (-micros) * timescale == -(micros * timescale);
    }
  }

  /** The composition offset in ticks fits its field. */
  ghost predicate OffsetFits(part: Part, s: Sample) {
    -0x8000_0000 <= UsToTimescale(s.ptsUs as int - s.dtsUs as int, part.track.timescale) < 0x8000_0000
  }

  lemma OffsetIsRead(part: Part, s: Sample)
    requires OffsetFits(part, s)
    ensures Signed32(CtsBits(part, s)) == UsToTimescale(s.ptsUs as int - s.dtsUs as int, part.track.timescale)
  {
    hide UsToTimescale;
  }

  /** The presentation time of a video frame comes back within one more tick than its decode time, early or late, and
      never late when it is not before the decode time. An audio run carries no composition offset: the presentation
      time is early by that offset more than the decode time is, so it comes back as the decode time does when both are
      equal. */
  lemma PresentationTimeComesBack(track: Track, part: Part, i: nat)
    requires Timed(part) && i < |part.samples| && track.timescale == part.track.timescale > 0
    requires DecodeTicks(part, i) < TWO63 - 0x8000_0000 && OffsetFits(part, part.samples[i])
    ensures var s, frame := part.samples[i], SampleFrame(track, part, i);
            var early := s.ptsUs as int - frame.ptsUs;
            if part.track.isVideo then
              -1_000_000 - track.timescale < early * track.timescale < (i + 2) * 1_000_000 + track.timescale
              && (s.ptsUs >= s.dtsUs ==> early >= 0)
            else
              var composition := s.ptsUs as int - s.dtsUs;
              frame.ptsUs == frame.dtsUs && early >= composition
              && (early - composition) * track.timescale < (i + 1) * 1_000_000 + track.timescale
  {
    hide Timed, DecodeTicks, TimescaleToUs, CtsBits, UsToTimescale;
    TicksFollowTime(part, i);
    TimeComesBack(track, part, i);
    if part.track.isVideo {
      var s, ts := part.samples[i], track.timescale;
      var d: nat, ticks, offset := s.dtsUs, DecodeTicks(part, i), s.ptsUs as int - s.dtsUs as int;
      OffsetIsRead(part, s);
      var c := UsToTimescale(offset, ts);
      assert Wrap64(ticks + c) == ticks + c;
      assert SampleFrame(track, part, i).ptsUs == TimescaleToUs(ticks + c, ts);
      assert d + offset == s.ptsUs as int;
      hide *;
      RebuiltTime(d, offset, ts, ticks, i);
    }
  }

  lemma RebuiltTime(d: nat, offset: int, ts: u32, ticks: nat, i: nat)
    requires ts > 0 && d * ts / 1_000_000 - i <= ticks <= d * ts / 1_000_000
    ensures var early := d + offset - TimescaleToUs(ticks + UsToTimescale(offset, ts), ts);
            -1_000_000 - ts < early * ts < (i + 2) * 1_000_000 + ts && (offset >= 0 ==> early >= 0)
  {
    hide TimescaleToUs, UsToTimescale;
    var c := UsToTimescale(offset, ts);
    TicksTruncate(offset, ts);
    MicrosTruncate(ticks + c, ts);
    PresentationBounds(d, offset, TimescaleToUs(ticks + c, ts), ts, ticks, c, i);
  }

  lemma PresentationBounds(d: nat, offset: int, back: int, ts: int, ticks: nat, c: int, i: nat)
    requires ts > 0 && d * ts / 1_000_000 - i <= ticks <= d * ts / 1_000_000
    requires offset * ts - 1_000_000 < c * 1_000_000 < offset * ts + 1_000_000
    requires offset >= 0 ==> 0 <= c * 1_000_000 <= offset * ts
    requires (ticks + c) * 1_000_000 - ts < back * ts < (ticks + c) * 1_000_000 + ts
    requires ticks + c >= 0 ==> back * ts <= (ticks + c) * 1_000_000
    ensures var early := d + offset - back;
            -1_000_000 - ts < early * ts < (i + 2) * 1_000_000 + ts && (offset >= 0 ==> early >= 0)
  {
    assert ticks * 1_000_000 <= d * ts < (ticks + i + 1) * 1_000_000;
    assert (d + offset - back) * ts == d * ts + offset * ts - back * ts;
    if offset >= 0 {
      assert (d + offset) * ts == d * ts + offset * ts;
      Cancel(d + offset, back, ts);
    }
  }
}
