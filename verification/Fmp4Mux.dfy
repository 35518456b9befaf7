/** Fragmented MP4: writing media segments with nested, size-patched boxes and per-track data offsets. */
module Fmp4Mux {
  import opened Bytes
  import opened Fmp4Demux

  datatype MuxTrack = MuxTrack(trackId: u32, isVideo: bool, timescale: u32)

  datatype Sample = Sample(trackId: u32, dtsUs: i64, ptsUs: i64, isKeyframe: bool, data: seq<byte>)

  const DEFAULT_VIDEO_STEP_US := 33_333
  const DEFAULT_AUDIO_STEP_US := 23_220

  /** The low 32 bits. */
  function U32(x: int): u32 {
    x % 0x1_0000_0000
  }

  /** Microseconds to ticks, seconds and remainder apart, each truncated toward zero. */
  function UsToTimescale(us: int, timescale: u32): int {
    var q := TruncDiv(us, 1_000_000);
    q * timescale + TruncDiv((us - q * 1_000_000) * timescale, 1_000_000)
  }

  // ---------- Layout ----------

  function BoxBytes(boxType: BoxType, content: seq<byte>): (s: seq<byte>)
    ensures |s| == 4 + |boxType| + |content|
  {
    Be32(U32(8 + |content|)) + boxType + content
  }

  /** Version and flags of a full box. */
  function VersionFlags(version: byte, flags: nat): (s: seq<byte>)
    ensures |s| == 4
  {
    [version, flags / 0x1_0000 % 0x100, flags / 0x100 % 0x100, flags % 0x100]
  }

  function FullBoxHeader(boxType: BoxType, size: u32, version: byte, flags: nat): seq<byte> {
    Be32(size) + boxType + VersionFlags(version, flags)
  }

  function JoinBoxes(boxes: seq<(BoxType, seq<byte>)>): seq<byte> {
    if boxes == [] then [] else BoxBytes(boxes[0].0, boxes[0].1) + JoinBoxes(boxes[1..])
  }

  datatype PartRecord = Part(track: MuxTrack, samples: seq<Sample>)

  /** A track with the samples of the segment that belong to it; there is at least one. */
  type Part = p: PartRecord | p.samples != [] witness Part(MuxTrack(0, false, 0), [Sample(0, 0, 0, false, [])])

  function FirstWithId(tracks: seq<MuxTrack>, id: u32): (i: nat)
    ensures i <= |tracks|
    ensures i < |tracks| ==> tracks[i].trackId == id
    ensures forall j :: 0 <= j < i ==> tracks[j].trackId != id
  {
    if tracks == [] || tracks[0].trackId == id then 0 else 1 + FirstWithId(tracks[1..], id)
  }

  /** The samples whose first matching track is number `index`. */
  function GroupOf(tracks: seq<MuxTrack>, samples: seq<Sample>, index: nat): seq<Sample> {
    if samples == [] then []
    else
      var n := |samples| - 1;
      GroupOf(tracks, samples[..n], index)
      + if FirstWithId(tracks, samples[n].trackId) == index then [samples[n]] else []
  }

  function Groups(tracks: seq<MuxTrack>, samples: seq<Sample>): seq<seq<Sample>> {
    seq(|tracks|, i requires 0 <= i => GroupOf(tracks, samples, i))
  }

  /** Those of the first `n` tracks that have samples. */
  function PartsOf(tracks: seq<MuxTrack>, groups: seq<seq<Sample>>, n: nat): seq<Part>
    requires n <= |tracks| == |groups|
  {
    if n == 0 then []
    else
      PartsOf(tracks, groups, n - 1)
      + if groups[n - 1] == [] then [] else [Part(tracks[n - 1], groups[n - 1])]
  }

  function SegmentParts(tracks: seq<MuxTrack>, samples: seq<Sample>): seq<Part> {
    PartsOf(tracks, Groups(tracks, samples), |tracks|)
  }

  /** A sample lasts until the next one; the last one as long as the one before it. */
  function Duration(part: Part, i: nat): u32
    requires i < |part.samples|
  {
    var s, n := part.samples[i].dtsUs as int, |part.samples|;
    var next := if i + 1 < n then part.samples[i + 1].dtsUs as int
      else if i > 0 then s + (s - part.samples[i - 1].dtsUs)
      else s + if part.track.isVideo then DEFAULT_VIDEO_STEP_US else DEFAULT_AUDIO_STEP_US;
    U32(UsToTimescale(next - s, part.track.timescale))
  }

  function SampleFlags(s: Sample): u32 {
    if s.isKeyframe then 0x0200_0000 else 0x0101_0000
  }

  function CtsBits(part: Part, s: Sample): u32 {
    U32(UsToTimescale(s.ptsUs as int - s.dtsUs as int, part.track.timescale))
  }

  function EntryBytes(part: Part, i: nat): (s: seq<byte>)
    requires i < |part.samples|
    ensures |s| == if part.track.isVideo then 16 else 8
  {
    var s := part.samples[i];
    Be32(Duration(part, i)) + Be32(U32(|s.data|))
    + if part.track.isVideo then Be32(SampleFlags(s)) + Be32(CtsBits(part, s)) else []
  }

  /** The entries from sample `i` on. */
  function EntriesBytes(part: Part, i: nat): seq<byte>
    decreases |part.samples| - i
  {
    if i >= |part.samples| then [] else EntryBytes(part, i) + EntriesBytes(part, i + 1)
  }

  function TrunFlags(isVideo: bool): nat {
    if isVideo then 0xF01 else 0x301
  }

  function TrunHead(part: Part): (s: seq<byte>)
    ensures |s| == 8
  {
    VersionFlags(if part.track.isVideo then 1 else 0, TrunFlags(part.track.isVideo)) + Be32(U32(|part.samples|))
  }

  function TrunContent(part: Part, dataOffset: int): seq<byte> {
    TrunHead(part) + Be32(U32(dataOffset)) + EntriesBytes(part, 0)
  }

  function TfhdContent(track: MuxTrack): (s: seq<byte>)
    ensures |s| == 8
  {
    VersionFlags(0, 0x02_0000) + Be32(track.trackId)
  }

  function BaseTicks(part: Part): u64 {
    Max(UsToTimescale(part.samples[0].dtsUs, part.track.timescale), 0) % TWO64
  }

  function TfdtContent(part: Part): (s: seq<byte>)
    ensures |s| == 12
  {
    VersionFlags(1, 0) + Be64(BaseTicks(part))
  }

  function TrafBoxes(part: Part, dataOffset: int): seq<(BoxType, seq<byte>)> {
    [(TFHD, TfhdContent(part.track)), (TFDT, TfdtContent(part)), (TRUN, TrunContent(part, dataOffset))]
  }

  function TrafBox(part: Part, dataOffset: int): (BoxType, seq<byte>) {
    (TRAF, JoinBoxes(TrafBoxes(part, dataOffset)))
  }

  function Trafs(parts: seq<Part>, offsets: seq<int>): (boxes: seq<(BoxType, seq<byte>)>)
    requires |parts| == |offsets|
    ensures |boxes| == |parts|
    ensures forall i :: 0 <= i < |parts| ==> boxes[i] == TrafBox(parts[i], offsets[i])
  {
    seq(|parts|, i requires 0 <= i < |parts| => TrafBox(parts[i], offsets[i]))
  }

  function DataBytes(samples: seq<Sample>): seq<byte> {
    if samples == [] then [] else samples[0].data + DataBytes(samples[1..])
  }

  /** The media bytes of all parts, one part after the other. */
  function AllData(parts: seq<Part>): seq<byte> {
    if parts == [] then []
    else
      var n := |parts| - 1;
      AllData(parts[..n]) + DataBytes(parts[n].samples)
  }

  /** Where each part's media bytes begin when the first part's begin at `start`. */
  function Offsets(parts: seq<Part>, start: int): (offsets: seq<int>)
    ensures |offsets| == |parts|
    ensures forall i :: 0 <= i < |parts| ==> offsets[i] == start + |AllData(parts[..i])|
  {
    seq(|parts|, i requires 0 <= i < |parts| => start + |AllData(parts[..i])|)
  }

  function MfhdContent(sequence: u32): seq<byte> {
    VersionFlags(0, 0) + Be32(sequence)
  }

  function MoofBoxes(sequence: u32, parts: seq<Part>, offsets: seq<int>): seq<(BoxType, seq<byte>)>
    requires |parts| == |offsets|
  {
    [(MFHD, MfhdContent(sequence))] + Trafs(parts, offsets)
  }

  function TrafSize(part: Part): nat {
    64 + |part.samples| * (if part.track.isVideo then 16 else 8)
  }

  function TrafsSize(parts: seq<Part>): nat {
    if parts == [] then 0 else TrafsSize(parts[..|parts| - 1]) + TrafSize(parts[|parts| - 1])
  }

  /** The size of the movie fragment box, which does not depend on the offsets written into it. */
  function MoofSize(parts: seq<Part>): nat {
    24 + TrafsSize(parts)
  }

  /** The boxes of a movie fragment and its media data: the data offsets count from the start of the fragment box
      and reach over the eight header bytes of the media data box. */
  function FragmentBoxes(sequence: u32, parts: seq<Part>): seq<(BoxType, seq<byte>)> {
    [(MOOF, JoinBoxes(MoofBoxes(sequence, parts, Offsets(parts, MoofSize(parts) + 8)))), (MDAT, AllData(parts))]
  }

  const STYP_CONTENT: seq<byte> := [0x6D, 0x73, 0x64, 0x68, 0, 0, 0, 0, 0x6D, 0x73, 0x64, 0x68, 0x6D, 0x73, 0x69, 0x78]

  function SidxTimescale(tracks: seq<MuxTrack>): u32 {
    if tracks == [] then 90_000 else tracks[0].timescale
  }

  function EarliestPts(samples: seq<Sample>): i64 {
    if samples == [] then 0
    else if |samples| == 1 then samples[0].ptsUs
    else Min(EarliestPts(samples[..|samples| - 1]), samples[|samples| - 1].ptsUs)
  }

  predicate AnyKeyframe(samples: seq<Sample>) {
    exists i :: 0 <= i < |samples| && samples[i].isKeyframe
  }

  /** The last sample is taken to last as long as the one before it. */
  function FragmentDuration(samples: seq<Sample>, tracks: seq<MuxTrack>): u32 {
    if samples == [] then 0
    else
      var n := |samples|;
      var last: int := samples[n - 1].dtsUs;
      var step := if n >= 2 then last - samples[n - 2].dtsUs else 33_333;
      U32(UsToTimescale(last - samples[0].dtsUs + step, SidxTimescale(tracks)))
  }

  function SidxHead(tracks: seq<MuxTrack>, samples: seq<Sample>): (s: seq<byte>)
    ensures |s| == 28
  {
    VersionFlags(1, 0) + Be32(if tracks == [] then 1 else tracks[0].trackId) + Be32(SidxTimescale(tracks))
    + Be64(UsToTimescale(EarliestPts(samples), SidxTimescale(tracks)) % TWO64) + Be32(0) + Be16(0) + Be16(1)
  }

  function SapWord(samples: seq<Sample>): u32 {
    if AnyKeyframe(samples) then 0x9000_0000 else 0
  }

  function SidxContent(tracks: seq<MuxTrack>, samples: seq<Sample>, size: u32, duration: u32): seq<byte> {
    SidxHead(tracks, samples) + Be32(size) + Be32(duration) + Be32(SapWord(samples))
  }

  /** What precedes the fragment in a segment. */
  function Lead(styp: bool, sidx: bool, tracks: seq<MuxTrack>, samples: seq<Sample>, fragmentSize: nat)
    : seq<(BoxType, seq<byte>)>
  {
    (if styp then [(STYP, STYP_CONTENT)] else [])
    + if sidx then [(SIDX, SidxContent(tracks, samples, U32(fragmentSize), FragmentDuration(samples, tracks)))]
      else []
  }

  function SegmentBoxes(styp: bool, sidx: bool, tracks: seq<MuxTrack>, samples: seq<Sample>, sequence: u32)
    : seq<(BoxType, seq<byte>)>
  {
    var fragment := FragmentBoxes(sequence, SegmentParts(tracks, samples));
    Lead(styp, sidx, tracks, samples, |JoinBoxes(fragment)|) + fragment
  }

  // ---------- Sizes ----------

  lemma {:induction false} JoinBoxesConcat(a: seq<(BoxType, seq<byte>)>, b: seq<(BoxType, seq<byte>)>)
    ensures JoinBoxes(a + b) == JoinBoxes(a) + JoinBoxes(b)
  {
    hide BoxBytes;
    if a == [] {
      assert a + b == b;
    } else {
      assert (a + b)[0] == a[0] && (a + b)[1..] == a[1..] + b;
      JoinBoxesConcat(a[1..], b);
    }
  }

  lemma JoinBoxesOne(box: (BoxType, seq<byte>))
    ensures JoinBoxes([box]) == BoxBytes(box.0, box.1)
  {
    assert JoinBoxes([box]) == BoxBytes(box.0, box.1) + JoinBoxes([box][1..]);
  }

  lemma JoinBoxesSnoc(a: seq<(BoxType, seq<byte>)>, box: (BoxType, seq<byte>))
    ensures JoinBoxes(a + [box]) == JoinBoxes(a) + BoxBytes(box.0, box.1)
  {
    JoinBoxesConcat(a, [box]);
    JoinBoxesOne(box);
  }

  lemma {:induction false} EntriesSize(part: Part, i: nat)
    requires i <= |part.samples|
    ensures |EntriesBytes(part, i)| == (|part.samples| - i) * (if part.track.isVideo then 16 else 8)
    decreases |part.samples| - i
  {
    hide EntryBytes;
    if i < |part.samples| {
      EntriesSize(part, i + 1);
    }
  }

  /** The three boxes of a traf, flattened; the data offset stands 52 bytes into its content. */
  function TrafHead(part: Part): (s: seq<byte>)
    ensures |s| == 52
  {
    BoxBytes(TFHD, TfhdContent(part.track)) + BoxBytes(TFDT, TfdtContent(part))
    + Be32(U32(20 + |part.samples| * (if part.track.isVideo then 16 else 8))) + TRUN + TrunHead(part)
  }

  lemma JoinThreeBoxes(a: (BoxType, seq<byte>), b: (BoxType, seq<byte>), c: (BoxType, seq<byte>))
    ensures JoinBoxes([a, b, c]) == BoxBytes(a.0, a.1) + BoxBytes(b.0, b.1) + BoxBytes(c.0, c.1)
  {
    hide BoxBytes;
    JoinBoxesOne(a);
    JoinBoxesSnoc([a], b);
    JoinBoxesSnoc([a, b], c);
    assert [a] + [b] == [a, b];
    assert [a, b] + [c] == [a, b, c];
  }

  lemma TrafLayout(part: Part, dataOffset: int)
    ensures TrafBox(part, dataOffset).1 == TrafHead(part) + Be32(U32(dataOffset)) + EntriesBytes(part, 0)
    ensures |TrafBox(part, dataOffset).1| + 8 == TrafSize(part)
  {
    hide EntriesBytes, TfhdContent, TfdtContent, TrunHead, JoinBoxes, BaseTicks, U32;
    EntriesSize(part, 0);
    JoinThreeBoxes((TFHD, TfhdContent(part.track)), (TFDT, TfdtContent(part)), (TRUN, TrunContent(part, dataOffset)));
    assert |TrunContent(part, dataOffset)| + 8 == 20 + |part.samples| * (if part.track.isVideo then 16 else 8);
  }

  lemma {:induction false} TrafsJoinedSize(parts: seq<Part>, offsets: seq<int>)
    requires |parts| == |offsets|
    ensures |JoinBoxes(Trafs(parts, offsets))| == TrafsSize(parts)
  {
    hide TrafBox, TrafSize, JoinBoxes;
    if parts == [] {
      assert JoinBoxes([]) == [] by { NoBoxes(); }
    } else {
      var n := |parts| - 1;
      TrafsSnoc(parts[..n], offsets[..n], parts[n], offsets[n]);
      assert parts[..n] + [parts[n]] == parts && offsets[..n] + [offsets[n]] == offsets;
      TrafsJoinedSize(parts[..n], offsets[..n]);
      TrafLayout(parts[n], offsets[n]);
    }
  }

  lemma NoBoxes()
    ensures JoinBoxes([]) == []
  {
  }

  lemma TrafsSnoc(parts: seq<Part>, offsets: seq<int>, part: Part, offset: int)
    requires |parts| == |offsets|
    ensures JoinBoxes(Trafs(parts + [part], offsets + [offset]))
         == JoinBoxes(Trafs(parts, offsets)) + BoxBytes(TRAF, TrafBox(part, offset).1)
  {
    hide JoinBoxes, TrafBoxes, BoxBytes;
    assert Trafs(parts + [part], offsets + [offset]) == Trafs(parts, offsets) + [TrafBox(part, offset)];
    JoinBoxesSnoc(Trafs(parts, offsets), TrafBox(part, offset));
  }

  // ---------- Writing over bytes already written ----------

  /** `w` written over the bytes at `at`. */
  function Patch(s: seq<byte>, at: nat, w: seq<byte>): (r: seq<byte>)
    requires at + |w| <= |s|
    ensures |r| == |s|
  {
    s[..at] + w + s[at + |w|..]
  }

  lemma PatchBetween(before: seq<byte>, replaced: seq<byte>, after: seq<byte>, w: seq<byte>)
    requires |replaced| == |w|
    ensures Patch(before + replaced + after, |before|, w) == before + w + after
  {
  }

  lemma PatchWithin(before: seq<byte>, s: seq<byte>, after: seq<byte>, at: nat, w: seq<byte>)
    requires at + |w| <= |s|
    ensures Patch(before + s + after, |before| + at, w) == before + Patch(s, at, w) + after
  {
    var whole := before + s + after;
    assert whole[..|before| + at] == before + s[..at];
    assert whole[|before| + at + |w|..] == s[at + |w|..] + after;
  }

  /** The first four bytes of what was written since `start` become its length. */
  function PatchSize(buf: seq<byte>, start: nat): (r: seq<byte>)
    requires start + 4 <= |buf|
    ensures |r| == |buf|
  {
    Patch(buf, start, Be32(U32(|buf| - start)))
  }

  lemma SizePatched(before: seq<byte>, boxType: BoxType, content: seq<byte>)
    requires |boxType| == 4
    ensures PatchSize(before + Be32(0) + boxType + content, |before|) == before + BoxBytes(boxType, content)
  {
    var buf := before + Be32(0) + boxType + content;
    var size := Be32(U32(8 + |content|));
    assert buf == before + Be32(0) + (boxType + content);
    PatchBetween(before, Be32(0), boxType + content, size);
  }

  lemma TrafPatched(part: Part, was: int, offset: int)
    ensures 60 + 4 <= |BoxBytes(TRAF, TrafBox(part, was).1)|
    ensures Patch(BoxBytes(TRAF, TrafBox(part, was).1), 60, Be32(U32(offset)))
         == BoxBytes(TRAF, TrafBox(part, offset).1)
  {
    hide TrafBox, TrafHead, EntriesBytes, U32;
    TrafLayout(part, was);
    TrafLayout(part, offset);
    var size := Be32(U32(TrafSize(part)));
    var before := size + TRAF + TrafHead(part);
    assert BoxBytes(TRAF, TrafBox(part, was).1) == before + Be32(U32(was)) + EntriesBytes(part, 0);
    assert BoxBytes(TRAF, TrafBox(part, offset).1) == before + Be32(U32(offset)) + EntriesBytes(part, 0);
    PatchBetween(before, Be32(U32(was)), EntriesBytes(part, 0), Be32(U32(offset)));
  }

  /** Patching the data offset of part `k` changes that offset and nothing else. */
  lemma TrafsPatched(parts: seq<Part>, offsets: seq<int>, k: nat, offset: int)
    requires k < |parts| == |offsets|
    ensures TrafsSize(parts[..k]) + 60 + 4 <= |JoinBoxes(Trafs(parts, offsets))|
    ensures Patch(JoinBoxes(Trafs(parts, offsets)), TrafsSize(parts[..k]) + 60, Be32(U32(offset)))
         == JoinBoxes(Trafs(parts, offsets[k := offset]))
  {
    hide JoinBoxes, BoxBytes, TrafBox, TrafsSize, Patch, U32;
    var changed := offsets[k := offset];
    var front := Trafs(parts[..k], offsets[..k]);
    var back := Trafs(parts[k + 1..], offsets[k + 1..]);
    assert Trafs(parts, offsets) == front + [TrafBox(parts[k], offsets[k])] + back;
    assert Trafs(parts, changed) == front + [TrafBox(parts[k], offset)] + back;
    JoinBoxesSnoc(front, TrafBox(parts[k], offsets[k]));
    JoinBoxesSnoc(front, TrafBox(parts[k], offset));
    JoinBoxesConcat(front + [TrafBox(parts[k], offsets[k])], back);
    JoinBoxesConcat(front + [TrafBox(parts[k], offset)], back);
    TrafsJoinedSize(parts[..k], offsets[..k]);
    TrafPatched(parts[k], offsets[k], offset);
    IsTraf(parts[k], offset);
    IsTraf(parts[k], offsets[k]);
    var was := BoxBytes(TRAF, TrafBox(parts[k], offsets[k]).1);
    PatchWithin(JoinBoxes(front), was, JoinBoxes(back), 60, Be32(U32(offset)));
  }

  lemma IsTraf(part: Part, offset: int)
    ensures TrafBox(part, offset).0 == TRAF
  {
  }

  // ---------- The muxer ----------

  class Fmp4Muxer {
    const includeStyp: bool
    const includeSidx: bool
    const tracks: seq<MuxTrack>
    var sequenceNumber: u32

    constructor (includeStyp: bool, includeSidx: bool, tracks: seq<MuxTrack>)
      ensures this.includeStyp == includeStyp && this.includeSidx == includeSidx && this.tracks == tracks
      ensures sequenceNumber == 0
    {
      this.includeStyp, this.includeSidx, this.tracks := includeStyp, includeSidx, tracks;
      sequenceNumber := 0;
    }

    /** A media segment and whether it holds a key frame; nothing for no samples. */
    method WriteSegment(samples: seq<Sample>) returns (r: Option<(seq<byte>, bool)>)
      modifies this
      ensures samples == [] ==> r == None && sequenceNumber == old(sequenceNumber)
      ensures samples != [] ==>
                sequenceNumber == U32(old(sequenceNumber) + 1)
                && r == Some((JoinBoxes(SegmentBoxes(includeStyp, includeSidx, tracks, samples, sequenceNumber)),
                              AnyKeyframe(samples)))
    {
      if samples == [] {
        return None;
      }
      sequenceNumber := U32(sequenceNumber + 1);
      var data := SegmentOf(includeStyp, includeSidx, tracks, samples, sequenceNumber);
      return Some((data, AnyKeyframe(samples)));
    }

    /** The same without the leading boxes. */
    method WritePart(samples: seq<Sample>) returns (r: Option<(seq<byte>, bool)>)
      modifies this
      ensures samples == [] ==> r == None && sequenceNumber == old(sequenceNumber)
      ensures samples != [] ==>
                sequenceNumber == U32(old(sequenceNumber) + 1)
                && r == Some((JoinBoxes(FragmentBoxes(sequenceNumber, SegmentParts(tracks, samples))),
                              AnyKeyframe(samples)))
    {
      if samples == [] {
        return None;
      }
      sequenceNumber := U32(sequenceNumber + 1);
      var data := WriteMoofMdat([], tracks, samples, sequenceNumber);
      ghost var whole := JoinBoxes(FragmentBoxes(sequenceNumber, SegmentParts(tracks, samples)));
      assert [] + whole == whole;
      return Some((data, AnyKeyframe(samples)));
    }
  }

  method SegmentOf(styp: bool, sidx: bool, tracks: seq<MuxTrack>, samples: seq<Sample>, sequence: u32)
    returns (buf: seq<byte>)
    requires samples != []
    ensures buf == JoinBoxes(SegmentBoxes(styp, sidx, tracks, samples, sequence))
  {
    hide JoinBoxes, BoxBytes, FragmentBoxes, SegmentParts, SidxContent, FragmentDuration;
    ghost var fragment := FragmentBoxes(sequence, SegmentParts(tracks, samples));
    ghost var first := if styp then [(STYP, STYP_CONTENT)] else [];
    buf := [];
    NoBoxes();
    if styp {
      buf := WriteStyp();
      JoinBoxesOne((STYP, STYP_CONTENT));
    }
    assert buf == JoinBoxes(first);
    ghost var start := buf;
    if sidx {
      var sidxPos := |buf|;
      buf := WriteSidxPlaceholder(buf, tracks, samples);
      var moofMdatStart := |buf|;
      buf := WriteMoofMdat(buf, tracks, samples, sequence);
      var moofMdatSize := U32(|buf| - moofMdatStart);
      var duration := FragmentDuration(samples, tracks);
      SidxPatched(start, JoinBoxes(fragment), tracks, samples, moofMdatSize, duration);
      buf := PatchSidx(buf, sidxPos, moofMdatSize, duration);
      JoinBoxesSnoc(first, (SIDX, SidxContent(tracks, samples, moofMdatSize, duration)));
      JoinBoxesConcat(first + [(SIDX, SidxContent(tracks, samples, moofMdatSize, duration))], fragment);
    } else {
      buf := WriteMoofMdat(buf, tracks, samples, sequence);
      JoinBoxesConcat(first, fragment);
      assert first + [] == first;
    }
  }

  method WriteStyp() returns (buf: seq<byte>)
    ensures buf == BoxBytes(STYP, STYP_CONTENT)
  {
    return Be32(8 + 16) + STYP + STYP_CONTENT;
  }

  method WriteSidxPlaceholder(start: seq<byte>, tracks: seq<MuxTrack>, samples: seq<Sample>) returns (buf: seq<byte>)
    ensures buf == start + BoxBytes(SIDX, SidxContent(tracks, samples, 0, 0))
  {
    hide Be16, Be32, Be64, VersionFlags, UsToTimescale, EarliestPts, AnyKeyframe;
    var referenceId: u32 := if tracks == [] then 1 else tracks[0].trackId;
    var timescale: u32 := if tracks == [] then 90_000 else tracks[0].timescale;
    var earliest := UsToTimescale(EarliestPts(samples), timescale) % TWO64;
    buf := start + FullBoxHeader(SIDX, 12 + 8 + 8 + 4 + 2 + 2 + 12, 1, 0);
    buf := buf + Be32(referenceId) + Be32(timescale) + Be64(earliest) + Be32(0) + Be16(0) + Be16(1);
    buf := buf + Be32(0) + Be32(0) + Be32(SapWord(samples));
  }

  /** The reference entry's size and duration, 36 bytes after the start of the box. */
  function PatchSidx(buf: seq<byte>, sidxPos: nat, size: u32, duration: u32): (r: seq<byte>)
    requires sidxPos + 44 <= |buf|
    ensures |r| == |buf|
  {
    var at := sidxPos + 12 + 8 + 8 + 4 + 2 + 2;
    Patch(Patch(buf, at, Be32(size)), at + 4, Be32(duration))
  }

  lemma SidxPatched(start: seq<byte>, rest: seq<byte>, tracks: seq<MuxTrack>, samples: seq<Sample>, size: u32,
                    duration: u32)
    ensures |BoxBytes(SIDX, SidxContent(tracks, samples, 0, 0))| >= 44
    ensures PatchSidx(start + BoxBytes(SIDX, SidxContent(tracks, samples, 0, 0)) + rest, |start|, size, duration)
         == start + BoxBytes(SIDX, SidxContent(tracks, samples, size, duration)) + rest
  {
    hide SidxHead, Patch, AnyKeyframe, Be32, U32;
    var head := start + Be32(U32(48)) + SIDX + SidxHead(tracks, samples);
    var sap := Be32(SapWord(samples));
    assert start + BoxBytes(SIDX, SidxContent(tracks, samples, 0, 0)) + rest == head + Be32(0) + (Be32(0) + sap + rest);
    PatchBetween(head, Be32(0), Be32(0) + sap + rest, Be32(size));
    assert head + Be32(size) + (Be32(0) + sap + rest) == head + Be32(size) + Be32(0) + (sap + rest);
    PatchBetween(head + Be32(size), Be32(0), sap + rest, Be32(duration));
    assert head + Be32(size) + Be32(duration) + (sap + rest)
        == start + BoxBytes(SIDX, SidxContent(tracks, samples, size, duration)) + rest;
  }

  // ---------- Movie fragments ----------

  function Zeros(n: nat): (z: seq<int>)
    ensures |z| == n
    ensures forall i :: 0 <= i < n ==> z[i] == 0
  {
    seq(n, i => 0)
  }

  /** The fragment box up to its first traf. */
  function MoofHead(sequence: u32, parts: seq<Part>): (s: seq<byte>)
    ensures |s| == 24
  {
    Be32(U32(MoofSize(parts))) + MOOF + FullBoxHeader(MFHD, 16, 0, 0) + Be32(sequence)
  }

  lemma MoofLayout(sequence: u32, parts: seq<Part>, offsets: seq<int>)
    requires |parts| == |offsets|
    ensures |JoinBoxes(Trafs(parts, offsets))| == TrafsSize(parts)
    ensures JoinBoxes(MoofBoxes(sequence, parts, offsets))
         == FullBoxHeader(MFHD, 16, 0, 0) + Be32(sequence) + JoinBoxes(Trafs(parts, offsets))
    ensures BoxBytes(MOOF, JoinBoxes(MoofBoxes(sequence, parts, offsets)))
         == MoofHead(sequence, parts) + JoinBoxes(Trafs(parts, offsets))
  {
    hide JoinBoxes, TrafBox, TrafsSize;
    var mfhd := [(MFHD, MfhdContent(sequence))];
    JoinBoxesConcat(mfhd, Trafs(parts, offsets));
    JoinBoxesOne(mfhd[0]);
    TrafsJoinedSize(parts, offsets);
    assert BoxBytes(MFHD, MfhdContent(sequence)) == FullBoxHeader(MFHD, 16, 0, 0) + Be32(sequence);
  }

  lemma FragmentLayout(sequence: u32, parts: seq<Part>)
    ensures JoinBoxes(FragmentBoxes(sequence, parts))
         == MoofHead(sequence, parts) + JoinBoxes(Trafs(parts, Offsets(parts, MoofSize(parts) + 8)))
            + Be32(U32(8 + |AllData(parts)|)) + MDAT + AllData(parts)
  {
    hide JoinBoxes, TrafBox, MoofHead, MoofSize, AllData, MoofBoxes;
    var boxes := FragmentBoxes(sequence, parts);
    MoofLayout(sequence, parts, Offsets(parts, MoofSize(parts) + 8));
    JoinBoxesOne(boxes[0]);
    JoinBoxesSnoc([boxes[0]], boxes[1]);
    assert boxes == [boxes[0]] + [boxes[1]];
  }

  method WriteMoofMdat(start: seq<byte>, tracks: seq<MuxTrack>, samples: seq<Sample>, sequence: u32)
    returns (buf: seq<byte>)
    ensures buf == start + JoinBoxes(FragmentBoxes(sequence, SegmentParts(tracks, samples)))
  {
    hide JoinBoxes, PartsOf, TrafsSize, PatchSize, Patch, AllData, GroupOf, MoofBoxes, TrafBox;
    var groups := GroupByTrack(tracks, samples);
    ghost var parts := SegmentParts(tracks, samples);
    ghost var zeros := Zeros(|parts|);
    var payloadSize := PayloadSize(tracks, groups);
    var moofStart := |start|;
    buf := start + Be32(0) + MOOF;
    buf := buf + FullBoxHeader(MFHD, 16, 0, 0) + Be32(sequence);
    var positions;
    buf, positions := WriteTrafs(buf, tracks, groups);
    MoofLayout(sequence, parts, zeros);
    SizePatched(start, MOOF, JoinBoxes(MoofBoxes(sequence, parts, zeros)));
    assert buf == start + Be32(0) + MOOF + JoinBoxes(MoofBoxes(sequence, parts, zeros));
    buf := PatchSize(buf, moofStart);
    var moofSize := |buf| - moofStart;
    assert buf == start + MoofHead(sequence, parts) + JoinBoxes(Trafs(parts, zeros));
    hide MoofHead;
    buf := PatchOffsets(start + MoofHead(sequence, parts), buf, tracks, groups, positions, moofSize);
    buf := buf + Be32(U32(8 + payloadSize)) + MDAT;
    buf := WriteMedia(buf, tracks, groups);
    FragmentLayout(sequence, parts);
  }

  method GroupByTrack(tracks: seq<MuxTrack>, samples: seq<Sample>) returns (groups: seq<seq<Sample>>)
    ensures groups == Groups(tracks, samples)
  {
    groups := seq(|tracks|, _ => []);
    for i := 0 to |samples|
      invariant groups == Groups(tracks, samples[..i])
    {
      var idx := FirstWithId(tracks, samples[i].trackId);
      assert samples[..i + 1][..i] == samples[..i];
      assert forall j :: 0 <= j < |tracks| ==>
        GroupOf(tracks, samples[..i + 1], j)
        == GroupOf(tracks, samples[..i], j) + if idx == j then [samples[i]] else [];
      if idx < |tracks| {
        groups := groups[idx := groups[idx] + [samples[i]]];
      }
      forall j | 0 <= j < |tracks| ensures groups[j] == Groups(tracks, samples[..i + 1])[j] {
      }
    }
    assert samples[..|samples|] == samples;
  }

  function DataSize(samples: seq<Sample>): (n: nat)
    ensures n == |DataBytes(samples)|
  {
    if samples == [] then 0 else |samples[0].data| + DataSize(samples[1..])
  }

  method PayloadSize(tracks: seq<MuxTrack>, groups: seq<seq<Sample>>) returns (size: nat)
    requires |groups| == |tracks|
    ensures size == |AllData(PartsOf(tracks, groups, |tracks|))|
  {
    hide DataBytes, PartsOf, AllData;
    NoParts(tracks, groups);
    NoMedia();
    size := 0;
    for idx := 0 to |groups|
      invariant size == |AllData(PartsOf(tracks, groups, idx))|
    {
      NextPart(tracks, groups, idx);
      assert |DataBytes([])| == 0 by { NoData(); }
      size := size + DataSize(groups[idx]);
    }
  }

  lemma NoData()
    ensures DataBytes([]) == []
  {
  }

  /** A track without samples adds no part. */
  lemma NextPart(tracks: seq<MuxTrack>, groups: seq<seq<Sample>>, idx: nat)
    requires idx < |tracks| == |groups|
    ensures var before, after := PartsOf(tracks, groups, idx), PartsOf(tracks, groups, idx + 1);
            if groups[idx] == [] then after == before
            else
              after == before + [Part(tracks[idx], groups[idx])] && after[..|before|] == before
              && AllData(after) == AllData(before) + DataBytes(groups[idx])
  {
    hide DataBytes;
  }

  method WriteTrafs(start: seq<byte>, tracks: seq<MuxTrack>, groups: seq<seq<Sample>>)
    returns (buf: seq<byte>, positions: seq<nat>)
    requires |groups| == |tracks|
    ensures var parts := PartsOf(tracks, groups, |tracks|);
            buf == start + JoinBoxes(Trafs(parts, Zeros(|parts|)))
            && |positions| == |parts|
            && forall k :: 0 <= k < |parts| ==> positions[k] == |start| + TrafsSize(parts[..k]) + 60
  {
    hide JoinBoxes, PartsOf, TrafsSize, TrafBox, DataBytes, AllData;
    buf, positions := start, [];
    ghost var parts: seq<Part> := [];
    assert PartsOf(tracks, groups, 0) == [] by { NoParts(tracks, groups); }
    NoBoxes();
    for idx := 0 to |tracks|
      invariant parts == PartsOf(tracks, groups, idx)
      invariant buf == start + JoinBoxes(Trafs(parts, Zeros(|parts|)))
      invariant |positions| == |parts|
      invariant forall k :: 0 <= k < |parts| ==> positions[k] == |start| + TrafsSize(parts[..k]) + 60
    {
      NextPart(tracks, groups, idx);
      if groups[idx] != [] {
        var part: Part := Part(tracks[idx], groups[idx]);
        var at;
        ghost var before := parts;
        TrafsJoinedSize(before, Zeros(|before|));
        TrafsSnoc(before, Zeros(|before|), part, 0);
        assert Zeros(|before|) + [0] == Zeros(|before| + 1);
        buf, at := WriteTraf(buf, part);
        positions := positions + [at];
        parts := parts + [part];
        forall k | 0 <= k < |parts| ensures positions[k] == |start| + TrafsSize(parts[..k]) + 60 {
          assert parts[..k] == before[..k];
        }
      }
    }
  }

  lemma NoParts(tracks: seq<MuxTrack>, groups: seq<seq<Sample>>)
    requires |groups| == |tracks|
    ensures PartsOf(tracks, groups, 0) == []
  {
  }

  method WriteTraf(start: seq<byte>, part: Part) returns (buf: seq<byte>, offsetAt: nat)
    ensures buf == start + BoxBytes(TRAF, TrafBox(part, 0).1)
    ensures offsetAt == |start| + 60
  {
    hide JoinBoxes, EntriesBytes, BaseTicks, Patch, PatchSize, TrafBox, Be32, Be64, VersionFlags, TrunFlags;
    assert U32(16) == 16 && U32(20) == 20;
    hide U32;
    buf := start + Be32(0) + TRAF;
    buf := buf + FullBoxHeader(TFHD, 16, 0, 0x02_0000) + Be32(part.track.trackId);
    buf := buf + FullBoxHeader(TFDT, 20, 1, 0) + Be64(BaseTicks(part));
    var perEntry := if part.track.isVideo then 16 else 8;
    buf := buf + FullBoxHeader(TRUN, U32(12 + 4 + 4 + |part.samples| * perEntry),
                               if part.track.isVideo then 1 else 0, TrunFlags(part.track.isVideo));
    buf := buf + Be32(U32(|part.samples|));
    offsetAt := |buf|;
    assert buf == start + Be32(0) + TRAF + TrafHead(part);
    buf := buf + Be32(0);
    buf := WriteEntries(buf, part);
    TrafLayout(part, 0);
    assert buf == start + Be32(0) + TRAF + TrafBox(part, 0).1;
    SizePatched(start, TRAF, TrafBox(part, 0).1);
    buf := PatchSize(buf, |start|);
  }

  method WriteEntries(start: seq<byte>, part: Part) returns (buf: seq<byte>)
    ensures buf == start + EntriesBytes(part, 0)
  {
    hide UsToTimescale, Be32, U32;
    buf := start;
    var ts, n := part.samples, |part.samples|;
    for i := 0 to n
      invariant buf + EntriesBytes(part, i) == start + EntriesBytes(part, 0)
    {
      var s := ts[i];
      var dts: int := s.dtsUs;
      var nextDts: int;
      if i + 1 < n {
        nextDts := ts[i + 1].dtsUs;
      } else if i > 0 {
        nextDts := dts + (dts - ts[i - 1].dtsUs);
      } else {
        nextDts := dts + if part.track.isVideo then DEFAULT_VIDEO_STEP_US else DEFAULT_AUDIO_STEP_US;
      }
      var entry := Be32(U32(UsToTimescale(nextDts - dts, part.track.timescale))) + Be32(U32(|s.data|));
      if part.track.isVideo {
        entry := entry + Be32(if s.isKeyframe then 0x0200_0000 else 0x0101_0000);
        entry := entry + Be32(U32(UsToTimescale(s.ptsUs - dts, part.track.timescale)));
      }
      assert entry == EntryBytes(part, i);
      buf := buf + entry;
    }
  }

  /** Each traf's data offset, written over its placeholder. */
  method PatchOffsets(ghost before: seq<byte>, start: seq<byte>, tracks: seq<MuxTrack>, groups: seq<seq<Sample>>,
                      positions: seq<nat>, moofSize: nat) returns (buf: seq<byte>)
    requires |groups| == |tracks|
    requires var parts := PartsOf(tracks, groups, |tracks|);
             start == before + JoinBoxes(Trafs(parts, Zeros(|parts|)))
             && |positions| == |parts|
             && forall k :: 0 <= k < |parts| ==> positions[k] == |before| + TrafsSize(parts[..k]) + 60
    ensures var parts := PartsOf(tracks, groups, |tracks|);
            buf == before + JoinBoxes(Trafs(parts, Offsets(parts, moofSize + 8)))
  {
    hide JoinBoxes, PartsOf, TrafsSize, TrafBox, DataBytes, AllData, Patch;
    buf := start;
    ghost var parts, n := PartsOf(tracks, groups, |tracks|), |tracks|;
    ghost var target := Offsets(parts, moofSize + 8);
    ghost var now := Zeros(|parts|);
    var mdatTrackOffset, dopIdx := 0, 0;
    NoParts(tracks, groups);
    assert |AllData([])| == 0 by { NoMedia(); }
    for idx := 0 to |tracks|
      invariant dopIdx == |PartsOf(tracks, groups, idx)| <= |parts| && parts[..dopIdx] == PartsOf(tracks, groups, idx)
      invariant mdatTrackOffset == |AllData(parts[..dopIdx])|
      invariant |now| == |parts| && now[..dopIdx] == target[..dopIdx]
      invariant buf == before + JoinBoxes(Trafs(parts, now))
    {
      NextPart(tracks, groups, idx);
      PartsGrow(tracks, groups, idx + 1);
      if groups[idx] != [] {
        var dataOffset := moofSize + 8 + mdatTrackOffset;
        var pos := positions[dopIdx];
        assert target[dopIdx] == dataOffset;
        TrafsPatched(parts, now, dopIdx, dataOffset);
        PatchWithin(before, JoinBoxes(Trafs(parts, now)), [], TrafsSize(parts[..dopIdx]) + 60, Be32(U32(dataOffset)));
        assert buf == before + JoinBoxes(Trafs(parts, now)) + [];
        buf := Patch(buf, pos, Be32(U32(dataOffset)));
        now := now[dopIdx := dataOffset];
        mdatTrackOffset := mdatTrackOffset + DataSize(groups[idx]);
        dopIdx := dopIdx + 1;
      }
    }
    assert dopIdx == |parts|;
    assert now == now[..dopIdx] == target[..dopIdx] == target;
  }

  lemma NoMedia()
    ensures AllData([]) == []
  {
  }

  lemma {:induction false} PartsGrow(tracks: seq<MuxTrack>, groups: seq<seq<Sample>>, n: nat)
    requires n <= |tracks| == |groups|
    ensures PartsOf(tracks, groups, n) <= PartsOf(tracks, groups, |tracks|)
    decreases |tracks| - n
  {
    if n < |tracks| {
      PartsGrow(tracks, groups, n + 1);
    }
  }

  method WriteMedia(start: seq<byte>, tracks: seq<MuxTrack>, groups: seq<seq<Sample>>) returns (buf: seq<byte>)
    requires |groups| == |tracks|
    ensures buf == start + AllData(PartsOf(tracks, groups, |tracks|))
  {
    hide PartsOf, AllData;
    buf := start;
    NoParts(tracks, groups);
    NoMedia();
    for idx := 0 to |tracks|
      invariant buf == start + AllData(PartsOf(tracks, groups, idx))
    {
      NextPart(tracks, groups, idx);
      NoData();
      var group := groups[idx];
      ghost var was := buf;
      for i := 0 to |group|
        invariant buf + DataBytes(group[i..]) == was + DataBytes(group)
      {
        assert group[i..][1..] == group[i + 1..];
        buf := buf + group[i].data;
      }
      assert buf == was + DataBytes(group);
    }
  }
}
