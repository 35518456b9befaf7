/** Fragmented MP4: what the segment index and the fixed fields of a written segment say to a reader. */
module Fmp4Index {
  import opened Bytes
  import opened Fmp4Demux
  import opened Fmp4Mux
  import opened Fmp4Boxes

  // ---------- The segment index ----------

  /** The fields of an index box with one reference, in their order. */
  datatype Index = Index(version: byte, referenceId: u32, timescale: u32, earliest: u64, firstOffset: u32, count: u16,
                         size: u32, duration: u32, sap: u32)

  /** A reader of the layout that is written: a first offset of 32 bits. */
  function ReadIndex(content: seq<byte>): Index
    requires |content| == 40
  {
    Index(content[0], ReadBe32(content, 4), ReadBe32(content, 8), ReadBe64(content, 12), ReadBe32(content, 20),
          ReadBe16(content, 26), ReadBe32(content, 28), ReadBe32(content, 32), ReadBe32(content, 36))
  }

  /** The least presentation time of a segment, or zero where there is none. */
  ghost predicate IsEarliest(samples: seq<Sample>, us: int) {
    if samples == [] then us == 0
    else
      && (exists i :: 0 <= i < |samples| && samples[i].ptsUs == us)
      && forall i :: 0 <= i < |samples| ==> us <= samples[i].ptsUs
  }

  lemma {:induction false} EarliestIsLeast(samples: seq<Sample>)
    ensures IsEarliest(samples, EarliestPts(samples))
    decreases |samples|
  {
    if |samples| >= 2 {
      var n := |samples| - 1;
      EarliestIsLeast(samples[..n]);
      var e := EarliestPts(samples[..n]);
      var i :| 0 <= i < n && samples[..n][i].ptsUs == e;
      assert samples[i].ptsUs == e;
      forall k | 0 <= k < |samples| ensures EarliestPts(samples) <= samples[k].ptsUs {
        assert k < n ==> samples[..n][k] == samples[k];
      }
    } else if |samples| == 1 {
      assert samples[0].ptsUs == EarliestPts(samples);
    }
  }

  /** How long a segment lasts: from its first decode time to its last, and once more the last step, or a frame at
      thirty a second where there is only one. */
  function SpanUs(samples: seq<Sample>): int {
    if samples == [] then 0
    else
      var last: int := samples[|samples| - 1].dtsUs;
      last - samples[0].dtsUs + if |samples| == 1 then 33_333 else last - samples[|samples| - 2].dtsUs
  }

  lemma HeadFields(tracks: seq<MuxTrack>, samples: seq<Sample>, rest: seq<byte>)
    requires |rest| == 12
    ensures var s := SidxHead(tracks, samples) + rest;
            && s[0] == 1 && ReadBe32(s, 4) == (if tracks == [] then 1 else tracks[0].trackId)
            && ReadBe32(s, 8) == SidxTimescale(tracks)
            && ReadBe64(s, 12) == UsToTimescale(EarliestPts(samples), SidxTimescale(tracks)) % TWO64
            && ReadBe32(s, 20) == 0 && ReadBe16(s, 26) == 1 && s[28..] == rest
  {
    hide UsToTimescale, SidxTimescale, EarliestPts, Be32, Be64, Be16, ReadBe32, ReadBe64, ReadBe16;
    var s := SidxHead(tracks, samples) + rest;
    var id, scale: u32 := if tracks == [] then 1 else tracks[0].trackId, SidxTimescale(tracks);
    var earliest: u64 := UsToTimescale(EarliestPts(samples), scale) % TWO64;
    assert s[4..8] == Be32(id) && s[8..12] == Be32(scale) && s[12..20] == Be64(earliest);
    assert s[20..24] == Be32(0) && s[26..28] == Be16(1);
    ReadBe32At(s, 4, id);
    ReadBe32At(s, 8, scale);
    ReadBe64At(s, 12, earliest);
    ReadBe32At(s, 20, 0);
    ReadBe16At(s, 26, 1);
  }

  /** The index names the first track, its timescale, the least presentation time and the span on that timescale, the
      bytes that follow, and whether there is a key frame to start from. */
  lemma IndexIsRead(tracks: seq<MuxTrack>, samples: seq<Sample>, size: u32)
    ensures var content := SidxContent(tracks, samples, size, FragmentDuration(samples, tracks));
            var scale := if tracks == [] then 90_000 else tracks[0].timescale;
            && |content| == 40 && IsEarliest(samples, EarliestPts(samples))
            && ReadIndex(content)
               == Index(1, if tracks == [] then 1 else tracks[0].trackId, scale,
                        UsToTimescale(EarliestPts(samples), scale) % TWO64, 0, 1, size,
                        U32(UsToTimescale(SpanUs(samples), scale)),
                        if exists i :: 0 <= i < |samples| && samples[i].isKeyframe then 0x9000_0000 else 0)
  {
    EarliestIsLeast(samples);
    SpanIsDuration(tracks, samples);
    hide UsToTimescale, FragmentDuration, EarliestPts, SpanUs, Be32, ReadBe32, SidxHead, IsEarliest, U32;
    var duration, sap := FragmentDuration(samples, tracks), SapWord(samples);
    var content, rest := SidxContent(tracks, samples, size, duration), Be32(size) + Be32(duration) + Be32(sap);
    assert content == SidxHead(tracks, samples) + rest;
    HeadFields(tracks, samples, rest);
    assert content[28..32] == Be32(size) && content[32..36] == Be32(duration) && content[36..40] == Be32(sap);
    ReadBe32At(content, 28, size);
    ReadBe32At(content, 32, duration);
    ReadBe32At(content, 36, sap);
  }

  lemma SpanIsDuration(tracks: seq<MuxTrack>, samples: seq<Sample>)
    ensures FragmentDuration(samples, tracks)
         == U32(UsToTimescale(SpanUs(samples), if tracks == [] then 90_000 else tracks[0].timescale))
  {
    assert U32(UsToTimescale(0, SidxTimescale(tracks))) == 0;
  }

  /** In a segment with an index, the bytes that the index refers to are those of the fragment and its media data,
      which follow it. */
  lemma IndexRefersToRest(styp: bool, tracks: seq<MuxTrack>, samples: seq<Sample>, sequence: u32)
    ensures var segment := JoinBoxes(SegmentBoxes(styp, true, tracks, samples, sequence));
            var fragment := JoinBoxes(FragmentBoxes(sequence, SegmentParts(tracks, samples)));
            var at := if styp then 24 else 0;
            && |segment| == at + 48 + |fragment| && segment[at + 48..] == fragment
            && segment[at..at + 8] == Be32(48) + SIDX
            && (styp ==> segment[..8] == Be32(24) + STYP)
            && ReadIndex(segment[at + 8..at + 48]).size == U32(|fragment|)
  {
    hide FragmentBoxes, SegmentParts, UsToTimescale, SidxContent, FragmentDuration, ReadIndex, Be32, U32;
    var fragment := FragmentBoxes(sequence, SegmentParts(tracks, samples));
    var size, bytes := U32(|JoinBoxes(fragment)|), JoinBoxes(fragment);
    var content := SidxContent(tracks, samples, size, FragmentDuration(samples, tracks));
    IndexIsRead(tracks, samples, size);
    var segment := JoinBoxes(SegmentBoxes(styp, true, tracks, samples, sequence));
    var index, first := BoxBytes(SIDX, content), BoxBytes(STYP, STYP_CONTENT);
    LeadIsLaidOut(styp, content, fragment);
    assert U32(48) == 48 && U32(24) == 24 by { SmallWords(); }
    assert segment == (if styp then first else []) + (index + bytes) by {
      var lead := Lead(styp, true, tracks, samples, |JoinBoxes(fragment)|);
      assert lead == (if styp then [(STYP, STYP_CONTENT)] else []) + [(SIDX, content)];
    }
    assert index == Be32(48) + SIDX + content && first == Be32(24) + STYP + STYP_CONTENT;
    var at := if styp then 24 else 0;
    assert segment[at..] == index + bytes;
    assert segment[at + 8..at + 48] == content;
  }

  lemma SmallWords()
    ensures U32(48) == 48 && U32(24) == 24
  {
  }

  lemma LeadIsLaidOut(styp: bool, content: seq<byte>, fragment: seq<(BoxType, seq<byte>)>)
    ensures JoinBoxes((if styp then [(STYP, STYP_CONTENT)] else []) + [(SIDX, content)] + fragment)
         == (if styp then BoxBytes(STYP, STYP_CONTENT) else []) + (BoxBytes(SIDX, content) + JoinBoxes(fragment))
  {
    hide BoxBytes, JoinBoxes;
    var lead := if styp then [(STYP, STYP_CONTENT)] else [];
    JoinBoxesConcat(lead + [(SIDX, content)], fragment);
    JoinBoxesSnoc(lead, (SIDX, content));
    if styp {
      JoinBoxesOne((STYP, STYP_CONTENT));
    } else {
      assert JoinBoxes([]) == [] by { NoJoinedBoxes(); }
    }
  }

  lemma NoJoinedBoxes()
    ensures JoinBoxes([]) == []
  {
  }

  /** Version 1 of the index gives its first offset 64 bits, but only 32 are written: to a reader of version 1 the
      reference stands four bytes too early, so that it takes the low half of the referenced size for the number of
      references. */
  function StandardCount(content: seq<byte>): u16
    requires |content| == 40
  {
    ReadBe16(content, 30)
  }

  /** Such a reader finds all references it counts exactly when the size is a multiple of 65536, and then it counts
      none. */
  lemma StandardIndexIsCompleteIff(tracks: seq<MuxTrack>, samples: seq<Sample>, size: u32, duration: u32)
    ensures var content := SidxContent(tracks, samples, size, duration);
            && |content| == 40 && StandardCount(content) == size % 0x1_0000
            && (32 + 12 * StandardCount(content) <= |content| <==> size % 0x1_0000 == 0)
  {
    hide SidxHead, SapWord;
    var content := SidxContent(tracks, samples, size, duration);
    assert content[30] == Be32(size)[2] && content[31] == Be32(size)[3];
  }

  // ---------- Fixed fields ----------

  /** The brands of a segment. */
  lemma SegmentBrands()
    ensures IsName(STYP_CONTENT[..4], "msdh") && STYP_CONTENT[4..8] == [0, 0, 0, 0]
    ensures IsName(STYP_CONTENT[8..12], "msdh") && IsName(STYP_CONTENT[12..], "msix")
  {
    assert STYP_CONTENT[4..8] == [STYP_CONTENT[4], STYP_CONTENT[5], STYP_CONTENT[6], STYP_CONTENT[7]];
  }

  /** The versions and flags of the boxes of a fragment: track headers have data offsets count from the fragment,
      decode times are 64 bits wide, and runs say which fields their entries have. */
  lemma FixedFields(track: MuxTrack, part: Part, sequence: u32)
    ensures TfhdContent(track) == [0, 2, 0, 0] + Be32(track.trackId)
    ensures MfhdContent(sequence) == [0, 0, 0, 0] + Be32(sequence)
    ensures TfdtContent(part)[..4] == [1, 0, 0, 0]
    ensures TrunHead(part)[..4] == if part.track.isVideo then [1, 0, 0x0F, 1] else [0, 0, 3, 1]
  {
    hide Be32, Be64, BaseTicks;
  }

  /** Key frames depend on no other sample; all others do, and are no sync samples. */
  lemma SampleFlagBits(s: Sample)
    ensures var dependsOn, nonSync := if s.isKeyframe then 2 else 1, if s.isKeyframe then 0 else 1;
            SampleFlags(s) == dependsOn * 0x100_0000 + nonSync * 0x1_0000
  {
  }

  /** A sample lasts until the next, the last as long as the one before it, and one alone the default of its kind. */
  lemma DurationsAre(part: Part, i: nat)
    requires i < |part.samples|
    ensures var n, scale := |part.samples|, part.track.timescale;
            && (i + 1 < n ==>
                  Duration(part, i)
                  == U32(UsToTimescale(part.samples[i + 1].dtsUs as int - part.samples[i].dtsUs as int, scale)))
            && (i + 1 == n && n >= 2 ==> Duration(part, i) == Duration(part, i - 1))
            && (n == 1 ==>
                  Duration(part, 0) == U32(UsToTimescale(if part.track.isVideo then 33_333 else 23_220, scale)))
  {
    hide UsToTimescale;
  }
}
