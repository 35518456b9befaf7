/** MPEG transport streams: what the demuxer makes of a muxed stream, however it is cut into chunks. */
module TsRoundTrip {
  import opened Bytes
  import opened TsCommon
  import opened TsMux
  import opened TsTables
  import D = TsDemux

  // ---------- One elementary packet on one track ----------

  /** The track after the packets of `data`. */
  function TakeAll(config: D.Config, t: D.Track, data: seq<byte>, first: bool, cc: u4, randomAccess: bool,
                   pcr: Option<u64>): D.TrackFed
    decreases |data|
  {
    if data == [] then D.TrackFed(t, [])
    else
      var n := Taken(first, randomAccess, pcr, |data|);
      var fed := D.TakePayload(config, t, first, cc, data[..n]);
      var later := TakeAll(config, fed.track, data[n..], false, Next(cc), randomAccess, pcr);
      D.TrackFed(later.track, fed.events + later.events)
  }

  lemma AdvanceNext(cc: u4, n: nat)
    ensures Advance(cc, 0) == cc && Advance(Next(cc), n) == Advance(cc, n + 1)
  {
  }

  lemma NextOfUnit(config: D.Config, t: D.Track, data: seq<byte>, first: bool, cc: u4, randomAccess: bool,
                   pcr: Option<u64>)
    requires data != []
    ensures var n := Taken(first, randomAccess, pcr, |data|);
            var fed := D.TakePayload(config, t, first, cc, data[..n]);
            var later := TakeAll(config, fed.track, data[n..], false, Next(cc), randomAccess, pcr);
            TakeAll(config, t, data, first, cc, randomAccess, pcr) == D.TrackFed(later.track, fed.events + later.events)
            && |PesPackets(t.pid, data, first, cc, randomAccess, pcr)|
               == |PesPackets(t.pid, data[n..], false, Next(cc), randomAccess, pcr)| + 1
  {
    hide D.TakePayload, PesPacket;
  }

  /** While a unit is not buffered, its packets only move the counter. */
  lemma {:induction false} RestIsIgnored(config: D.Config, t: D.Track, data: seq<byte>, cc: u4, randomAccess: bool,
                                         pcr: Option<u64>)
    requires !t.pesStarted && t.expectedCc == Some(cc)
    ensures TakeAll(config, t, data, false, cc, randomAccess, pcr)
         == D.TrackFed(t.(expectedCc := Some(Advance(cc, |PesPackets(t.pid, data, false, cc, randomAccess, pcr)|))), [])
    decreases |data|
  {
    hide PesPacket, Taken, Advance, D.EmitPes;
    AdvanceNext(cc, 0);
    if data == [] {
      assert t == t.(expectedCc := Some(cc));
    } else {
      var rest := data[Taken(false, randomAccess, pcr, |data|)..];
      RestIsIgnored(config, t.(expectedCc := Some(Next(cc))), rest, Next(cc), randomAccess, pcr);
      AdvanceNext(cc, |PesPackets(t.pid, rest, false, Next(cc), randomAccess, pcr)|);
    }
  }

  lemma MiddlePayload(config: D.Config, t: D.Track, cc: u4, chunk: seq<byte>)
    requires t.pesStarted && t.expectedCc == Some(cc)
    ensures var t1 := t.(expectedCc := Some(Next(cc)));
            D.TakePayload(config, t, false, cc, chunk)
            == if |t.pesBuf| + |chunk| > config.maxReassembly then
                 D.TrackFed(t1.(pesBuf := [], pesStarted := false), [D.Diag(D.PesOverflow(t.pid))])
               else D.TrackFed(t1.(pesBuf := t.pesBuf + chunk), [])
  {
    hide D.EmitPes;
  }

  /** The rest of a unit that is being buffered: it is appended, or all of it is dropped when it grows too large. */
  lemma {:induction false} RestIsBuffered(config: D.Config, t: D.Track, data: seq<byte>, cc: u4, randomAccess: bool,
                                          pcr: Option<u64>)
    requires t.pesStarted && t.expectedCc == Some(cc) && |t.pesBuf| <= config.maxReassembly
    ensures var after := t.(expectedCc := Some(Advance(cc, |PesPackets(t.pid, data, false, cc, randomAccess, pcr)|)));
            TakeAll(config, t, data, false, cc, randomAccess, pcr)
            == if |t.pesBuf| + |data| <= config.maxReassembly then D.TrackFed(after.(pesBuf := t.pesBuf + data), [])
               else D.TrackFed(after.(pesBuf := [], pesStarted := false), [D.Diag(D.PesOverflow(t.pid))])
    decreases |data|
  {
    hide PesPacket, Taken, Advance, D.EmitPes, D.TakePayload;
    AdvanceNext(cc, 0);
    if data == [] {
      assert t == t.(expectedCc := Some(cc), pesBuf := t.pesBuf + data);
    } else {
      hide TakeAll, PesPackets;
      NextOfUnit(config, t, data, false, cc, randomAccess, pcr);
      var n := Taken(false, randomAccess, pcr, |data|);
      var chunk, rest := data[..n], data[n..];
      MiddlePayload(config, t, cc, chunk);
      var t1 := t.(expectedCc := Some(Next(cc)));
      AdvanceNext(cc, |PesPackets(t.pid, rest, false, Next(cc), randomAccess, pcr)|);
      if |t.pesBuf| + n > config.maxReassembly {
        RestIsIgnored(config, t1.(pesBuf := [], pesStarted := false), rest, Next(cc), randomAccess, pcr);
      } else {
        assert t.pesBuf + data == t.pesBuf + chunk + rest;
        RestIsBuffered(config, t1.(pesBuf := t.pesBuf + chunk), rest, Next(cc), randomAccess, pcr);
      }
    }
  }

  /** What was buffered becomes a frame. */
  function Flushed(config: D.Config, t: D.Track): D.TrackFed {
    if t.pesBuf != [] then D.EmitPes(config, t) else D.TrackFed(t, [])
  }

  /** A new unit on a track: what was buffered is emitted, and the unit is buffered unless it is too large. */
  function UnitTaken(config: D.Config, t: D.Track, pes: seq<byte>, cc: u4): D.TrackFed {
    var flushed := Flushed(config, t);
    var fits := |pes| <= config.maxReassembly;
    D.TrackFed(flushed.track.(pesBuf := if fits then pes else [], pesStarted := fits, expectedCc := Some(cc)),
               flushed.events + if fits then [] else [D.Diag(D.PesOverflow(t.pid))])
  }

  lemma FlushIgnoresCounter(config: D.Config, t: D.Track, cc: u4)
    ensures var flushed, other := Flushed(config, t), Flushed(config, t.(expectedCc := Some(cc)));
            other == D.TrackFed(flushed.track.(expectedCc := Some(cc)), flushed.events)
    ensures Flushed(config, t).track.pid == t.pid && Flushed(config, t).track.pesBuf == []
  {
    hide D.ReadPes, D.NextOffset, D.TicksToUs;
  }

  lemma UnitIsTaken(config: D.Config, t: D.Track, pes: seq<byte>, cc: u4, randomAccess: bool, pcr: Option<u64>)
    requires pes != [] && (t.expectedCc == None || t.expectedCc == Some(cc))
    ensures TakeAll(config, t, pes, true, cc, randomAccess, pcr)
         == UnitTaken(config, t, pes, Advance(cc, |PesPackets(t.pid, pes, true, cc, randomAccess, pcr)|))
  {
    hide PesPacket, Taken, Advance, D.EmitPes, D.TakePayload, Flushed, TakeAll, PesPackets;
    var n := Taken(true, randomAccess, pcr, |pes|);
    var chunk, rest := pes[..n], pes[n..];
    var count := |PesPackets(t.pid, rest, false, Next(cc), randomAccess, pcr)|;
    NextOfUnit(config, t, pes, true, cc, randomAccess, pcr);
    FlushIgnoresCounter(config, t, Next(cc));
    FirstPayload(config, t, cc, chunk);
    AdvanceNext(cc, count);
    var t1 := D.TakePayload(config, t, true, cc, chunk).track;
    if n > config.maxReassembly {
      RestIsIgnored(config, t1, rest, Next(cc), randomAccess, pcr);
    } else {
      assert chunk + rest == pes;
      RestIsBuffered(config, t1, rest, Next(cc), randomAccess, pcr);
    }
  }

  lemma FirstPayload(config: D.Config, t: D.Track, cc: u4, chunk: seq<byte>)
    requires t.expectedCc == None || t.expectedCc == Some(cc)
    ensures var flushed := Flushed(config, t.(expectedCc := Some(Next(cc))));
            var fits := |chunk| <= config.maxReassembly;
            D.TakePayload(config, t, true, cc, chunk)
            == D.TrackFed(flushed.track.(pesBuf := if fits then chunk else [], pesStarted := fits),
                          flushed.events + if fits then [] else [D.Diag(D.PesOverflow(t.pid))])
  {
    hide D.EmitPes;
    assert [] + chunk == chunk;
  }

  // ---------- One elementary packet in the demuxer ----------

  predicate IsElementary(pid: u16) {
    pid < 0x2000 && pid != PAT_PID && pid != PMT_PID && pid != NULL_PID
  }

  lemma {:induction false} PesPacketsAreWhole(pid: u16, data: seq<byte>, first: bool, cc: u4, randomAccess: bool,
                                              pcr: Option<u64>)
    requires pid < 0x2000
    ensures Whole(PesPackets(pid, data, first, cc, randomAccess, pcr))
    decreases |data|
  {
    hide PesPacket, Taken;
    if data != [] {
      PesPacketIsRead(pid, data, first, cc, randomAccess, pcr);
      PesPacketsAreWhole(pid, data[Taken(first, randomAccess, pcr, |data|)..], false, Next(cc), randomAccess, pcr);
    }
  }

  lemma {:induction false} PesPacketsFed(config: D.Config, d: D.Demux, i: nat, data: seq<byte>, first: bool, cc: u4,
                                         randomAccess: bool, pcr: Option<u64>)
    requires d.pmtPid == Some(PMT_PID) && i < |d.tracks| && IsElementary(d.tracks[i].pid)
    requires D.TrackWithPid(d.tracks, d.tracks[i].pid) == i
    ensures Whole(PesPackets(d.tracks[i].pid, data, first, cc, randomAccess, pcr))
    ensures var fed := TakeAll(config, d.tracks[i], data, first, cc, randomAccess, pcr);
            FeedAll(config, d, PesPackets(d.tracks[i].pid, data, first, cc, randomAccess, pcr))
            == D.Fed(d.(tracks := d.tracks[i := fed.track]), fed.events)
    decreases |data|
  {
    hide PesPacket, Taken, D.TakePayload, D.ParsePacket, D.TrackWithPid;
    var pid := d.tracks[i].pid;
    PesPacketsAreWhole(pid, data, first, cc, randomAccess, pcr);
    if data == [] {
      assert d.tracks[i := d.tracks[i]] == d.tracks;
    } else {
      var n := Taken(first, randomAccess, pcr, |data|);
      PesPacketIsRead(pid, data, first, cc, randomAccess, pcr);
      var fed := D.TakePayload(config, d.tracks[i], first, cc, data[..n]);
      assert fed.track.pid == pid by { PayloadKeepsPid(config, d.tracks[i], first, cc, data[..n]); }
      var d1 := d.(tracks := d.tracks[i := fed.track]);
      SamePids(d.tracks, i, fed.track);
      assert D.FeedPacket(config, d, PesPacket(pid, data, first, cc, randomAccess, pcr)) == D.Fed(d1, fed.events);
      PesPacketsFed(config, d1, i, data[n..], false, Next(cc), randomAccess, pcr);
      var last := TakeAll(config, fed.track, data[n..], false, Next(cc), randomAccess, pcr).track;
      assert d.tracks[i := fed.track][i := last] == d.tracks[i := last];
    }
  }

  lemma PayloadKeepsPid(config: D.Config, t: D.Track, start: bool, cc: u4, data: seq<byte>)
    ensures D.TakePayload(config, t, start, cc, data).track.pid == t.pid
  {
    hide D.ReadPes, D.NextOffset, D.TicksToUs;
  }

  lemma {:induction false} SamePids(tracks: seq<D.Track>, i: nat, t: D.Track)
    requires i < |tracks| && t.pid == tracks[i].pid
    ensures forall pid: u16 :: D.TrackWithPid(tracks[i := t], pid) == D.TrackWithPid(tracks, pid)
  {
    forall pid: u16 ensures D.TrackWithPid(tracks[i := t], pid) == D.TrackWithPid(tracks, pid) {
      assert forall j :: 0 <= j < |tracks| ==> tracks[i := t][j].pid == tracks[j].pid;
    }
  }

  lemma UnitFed(config: D.Config, d: D.Demux, i: nat, pes: seq<byte>, cc: u4, randomAccess: bool, pcr: Option<u64>)
    requires d.pmtPid == Some(PMT_PID) && i < |d.tracks| && IsElementary(d.tracks[i].pid)
    requires D.TrackWithPid(d.tracks, d.tracks[i].pid) == i
    requires pes != [] && (d.tracks[i].expectedCc == None || d.tracks[i].expectedCc == Some(cc))
    ensures var packets := PesPackets(d.tracks[i].pid, pes, true, cc, randomAccess, pcr);
            Whole(packets)
            && var taken := UnitTaken(config, d.tracks[i], pes, Advance(cc, |packets|));
               FeedAll(config, d, packets) == D.Fed(d.(tracks := d.tracks[i := taken.track]), taken.events)
  {
    hide PesPackets, TakeAll, UnitTaken, FeedAll, D.TrackWithPid;
    PesPacketsFed(config, d, i, pes, true, cc, randomAccess, pcr);
    UnitIsTaken(config, d.tracks[i], pes, cc, randomAccess, pcr);
  }

  // ---------- What a frame comes back as ----------

  /** Codecs whose payload is neither rewritten by the muxer nor looked into by the demuxer. */
  predicate PassesThrough(track: MuxTrack) {
    track.codec in {VP8, VP9, Opus, G711A, G711U, MJPEG, ADPCM} && track.kind == NaturalKind(track.codec)
  }

  function PesOf(track: MuxTrack, f: Frame): (s: seq<byte>)
    ensures |s| >= 14
  {
    BuildPes(track.streamId, f.payload, Some(UsTo90k(f.ptsUs)), if IsVideo(track) then Some(UsTo90k(f.dtsUs)) else None)
  }

  function RawPts(f: Frame): nat {
    UsTo90k(f.ptsUs) % WRAP
  }

  /** Audio headers carry no decode time. */
  function RawDts(track: MuxTrack, f: Frame): nat {
    (if IsVideo(track) then UsTo90k(f.dtsUs) else UsTo90k(f.ptsUs)) % WRAP
  }

  lemma TimesAreRead(pts: u64, dts: Option<u64>, times: seq<byte>)
    requires times == PesTimes(Some(pts), dts)
    ensures |times| == if dts.Some? && dts.value != pts then 10 else 5
    ensures DecodeTimestamp(times, 0) == pts % WRAP
    ensures dts.Some? && dts.value != pts ==> DecodeTimestamp(times, 5) == dts.value % WRAP
  {
    hide EncodeTimestamp, DecodeTimestamp;
    var hasDts := dts.Some? && dts.value != pts;
    var marker := if hasDts then 3 else 2;
    assert times[0..5] == EncodeTimestamp(marker, pts);
    TimestampComesBack(marker, pts, times, 0);
    if hasDts {
      assert times[5..10] == EncodeTimestamp(1, dts.value);
      TimestampComesBack(1, dts.value, times, 5);
    }
  }

  lemma DecodeWithin(s: seq<byte>, at: nat, times: seq<byte>, k: nat)
    requires k + 5 <= |times| && at + |times| <= |s| && s[at..at + |times|] == times
    ensures DecodeTimestamp(s, at + k) == DecodeTimestamp(times, k)
  {
    var t := s[at..at + |times|];
    assert t[k] == s[at + k] && t[k + 1] == s[at + k + 1] && t[k + 2] == s[at + k + 2];
    assert t[k + 3] == s[at + k + 3] && t[k + 4] == s[at + k + 4];
  }

  lemma PesIsRead(track: MuxTrack, f: Frame)
    ensures D.ReadPes(PesOf(track, f))
         == if f.payload == [] then None else Some(D.Pes(RawPts(f), RawDts(track, f), f.payload))
  {
    hide DecodeTimestamp, PesTimes, UsTo90k, PesLength;
    var pts := UsTo90k(f.ptsUs);
    var dts := if IsVideo(track) then Some(UsTo90k(f.dtsUs)) else None;
    var times := PesTimes(Some(pts), dts);
    TimesAreRead(pts, dts, times);
    var pes := PesOf(track, f);
    var flags := PesFlags(Some(pts), dts);
    assert pes == [0, 0, 1, track.streamId] + Be16(PesLength(track.streamId, |times|, |f.payload|))
                  + [0x80, flags, |times|] + times + f.payload;
    assert pes[0] == 0 && pes[1] == 0 && pes[2] == 1 && pes[7] == flags && pes[8] == |times|;
    assert pes[9..9 + |times|] == times && pes[9 + |times|..] == f.payload;
    DecodeWithin(pes, 9, times, 0);
    if |times| == 10 {
      DecodeWithin(pes, 9, times, 5);
    }
  }

  /** Whether a frame reaches the other side: it has a payload, and its unit fits the reassembly buffer. */
  predicate Deliverable(config: D.Config, track: MuxTrack, f: Frame) {
    f.payload != [] && |PesOf(track, f)| <= config.maxReassembly
  }

  function FrameBack(config: D.Config, track: MuxTrack, id: nat, f: Frame, offset: int): D.Event {
    var pts, dts := RawPts(f) + offset, RawDts(track, f) + offset;
    D.FrameOut(id, track.kind, track.codec, pts, dts, D.TicksToUs(pts), D.TicksToUs(dts),
               track.kind == Video && (config.isKeyframe)(f.payload, track.codec), f.payload)
  }

  /** The deliverable frames, in order; the wrap offset follows their presentation times. */
  function Expect(config: D.Config, track: MuxTrack, id: nat, frames: seq<Frame>, offset: int,
                  last: Option<nat>): seq<D.Event>
    decreases |frames|
  {
    if frames == [] then []
    else if !Deliverable(config, track, frames[0]) then Expect(config, track, id, frames[1..], offset, last)
    else
      var now := D.NextOffset(offset, last, RawPts(frames[0]));
      [FrameBack(config, track, id, frames[0], now)]
      + Expect(config, track, id, frames[1..], now, Some(RawPts(frames[0])))
  }

  // ---------- Runs ----------

  datatype Op = WriteTables | PushOne(frame: Frame)

  function MuxOp(m: Mux, op: Op, prepare: (MuxTrack, Frame) -> seq<byte>): Muxed {
    match op
    case WriteTables => Tables(m)
    case PushOne(frame) => PushFrame(m, frame, prepare)
  }

  /** All packets of a run of the muxer. */
  function MuxRun(m: Mux, ops: seq<Op>, prepare: (MuxTrack, Frame) -> seq<byte>): Muxed
    decreases |ops|
  {
    if ops == [] then Muxed(m, [])
    else
      var first := MuxOp(m, ops[0], prepare);
      var later := MuxRun(first.mux, ops[1..], prepare);
      Muxed(later.mux, first.packets + later.packets)
  }

  /** The frames pushed for track number `i`. */
  function FramesOf(tracks: seq<MuxTrack>, ops: seq<Op>, i: nat): seq<Frame>
    decreases |ops|
  {
    if ops == [] then []
    else
      (if ops[0].PushOne? && IndexOf(tracks, ops[0].frame.trackId) == i then [ops[0].frame] else [])
      + FramesOf(tracks, ops[1..], i)
  }

  /** The frames that came out for one track. */
  function Received(events: seq<D.Event>, id: nat): seq<D.Event> {
    if events == [] then []
    else (if events[0].FrameOut? && events[0].trackId == id then [events[0]] else []) + Received(events[1..], id)
  }

  lemma {:induction false} ReceivedConcat(a: seq<D.Event>, b: seq<D.Event>, id: nat)
    ensures Received(a + b, id) == Received(a, id) + Received(b, id)
  {
    if a == [] {
      assert a + b == b;
    } else {
      assert (a + b)[0] == a[0] && (a + b)[1..] == a[1..] + b;
      ReceivedConcat(a[1..], b, id);
    }
  }

  /** Only frames, and units that were too large: synchronisation, counters and checksums were all in order. */
  ghost predicate Calm(events: seq<D.Event>) {
    forall k :: 0 <= k < |events| ==>
      events[k].FrameOut? || (events[k].Diag? && events[k].diagnostic.PesOverflow?)
  }

  /** The tracks of a stream: distinct identifiers of their own, codecs that pass through, and a map that fits a
      section. */
  ghost predicate WellFormed(tracks: seq<MuxTrack>, pcrPid: u16) {
    DistinctPids(tracks) && |PmtSectionOf(tracks, pcrPid)| <= 4098
    && forall i :: 0 <= i < |tracks| ==> IsElementary(tracks[i].pid) && PassesThrough(tracks[i])
  }

  /** The demuxer track `t` goes with the muxer track `now`, which is `base` but for its counter. */
  ghost predicate TrackLinked(base: MuxTrack, now: MuxTrack, t: D.Track, id: nat) {
    now == base.(cc := now.cc) && t.pid == base.pid && t.trackId == id && t.codec == base.codec && t.kind == base.kind
    && !t.pendingProbe && (t.expectedCc == None || t.expectedCc == Some(now.cc))
  }

  /** The demuxer has seen the tables and is in step with the muxer. */
  ghost predicate Linked(base: seq<MuxTrack>, m: Mux, d: D.Demux) {
    d.pmtPid == Some(PMT_PID) && |d.tracks| == |m.tracks| == |base|
    && forall i :: 0 <= i < |base| ==> TrackLinked(base[i], m.tracks[i], d.tracks[i], i + 1)
  }

  // ---------- One step ----------

  lemma {:induction false} SameIndex(base: seq<MuxTrack>, tracks: seq<MuxTrack>, id: u32)
    requires |base| == |tracks| && forall i :: 0 <= i < |base| ==> tracks[i].trackId == base[i].trackId
    ensures IndexOf(tracks, id) == IndexOf(base, id)
  {
  }

  lemma {:induction false} SameEntries(base: seq<MuxTrack>, tracks: seq<MuxTrack>)
    requires |base| == |tracks| && forall i :: 0 <= i < |base| ==> tracks[i] == base[i].(cc := tracks[i].cc)
    ensures StreamEntries(tracks) == StreamEntries(base)
  {
    if base != [] {
      SameEntries(base[1..], tracks[1..]);
    }
  }

  lemma TablesKeepLink(config: D.Config, base: seq<MuxTrack>, m: Mux, d: D.Demux)
    requires Linked(base, m, d) && WellFormed(base, m.pcrPid)
    ensures Whole(Tables(m).packets)
    ensures var fed := FeedAll(config, d, Tables(m).packets);
            fed == D.Fed(Cleared(d), []) && Linked(base, Tables(m).mux, Cleared(d)) && Tables(m).mux.pcrPid == m.pcrPid
  {
    hide FeedAll, Tables, StreamEntries;
    SameEntries(base, m.tracks);
    assert |PmtSectionOf(m.tracks, m.pcrPid)| <= 4098 by { hide Crc.Crc32; }
    assert DistinctPids(m.tracks);
    assert AllKnown(d, m.tracks);
    TablesFed(config, d, m);
    assert Tables(m).mux.tracks == m.tracks && Tables(m).mux.pcrPid == m.pcrPid by { TablesKeepTracks(m); }
  }

  lemma TablesKeepTracks(m: Mux)
    ensures Tables(m).mux.tracks == m.tracks && Tables(m).mux.pcrPid == m.pcrPid
  {
  }

  lemma UnitLinks(config: D.Config, base: MuxTrack, now: MuxTrack, t: D.Track, id: nat, pes: seq<byte>, cc: u4)
    requires TrackLinked(base, now, t, id)
    ensures TrackLinked(base, now.(cc := cc), UnitTaken(config, t, pes, cc).track, id)
  {
    hide D.ReadPes, D.NextOffset, D.TicksToUs;
  }

  lemma FrameKeepsLink(config: D.Config, base: seq<MuxTrack>, m: Mux, d: D.Demux, f: Frame,
                       prepare: (MuxTrack, Frame) -> seq<byte>)
    requires Linked(base, m, d) && WellFormed(base, m.pcrPid)
    ensures var muxed, i := PushFrame(m, f, prepare), IndexOf(base, f.trackId);
            Whole(muxed.packets) && muxed.mux.pcrPid == m.pcrPid
            && var fed := FeedAll(config, d, muxed.packets);
               Linked(base, muxed.mux, fed.demux)
               && if i == |base| then fed == D.Fed(d, [])
                  else
                    var taken := UnitTaken(config, d.tracks[i], PesOf(base[i], f), muxed.mux.tracks[i].cc);
                    fed == D.Fed(d.(tracks := d.tracks[i := taken.track]), taken.events)
  {
    hide FeedAll, UnitTaken, FramePackets, PesOf, D.TrackWithPid, WellFormed;
    assert forall j :: 0 <= j < |base| ==> m.tracks[j].trackId == base[j].trackId;
    SameIndex(base, m.tracks, f.trackId);
    var i := IndexOf(base, f.trackId);
    if i == |base| {
      NothingFed(config, d);
    } else {
      var track := m.tracks[i];
      var packets := FramePackets(track, f, prepare);
      FrameFed(config, base, m, d, f, prepare, i);
      var pes, cc := PesOf(base[i], f), Advance(track.cc, |packets|);
      UnitLinks(config, base[i], track, d.tracks[i], i + 1, pes, cc);
      LinkReplaced(base, m, d, i, track.(cc := cc), UnitTaken(config, d.tracks[i], pes, cc).track);
    }
  }

  lemma FrameFed(config: D.Config, base: seq<MuxTrack>, m: Mux, d: D.Demux, f: Frame,
                 prepare: (MuxTrack, Frame) -> seq<byte>, i: nat)
    requires Linked(base, m, d) && WellFormed(base, m.pcrPid) && i < |base|
    ensures var packets := FramePackets(m.tracks[i], f, prepare);
            Whole(packets)
            && var taken := UnitTaken(config, d.tracks[i], PesOf(base[i], f), Advance(m.tracks[i].cc, |packets|));
               FeedAll(config, d, packets) == D.Fed(d.(tracks := d.tracks[i := taken.track]), taken.events)
  {
    hide FeedAll, UnitTaken, PesPackets, PesOf, FramePes, D.TrackWithPid, PmtSectionOf;
    assert forall j :: 0 <= j < |base| ==> d.tracks[j].pid == base[j].pid;
    OwnIndex(base, d.tracks, i);
    var track := m.tracks[i];
    var random := f.isKey && IsVideo(track);
    PlainPes(base[i], track, f, prepare);
    UnitFed(config, d, i, PesOf(base[i], f), track.cc, random, if random then Some(UsTo90k(f.dtsUs)) else None);
  }

  lemma PlainPes(base: MuxTrack, now: MuxTrack, f: Frame, prepare: (MuxTrack, Frame) -> seq<byte>)
    requires PassesThrough(base) && now == base.(cc := now.cc)
    ensures FramePes(now, f, prepare) == PesOf(base, f)
  {
    hide BuildPes;
  }

  lemma LinkReplaced(base: seq<MuxTrack>, m: Mux, d: D.Demux, i: nat, now: MuxTrack, t: D.Track)
    requires Linked(base, m, d) && i < |base| && TrackLinked(base[i], now, t, i + 1)
    ensures Linked(base, m.(tracks := m.tracks[i := now]), d.(tracks := d.tracks[i := t]))
  {
    hide TrackLinked;
  }

  lemma NothingFed(config: D.Config, d: D.Demux)
    ensures Whole([]) && FeedAll(config, d, []) == D.Fed(d, [])
  {
  }

  lemma {:induction false} OwnIndex(base: seq<MuxTrack>, tracks: seq<D.Track>, i: nat)
    requires DistinctPids(base) && i < |base| == |tracks|
    requires forall j :: 0 <= j < |base| ==> tracks[j].pid == base[j].pid
    ensures D.TrackWithPid(tracks, tracks[i].pid) == i
  {
  }

  // ---------- Whole runs ----------

  /** Emitting what is buffered on a track gives a frame of that track, or nothing. */
  lemma FlushedIsCalm(config: D.Config, t: D.Track)
    requires !t.pendingProbe
    ensures var fed := Flushed(config, t);
            Received(fed.events, t.trackId) == fed.events && Calm(fed.events)
            && (forall id: nat :: id != t.trackId ==> Received(fed.events, id) == [])
  {
    hide D.ReadPes, D.NextOffset, D.TicksToUs;
    var events := Flushed(config, t).events;
    assert |events| <= 1;
    if |events| == 1 {
      assert events[1..] == [];
    }
  }

  lemma OverflowIsNotReceived(pid: u16, id: nat)
    ensures Received([D.Diag(D.PesOverflow(pid))], id) == [] && Received([], id) == []
  {
  }

  /** Emitting a unit that has just been buffered gives its frame. */
  lemma UnitComesBack(config: D.Config, base: MuxTrack, t: D.Track, f: Frame, cc: u4, rest: seq<Frame>)
    requires PassesThrough(base) && t.codec == base.codec && t.kind == base.kind && !t.pendingProbe
    ensures var before := Flushed(config, t).track;
            var after := Flushed(config, UnitTaken(config, t, PesOf(base, f), cc).track);
            after.events + Expect(config, base, t.trackId, rest, after.track.wrapOffset, after.track.lastRawPts)
            == Expect(config, base, t.trackId, [f] + rest, before.wrapOffset, before.lastRawPts)
  {
    hide D.NextOffset, D.TicksToUs, PesOf, RawPts, RawDts, Flushed, D.EmitPes, Expect;
    var before, taken := Flushed(config, t).track, UnitTaken(config, t, PesOf(base, f), cc).track;
    FlushKeepsTrack(config, t);
    NextExpected(config, base, t.trackId, f, rest, before.wrapOffset, before.lastRawPts);
    if Deliverable(config, base, f) {
      PesEmitted(config, base, taken, f);
    } else {
      NothingEmitted(config, base, taken, f);
    }
  }

  lemma FlushKeepsTrack(config: D.Config, t: D.Track)
    requires !t.pendingProbe
    ensures var t1 := Flushed(config, t).track;
            t1.codec == t.codec && t1.kind == t.kind && !t1.pendingProbe && t1.trackId == t.trackId
  {
    hide D.ReadPes, D.NextOffset, D.TicksToUs;
  }

  lemma NextExpected(config: D.Config, track: MuxTrack, id: nat, f: Frame, rest: seq<Frame>, offset: int,
                     last: Option<nat>)
    ensures var now := D.NextOffset(offset, last, RawPts(f));
            Expect(config, track, id, [f] + rest, offset, last)
            == if Deliverable(config, track, f) then
                 [FrameBack(config, track, id, f, now)] + Expect(config, track, id, rest, now, Some(RawPts(f)))
               else Expect(config, track, id, rest, offset, last)
  {
    hide D.NextOffset, FrameBack, PesOf;
    assert ([f] + rest)[0] == f && ([f] + rest)[1..] == rest;
  }

  lemma PesEmitted(config: D.Config, base: MuxTrack, t: D.Track, f: Frame)
    requires t.pesBuf == PesOf(base, f) && f.payload != []
    requires t.codec == base.codec && t.kind == base.kind && !t.pendingProbe
    ensures var fed, now := Flushed(config, t), D.NextOffset(t.wrapOffset, t.lastRawPts, RawPts(f));
            fed.events == [FrameBack(config, base, t.trackId, f, now)]
            && fed.track.wrapOffset == now && fed.track.lastRawPts == Some(RawPts(f))
  {
    hide D.NextOffset, D.TicksToUs, PesOf, RawPts, RawDts, D.ReadPes;
    PesIsRead(base, f);
  }

  lemma NothingEmitted(config: D.Config, base: MuxTrack, t: D.Track, f: Frame)
    requires t.pesBuf == [] || (t.pesBuf == PesOf(base, f) && f.payload == [])
    ensures var fed := Flushed(config, t);
            fed.events == [] && fed.track.wrapOffset == t.wrapOffset && fed.track.lastRawPts == t.lastRawPts
  {
    hide PesOf, D.ReadPes;
    PesIsRead(base, f);
  }

  lemma CalmConcat(a: seq<D.Event>, b: seq<D.Event>)
    requires Calm(a) && Calm(b)
    ensures Calm(a + b)
  {
  }

  /** Flushing the tracks from number `k` on gives what is buffered on each of them. */
  lemma {:induction false} FlushedTracks(config: D.Config, tracks: seq<D.Track>, k: nat, i: nat)
    requires forall j :: 0 <= j < |tracks| ==> tracks[j].trackId == k + j + 1 && !tracks[j].pendingProbe
    ensures var events := D.FlushTracks(config, tracks).1;
            Calm(events)
            && Received(events, i + 1) == if k <= i < k + |tracks| then Flushed(config, tracks[i - k]).events else []
    decreases |tracks|
  {
    hide Flushed, D.EmitPes;
    if tracks == [] {
      NoEvents(i + 1);
    } else {
      var first := Flushed(config, tracks[0]).events;
      var later := D.FlushTracks(config, tracks[1..]).1;
      FlushedIsCalm(config, tracks[0]);
      FlushSplits(config, tracks);
      FlushedTracks(config, tracks[1..], k + 1, i);
      CalmConcat(first, later);
      ReceivedConcat(first, later, i + 1);
    }
  }

  lemma NoEvents(id: nat)
    ensures Received([], id) == []
  {
  }

  lemma FlushSplits(config: D.Config, tracks: seq<D.Track>)
    requires tracks != []
    ensures D.FlushTracks(config, tracks).1 == Flushed(config, tracks[0]).events + D.FlushTracks(config, tracks[1..]).1
  {
    hide D.EmitPes;
  }

  /** From any state in which the demuxer is in step: feeding what the muxer writes and flushing gives on each track
      what was buffered there and then every deliverable frame, in order, and no complaint but about oversize. */
  lemma {:induction false} RunComesBack(config: D.Config, base: seq<MuxTrack>, m: Mux, d: D.Demux, ops: seq<Op>,
                                        prepare: (MuxTrack, Frame) -> seq<byte>, i: nat)
    requires Linked(base, m, d) && WellFormed(base, m.pcrPid) && i < |base|
    ensures Whole(MuxRun(m, ops, prepare).packets)
    ensures var fed := FeedAll(config, d, MuxRun(m, ops, prepare).packets);
            var events := fed.events + D.FlushTracks(config, fed.demux.tracks).1;
            var now := Flushed(config, d.tracks[i]);
            Calm(events)
            && Received(events, i + 1)
               == now.events + Expect(config, base[i], i + 1, FramesOf(base, ops, i),
                                      now.track.wrapOffset, now.track.lastRawPts)
    decreases |ops|
  {
    hide FeedAll, Flushed, Expect, WellFormed, D.FlushTracks, Received, MuxOp, Linked, Calm, Whole;
    if ops == [] {
      RunEnds(config, base, m, d, i);
    } else {
      var first := MuxOp(m, ops[0], prepare);
      StepFed(config, base, m, d, ops[0], prepare);
      var fed := FeedAll(config, d, first.packets);
      var later := MuxRun(first.mux, ops[1..], prepare);
      RunComesBack(config, base, first.mux, fed.demux, ops[1..], prepare, i);
      StepComesBack(config, base, m, d, ops, prepare, i);
      BothWhole(first.packets, later.packets);
      FeedAllConcat(config, d, first.packets, later.packets);
      var after := FeedAll(config, fed.demux, later.packets);
      var flushed := D.FlushTracks(config, after.demux.tracks).1;
      assert fed.events + after.events + flushed == fed.events + (after.events + flushed);
      CalmConcat(fed.events, after.events + flushed);
      ReceivedConcat(fed.events, after.events + flushed, i + 1);
    }
  }

  lemma RunEnds(config: D.Config, base: seq<MuxTrack>, m: Mux, d: D.Demux, i: nat)
    requires Linked(base, m, d) && i < |base|
    ensures Whole([]) && FeedAll(config, d, []) == D.Fed(d, [])
    ensures var events := D.FlushTracks(config, d.tracks).1;
            var now := Flushed(config, d.tracks[i]);
            [] + events == events && Calm(events)
            && Received(events, i + 1)
               == now.events + Expect(config, base[i], i + 1, [], now.track.wrapOffset, now.track.lastRawPts)
  {
    NothingFed(config, d);
    assert forall j :: 0 <= j < |d.tracks| ==> d.tracks[j].trackId == j + 1 && !d.tracks[j].pendingProbe by {
      forall j | 0 <= j < |d.tracks| ensures d.tracks[j].trackId == j + 1 && !d.tracks[j].pendingProbe {
        assert TrackLinked(base[j], m.tracks[j], d.tracks[j], j + 1);
      }
    }
    var now := Flushed(config, d.tracks[i]);
    NoneExpected(config, base[i], i + 1, now.track.wrapOffset, now.track.lastRawPts);
    hide Flushed, D.FlushTracks, FeedAll, Whole, Received, Calm, Expect, Linked;
    FlushedTracks(config, d.tracks, 0, i);
  }

  lemma NoneExpected(config: D.Config, track: MuxTrack, id: nat, offset: int, last: Option<nat>)
    ensures Expect(config, track, id, [], offset, last) == []
  {
  }

  /** One step keeps the demuxer in step. */
  lemma StepFed(config: D.Config, base: seq<MuxTrack>, m: Mux, d: D.Demux, op: Op,
                prepare: (MuxTrack, Frame) -> seq<byte>)
    requires Linked(base, m, d) && WellFormed(base, m.pcrPid)
    ensures var muxed := MuxOp(m, op, prepare);
            Whole(muxed.packets) && muxed.mux.pcrPid == m.pcrPid
            && Linked(base, muxed.mux, FeedAll(config, d, muxed.packets).demux)
  {
    hide Linked, WellFormed, FeedAll, Tables, PushFrame, Whole;
    if op.WriteTables? {
      TablesKeepLink(config, base, m, d);
    } else {
      FrameKeepsLink(config, base, m, d, op.frame, prepare);
    }
  }

  /** What one step emits on a track, and what the rest of the run will, is what was buffered and then all frames. */
  lemma StepComesBack(config: D.Config, base: seq<MuxTrack>, m: Mux, d: D.Demux, ops: seq<Op>,
                      prepare: (MuxTrack, Frame) -> seq<byte>, i: nat)
    requires Linked(base, m, d) && WellFormed(base, m.pcrPid) && i < |base| && ops != []
    requires var muxed := MuxOp(m, ops[0], prepare);
             Whole(muxed.packets) && Linked(base, muxed.mux, FeedAll(config, d, muxed.packets).demux)
    ensures var fed := FeedAll(config, d, MuxOp(m, ops[0], prepare).packets);
            var now, next := Flushed(config, d.tracks[i]), Flushed(config, fed.demux.tracks[i]);
            Calm(fed.events)
            && Received(fed.events, i + 1) + next.events
               + Expect(config, base[i], i + 1, FramesOf(base, ops[1..], i), next.track.wrapOffset,
                        next.track.lastRawPts)
               == now.events
                  + Expect(config, base[i], i + 1, FramesOf(base, ops, i), now.track.wrapOffset, now.track.lastRawPts)
  {
    hide FeedAll, Expect, WellFormed, Tables, PushFrame, Flushed, Received, UnitTaken, Linked, Calm, Whole, PesOf;
    NextFrames(base, ops, i);
    NoEvents(i + 1);
    NoTrouble();
    match ops[0]
    case WriteTables =>
      TablesKeepLink(config, base, m, d);
    case PushOne(f) =>
      FrameKeepsLink(config, base, m, d, f, prepare);
      var j := IndexOf(base, f.trackId);
      if j < |base| {
        SameSize(base, m, d);
        SameSize(base, PushFrame(m, f, prepare).mux, FeedAll(config, d, PushFrame(m, f, prepare).packets).demux);
        AllPassThrough(base, m.pcrPid);
        var cc := PushFrame(m, f, prepare).mux.tracks[j].cc;
        FrameComesBack(config, base, m, d, f, cc, i, j, FramesOf(base, ops[1..], i));
      }
  }

  lemma SameSize(base: seq<MuxTrack>, m: Mux, d: D.Demux)
    requires Linked(base, m, d)
    ensures |m.tracks| == |d.tracks| == |base|
  {
  }

  lemma AllPassThrough(tracks: seq<MuxTrack>, pcrPid: u16)
    requires WellFormed(tracks, pcrPid)
    ensures forall i :: 0 <= i < |tracks| ==> PassesThrough(tracks[i])
  {
  }

  lemma NoTrouble()
    ensures Calm([])
  {
  }

  lemma NextFrames(base: seq<MuxTrack>, ops: seq<Op>, i: nat)
    requires ops != []
    ensures FramesOf(base, ops, i)
         == if ops[0].PushOne? && IndexOf(base, ops[0].frame.trackId) == i
            then [ops[0].frame] + FramesOf(base, ops[1..], i)
            else FramesOf(base, ops[1..], i)
  {
  }

  lemma FrameComesBack(config: D.Config, base: seq<MuxTrack>, m: Mux, d: D.Demux, f: Frame, cc: u4, i: nat, j: nat,
                       rest: seq<Frame>)
    requires Linked(base, m, d) && i < |base| && j < |base| && PassesThrough(base[j])
    ensures var taken := UnitTaken(config, d.tracks[j], PesOf(base[j], f), cc);
            var now, next := Flushed(config, d.tracks[i]), Flushed(config, d.tracks[j := taken.track][i]);
            Calm(taken.events)
            && Received(taken.events, i + 1) + next.events
               + Expect(config, base[i], i + 1, rest, next.track.wrapOffset, next.track.lastRawPts)
               == now.events + Expect(config, base[i], i + 1, if i == j then [f] + rest else rest,
                                      now.track.wrapOffset, now.track.lastRawPts)
  {
    hide Expect, Flushed, PesOf, Received;
    var t := d.tracks[j];
    var flushed := Flushed(config, t).events;
    FlushedIsCalm(config, t);
    OverflowIsNotReceived(t.pid, i + 1);
    var taken := UnitTaken(config, t, PesOf(base[j], f), cc);
    var overflow := if |PesOf(base[j], f)| <= config.maxReassembly then [] else [D.Diag(D.PesOverflow(t.pid))];
    assert taken.events == flushed + overflow;
    ReceivedConcat(flushed, overflow, i + 1);
    if i == j {
      UnitComesBack(config, base[j], t, f, cc, rest);
    }
  }

  // ---------- Chunks ----------

  /** A buffer that begins with a packet, and holds packets only, needs no resynchronisation. */
  lemma {:induction false} RunAligned(config: D.Config, d: D.Demux, buf: seq<byte>, packets: seq<seq<byte>>)
    requires Whole(packets) && buf <= Flatten(packets)
    ensures var k := |buf| / PACKET_SIZE;
            k <= |packets| && Whole(packets[..k]) && |buf| % PACKET_SIZE == |buf[PACKET_SIZE * k..]|
            && D.RunPackets(config, d, buf)
               == var fed := FeedAll(config, d, packets[..k]);
                  D.Ran(fed.demux, buf[PACKET_SIZE * k..], fed.events)
    decreases |buf|
  {
    hide D.FeedPacket, D.RunPackets;
    var k := |buf| / PACKET_SIZE;
    if k == 0 {
      D.RunEnds(config, d, buf);
      assert packets[..0] == [] && buf[0..] == buf;
    } else {
      FirstPacket(buf, packets);
      var rest := buf[PACKET_SIZE..];
      var fed := D.FeedPacket(config, d, packets[0]);
      RunAligned(config, fed.demux, rest, packets[1..]);
      D.RunFeeds(config, d, buf);
      assert |rest| / PACKET_SIZE == k - 1;
      assert packets[..k][1..] == packets[1..][..k - 1];
      assert rest[PACKET_SIZE * (k - 1)..] == buf[PACKET_SIZE * k..];
    }
  }

  lemma FirstPacket(buf: seq<byte>, packets: seq<seq<byte>>)
    requires Whole(packets) && buf <= Flatten(packets) && |buf| >= PACKET_SIZE
    ensures packets != [] && Whole(packets[1..]) && buf[..PACKET_SIZE] == packets[0] && buf[0] == SYNC_BYTE
    ensures buf[PACKET_SIZE..] <= Flatten(packets[1..])
  {
    var whole := Flatten(packets);
    assert buf[..PACKET_SIZE] == whole[..PACKET_SIZE] == packets[0];
    assert buf[0] == packets[0][0];
    assert whole[PACKET_SIZE..] == Flatten(packets[1..]);
  }

  /** The search for a packet boundary stops at once. */
  lemma AlignedAtOnce(buf: seq<byte>, packets: seq<seq<byte>>)
    requires Whole(packets) && buf <= Flatten(packets)
    ensures FindSync(buf, 0) == if buf == [] then None else Some(0)
  {
    if buf != [] {
      var whole := Flatten(packets);
      assert packets != [];
      assert buf[0] == whole[0] == packets[0][0];
      if |buf| > PACKET_SIZE {
        var rest := Flatten(packets[1..]);
        assert whole[PACKET_SIZE..] == rest;
        assert buf[PACKET_SIZE] == rest[0] == packets[1][0];
      }
      SyncIsUnique(buf, 0, Some(0), FindSync(buf, 0));
    }
  }

  lemma PushAligned(config: D.Config, d: D.Demux, remainder: seq<byte>, data: seq<byte>, packets: seq<seq<byte>>)
    requires Whole(packets) && remainder + data <= Flatten(packets)
    ensures var buf := remainder + data;
            var k := |buf| / PACKET_SIZE;
            k <= |packets| && Whole(packets[..k]) && |buf[PACKET_SIZE * k..]| < PACKET_SIZE
            && D.PushBytes(config, d, remainder, data)
               == var fed := FeedAll(config, d, packets[..k]);
                  D.Ran(fed.demux, buf[PACKET_SIZE * k..], fed.events)
  {
    hide FindSync, D.RunPackets, FeedAll, Whole;
    var buf := remainder + data;
    AlignedAtOnce(buf, packets);
    RunAligned(config, d, buf, packets);
    if buf == [] {
      assert packets[..0] == [];
      NothingFed(config, d);
    } else {
      assert buf[0..] == buf;
      var ran := D.RunPackets(config, d, buf);
      assert [] + ran.events == ran.events;
    }
  }

  ghost function PushAll(config: D.Config, d: D.Demux, remainder: seq<byte>, chunks: seq<seq<byte>>): D.Ran
    decreases |chunks|
  {
    if chunks == [] then D.Ran(d, remainder, [])
    else
      var first := D.PushBytes(config, d, remainder, chunks[0]);
      var later := PushAll(config, first.demux, first.rest, chunks[1..]);
      D.Ran(later.demux, later.rest, first.events + later.events)
  }

  lemma {:induction false} FlattenedSize(packets: seq<seq<byte>>)
    requires Whole(packets)
    ensures |Flatten(packets)| == PACKET_SIZE * |packets|
  {
    if packets != [] {
      FlattenedSize(packets[1..]);
    }
  }

  /** However a stream of packets is cut into chunks, the packets are fed one by one, and nothing remains. */
  lemma {:induction false} ChunksDoNotMatter(config: D.Config, d: D.Demux, remainder: seq<byte>, chunks: seq<seq<byte>>,
                                             packets: seq<seq<byte>>)
    requires Whole(packets) && remainder + Flatten(chunks) == Flatten(packets) && |remainder| < PACKET_SIZE
    ensures var fed := FeedAll(config, d, packets);
            PushAll(config, d, remainder, chunks) == D.Ran(fed.demux, [], fed.events)
    decreases |chunks|
  {
    hide D.PushBytes, FeedAll, Whole;
    FlattenedSize(packets);
    if chunks == [] {
      assert remainder + [] == remainder;
      assert packets == [];
      NothingFed(config, d);
    } else {
      var buf := remainder + chunks[0];
      assert remainder + Flatten(chunks) == buf + Flatten(chunks[1..]);
      PushAligned(config, d, remainder, chunks[0], packets);
      var k := |buf| / PACKET_SIZE;
      var front, back := packets[..k], packets[k..];
      assert packets == front + back;
      FlattenConcat(front, back);
      FlattenedSize(front);
      WholeBack(packets, k);
      var rest := buf[PACKET_SIZE * k..];
      assert Flatten(packets)[PACKET_SIZE * k..] == Flatten(back);
      assert (buf + Flatten(chunks[1..]))[PACKET_SIZE * k..] == rest + Flatten(chunks[1..]);
      FeedAllConcat(config, d, front, back);
      ChunksDoNotMatter(config, FeedAll(config, d, front).demux, rest, chunks[1..], back);
    }
  }

  lemma WholeBack(packets: seq<seq<byte>>, k: nat)
    requires Whole(packets) && k <= |packets|
    ensures Whole(packets[k..])
  {
  }

  // ---------- The stream comes back ----------

  const INITIAL: D.Demux := D.Demux(None, [], [], None, 1)

  lemma {:induction false} ListedAt(tracks: seq<MuxTrack>, id: nat)
    ensures |ListedTracks(tracks, id)| == |tracks|
    ensures forall i :: 0 <= i < |tracks| ==> ListedTracks(tracks, id)[i] == ListedTrack(tracks[i], id + i)
  {
    hide ListedTrack;
    if tracks != [] {
      ListedAt(tracks[1..], id + 1);
    }
  }

  lemma {:induction false} FoundIsNotReceived(tracks: seq<MuxTrack>, id: nat, wanted: nat)
    ensures Received(FoundTracks(tracks, id), wanted) == []
    decreases |tracks|
  {
    hide D.ClockRate, NaturalKind;
    if tracks != [] {
      FoundIsNotReceived(tracks[1..], id + 1, wanted);
      ReceivedConcat(FoundTracks([tracks[0]], id), FoundTracks(tracks[1..], id + 1), wanted);
      ListedTracksFirst(tracks, id);
      assert [tracks[0]][1..] == [];
    }
  }

  /** The first tables bring a fresh demuxer into step. */
  lemma FirstTables(config: D.Config, m: Mux)
    requires WellFormed(m.tracks, m.pcrPid)
    ensures Whole(Tables(m).packets)
    ensures var fed := FeedAll(config, INITIAL, Tables(m).packets);
            fed.events == FoundTracks(m.tracks, 1) && Linked(m.tracks, Tables(m).mux, fed.demux)
            && forall i :: 0 <= i < |m.tracks| ==> fed.demux.tracks[i] == ListedTrack(m.tracks[i], i + 1)
  {
    hide Tables, FeedAll, PmtSectionOf, TrackLinked, ListedTrack, PassesThrough, DistinctPids, FoundTracks;
    TablesFed(config, INITIAL, m);
    TablesKeepTracks(m);
    ListedAt(m.tracks, 1);
    assert INITIAL.tracks + ListedTracks(m.tracks, 1) == ListedTracks(m.tracks, 1);
    hide ListedTracks;
    forall i | 0 <= i < |m.tracks|
      ensures TrackLinked(m.tracks[i], m.tracks[i], ListedTrack(m.tracks[i], i + 1), i + 1)
    {
      PassingIsListed(m.tracks[i], i + 1);
    }
  }

  lemma PassingIsListed(track: MuxTrack, id: nat)
    requires PassesThrough(track)
    ensures TrackLinked(track, track, ListedTrack(track, id), id)
  {
  }

  /** The main result. Whatever is muxed after the first tables, tables again and frames of any tracks in any order,
      and however the bytes are cut into chunks: after a flush the demuxer has reported the tracks and then on each
      track exactly the deliverable frames in order. Nothing else comes out but one overflow report for each frame that
      is too large: no loss of synchronisation, no counter gap, no checksum error, no frame of another track. */
  lemma StreamComesBack(config: D.Config, m: Mux, ops: seq<Op>, prepare: (MuxTrack, Frame) -> seq<byte>,
                        chunks: seq<seq<byte>>)
    requires WellFormed(m.tracks, m.pcrPid)
    requires Flatten(chunks) == Flatten(MuxRun(m, [WriteTables] + ops, prepare).packets)
    ensures var pushed := PushAll(config, INITIAL, [], chunks);
            var events := pushed.events + D.FlushTracks(config, pushed.demux.tracks).1;
            var found := FoundTracks(m.tracks, 1);
            pushed.rest == [] && found <= events && Calm(events[|found|..])
            && Overflows(events) == Oversized(config, m.tracks, ops) && NoForeignFrames(events, |m.tracks|)
            && forall i :: 0 <= i < |m.tracks| ==>
                 Received(events, i + 1) == Expect(config, m.tracks[i], i + 1, FramesOf(m.tracks, ops, i), 0, None)
  {
    hide FeedAll, WellFormed, Whole, Calm, Received, Expect, FoundTracks, D.FlushTracks, Linked, Tables, PushAll;
    hide MuxRun;
    hide Overflows, Oversized, NoForeignFrames;
    var first := Tables(m);
    var later := MuxRun(first.mux, ops, prepare);
    StreamFed(config, m, ops, prepare, chunks);
    FirstTables(config, m);
    TablesKeepTracks(m);
    var fed := FeedAll(config, INITIAL, first.packets);
    RunIsCalm(config, m.tracks, first.mux, fed.demux, ops, prepare);
    var after := FeedAll(config, fed.demux, later.packets);
    var rest := after.events + D.FlushTracks(config, after.demux.tracks).1;
    var events := fed.events + rest;
    assert events[|fed.events|..] == rest;
    RunReports(config, m.tracks, first.mux, fed.demux, ops, prepare);
    FoundIsNotReported(m.tracks, 1, |m.tracks|);
    OverflowsConcat(fed.events, rest);
    ForeignConcat(fed.events, rest, |m.tracks|);
    assert events == fed.events + after.events + D.FlushTracks(config, after.demux.tracks).1;
    forall i | 0 <= i < |m.tracks|
      ensures Received(events, i + 1) == Expect(config, m.tracks[i], i + 1, FramesOf(m.tracks, ops, i), 0, None)
    {
      RunComesBack(config, m.tracks, first.mux, fed.demux, ops, prepare, i);
      NothingBuffered(config, m.tracks[i], i + 1);
      FoundIsNotReceived(m.tracks, 1, i + 1);
      ReceivedConcat(fed.events, rest, i + 1);
    }
  }

  /** The packets of the tables and then those of the rest reach the demuxer, whatever the chunks. */
  lemma StreamFed(config: D.Config, m: Mux, ops: seq<Op>, prepare: (MuxTrack, Frame) -> seq<byte>,
                  chunks: seq<seq<byte>>)
    requires WellFormed(m.tracks, m.pcrPid)
    requires Flatten(chunks) == Flatten(MuxRun(m, [WriteTables] + ops, prepare).packets)
    ensures Whole(Tables(m).packets) && Whole(MuxRun(Tables(m).mux, ops, prepare).packets)
    ensures var fed := FeedAll(config, INITIAL, Tables(m).packets);
            var after := FeedAll(config, fed.demux, MuxRun(Tables(m).mux, ops, prepare).packets);
            var pushed := PushAll(config, INITIAL, [], chunks);
            pushed.demux == after.demux && pushed.rest == [] && pushed.events == fed.events + after.events
  {
    hide FeedAll, WellFormed, Whole, Linked, Tables, PushAll, MuxRun, FoundTracks;
    var first := Tables(m);
    var later := MuxRun(first.mux, ops, prepare);
    RunStartsWithTables(m, ops, prepare);
    FirstTables(config, m);
    TablesKeepTracks(m);
    RunIsCalm(config, m.tracks, first.mux, FeedAll(config, INITIAL, first.packets).demux, ops, prepare);
    BothWhole(first.packets, later.packets);
    assert [] + Flatten(chunks) == Flatten(chunks);
    ChunksDoNotMatter(config, INITIAL, [], chunks, first.packets + later.packets);
    FeedAllConcat(config, INITIAL, first.packets, later.packets);
  }

  lemma RunStartsWithTables(m: Mux, ops: seq<Op>, prepare: (MuxTrack, Frame) -> seq<byte>)
    ensures MuxRun(m, [WriteTables] + ops, prepare).packets
         == Tables(m).packets + MuxRun(Tables(m).mux, ops, prepare).packets
  {
    hide Tables;
    assert ([WriteTables] + ops)[1..] == ops;
  }

  lemma NothingBuffered(config: D.Config, track: MuxTrack, id: nat)
    ensures var now := Flushed(config, ListedTrack(track, id));
            now.events == [] && now.track.wrapOffset == 0 && now.track.lastRawPts == None
  {
  }

  /** A run keeps its packets whole and its events calm, also when there are no tracks. */
  lemma {:induction false} RunIsCalm(config: D.Config, base: seq<MuxTrack>, m: Mux, d: D.Demux, ops: seq<Op>,
                                     prepare: (MuxTrack, Frame) -> seq<byte>)
    requires Linked(base, m, d) && WellFormed(base, m.pcrPid)
    ensures Whole(MuxRun(m, ops, prepare).packets)
    ensures var fed := FeedAll(config, d, MuxRun(m, ops, prepare).packets);
            Calm(fed.events + D.FlushTracks(config, fed.demux.tracks).1)
    decreases |ops|
  {
    hide FeedAll, WellFormed, D.FlushTracks, Calm, Linked, Whole, MuxOp;
    if base != [] {
      RunComesBack(config, base, m, d, ops, prepare, 0);
    } else if ops == [] {
      NothingFed(config, d);
      SameSize(base, m, d);
      NoTracksNoEvents(config, d);
    } else {
      var first := MuxOp(m, ops[0], prepare);
      StepFed(config, base, m, d, ops[0], prepare);
      NoTracksNoStep(config, base, m, d, ops[0], prepare);
      var fed := FeedAll(config, d, first.packets);
      var later := MuxRun(first.mux, ops[1..], prepare);
      RunIsCalm(config, base, first.mux, fed.demux, ops[1..], prepare);
      BothWhole(first.packets, later.packets);
      FeedAllConcat(config, d, first.packets, later.packets);
      var after := FeedAll(config, fed.demux, later.packets);
      assert fed.events + after.events == after.events;
    }
  }

  lemma NoTracksNoEvents(config: D.Config, d: D.Demux)
    requires d.tracks == []
    ensures Calm([] + D.FlushTracks(config, d.tracks).1)
  {
  }

  lemma NoTracksNoStep(config: D.Config, base: seq<MuxTrack>, m: Mux, d: D.Demux, op: Op,
                       prepare: (MuxTrack, Frame) -> seq<byte>)
    requires Linked(base, m, d) && WellFormed(base, m.pcrPid) && base == []
    ensures Whole(MuxOp(m, op, prepare).packets) && FeedAll(config, d, MuxOp(m, op, prepare).packets).events == []
  {
    hide FeedAll, WellFormed, Tables, Whole, Linked, PushFrame;
    if op.WriteTables? {
      TablesKeepLink(config, base, m, d);
    } else {
      FrameKeepsLink(config, base, m, d, op.frame, prepare);
    }
  }

  // ---------- Reports and foreign frames ----------

  /** The packet identifiers of the overflow reports, in order. */
  function Overflows(events: seq<D.Event>): seq<u16> {
    if events == [] then []
    else
      (if events[0].Diag? && events[0].diagnostic.PesOverflow? then [events[0].diagnostic.pid] else [])
      + Overflows(events[1..])
  }

  /** The identifiers of the tracks that got a unit too large, in order. */
  function Oversized(config: D.Config, tracks: seq<MuxTrack>, ops: seq<Op>): seq<u16>
    decreases |ops|
  {
    if ops == [] then [] else OversizedOp(config, tracks, ops[0]) + Oversized(config, tracks, ops[1..])
  }

  function OversizedOp(config: D.Config, tracks: seq<MuxTrack>, op: Op): seq<u16> {
    if op.WriteTables? then []
    else
      var i := IndexOf(tracks, op.frame.trackId);
      if i < |tracks| && |PesOf(tracks[i], op.frame)| > config.maxReassembly then [tracks[i].pid] else []
  }

  /** Every frame bears the id of one of the first `n` tracks. */
  ghost predicate NoForeignFrames(events: seq<D.Event>, n: nat) {
    forall k :: 0 <= k < |events| ==> events[k].FrameOut? ==> 1 <= events[k].trackId <= n
  }

  lemma {:induction false} OverflowsConcat(a: seq<D.Event>, b: seq<D.Event>)
    ensures Overflows(a + b) == Overflows(a) + Overflows(b)
  {
    if a == [] {
      assert a + b == b;
    } else {
      assert (a + b)[0] == a[0] && (a + b)[1..] == a[1..] + b;
      OverflowsConcat(a[1..], b);
    }
  }

  lemma ForeignConcat(a: seq<D.Event>, b: seq<D.Event>, n: nat)
    requires NoForeignFrames(a, n) && NoForeignFrames(b, n)
    ensures NoForeignFrames(a + b, n)
  {
  }

  lemma NothingReported(n: nat)
    ensures Overflows([]) == [] && NoForeignFrames([], n)
  {
  }

  lemma FlushReports(config: D.Config, t: D.Track, n: nat)
    requires !t.pendingProbe && 1 <= t.trackId <= n
    ensures Overflows(Flushed(config, t).events) == [] && NoForeignFrames(Flushed(config, t).events, n)
  {
    hide D.ReadPes, D.NextOffset, D.TicksToUs;
    var events := Flushed(config, t).events;
    assert |events| <= 1;
    if |events| == 1 {
      assert events[1..] == [];
    }
  }

  lemma {:induction false} FlushTracksReports(config: D.Config, tracks: seq<D.Track>, n: nat)
    requires forall j :: 0 <= j < |tracks| ==> !tracks[j].pendingProbe && 1 <= tracks[j].trackId <= n
    ensures var events := D.FlushTracks(config, tracks).1;
            Overflows(events) == [] && NoForeignFrames(events, n)
    decreases |tracks|
  {
    hide Flushed, D.EmitPes, NoForeignFrames;
    if tracks == [] {
      NothingReported(n);
    } else {
      FlushReports(config, tracks[0], n);
      FlushSplits(config, tracks);
      FlushTracksReports(config, tracks[1..], n);
      OverflowsConcat(Flushed(config, tracks[0]).events, D.FlushTracks(config, tracks[1..]).1);
      ForeignConcat(Flushed(config, tracks[0]).events, D.FlushTracks(config, tracks[1..]).1, n);
    }
  }

  lemma UnitReports(config: D.Config, t: D.Track, pes: seq<byte>, cc: u4, n: nat)
    requires !t.pendingProbe && 1 <= t.trackId <= n
    ensures var events := UnitTaken(config, t, pes, cc).events;
            NoForeignFrames(events, n) && Overflows(events) == if |pes| > config.maxReassembly then [t.pid] else []
  {
    hide Flushed;
    var flushed := Flushed(config, t).events;
    var overflow := if |pes| <= config.maxReassembly then [] else [D.Diag(D.PesOverflow(t.pid))];
    FlushReports(config, t, n);
    assert UnitTaken(config, t, pes, cc).events == flushed + overflow;
    OverflowsConcat(flushed, overflow);
    assert overflow != [] ==> overflow[1..] == [];
    ForeignConcat(flushed, overflow, n);
  }

  lemma LinkedTrack(base: seq<MuxTrack>, m: Mux, d: D.Demux)
    requires Linked(base, m, d)
    ensures |base| == |d.tracks|
    ensures forall i :: 0 <= i < |base| ==>
              d.tracks[i].trackId == i + 1 && !d.tracks[i].pendingProbe && d.tracks[i].pid == base[i].pid
  {
    forall i | 0 <= i < |base| ensures TrackLinked(base[i], m.tracks[i], d.tracks[i], i + 1) {
    }
  }

  lemma StepReports(config: D.Config, base: seq<MuxTrack>, m: Mux, d: D.Demux, op: Op,
                    prepare: (MuxTrack, Frame) -> seq<byte>)
    requires Linked(base, m, d) && WellFormed(base, m.pcrPid)
    ensures Whole(MuxOp(m, op, prepare).packets)
    ensures var events := FeedAll(config, d, MuxOp(m, op, prepare).packets).events;
            NoForeignFrames(events, |base|) && Overflows(events) == OversizedOp(config, base, op)
  {
    hide FeedAll, WellFormed, Tables, PushFrame, UnitTaken, Linked, Whole, PesOf, NoForeignFrames, Overflows;
    NothingReported(|base|);
    match op
    case WriteTables =>
      TablesKeepLink(config, base, m, d);
    case PushOne(f) =>
      FrameKeepsLink(config, base, m, d, f, prepare);
      var j := IndexOf(base, f.trackId);
      if j < |base| {
        LinkedTrack(base, m, d);
        SameSize(base, PushFrame(m, f, prepare).mux, FeedAll(config, d, PushFrame(m, f, prepare).packets).demux);
        UnitReports(config, d.tracks[j], PesOf(base[j], f), PushFrame(m, f, prepare).mux.tracks[j].cc, |base|);
      }
  }

  /** Over a run: one overflow report for each unit that is too large, in order and on its own identifier, and no frame
      of a track that does not exist. */
  lemma {:induction false} RunReports(config: D.Config, base: seq<MuxTrack>, m: Mux, d: D.Demux, ops: seq<Op>,
                                      prepare: (MuxTrack, Frame) -> seq<byte>)
    requires Linked(base, m, d) && WellFormed(base, m.pcrPid)
    ensures Whole(MuxRun(m, ops, prepare).packets)
    ensures var fed := FeedAll(config, d, MuxRun(m, ops, prepare).packets);
            var events := fed.events + D.FlushTracks(config, fed.demux.tracks).1;
            NoForeignFrames(events, |base|) && Overflows(events) == Oversized(config, base, ops)
    decreases |ops|
  {
    hide FeedAll, WellFormed, D.FlushTracks, Linked, Whole, MuxOp, OversizedOp, Overflows, NoForeignFrames;
    if ops == [] {
      NothingFed(config, d);
      LinkedTrack(base, m, d);
      FlushTracksReports(config, d.tracks, |base|);
      var flushed := D.FlushTracks(config, d.tracks).1;
      assert [] + flushed == flushed;
    } else {
      var first := MuxOp(m, ops[0], prepare);
      StepFed(config, base, m, d, ops[0], prepare);
      StepReports(config, base, m, d, ops[0], prepare);
      var fed := FeedAll(config, d, first.packets);
      var later := MuxRun(first.mux, ops[1..], prepare);
      RunReports(config, base, first.mux, fed.demux, ops[1..], prepare);
      BothWhole(first.packets, later.packets);
      FeedAllConcat(config, d, first.packets, later.packets);
      var after := FeedAll(config, fed.demux, later.packets);
      var rest := after.events + D.FlushTracks(config, after.demux.tracks).1;
      assert fed.events + after.events + D.FlushTracks(config, after.demux.tracks).1 == fed.events + rest;
      OverflowsConcat(fed.events, rest);
      ForeignConcat(fed.events, rest, |base|);
    }
  }

  lemma {:induction false} FoundIsNotReported(tracks: seq<MuxTrack>, id: nat, n: nat)
    ensures Overflows(FoundTracks(tracks, id)) == [] && NoForeignFrames(FoundTracks(tracks, id), n)
    decreases |tracks|
  {
    hide D.ClockRate, NaturalKind;
    if tracks != [] {
      FoundIsNotReported(tracks[1..], id + 1, n);
      OverflowsConcat(FoundTracks([tracks[0]], id), FoundTracks(tracks[1..], id + 1));
      ListedTracksFirst(tracks, id);
      assert [tracks[0]][1..] == [];
    }
  }

  // ---------- Muxers that qualify ----------

  lemma {:induction false} EntriesAreSmall(tracks: seq<MuxTrack>)
    ensures |StreamEntries(tracks)| <= 11 * |tracks|
  {
    hide Registration;
    if tracks != [] {
      EntriesAreSmall(tracks[1..]);
    }
  }

  /** A new muxer for at most 371 tracks whose codecs pass through, with bases that keep off the reserved packet
      identifiers, has the stream that comes back. */
  lemma NewMuxIsWellFormed(videoPidBase: u16, audioPidBase: u16, infos: seq<TrackInfo>)
    requires var sorted := SortTracks(infos);
             var videos, audios := Videos(sorted), |sorted| - Videos(sorted);
             |sorted| <= 371 && BasesFit(videoPidBase, audioPidBase, videos, audios)
             && 0 < videoPidBase && (videoPidBase + videos <= PMT_PID || PMT_PID < videoPidBase)
             && 0 < audioPidBase && (audioPidBase + audios <= PMT_PID || PMT_PID < audioPidBase)
             && forall i :: 0 <= i < |sorted| ==>
                  sorted[i].codec in {VP8, VP9, Opus, G711A, G711U, MJPEG, ADPCM}
                  && sorted[i].kind == NaturalKind(sorted[i].codec)
    ensures var m := NewMux(videoPidBase, audioPidBase, infos);
            WellFormed(m.tracks, m.pcrPid)
  {
    hide SortTracks, Videos, NewMux, StreamEntries, Registration, PmtSectionOf, BasesFit;
    var m := NewMux(videoPidBase, audioPidBase, infos);
    NewMuxIsDistinct(videoPidBase, audioPidBase, infos);
    EntriesAreSmall(m.tracks);
    MapSize(m.tracks, m.pcrPid);
    NewPidsAreElementary(videoPidBase, audioPidBase, SortTracks(infos), m.tracks);
  }

  lemma NewPidsAreElementary(videoPidBase: u16, audioPidBase: u16, sorted: seq<TrackInfo>, tracks: seq<MuxTrack>)
    requires var videos, audios := Videos(sorted), |sorted| - Videos(sorted);
             BasesFit(videoPidBase, audioPidBase, videos, audios)
             && 0 < videoPidBase && (videoPidBase + videos <= PMT_PID || PMT_PID < videoPidBase)
             && 0 < audioPidBase && (audioPidBase + audios <= PMT_PID || PMT_PID < audioPidBase)
    requires forall i :: 0 <= i < |tracks| ==>
               if tracks[i].kind == Video then videoPidBase <= tracks[i].pid < videoPidBase as int + Videos(sorted)
               else audioPidBase <= tracks[i].pid < audioPidBase as int + |sorted| - Videos(sorted)
    ensures forall i :: 0 <= i < |tracks| ==> IsElementary(tracks[i].pid)
  {
    hide Videos;
  }

  lemma MapSize(tracks: seq<MuxTrack>, pcrPid: u16)
    ensures |PmtSectionOf(tracks, pcrPid)| == 16 + |StreamEntries(tracks)|
  {
    hide StreamEntries, LengthField;
  }

  // ---------- Timestamps ----------

  function Delivered(config: D.Config, track: MuxTrack, frames: seq<Frame>): seq<Frame>
    decreases |frames|
  {
    if frames == [] then []
    else (if Deliverable(config, track, frames[0]) then [frames[0]] else []) + Delivered(config, track, frames[1..])
  }

  /** Frames that are dropped leave no trace on the others. */
  lemma {:induction false} OnlyDeliveredMatter(config: D.Config, track: MuxTrack, id: nat, frames: seq<Frame>,
                                               offset: int, last: Option<nat>)
    ensures Expect(config, track, id, Delivered(config, track, frames), offset, last)
         == Expect(config, track, id, frames, offset, last)
    ensures AllDeliverable(config, track, Delivered(config, track, frames))
    decreases |frames|
  {
    hide D.NextOffset, FrameBack, Deliverable;
    if frames != [] {
      var f, rest := frames[0], Delivered(config, track, frames[1..]);
      if Deliverable(config, track, f) {
        var now := D.NextOffset(offset, last, RawPts(f));
        OnlyDeliveredMatter(config, track, id, frames[1..], now, Some(RawPts(f)));
        assert ([f] + rest)[1..] == rest;
      } else {
        assert Delivered(config, track, frames) == rest;
        OnlyDeliveredMatter(config, track, id, frames[1..], offset, last);
      }
    }
  }

  ghost predicate AllDeliverable(config: D.Config, track: MuxTrack, frames: seq<Frame>) {
    forall k :: 0 <= k < |frames| ==> Deliverable(config, track, frames[k])
  }

  /** How many times the 33-bit clock has gone round. */
  function Period(ticks: nat): nat {
    ticks / WRAP
  }

  /** From one time to the next, the clock goes back by at most half its range, and into a later period by less. */
  predicate SteadyStep(a: nat, b: nat) {
    (b < a ==> a - b <= D.HALF_WRAP) && (Period(b) > Period(a) ==> b - a < D.HALF_WRAP)
  }

  /** The wrap offset keeps up with the true time exactly when the clock does not go back into an earlier period and
      its step is steady. */
  lemma OffsetFollowsIff(a: nat, b: nat)
    ensures D.NextOffset(WRAP * Period(a), Some(a % WRAP), b % WRAP) == WRAP * Period(b)
       <==> Period(a) <= Period(b) && SteadyStep(a, b)
  {
    assert a == WRAP * Period(a) + a % WRAP && b == WRAP * Period(b) + b % WRAP;
  }

  function PtsTicks(f: Frame): nat {
    UsTo90k(f.ptsUs)
  }

  /** Each step between presentation times, `before` being the time before the first, is steady. */
  ghost predicate Steady(before: nat, frames: seq<Frame>)
    decreases |frames|
  {
    frames == [] || (SteadyStep(before, PtsTicks(frames[0])) && Steady(PtsTicks(frames[0]), frames[1..]))
  }

  /** No frame goes back into an earlier period of the clock than the frame before it. */
  ghost predicate NeverBack(before: nat, frames: seq<Frame>)
    decreases |frames|
  {
    frames == [] || (Period(before) <= Period(PtsTicks(frames[0])) && NeverBack(PtsTicks(frames[0]), frames[1..]))
  }

  ghost predicate PtsExact(events: seq<D.Event>, frames: seq<Frame>) {
    |events| == |frames|
    && forall k :: 0 <= k < |events| ==> events[k].FrameOut? && events[k].pts == PtsTicks(frames[k])
  }

  lemma PtsBack(config: D.Config, track: MuxTrack, id: nat, f: Frame, offset: int)
    ensures var e := FrameBack(config, track, id, f, offset);
            e.FrameOut? && e.pts == PtsTicks(f) % WRAP + offset && e.payload == f.payload
            && (e.pts == PtsTicks(f) <==> offset == WRAP * Period(PtsTicks(f)))
  {
    hide D.TicksToUs, UsTo90k;
    assert PtsTicks(f) == WRAP * Period(PtsTicks(f)) + PtsTicks(f) % WRAP;
  }

  /** All presentation times come back exactly if and only if no frame goes back across a wrap of the clock and every
      step is steady: the demuxer only ever moves forward, and takes a long fall for a wrap. */
  lemma {:induction false} TimesComeBackIff(config: D.Config, track: MuxTrack, id: nat, frames: seq<Frame>, before: nat)
    requires AllDeliverable(config, track, frames)
    ensures PtsExact(Expect(config, track, id, frames, WRAP * Period(before), Some(before % WRAP)), frames)
       <==> NeverBack(before, frames) && Steady(before, frames)
    decreases |frames|
  {
    hide D.NextOffset, FrameBack, Deliverable, UsTo90k, Period, Expect, SteadyStep;
    if frames == [] {
      NoneExpected(config, track, id, WRAP * Period(before), Some(before % WRAP));
    } else {
      var f, rest, t := frames[0], frames[1..], PtsTicks(frames[0]);
      OffsetFollowsIff(before, t);
      var now := D.NextOffset(WRAP * Period(before), Some(before % WRAP), t % WRAP);
      PtsBack(config, track, id, f, now);
      assert frames == [f] + rest;
      NextExpected(config, track, id, f, rest, WRAP * Period(before), Some(before % WRAP));
      var events := Expect(config, track, id, frames, WRAP * Period(before), Some(before % WRAP));
      var later := Expect(config, track, id, rest, now, Some(t % WRAP));
      assert events == [FrameBack(config, track, id, f, now)] + later;
      if Period(before) <= Period(t) && SteadyStep(before, t) {
        TimesComeBackIff(config, track, id, rest, t);
        PtsExactSplits(events, frames);
      } else {
        assert events[0].pts != t;
      }
    }
  }

  /** From a fresh demuxer, the clock must also start in its first period. */
  ghost predicate Follows(frames: seq<Frame>) {
    frames != [] ==>
      var first := PtsTicks(frames[0]);
      Period(first) == 0 && NeverBack(first, frames[1..]) && Steady(first, frames[1..])
  }

  lemma FreshTimesComeBackIff(config: D.Config, track: MuxTrack, id: nat, frames: seq<Frame>)
    requires AllDeliverable(config, track, frames)
    ensures PtsExact(Expect(config, track, id, frames, 0, None), frames) <==> Follows(frames)
  {
    hide FrameBack, Deliverable, UsTo90k, Period, Expect;
    if frames == [] {
      NoneExpected(config, track, id, 0, None);
    } else {
      var f, rest, t := frames[0], frames[1..], PtsTicks(frames[0]);
      assert frames == [f] + rest;
      NextExpected(config, track, id, f, rest, 0, None);
      PtsBack(config, track, id, f, 0);
      var events := Expect(config, track, id, frames, 0, None);
      assert events == [FrameBack(config, track, id, f, 0)] + Expect(config, track, id, rest, 0, Some(t % WRAP));
      if Period(t) == 0 {
        TimesComeBackIff(config, track, id, rest, t);
        PtsExactSplits(events, frames);
      } else {
        assert events[0].pts != t;
      }
    }
  }

  /** Two frames at which it fails: from 4294967297 ticks back to 0 within the first period. The second comes back one
      whole turn of the clock late. */
  lemma LongFallIsTakenForWrap(config: D.Config, track: MuxTrack, id: nat)
    requires config.maxReassembly >= 20
    ensures var frames := [Frame(0, 47_721_858_856, 0, false, [0]), Frame(0, 0, 0, false, [0])];
            var events := Expect(config, track, id, frames, 0, None);
            PtsTicks(frames[0]) == 0x1_0000_0001 && PtsTicks(frames[1]) == 0
            && |events| == 2 && events[1].FrameOut? && events[1].pts == WRAP && !Follows(frames)
  {
    var f, g := Frame(0, 47_721_858_856, 0, false, [0]), Frame(0, 0, 0, false, [0]);
    LongFallTicks(f, g);
    PesSize(track, f);
    PesSize(track, g);
    TwoExpected(config, track, id, f, g);
    hide PesOf, UsTo90k, D.TicksToUs, FrameBack, Expect, SteadyStep, PtsTicks, RawPts;
    PtsBack(config, track, id, g, WRAP);
    assert [f, g][1..] == [g];
  }

  lemma LongFallTicks(f: Frame, g: Frame)
    requires f.ptsUs == 47_721_858_856 && g.ptsUs == 0
    ensures PtsTicks(f) == RawPts(f) == 0x1_0000_0001 && PtsTicks(g) == RawPts(g) == 0
    ensures D.NextOffset(0, Some(RawPts(f)), RawPts(g)) == WRAP && !SteadyStep(PtsTicks(f), PtsTicks(g))
  {
  }

  lemma TwoExpected(config: D.Config, track: MuxTrack, id: nat, f: Frame, g: Frame)
    requires Deliverable(config, track, f) && Deliverable(config, track, g)
    ensures var next := D.NextOffset(0, Some(RawPts(f)), RawPts(g));
            Expect(config, track, id, [f, g], 0, None)
            == [FrameBack(config, track, id, f, 0), FrameBack(config, track, id, g, next)]
  {
    hide Deliverable, FrameBack, Expect, RawPts;
    var next := D.NextOffset(0, Some(RawPts(f)), RawPts(g));
    assert [f] + [g] == [f, g] && [g] + [] == [g];
    NextExpected(config, track, id, f, [g], 0, None);
    NextExpected(config, track, id, g, [], 0, Some(RawPts(f)));
    NoneExpected(config, track, id, next, Some(RawPts(g)));
  }

  lemma PesSize(track: MuxTrack, f: Frame)
    ensures |PesOf(track, f)| <= 19 + |f.payload|
  {
    hide EncodeTimestamp, UsTo90k;
  }

  lemma PtsExactSplits(events: seq<D.Event>, frames: seq<Frame>)
    requires events != [] && frames != []
    ensures PtsExact(events, frames)
       <==> events[0].FrameOut? && events[0].pts == PtsTicks(frames[0]) && PtsExact(events[1..], frames[1..])
  {
    hide PtsTicks;
    if PtsExact(events[1..], frames[1..]) {
      assert forall k :: 1 <= k < |events| ==> events[k] == events[1..][k - 1] && frames[k] == frames[1..][k - 1];
    }
  }

  /** The decode time survives: a video header carries it, and the demuxer applies the presentation time's period to
      it; an audio header does not, and the demuxer puts the presentation time in its place. */
  predicate DecodeAgrees(track: MuxTrack, f: Frame) {
    if IsVideo(track) then Period(UsTo90k(f.dtsUs)) == Period(PtsTicks(f)) else UsTo90k(f.dtsUs) == PtsTicks(f)
  }

  /** The decode time of a frame whose presentation time is right comes back exactly if and only if both times lie in
      the same period, for video, and if and only if they are equal, for audio. */
  lemma DecodeTimeComesBackIff(config: D.Config, track: MuxTrack, id: nat, f: Frame)
    ensures var e := FrameBack(config, track, id, f, WRAP * Period(PtsTicks(f)));
            e.pts == PtsTicks(f) && (e.dts == UsTo90k(f.dtsUs) <==> DecodeAgrees(track, f))
  {
    hide UsTo90k, D.TicksToUs;
    var dts := UsTo90k(f.dtsUs);
    PtsBack(config, track, id, f, WRAP * Period(PtsTicks(f)));
    assert dts == WRAP * Period(dts) + dts % WRAP;
  }

  /** A frame at which it fails for audio: presented after a second and decoded at once. */
  lemma AudioDecodeTimeIsLost(config: D.Config, track: MuxTrack, id: nat)
    requires !IsVideo(track)
    ensures var f := Frame(0, 1_000_000, 0, false, [0]);
            FrameBack(config, track, id, f, 0).dts == 90_000 && UsTo90k(f.dtsUs) == 0
  {
    assert UsTo90k(1_000_000) == 90_000 && UsTo90k(0) == 0;
    hide UsTo90k, D.TicksToUs;
  }

  /** A frame at which it fails for video: presented when the clock has just wrapped and decoded one tick
      before. Its decode time comes back one whole turn of the clock late. */
  lemma DecodeTimeBeforeWrapIsLate(config: D.Config, track: MuxTrack, id: nat)
    requires IsVideo(track)
    ensures var f := Frame(0, 95_443_717_689, 95_443_717_688, false, [0]);
            var e := FrameBack(config, track, id, f, WRAP);
            PtsTicks(f) == WRAP && UsTo90k(f.dtsUs) == WRAP - 1 && e.pts == WRAP && e.dts == 2 * WRAP - 1
  {
    assert UsTo90k(95_443_717_689) == WRAP && UsTo90k(95_443_717_688) == WRAP - 1;
    hide UsTo90k, D.TicksToUs;
  }

  /** The frame with its own times. */
  function ExactFrame(config: D.Config, track: MuxTrack, id: nat, f: Frame): D.Event {
    var pts, dts := PtsTicks(f), UsTo90k(f.dtsUs);
    D.FrameOut(id, track.kind, track.codec, pts, dts, D.TicksToUs(pts), D.TicksToUs(dts),
               track.kind == Video && (config.isKeyframe)(f.payload, track.codec), f.payload)
  }

  function ExactFrames(config: D.Config, track: MuxTrack, id: nat, frames: seq<Frame>): seq<D.Event> {
    if frames == [] then []
    else [ExactFrame(config, track, id, frames[0])] + ExactFrames(config, track, id, frames[1..])
  }

  /** The decode times of all frames survive. */
  ghost predicate DecodeFollows(track: MuxTrack, frames: seq<Frame>) {
    forall k :: 0 <= k < |frames| ==> DecodeAgrees(track, frames[k])
  }

  lemma DecodeFollowsSplits(track: MuxTrack, frames: seq<Frame>)
    requires frames != []
    ensures DecodeFollows(track, frames) <==> DecodeAgrees(track, frames[0]) && DecodeFollows(track, frames[1..])
  {
    hide DecodeAgrees;
    if DecodeAgrees(track, frames[0]) && DecodeFollows(track, frames[1..]) {
      forall k | 0 <= k < |frames| ensures DecodeAgrees(track, frames[k]) {
        assert k > 0 ==> frames[k] == frames[1..][k - 1];
      }
    }
  }

  lemma FrameIsExactIff(config: D.Config, track: MuxTrack, id: nat, f: Frame, offset: int)
    ensures FrameBack(config, track, id, f, offset) == ExactFrame(config, track, id, f)
       <==> offset == WRAP * Period(PtsTicks(f)) && DecodeAgrees(track, f)
  {
    hide UsTo90k, D.TicksToUs, DecodeAgrees;
    PtsBack(config, track, id, f, offset);
    DecodeTimeComesBackIff(config, track, id, f);
  }

  lemma {:induction false} FramesAreExactIff(config: D.Config, track: MuxTrack, id: nat, frames: seq<Frame>,
                                             before: nat)
    requires AllDeliverable(config, track, frames)
    ensures Expect(config, track, id, frames, WRAP * Period(before), Some(before % WRAP))
            == ExactFrames(config, track, id, frames)
       <==> NeverBack(before, frames) && Steady(before, frames) && DecodeFollows(track, frames)
    decreases |frames|
  {
    hide D.NextOffset, FrameBack, ExactFrame, Deliverable, UsTo90k, Period, Expect, SteadyStep, DecodeFollows;
    hide DecodeAgrees;
    if frames == [] {
      NoneExpected(config, track, id, WRAP * Period(before), Some(before % WRAP));
      NothingToDecode(track);
    } else {
      var f, rest, t := frames[0], frames[1..], PtsTicks(frames[0]);
      var now := D.NextOffset(WRAP * Period(before), Some(before % WRAP), t % WRAP);
      assert frames == [f] + rest;
      OffsetFollowsIff(before, t);
      FrameIsExactIff(config, track, id, f, now);
      DecodeFollowsSplits(track, frames);
      NextExpected(config, track, id, f, rest, WRAP * Period(before), Some(before % WRAP));
      var events := Expect(config, track, id, frames, WRAP * Period(before), Some(before % WRAP));
      var later := Expect(config, track, id, rest, now, Some(t % WRAP));
      var exact := ExactFrames(config, track, id, frames);
      assert events == [FrameBack(config, track, id, f, now)] + later;
      assert events[0] == FrameBack(config, track, id, f, now) && events[1..] == later;
      assert exact[0] == ExactFrame(config, track, id, f) && exact[1..] == ExactFrames(config, track, id, rest);
      assert events == exact <==> events[0] == exact[0] && events[1..] == exact[1..] by {
        assert events == [events[0]] + events[1..] && exact == [exact[0]] + exact[1..];
      }
      if Period(before) <= Period(t) && SteadyStep(before, t) {
        FramesAreExactIff(config, track, id, rest, t);
      }
    }
  }

  lemma NothingToDecode(track: MuxTrack)
    ensures DecodeFollows(track, [])
  {
  }

  /** A fresh demuxer gives all frames with exactly their own times if and only if the clock starts in its first
      period, never goes back across a wrap, falls by at most half its range, and decode times survive. */
  lemma FreshFramesAreExactIff(config: D.Config, track: MuxTrack, id: nat, frames: seq<Frame>)
    requires AllDeliverable(config, track, frames)
    ensures Expect(config, track, id, frames, 0, None) == ExactFrames(config, track, id, frames)
       <==> Follows(frames) && DecodeFollows(track, frames)
  {
    hide FrameBack, ExactFrame, Deliverable, UsTo90k, Expect, DecodeFollows, DecodeAgrees, PesOf;
    if frames == [] {
      NoneExpected(config, track, id, 0, None);
      NothingToDecode(track);
    } else {
      var f, rest, t := frames[0], frames[1..], PtsTicks(frames[0]);
      assert frames == [f] + rest;
      FrameIsExactIff(config, track, id, f, 0);
      NextExpected(config, track, id, f, rest, 0, None);
      var events := Expect(config, track, id, frames, 0, None);
      var exact := ExactFrames(config, track, id, frames);
      assert events[0] == FrameBack(config, track, id, f, 0) && exact[0] == ExactFrame(config, track, id, f);
      DecodeFollowsSplits(track, frames);
      if Period(t) == 0 {
        FramesAreExactIff(config, track, id, rest, t);
        assert events[1..] == Expect(config, track, id, rest, 0, Some(t % WRAP));
        assert exact[1..] == ExactFrames(config, track, id, rest);
        assert events == [events[0]] + events[1..] && exact == [exact[0]] + exact[1..];
      }
    }
  }

  /** The main result with times. After any run and any chunking, each track has given exactly the deliverable payloads
      with their own 90 kHz times, if and only if those frames follow the clock as above. */
  lemma StreamComesBackExactlyIff(config: D.Config, m: Mux, ops: seq<Op>, prepare: (MuxTrack, Frame) -> seq<byte>,
                                  chunks: seq<seq<byte>>, i: nat)
    requires WellFormed(m.tracks, m.pcrPid) && i < |m.tracks|
    requires Flatten(chunks) == Flatten(MuxRun(m, [WriteTables] + ops, prepare).packets)
    ensures var pushed := PushAll(config, INITIAL, [], chunks);
            var events := pushed.events + D.FlushTracks(config, pushed.demux.tracks).1;
            var frames := Delivered(config, m.tracks[i], FramesOf(m.tracks, ops, i));
            Received(events, i + 1) == ExactFrames(config, m.tracks[i], i + 1, frames)
            <==> Follows(frames) && DecodeFollows(m.tracks[i], frames)
  {
    hide PushAll, MuxRun, WellFormed, Received, Expect, ExactFrames, Delivered, D.FlushTracks, FramesOf, Follows;
    hide DecodeFollows, FoundTracks, Calm, Overflows, Oversized, NoForeignFrames, AllDeliverable;
    var frames := FramesOf(m.tracks, ops, i);
    StreamComesBack(config, m, ops, prepare, chunks);
    OnlyDeliveredMatter(config, m.tracks[i], i + 1, frames, 0, None);
    FreshFramesAreExactIff(config, m.tracks[i], i + 1, Delivered(config, m.tracks[i], frames));
  }

  /** All times lie below 2^33, and none falls by more than half the range. */
  ghost predicate InFirstPeriod(last: Option<nat>, frames: seq<Frame>)
    decreases |frames|
  {
    frames == []
    || (PtsTicks(frames[0]) < WRAP && UsTo90k(frames[0].dtsUs) < WRAP
        && (last.Some? ==> last.value - PtsTicks(frames[0]) <= D.HALF_WRAP)
        && InFirstPeriod(Some(PtsTicks(frames[0])), frames[1..]))
  }

  /** In the clock's first period every deliverable frame comes back with exactly its own times, if and only if decode
      times survive; for video they do. */
  lemma {:induction false} FirstPeriodComesBackIff(config: D.Config, track: MuxTrack, id: nat, frames: seq<Frame>,
                                                   last: Option<nat>)
    requires AllDeliverable(config, track, frames) && InFirstPeriod(last, frames)
    ensures Expect(config, track, id, frames, 0, last) == ExactFrames(config, track, id, frames)
       <==> DecodeFollows(track, frames)
    ensures IsVideo(track) ==> DecodeFollows(track, frames)
    decreases |frames|
  {
    hide UsTo90k, FrameBack, ExactFrame, PesOf, DecodeFollows;
    if frames == [] {
      NothingToDecode(track);
    } else {
      var f, rest := frames[0], frames[1..];
      assert Deliverable(config, track, f);
      assert RawPts(f) == PtsTicks(f) && D.NextOffset(0, last, RawPts(f)) == 0 && Period(PtsTicks(f)) == 0;
      assert IsVideo(track) ==> DecodeAgrees(track, f);
      hide Deliverable, Period, DecodeAgrees, D.NextOffset;
      FrameIsExactIff(config, track, id, f, 0);
      DecodeFollowsSplits(track, frames);
      FirstPeriodComesBackIff(config, track, id, rest, Some(PtsTicks(f)));
      var events, exact := Expect(config, track, id, frames, 0, last), ExactFrames(config, track, id, frames);
      assert events == [events[0]] + events[1..] && exact == [exact[0]] + exact[1..];
    }
  }

  /** In microseconds a time comes back at most twelve early and never late, exactly when it is not negative and the
      demuxer's product by a hundred fits 63 bits. */
  lemma MicrosComeBackIff(us: i64)
    ensures us - 12 <= D.TicksToUs(UsTo90k(us)) <= us <==> 0 <= us && us * 9 / 100 * 100 < TWO63
  {
  }

  /** A time at which it fails: the product overflows, and a negative time comes back. */
  lemma LateMicrosOverflow()
    ensures D.TicksToUs(UsTo90k(1_100_000_000_000_000_000)) < 0
  {
  }
}
