/** MPEG transport streams: program tables, elementary packets, and the multi-track muxer. */
module TsMux {
  import opened Bytes
  import opened Crc
  import opened TsCommon

  datatype TrackInfo = TrackInfo(trackId: u32, kind: Kind, codec: Codec)

  datatype MuxTrack = MuxTrack(trackId: u32, pid: u16, streamId: byte, codec: Codec, kind: Kind, cc: u4)

  datatype Frame = Frame(trackId: u32, ptsUs: i64, dtsUs: i64, isKey: bool, payload: seq<byte>)

  // ---------- Tables ----------

  /** One packet of a table section; the first of a section has the start bit and a zero pointer field. */
  function PsiPacket(pid: u16, data: seq<byte>, start: bool, cc: u4): (s: seq<byte>)
    ensures |s| == PACKET_SIZE
  {
    var room := if start then PACKET_SIZE - 5 else PACKET_SIZE - 4;
    var n := Min(|data|, room);
    Header(pid, start, 1, cc) + (if start then [0] else []) + data[..n] + Fill(room - n, 0xFF)
  }

  function PsiTaken(start: bool, size: nat): (n: nat)
    ensures n <= size && (size > 0 ==> n > 0)
  {
    Min(size, if start then PACKET_SIZE - 5 else PACKET_SIZE - 4)
  }

  function PsiPackets(pid: u16, data: seq<byte>, start: bool, cc: u4): (packets: seq<seq<byte>>)
    ensures |packets| > 0
    decreases |data|
  {
    var n := PsiTaken(start, |data|);
    [PsiPacket(pid, data, start, cc)] + if n == |data| then [] else PsiPackets(pid, data[n..], false, Next(cc))
  }

  /** A section ends with its checksum. */
  function WithChecksum(body: seq<byte>): (s: seq<byte>)
    ensures |s| == |body| + 4
  {
    body + WordBytes(Crc32(body))
  }

  /** The association table: one program, whose map is in packets PMT_PID. */
  function PatBody(): (s: seq<byte>)
    ensures |s| == 12
  {
    [0x00, 0xB0, 0x0D, 0x00, 0x01, 0xC1, 0x00, 0x00, 0x00, 0x01, 0xF0, 0x00]
  }

  function StreamEntry(track: MuxTrack): (s: seq<byte>)
    ensures |s| == 5 + |Registration(track.codec)|
  {
    [StreamType(track.codec)] + Be16(0xE000 + track.pid % 0x2000) + Be16(0xF000 + |Registration(track.codec)|)
    + Registration(track.codec)
  }

  function StreamEntries(tracks: seq<MuxTrack>): seq<byte> {
    if tracks == [] then [] else StreamEntry(tracks[0]) + StreamEntries(tracks[1..])
  }

  /** The section length with the section syntax bits set around it. */
  function LengthField(n: u16): u16 {
    (0xB + if n / 0x4000 % 2 == 1 then 4 else 0) * 0x1000 + n % 0x1000
  }

  function PmtRest(tracks: seq<MuxTrack>, pcrPid: u16): seq<byte> {
    [0x00, 0x01, 0xC1, 0x00, 0x00] + Be16(0xE000 + pcrPid % 0x2000) + [0xF0, 0x00] + StreamEntries(tracks)
  }

  function PmtBody(tracks: seq<MuxTrack>, pcrPid: u16): (s: seq<byte>)
    ensures |s| >= 12
  {
    var rest := PmtRest(tracks, pcrPid);
    [0x02] + Be16(LengthField((|rest| + 4) % 0x1_0000)) + rest
  }

  // ---------- Frames ----------

  /** Microseconds as ticks of the 90 kHz clock; times before zero count as zero. */
  function UsTo90k(us: i64): u64 {
    if us >= 0 then us * 9 % TWO64 / 100 else 0
  }

  function PesLength(streamId: byte, headerSize: nat, payloadSize: nat): u16 {
    if streamId >= 0xE0 then 0
    else
      var size := (3 + headerSize + payloadSize) % 0x1_0000_0000;
      if size > 0xFFFF then 0 else size
  }

  /** The timestamps of a header; a decode time equal to the presentation time is left out. */
  function PesTimes(pts: Option<u64>, dts: Option<u64>): seq<byte> {
    var hasDts := dts.Some? && dts != pts;
    (if pts.Some? then EncodeTimestamp(if hasDts then 3 else 2, pts.value) else [])
    + (if hasDts then EncodeTimestamp(1, dts.value) else [])
  }

  function PesFlags(pts: Option<u64>, dts: Option<u64>): byte {
    if pts.None? then 0 else if dts.Some? && dts != pts then 0xC0 else 0x80
  }

  function BuildPes(streamId: byte, payload: seq<byte>, pts: Option<u64>, dts: Option<u64>): seq<byte> {
    var flags := PesFlags(pts, dts);
    var headerSize := if flags == 0xC0 then 10 else if flags == 0x80 then 5 else 0;
    [0x00, 0x00, 0x01, streamId] + Be16(PesLength(streamId, headerSize, |payload|)) + [0x80, flags, headerSize]
    + PesTimes(pts, dts) + payload
  }

  predicate IsVideo(track: MuxTrack) {
    track.kind == Video
  }

  /** Codecs whose payload is rewritten before it is packed. */
  predicate IsPrepared(track: MuxTrack) {
    (track.codec in {H264, H265, H266} && IsVideo(track)) || track.codec == AAC
  }

  function FramePes(track: MuxTrack, frame: Frame, prepare: (MuxTrack, Frame) -> seq<byte>): seq<byte> {
    BuildPes(track.streamId, if IsPrepared(track) then prepare(track, frame) else frame.payload,
             Some(UsTo90k(frame.ptsUs)), if IsVideo(track) then Some(UsTo90k(frame.dtsUs)) else None)
  }

  // ---------- The muxer ----------

  datatype Mux = Mux(tracks: seq<MuxTrack>, patCc: u4, pmtCc: u4, pcrPid: u16)

  datatype Muxed = Muxed(mux: Mux, packets: seq<seq<byte>>)

  function Tables(m: Mux): Muxed {
    var pat := PsiPackets(PAT_PID, WithChecksum(PatBody()), true, m.patCc);
    var pmt := PsiPackets(PMT_PID, WithChecksum(PmtBody(m.tracks, m.pcrPid)), true, m.pmtCc);
    Muxed(m.(patCc := Advance(m.patCc, |pat|), pmtCc := Advance(m.pmtCc, |pmt|)), pat + pmt)
  }

  function IndexOf(tracks: seq<MuxTrack>, trackId: u32): (i: nat)
    ensures i <= |tracks|
    ensures i < |tracks| ==> tracks[i].trackId == trackId
    ensures forall j :: 0 <= j < i ==> tracks[j].trackId != trackId
  {
    if tracks == [] || tracks[0].trackId == trackId then 0 else 1 + IndexOf(tracks[1..], trackId)
  }

  function FramePackets(track: MuxTrack, frame: Frame, prepare: (MuxTrack, Frame) -> seq<byte>): seq<seq<byte>> {
    var random := frame.isKey && IsVideo(track);
    PesPackets(track.pid, FramePes(track, frame, prepare), true, track.cc, random,
               if random then Some(UsTo90k(frame.dtsUs)) else None)
  }

  /** A frame of a track that is not known is dropped. */
  function PushFrame(m: Mux, frame: Frame, prepare: (MuxTrack, Frame) -> seq<byte>): Muxed {
    var i := IndexOf(m.tracks, frame.trackId);
    if i == |m.tracks| then Muxed(m, [])
    else
      var track := m.tracks[i];
      var packets := FramePackets(track, frame, prepare);
      Muxed(m.(tracks := m.tracks[i := track.(cc := Advance(track.cc, |packets|))]), packets)
  }

  class MpegTsMuxer {
    /** The codec-specific rewriting of a payload. */
    const prepare: (MuxTrack, Frame) -> seq<byte>
    var tracks: seq<MuxTrack>
    var patCc: u4
    var pmtCc: u4
    var pcrPid: u16

    constructor (videoPidBase: u16, audioPidBase: u16, infos: seq<TrackInfo>, prepare: (MuxTrack, Frame) -> seq<byte>)
      ensures this.prepare == prepare && Now() == NewMux(videoPidBase, audioPidBase, infos)
    {
      this.prepare := prepare;
      var entries := AssignAll(SortTracks(infos), videoPidBase, audioPidBase);
      tracks, patCc, pmtCc := entries, 0, 0;
      pcrPid := PcrPid(entries, videoPidBase);
    }

    ghost function Now(): Mux
      reads this
    {
      Mux(tracks, patCc, pmtCc, pcrPid)
    }

    method WriteTables() returns (bytes: seq<byte>)
      modifies this`patCc, this`pmtCc
      ensures Now() == Tables(old(Now())).mux && bytes == Flatten(Tables(old(Now())).packets)
    {
      hide PsiPackets, PatBody, PmtBody, WithChecksum, Flatten;
      bytes := [];
      var pat := Section(PatBody());
      bytes, patCc := WriteSection(bytes, PAT_PID, pat, patCc, true);
      var pmt := PmtSection(tracks, pcrPid);
      bytes, pmtCc := WriteSection(bytes, PMT_PID, pmt, pmtCc, true);
      FlattenConcat(PsiPackets(PAT_PID, pat, true, old(patCc)), PsiPackets(PMT_PID, pmt, true, old(pmtCc)));
    }

    method Push(frame: Frame) returns (bytes: seq<byte>)
      modifies this`tracks
      ensures Now() == PushFrame(old(Now()), frame, prepare).mux
      ensures bytes == Flatten(PushFrame(old(Now()), frame, prepare).packets)
    {
      hide FramePes, PesPackets;
      var idx := IndexOf(tracks, frame.trackId);
      if idx == |tracks| {
        return [];
      }
      var track := tracks[idx];
      var pes := FramePes(track, frame, prepare);
      var random := frame.isKey && IsVideo(track);
      var cc;
      bytes, cc := WritePesPackets([], track.pid, pes, track.cc, random,
                                   if random then Some(UsTo90k(frame.dtsUs)) else None);
      tracks := tracks[idx := track.(cc := cc)];
    }
  }

  method Section(body: seq<byte>) returns (section: seq<byte>)
    ensures section == WithChecksum(body)
  {
    hide Register;
    var crc := Crc32Mpeg2(body);
    return body + WordBytes(crc);
  }

  /** The map section; its length is written over a placeholder. */
  method PmtSection(tracks: seq<MuxTrack>, pcrPid: u16) returns (section: seq<byte>)
    ensures section == WithChecksum(PmtBody(tracks, pcrPid))
  {
    hide Crc32, StreamEntries, LengthField, WithChecksum, Be16;
    var payload := [0x02] + Be16(0);
    payload := payload + [0x00, 0x01, 0xC1, 0x00, 0x00] + Be16(0xE000 + pcrPid % 0x2000) + [0xF0, 0x00];
    payload := WriteEntries(payload, tracks);
    ghost var rest := PmtRest(tracks, pcrPid);
    assert payload == [0x02] + Be16(0) + rest;
    hide PmtRest;
    var size := (|payload| - 3 + 4) % 0x1_0000;
    payload := payload[..1] + Be16(LengthField(size)) + payload[3..];
    assert payload == PmtBody(tracks, pcrPid);
    section := Section(payload);
  }

  method WriteEntries(start: seq<byte>, tracks: seq<MuxTrack>) returns (payload: seq<byte>)
    ensures payload == start + StreamEntries(tracks)
  {
    hide StreamEntry;
    payload := start;
    for i := 0 to |tracks|
      invariant payload + StreamEntries(tracks[i..]) == start + StreamEntries(tracks)
    {
      assert tracks[i..][1..] == tracks[i + 1..];
      payload := payload + StreamEntry(tracks[i]);
    }
  }

  lemma NextPsiPacket(pid: u16, data: seq<byte>, start: bool, cc: u4, taken: nat)
    requires taken == PsiTaken(start, |data|)
    ensures PsiPackets(pid, data, start, cc)
         == [PsiPacket(pid, data, start, cc)]
            + if taken == |data| then [] else PsiPackets(pid, data[taken..], false, Next(cc))
  {
    hide PsiPacket;
  }

  /** The packets still to be written at `offset`. */
  ghost function Remaining(pid: u16, payload: seq<byte>, offset: nat, first: bool, pusi: bool, cc: u4): seq<seq<byte>>
    requires offset <= |payload|
  {
    if offset < |payload| || (|payload| == 0 && first) then PsiPackets(pid, payload[offset..], first && pusi, cc)
    else []
  }

  lemma NextRemaining(pid: u16, payload: seq<byte>, offset: nat, first: bool, pusi: bool, cc: u4, taken: nat)
    requires offset < |payload| || (|payload| == 0 && first && offset == 0)
    requires taken == PsiTaken(first && pusi, |payload| - offset)
    ensures Remaining(pid, payload, offset, first, pusi, cc)
         == [PsiPacket(pid, payload[offset..], first && pusi, cc)]
            + Remaining(pid, payload, offset + taken, false, pusi, Next(cc))
  {
    hide PsiPackets, PsiPacket;
    NextPsiPacket(pid, payload[offset..], first && pusi, cc, taken);
    assert payload[offset..][taken..] == payload[offset + taken..];
  }

  method WriteSection(start: seq<byte>, pid: u16, payload: seq<byte>, cc: u4, pusi: bool)
    returns (buf: seq<byte>, next: u4)
    ensures var packets := PsiPackets(pid, payload, pusi, cc);
            buf == start + Flatten(packets) && next == Advance(cc, |packets|)
  {
    hide PsiPacket, PsiPackets, PsiTaken, Remaining;
    buf, next := start, cc;
    var offset, first, count := 0, true, 0;
    ghost var all := PsiPackets(pid, payload, pusi, cc);
    assert all == Remaining(pid, payload, 0, true, pusi, cc) by { AllRemaining(pid, payload, pusi, cc); }
    while offset < |payload| || (|payload| == 0 && first)
      invariant offset <= |payload| && (first ==> offset == 0)
      invariant next == Advance(cc, count)
      invariant buf + Flatten(Remaining(pid, payload, offset, first, pusi, next)) == start + Flatten(all)
      invariant count + |Remaining(pid, payload, offset, first, pusi, next)| == |all|
      decreases |payload| - offset, first
    {
      var usePusi := first && pusi;
      var pkt, copied := FillPsiPacket(pid, payload[offset..], usePusi, next);
      NextRemaining(pid, payload, offset, first, pusi, next, copied);
      buf := buf + pkt[..];
      offset := offset + copied;
      next := Next(next);
      first := false;
      count := count + 1;
    }
    NoneRemaining(pid, payload, offset, first, pusi, next);
  }

  lemma AllRemaining(pid: u16, payload: seq<byte>, pusi: bool, cc: u4)
    ensures Remaining(pid, payload, 0, true, pusi, cc) == PsiPackets(pid, payload, pusi, cc)
  {
    assert payload[0..] == payload;
  }

  lemma NoneRemaining(pid: u16, payload: seq<byte>, offset: nat, first: bool, pusi: bool, cc: u4)
    requires offset <= |payload| && !(offset < |payload| || (|payload| == 0 && first))
    ensures Remaining(pid, payload, offset, first, pusi, cc) == []
  {
  }

  method FillPsiPacket(pid: u16, data: seq<byte>, start: bool, cc: u4) returns (pkt: array<byte>, copied: nat)
    ensures fresh(pkt) && pkt[..] == PsiPacket(pid, data, start, cc)
    ensures copied == PsiTaken(start, |data|)
  {
    hide Header;
    pkt := new byte[PACKET_SIZE](_ => 0xFF);
    assert pkt[..] == Fill(PACKET_SIZE, 0xFF);
    var header := Header(pid, start, 1, cc);
    CopyInto(pkt, 0, header);
    assert pkt[..] == header + Fill(PACKET_SIZE - 4, 0xFF);
    var headerSize := 4;
    if start {
      headerSize := 5;
      CopyInto(pkt, 4, [0]);
    }
    var lead := if start then header + [0] else header;
    assert pkt[..] == lead + Fill(PACKET_SIZE - headerSize, 0xFF);
    copied := Min(|data|, PACKET_SIZE - headerSize);
    if copied > 0 {
      CopyInto(pkt, headerSize, data[..copied]);
    }
    assert pkt[..] == lead + data[..copied] + Fill(PACKET_SIZE - headerSize - copied, 0xFF);
  }

  // ---------- Setting up ----------

  /** Video tracks come before audio tracks, and each kind in order of track ids. */
  predicate Before(a: TrackInfo, b: TrackInfo) {
    if a.kind == Video then b.kind == Video ==> a.trackId <= b.trackId
    else b.kind != Video && a.trackId <= b.trackId
  }

  function Insert(sorted: seq<TrackInfo>, t: TrackInfo): seq<TrackInfo> {
    if sorted == [] || !Before(sorted[0], t) then [t] + sorted else [sorted[0]] + Insert(sorted[1..], t)
  }

  /** The video and audio tracks in order; equal ones keep their places. */
  function SortTracks(infos: seq<TrackInfo>): seq<TrackInfo> {
    if infos == [] then []
    else
      var n := |infos| - 1;
      var sorted := SortTracks(infos[..n]);
      if infos[n].kind == Other then sorted else Insert(sorted, infos[n])
  }

  function Videos(tracks: seq<TrackInfo>): (n: nat)
    ensures n <= |tracks|
  {
    if tracks == [] then 0 else (if tracks[0].kind == Video then 1 else 0) + Videos(tracks[1..])
  }

  /** Entry `i` of the sorted tracks: the n-th track of its kind gets the n-th packet and stream identifiers. */
  function Assign(sorted: seq<TrackInfo>, videoPidBase: u16, audioPidBase: u16, i: nat): MuxTrack
    requires i < |sorted|
  {
    var t := sorted[i];
    var nth := if t.kind == Video then Videos(sorted[..i]) else i - Videos(sorted[..i]);
    MuxTrack(t.trackId, PidAt(if t.kind == Video then videoPidBase else audioPidBase, nth),
             StreamAt(if t.kind == Video then 0xE0 else 0xC0, nth), t.codec, t.kind, 0)
  }

  function PidAt(base: u16, n: nat): u16 {
    (base + n) % 0x1_0000
  }

  function StreamAt(base: byte, n: nat): byte {
    (base + n) % 0x100
  }

  lemma NextPid(base: u16, n: nat)
    ensures PidAt(base, 0) == base && PidAt(base, n + 1) == (PidAt(base, n) as int + 1) % 0x1_0000
  {
  }

  lemma NextStream(base: byte, n: nat)
    ensures StreamAt(base, 0) == base && StreamAt(base, n + 1) == (StreamAt(base, n) as int + 1) % 0x100
  {
  }

  function PcrPid(entries: seq<MuxTrack>, fallback: u16): u16 {
    var i := FirstVideo(entries);
    if i < |entries| then entries[i].pid else if entries != [] then entries[0].pid else fallback
  }

  function FirstVideo(entries: seq<MuxTrack>): (i: nat)
    ensures i <= |entries|
  {
    if entries == [] || IsVideo(entries[0]) then 0 else 1 + FirstVideo(entries[1..])
  }

  function NewMux(videoPidBase: u16, audioPidBase: u16, infos: seq<TrackInfo>): Mux {
    var sorted := SortTracks(infos);
    var entries := seq(|sorted|, i requires 0 <= i < |sorted| => Assign(sorted, videoPidBase, audioPidBase, i));
    Mux(entries, 0, 0, PcrPid(entries, videoPidBase))
  }

  method AssignAll(sorted: seq<TrackInfo>, videoPidBase: u16, audioPidBase: u16) returns (entries: seq<MuxTrack>)
    ensures |entries| == |sorted|
    ensures forall i :: 0 <= i < |sorted| ==> entries[i] == Assign(sorted, videoPidBase, audioPidBase, i)
  {
    hide PidAt, StreamAt;
    entries := [];
    NextPid(videoPidBase, 0);
    NextPid(audioPidBase, 0);
    NextStream(0xE0, 0);
    NextStream(0xC0, 0);
    var nextVideoPid: u16, nextAudioPid: u16 := videoPidBase, audioPidBase;
    var nextVideoStream: byte, nextAudioStream: byte := 0xE0, 0xC0;
    for i := 0 to |sorted|
      invariant |entries| == i
      invariant forall j :: 0 <= j < i ==> entries[j] == Assign(sorted, videoPidBase, audioPidBase, j)
      invariant nextVideoPid == PidAt(videoPidBase, Videos(sorted[..i]))
      invariant nextAudioPid == PidAt(audioPidBase, i - Videos(sorted[..i]))
      invariant nextVideoStream == StreamAt(0xE0, Videos(sorted[..i]))
      invariant nextAudioStream == StreamAt(0xC0, i - Videos(sorted[..i]))
    {
      var t := sorted[i];
      VideosSnoc(sorted, i);
      ghost var v := Videos(sorted[..i]);
      NextPid(videoPidBase, v);
      NextPid(audioPidBase, i - v);
      NextStream(0xE0, v);
      NextStream(0xC0, i - v);
      if t.kind == Video {
        entries := entries + [MuxTrack(t.trackId, nextVideoPid, nextVideoStream, t.codec, t.kind, 0)];
        nextVideoPid, nextVideoStream := (nextVideoPid as int + 1) % 0x1_0000, (nextVideoStream as int + 1) % 0x100;
      } else {
        entries := entries + [MuxTrack(t.trackId, nextAudioPid, nextAudioStream, t.codec, t.kind, 0)];
        nextAudioPid, nextAudioStream := (nextAudioPid as int + 1) % 0x1_0000, (nextAudioStream as int + 1) % 0x100;
      }
    }
  }

  lemma {:induction false} VideosSnoc(tracks: seq<TrackInfo>, i: nat)
    requires i < |tracks|
    ensures Videos(tracks[..i + 1]) == Videos(tracks[..i]) + if tracks[i].kind == Video then 1 else 0
  {
    if i > 0 {
      assert tracks[1..][..i] == tracks[..i + 1][1..] && tracks[1..][..i - 1] == tracks[..i][1..];
      VideosSnoc(tracks[1..], i - 1);
    }
  }

  // ---------- What setting up gives ----------

  ghost predicate Ordered(tracks: seq<TrackInfo>) {
    forall i, j :: 0 <= i < j < |tracks| ==> Before(tracks[i], tracks[j])
  }

  function Muxable(infos: seq<TrackInfo>): (tracks: seq<TrackInfo>)
    ensures forall i :: 0 <= i < |tracks| ==> tracks[i].kind != Other
  {
    if infos == [] then []
    else
      var n := |infos| - 1;
      Muxable(infos[..n]) + if infos[n].kind == Other then [] else [infos[n]]
  }

  lemma {:induction false} InsertAddsOne(sorted: seq<TrackInfo>, t: TrackInfo)
    ensures multiset(Insert(sorted, t)) == multiset(sorted) + multiset{t}
  {
    if sorted == [] || !Before(sorted[0], t) {
      assert multiset([t] + sorted) == multiset{t} + multiset(sorted);
    } else {
      var rest := sorted[1..];
      InsertAddsOne(rest, t);
      assert sorted == [sorted[0]] + rest;
    }
  }

  lemma OrderedFront(first: TrackInfo, rest: seq<TrackInfo>)
    requires Ordered(rest) && (rest != [] ==> Before(first, rest[0]))
    ensures Ordered([first] + rest)
  {
    forall j | 0 <= j < |rest| ensures Before(first, rest[j]) {
      assert j == 0 || Before(rest[0], rest[j]);
    }
  }

  lemma {:induction false} InsertKeepsOrder(sorted: seq<TrackInfo>, t: TrackInfo)
    requires Ordered(sorted)
    ensures Ordered(Insert(sorted, t))
  {
    if sorted == [] || !Before(sorted[0], t) {
      OrderedFront(t, sorted);
    } else {
      var rest := sorted[1..];
      InsertKeepsOrder(rest, t);
      OrderedFront(sorted[0], Insert(rest, t));
    }
  }

  /** Tracks end up video first and by id, none lost and none added. */
  lemma {:induction false} SortTracksSorts(infos: seq<TrackInfo>)
    ensures Ordered(SortTracks(infos)) && multiset(SortTracks(infos)) == multiset(Muxable(infos))
  {
    if infos != [] {
      var n := |infos| - 1;
      SortTracksSorts(infos[..n]);
      InsertKeepsOrder(SortTracks(infos[..n]), infos[n]);
      InsertAddsOne(SortTracks(infos[..n]), infos[n]);
      var before := Muxable(infos[..n]);
      assert multiset(before + [infos[n]]) == multiset(before) + multiset{infos[n]};
    }
  }

  lemma {:induction false} VideosGrow(tracks: seq<TrackInfo>, i: nat, j: nat)
    requires i <= j <= |tracks|
    ensures Videos(tracks[..i]) <= Videos(tracks[..j]) && i - Videos(tracks[..i]) <= j - Videos(tracks[..j])
    decreases j
  {
    if i < j {
      VideosGrow(tracks, i, j - 1);
      VideosSnoc(tracks, j - 1);
    }
  }

  /** Bases that leave room for all tracks of a kind, without meeting those of the other kind. */
  predicate BasesFit(videoPidBase: u16, audioPidBase: u16, videos: nat, audios: nat) {
    videoPidBase + videos <= 0x1FFF && audioPidBase + audios <= 0x1FFF
    && (videoPidBase + videos <= audioPidBase || audioPidBase + audios <= videoPidBase)
  }

  /** Each track gets an identifier of its own, from the range of its kind. */
  lemma NewMuxIsDistinct(videoPidBase: u16, audioPidBase: u16, infos: seq<TrackInfo>)
    requires var sorted := SortTracks(infos);
             BasesFit(videoPidBase, audioPidBase, Videos(sorted), |sorted| - Videos(sorted))
    ensures var sorted, tracks := SortTracks(infos), NewMux(videoPidBase, audioPidBase, infos).tracks;
            |tracks| == |sorted|
            && (forall i :: 0 <= i < |tracks| ==>
                  tracks[i].trackId == sorted[i].trackId && tracks[i].codec == sorted[i].codec
                  && tracks[i].kind == sorted[i].kind
                  && if tracks[i].kind == Video
                     then videoPidBase <= tracks[i].pid < videoPidBase as int + Videos(sorted)
                     else audioPidBase <= tracks[i].pid < audioPidBase as int + |sorted| - Videos(sorted))
            && forall i, j :: 0 <= i < j < |tracks| ==> tracks[i].pid != tracks[j].pid
  {
    var sorted, tracks := SortTracks(infos), NewMux(videoPidBase, audioPidBase, infos).tracks;
    hide SortTracks, Videos;
    assert sorted[..|sorted|] == sorted;
    forall i | 0 <= i < |tracks|
      ensures var nth := if sorted[i].kind == Video then Videos(sorted[..i]) else i - Videos(sorted[..i]);
              nth < (if sorted[i].kind == Video then Videos(sorted) else |sorted| - Videos(sorted))
              && tracks[i].pid == (if sorted[i].kind == Video then videoPidBase else audioPidBase) as int + nth
    {
      VideosSnoc(sorted, i);
      VideosGrow(sorted, i + 1, |sorted|);
    }
    forall i, j | 0 <= i < j < |tracks| ensures tracks[i].pid != tracks[j].pid {
      VideosSnoc(sorted, i);
      VideosGrow(sorted, i + 1, j);
    }
  }
}
