/** MPEG transport streams: the demuxer reads back the packets and program tables that the muxer writes. */
module TsTables {
  import opened Bytes
  import opened Crc
  import opened TsCommon
  import opened TsMux
  import D = TsDemux

  // ---------- Packets ----------

  lemma HeaderIsRead(pid: u16, start: bool, control: nat, cc: u4, h: seq<byte>)
    requires pid < 0x2000 && control < 4 && h == Header(pid, start, control, cc)
    ensures h[0] == SYNC_BYTE && D.PidOf(h[1], h[2]) == pid && (h[1] / 0x40 % 2 == 1 <==> start)
    ensures h[3] / 0x10 % 4 == control && h[3] % 0x10 == cc
  {
  }

  /** Whatever the adaptation field, a packet is read back as its payload. */
  lemma PacketIsRead(pid: u16, start: bool, cc: u4, field: seq<byte>, data: seq<byte>)
    requires pid < 0x2000 && data != [] && 4 + |field| + |data| == PACKET_SIZE
    requires field != [] ==> field[0] == |field| - 1
    ensures D.ParsePacket(Header(pid, start, if field == [] then 1 else 3, cc) + field + data)
         == D.Payload(pid, start, cc, data)
  {
    var control := if field == [] then 1 else 3;
    var header := Header(pid, start, control, cc);
    var pkt := header + field + data;
    HeaderIsRead(pid, start, control, cc, header);
    hide Header, D.PidOf;
    assert pkt[0] == header[0] && pkt[1] == header[1] && pkt[2] == header[2] && pkt[3] == header[3];
    assert pkt[4 + |field|..] == data;
    if field != [] {
      assert pkt[4] == field[0];
    }
  }

  lemma PesPacketIsRead(pid: u16, data: seq<byte>, first: bool, cc: u4, randomAccess: bool, pcr: Option<u64>)
    requires pid < 0x2000 && data != []
    ensures PesPacket(pid, data, first, cc, randomAccess, pcr)[0] == SYNC_BYTE
    ensures D.ParsePacket(PesPacket(pid, data, first, cc, randomAccess, pcr))
         == D.Payload(pid, first, cc, data[..Taken(first, randomAccess, pcr, |data|)])
  {
    hide D.ParsePacket, Field, FieldContent;
    var field := Field(first, randomAccess, pcr, |data|);
    PacketIsRead(pid, first, cc, field, data[..Taken(first, randomAccess, pcr, |data|)]);
  }

  /** The payload of a table packet: pointer field, section bytes, stuffing. */
  function PsiPayload(data: seq<byte>, start: bool): (s: seq<byte>)
    ensures |s| == PACKET_SIZE - 4
  {
    var n := PsiTaken(start, |data|);
    (if start then [0] else []) + data[..n] + Fill((if start then PACKET_SIZE - 5 else PACKET_SIZE - 4) - n, 0xFF)
  }

  lemma PsiPacketIsRead(pid: u16, data: seq<byte>, start: bool, cc: u4)
    requires pid < 0x2000
    ensures PsiPacket(pid, data, start, cc)[0] == SYNC_BYTE
    ensures D.ParsePacket(PsiPacket(pid, data, start, cc)) == D.Payload(pid, start, cc, PsiPayload(data, start))
  {
    hide D.ParsePacket, Header;
    PacketIsRead(pid, start, cc, [], PsiPayload(data, start));
    assert PsiPacket(pid, data, start, cc) == Header(pid, start, 1, cc) + [] + PsiPayload(data, start);
    HeaderIsRead(pid, start, 1, cc, Header(pid, start, 1, cc));
  }

  // ---------- Sections that span packets ----------

  /** The payloads of the packets a section is cut into. */
  function PsiPayloads(data: seq<byte>, start: bool): (payloads: seq<seq<byte>>)
    ensures |payloads| > 0
    decreases |data|
  {
    var n := PsiTaken(start, |data|);
    [PsiPayload(data, start)] + if n == |data| then [] else PsiPayloads(data[n..], false)
  }

  /** What the reassembler gives for each payload; only the first starts a section. */
  ghost function Outputs(d: D.Demux, payloads: seq<seq<byte>>, start: bool): (D.Demux, seq<Option<seq<byte>>>)
    decreases |payloads|
  {
    if payloads == [] then (d, [])
    else
      var first := D.Reassemble(d, payloads[0], start);
      var (after, later) := Outputs(first.demux, payloads[1..], false);
      (after, [first.section] + later)
  }

  /** Nothing until the last payload, then exactly the section. */
  ghost predicate OnlyLast(outputs: seq<Option<seq<byte>>>, section: seq<byte>) {
    outputs != [] && outputs[|outputs| - 1] == Some(section)
    && forall k :: 0 <= k < |outputs| - 1 ==> outputs[k] == None
  }

  ghost predicate WellSized(section: seq<byte>) {
    |section| >= 3 && 3 + D.SectionLength(section) == |section|
  }

  function Cleared(d: D.Demux): D.Demux {
    d.(section := [], target := None)
  }

  /** A packet in the middle of a section: it completes the section or the section goes on. */
  lemma MiddleOfSection(d: D.Demux, section: seq<byte>, sent: nat)
    requires WellSized(section) && 3 <= sent < |section| && d.section == section[..sent] && d.target == Some(|section|)
    ensures var n := PsiTaken(false, |section| - sent);
            D.Reassemble(d, PsiPayload(section[sent..], false), false)
            == if sent + n == |section| then D.Reassembled(Cleared(d), Some(section))
               else D.Reassembled(d.(section := section[..sent + n]), None)
  {
    var rest := section[sent..];
    var n := PsiTaken(false, |rest|);
    var payload := PsiPayload(rest, false);
    var buffered := d.section + payload;
    if n == |rest| {
      assert rest[..n] == rest;
      assert buffered[..|section|] == section;
    } else {
      assert payload == rest[..n];
      assert buffered == section[..sent + n];
    }
  }

  lemma StartOfSection(d: D.Demux, section: seq<byte>)
    requires WellSized(section)
    ensures var n := PsiTaken(true, |section|);
            D.Reassemble(d, PsiPayload(section, true), true)
            == if n == |section| then D.Reassembled(Cleared(d), Some(section))
               else D.Reassembled(d.(section := section[..n], target := Some(|section|)), None)
  {
    var n := PsiTaken(true, |section|);
    var payload := PsiPayload(section, true);
    var data := section[..n] + Fill(PACKET_SIZE - 5 - n, 0xFF);
    assert payload == [0] + data;
    hide PsiPayload;
    assert D.AfterPointer(payload, true) == Some(data) by {
      assert payload[1..] == data;
    }
    hide D.AfterPointer;
    assert [] + data == data;
    assert data[1] == section[1] && data[2] == section[2];
    if n == |section| {
      assert data[..|section|] == section;
    } else {
      assert data == section[..n];
    }
  }

  lemma {:induction false} SectionGoesOn(d: D.Demux, section: seq<byte>, sent: nat)
    requires WellSized(section) && 3 <= sent < |section| && d.section == section[..sent] && d.target == Some(|section|)
    ensures var (after, outputs) := Outputs(d, PsiPayloads(section[sent..], false), false);
            after == Cleared(d) && OnlyLast(outputs, section)
    decreases |section| - sent
  {
    hide D.Reassemble, PsiPayload;
    var rest := section[sent..];
    var n := PsiTaken(false, |rest|);
    MiddleOfSection(d, section, sent);
    var payloads := PsiPayloads(rest, false);
    if sent + n == |section| {
      assert payloads[1..] == [];
    } else {
      var d1 := d.(section := section[..sent + n]);
      assert rest[n..] == section[sent + n..];
      assert payloads[1..] == PsiPayloads(section[sent + n..], false);
      SectionGoesOn(d1, section, sent + n);
    }
  }

  /** A section with a correct length field, cut into packets, comes back whole with the last packet and not before,
      whatever was buffered. */
  lemma SectionComesBack(d: D.Demux, section: seq<byte>)
    requires WellSized(section)
    ensures var (after, outputs) := Outputs(d, PsiPayloads(section, true), true);
            after == Cleared(d) && OnlyLast(outputs, section)
  {
    hide D.Reassemble, PsiPayload;
    var n := PsiTaken(true, |section|);
    StartOfSection(d, section);
    var payloads := PsiPayloads(section, true);
    if n == |section| {
      assert payloads[1..] == [];
    } else {
      assert payloads[1..] == PsiPayloads(section[n..], false);
      SectionGoesOn(d.(section := section[..n], target := Some(|section|)), section, n);
    }
  }

  // ---------- Feeding packets ----------

  ghost predicate Whole(packets: seq<seq<byte>>) {
    forall i :: 0 <= i < |packets| ==> |packets[i]| == PACKET_SIZE && packets[i][0] == SYNC_BYTE
  }

  function FeedAll(config: D.Config, d: D.Demux, packets: seq<seq<byte>>): D.Fed
    requires Whole(packets)
    decreases |packets|
  {
    if packets == [] then D.Fed(d, [])
    else
      var first := D.FeedPacket(config, d, packets[0]);
      var later := FeedAll(config, first.demux, packets[1..]);
      D.Fed(later.demux, first.events + later.events)
  }

  lemma {:induction false} FeedAllConcat(config: D.Config, d: D.Demux, x: seq<seq<byte>>, y: seq<seq<byte>>)
    requires Whole(x) && Whole(y)
    ensures var first := FeedAll(config, d, x);
            var second := FeedAll(config, first.demux, y);
            FeedAll(config, d, x + y) == D.Fed(second.demux, first.events + second.events)
    decreases |x|
  {
    hide D.FeedPacket;
    if x == [] {
      assert x + y == y;
    } else {
      assert (x + y)[0] == x[0] && (x + y)[1..] == x[1..] + y;
      FeedAllConcat(config, D.FeedPacket(config, d, x[0]).demux, x[1..], y);
    }
  }

  lemma {:induction false} PsiPacketsAreWhole(pid: u16, data: seq<byte>, start: bool, cc: u4)
    requires pid < 0x2000
    ensures Whole(PsiPackets(pid, data, start, cc))
    decreases |data|
  {
    hide PsiPacket;
    PsiPacketIsRead(pid, data, start, cc);
    var n := PsiTaken(start, |data|);
    if n < |data| {
      PsiPacketsAreWhole(pid, data[n..], false, Next(cc));
    }
  }

  /** Packets of the map are reassembled, and a section is parsed when it is complete. */
  lemma {:induction false} MapPacketsFed(config: D.Config, d: D.Demux, data: seq<byte>, start: bool, cc: u4,
                                         section: seq<byte>)
    requires d.pmtPid == Some(PMT_PID)
    requires var (after, outputs) := Outputs(d, PsiPayloads(data, start), start);
             after == Cleared(d) && OnlyLast(outputs, section)
    ensures Whole(PsiPackets(PMT_PID, data, start, cc))
    ensures FeedAll(config, d, PsiPackets(PMT_PID, data, start, cc)) == D.ParsePmtSection(config, Cleared(d), section)
    decreases |data|
  {
    hide D.Reassemble, PsiPayload, PsiPacket, D.ParsePmtSection, D.ParsePacket;
    PsiPacketsAreWhole(PMT_PID, data, start, cc);
    PsiPacketIsRead(PMT_PID, data, start, cc);
    var n := PsiTaken(start, |data|);
    var r := D.Reassemble(d, PsiPayload(data, start), start);
    var packets := PsiPackets(PMT_PID, data, start, cc);
    var fed := D.FeedPacket(config, d, packets[0]);
    assert fed == D.ParsePmt(config, d, PsiPayload(data, start), start);
    var payloads := PsiPayloads(data, start);
    var outputs := Outputs(d, payloads, start).1;
    if n == |data| {
      assert payloads[1..] == [] && packets[1..] == [];
      assert outputs == [r.section];
    } else {
      assert payloads[1..] == PsiPayloads(data[n..], false);
      assert packets[1..] == PsiPackets(PMT_PID, data[n..], false, Next(cc));
      var later := Outputs(r.demux, payloads[1..], false).1;
      assert outputs == [r.section] + later;
      assert outputs[0] == None;
      ReassembleKeepsRest(d, PsiPayload(data, start), start);
      assert OnlyLast(later, section) by {
        assert later == outputs[1..];
      }
      MapPacketsFed(config, r.demux, data[n..], false, Next(cc), section);
      assert Cleared(r.demux) == Cleared(d);
    }
  }

  lemma ReassembleKeepsRest(d: D.Demux, payload: seq<byte>, start: bool)
    ensures Cleared(D.Reassemble(d, payload, start).demux) == Cleared(d)
  {
  }

  // ---------- The association table ----------

  lemma ChecksumIsFound(body: seq<byte>, tail: seq<byte>)
    ensures D.ChecksumHolds(WithChecksum(body) + tail, |body| + 4)
  {
    hide Register, WordAt, WordBytes;
    var data := WithChecksum(body) + tail;
    assert data[|body|..|body| + 4] == WordBytes(Crc32(body));
    WordComesBack(data, |body|, Crc32(body));
    assert data[..|body|] == body;
  }

  lemma PatFed(config: D.Config, d: D.Demux, cc: u4)
    ensures Whole(PsiPackets(PAT_PID, WithChecksum(PatBody()), true, cc))
    ensures FeedAll(config, d, PsiPackets(PAT_PID, WithChecksum(PatBody()), true, cc))
         == D.Fed(d.(pmtPid := Some(PMT_PID)), [])
  {
    hide D.ParsePacket, PsiPacket, Crc32, WordBytes, D.ChecksumHolds;
    var section := WithChecksum(PatBody());
    var packets := PsiPackets(PAT_PID, section, true, cc);
    assert |section| == 16;
    assert packets == [PsiPacket(PAT_PID, section, true, cc)];
    PsiPacketIsRead(PAT_PID, section, true, cc);
    var tail := Fill(PACKET_SIZE - 5 - 16, 0xFF);
    var data := section + tail;
    var payload := PsiPayload(section, true);
    assert payload == [0] + data by {
      assert section[..16] == section;
    }
    ChecksumIsFound(PatBody(), tail);
    PatIsParsed(config, d, payload, data);
    assert packets[1..] == [];
  }

  lemma PatIsParsed(config: D.Config, d: D.Demux, payload: seq<byte>, data: seq<byte>)
    requires payload == [0] + data && |data| >= 16 && data[..12] == PatBody() && D.ChecksumHolds(data, 16)
    ensures D.ParsePat(config, d, payload, true) == D.Fed(d.(pmtPid := Some(PMT_PID)), [])
  {
    hide D.ChecksumHolds;
    var body := data[..12];
    assert data[1] == body[1] && data[2] == body[2] && data[10] == body[10] && data[11] == body[11];
    assert payload[1..] == data;
  }

  // ---------- The map ----------

  /** The kind of medium a codec is for. */
  function NaturalKind(codec: Codec): Kind {
    if codec in {AAC, MP2, MP3, G711A, G711U, Opus, ADPCM} then Audio else Video
  }

  /** Codecs that a map entry can name. */
  predicate IsNamed(codec: Codec) {
    codec != WebVtt && codec != Unknown
  }

  lemma CodecIsNamed(codec: Codec)
    ensures (if StreamType(codec) == 0x06 then PrivateStream(Registration(codec), 0) else CodecOf(StreamType(codec)))
         == if IsNamed(codec) then Some((codec, NaturalKind(codec))) else None
    ensures !IsNamed(codec) ==> StreamType(codec) == 0x06 && Registration(codec) == []
  {
    TagsAreApart();
    if codec in {Opus, ADPCM, MJPEG} {
      TagIsRead(Registration(codec)[2..]);
    }
  }

  lemma TagsAreApart()
    ensures Registered(TAG_OPUS) == Some((Opus, Audio)) && Registered(TAG_ADPC) == Some((ADPCM, Audio))
    ensures Registered(TAG_MJPG) == Some((MJPEG, Video))
  {
    assert TAG_AV01[0] == 0x41 && TAG_AV01[1] == 0x56 && TAG_OPUS[0] == 0x4F && TAG_VP09[0] == 0x56;
    assert TAG_VP80[0] == 0x56 && TAG_MJPG[0] == 0x4D && TAG_ADPC[0] == 0x41 && TAG_ADPC[1] == 0x44;
  }

  lemma TagIsRead(tag: seq<byte>)
    requires |tag| == 4 && Registered(tag).Some?
    ensures PrivateStream([0x05, 0x04] + tag, 0) == Registered(tag)
  {
    hide Registered;
    var info := [0x05, 0x04] + tag;
    assert info[2..6] == tag;
  }

  lemma EntryIsRead(track: MuxTrack, data: seq<byte>, pos: nat)
    requires track.pid < 0x2000 && pos + |StreamEntry(track)| <= |data|
    requires data[pos..pos + |StreamEntry(track)|] == StreamEntry(track)
    ensures var info := Registration(track.codec);
            data[pos] == StreamType(track.codec) && D.PidOf(data[pos + 1], data[pos + 2]) == track.pid
            && data[pos + 3] as int % 0x10 * 0x100 + data[pos + 4] == |info|
            && data[pos + 5..pos + 5 + |info|] == info
  {
    var entry, info := StreamEntry(track), Registration(track.codec);
    var n := |entry|;
    hide StreamType, Registration;
    var copy := data[pos..pos + n];
    assert data[pos] == copy[0] && data[pos + 1] == copy[1] && data[pos + 2] == copy[2];
    assert data[pos + 3] == copy[3] && data[pos + 4] == copy[4];
    assert entry[1] as int * 0x100 + entry[2] as int == 0xE000 + track.pid;
    SubSlice(data, pos, pos + n, 5, n);
    assert entry[5..n] == info;
  }

  /** The demuxer track that a muxer track is listed as. */
  function ListedTrack(track: MuxTrack, id: nat): D.Track {
    if IsNamed(track.codec) then D.NewTrack(id, track.pid, track.codec, NaturalKind(track.codec), false)
    else D.NewTrack(id, track.pid, Unknown, Video, true)
  }

  function ListedTracks(tracks: seq<MuxTrack>, id: nat): seq<D.Track> {
    if tracks == [] then [] else [ListedTrack(tracks[0], id)] + ListedTracks(tracks[1..], id + 1)
  }

  function FoundTracks(tracks: seq<MuxTrack>, id: nat): seq<D.Event> {
    if tracks == [] then []
    else
      var codec := tracks[0].codec;
      (if IsNamed(codec) then [D.TrackFound(id, NaturalKind(codec), codec, D.ClockRate(codec, NaturalKind(codec)))]
       else [])
      + FoundTracks(tracks[1..], id + 1)
  }

  ghost predicate DistinctPids(tracks: seq<MuxTrack>) {
    (forall i :: 0 <= i < |tracks| ==> tracks[i].pid < 0x2000)
    && forall i, j :: 0 <= i < j < |tracks| ==> tracks[i].pid != tracks[j].pid
  }

  /** No track of the demuxer has the identifier of a track of the muxer. */
  ghost predicate NoneKnown(d: D.Demux, tracks: seq<MuxTrack>) {
    forall i, j :: 0 <= i < |d.tracks| && 0 <= j < |tracks| ==> d.tracks[i].pid != tracks[j].pid
  }

  ghost predicate AllKnown(d: D.Demux, tracks: seq<MuxTrack>) {
    forall j :: 0 <= j < |tracks| ==> D.TrackWithPid(d.tracks, tracks[j].pid) < |d.tracks|
  }

  lemma StreamIsTaken(d: D.Demux, track: MuxTrack)
    requires D.TrackWithPid(d.tracks, track.pid) == |d.tracks|
    ensures var info := Registration(track.codec);
            D.TakeStream(d, StreamType(track.codec), track.pid, info, |info|)
            == D.Fed(d.(tracks := d.tracks + [ListedTrack(track, d.nextTrackId)], nextTrackId := d.nextTrackId + 1),
                     FoundTracks([track], d.nextTrackId))
  {
    CodecIsNamed(track.codec);
    hide PrivateStream, CodecOf, StreamType, Registration, D.TrackWithPid, D.ClockRate;
    assert [track][1..] == [];
  }

  lemma NextStreamIsTaken(d: D.Demux, tracks: seq<MuxTrack>, data: seq<byte>, pos: nat, end: nat)
    requires tracks != [] && tracks[0].pid < 0x2000
    requires pos <= end <= |data| && data[pos..end] == StreamEntries(tracks)
    ensures var info := Registration(tracks[0].codec);
            var first := D.TakeStream(d, StreamType(tracks[0].codec), tracks[0].pid, info, |info|);
            var later := D.TakeStreams(first.demux, data, pos + 5 + |info|, end);
            pos + 5 + |info| <= end && data[pos + 5 + |info|..end] == StreamEntries(tracks[1..])
            && D.TakeStreams(d, data, pos, end) == D.Fed(later.demux, first.events + later.events)
  {
    hide StreamEntry, D.TakeStream, StreamType, Registration, D.PidOf;
    var n := |StreamEntry(tracks[0])|;
    SubSlice(data, pos, end, 0, n);
    SubSlice(data, pos, end, n, end - pos);
    EntryIsRead(tracks[0], data, pos);
  }

  /** Entries of tracks not known before are all listed, in order. */
  lemma {:induction false} NewStreamsAreTaken(d: D.Demux, tracks: seq<MuxTrack>, data: seq<byte>, pos: nat, end: nat)
    requires DistinctPids(tracks) && NoneKnown(d, tracks)
    requires pos <= end <= |data| && data[pos..end] == StreamEntries(tracks)
    ensures D.TakeStreams(d, data, pos, end)
         == D.Fed(d.(tracks := d.tracks + ListedTracks(tracks, d.nextTrackId), nextTrackId := d.nextTrackId + |tracks|),
                  FoundTracks(tracks, d.nextTrackId))
    decreases |tracks|
  {
    hide D.TakeStreams, D.TakeStream, D.TrackWithPid, DistinctPids, NoneKnown, StreamType, Registration, StreamEntries;
    hide ListedTrack, ListedTracks, FoundTracks;
    if tracks == [] {
      NoStreams(d, data, pos, end);
    } else {
      var track, id := tracks[0], d.nextTrackId;
      FirstIsUnknown(d, tracks);
      NextStreamIsTaken(d, tracks, data, pos, end);
      StreamIsTaken(d, track);
      var listed := ListedTrack(track, id);
      ListedPid(track, id);
      var d1 := d.(tracks := d.tracks + [listed], nextTrackId := id + 1);
      RestIsUnknown(d, d1, tracks);
      NewStreamsAreTaken(d1, tracks[1..], data, pos + 5 + |Registration(track.codec)|, end);
      ListedTracksFirst(tracks, id);
      assert d1.tracks + ListedTracks(tracks[1..], id + 1) == d.tracks + ListedTracks(tracks, id);
    }
  }

  lemma NoStreams(d: D.Demux, data: seq<byte>, pos: nat, end: nat)
    requires pos <= end <= |data| && data[pos..end] == StreamEntries([])
    ensures D.TakeStreams(d, data, pos, end) == D.Fed(d, [])
    ensures d.tracks + ListedTracks([], d.nextTrackId) == d.tracks && FoundTracks([], d.nextTrackId) == []
  {
  }

  lemma FirstIsUnknown(d: D.Demux, tracks: seq<MuxTrack>)
    requires tracks != [] && DistinctPids(tracks) && NoneKnown(d, tracks)
    ensures tracks[0].pid < 0x2000 && D.TrackWithPid(d.tracks, tracks[0].pid) == |d.tracks|
  {
  }

  lemma ListedTracksFirst(tracks: seq<MuxTrack>, id: nat)
    requires tracks != []
    ensures ListedTracks(tracks, id) == [ListedTrack(tracks[0], id)] + ListedTracks(tracks[1..], id + 1)
    ensures FoundTracks(tracks, id) == FoundTracks([tracks[0]], id) + FoundTracks(tracks[1..], id + 1)
  {
    hide D.ClockRate, NaturalKind, ListedTrack;
    assert [tracks[0]][1..] == [];
  }

  lemma RestIsUnknown(d: D.Demux, d1: D.Demux, tracks: seq<MuxTrack>)
    requires tracks != [] && DistinctPids(tracks) && NoneKnown(d, tracks)
    requires |d1.tracks| == |d.tracks| + 1 && d.tracks == d1.tracks[..|d.tracks|]
    requires d1.tracks[|d.tracks|].pid == tracks[0].pid
    ensures NoneKnown(d1, tracks[1..]) && DistinctPids(tracks[1..])
  {
    forall i, j | 0 <= i < |d1.tracks| && 0 <= j < |tracks| - 1 ensures d1.tracks[i].pid != tracks[1..][j].pid {
      if i < |d.tracks| {
        assert d1.tracks[i] == d.tracks[i];
      }
    }
  }

  lemma ListedPid(track: MuxTrack, id: nat)
    ensures ListedTrack(track, id).pid == track.pid
  {
  }

  /** Entries of known tracks change nothing. */
  lemma {:induction false} KnownStreamsAreIgnored(d: D.Demux, tracks: seq<MuxTrack>, data: seq<byte>, pos: nat,
                                                  end: nat)
    requires DistinctPids(tracks) && AllKnown(d, tracks)
    requires pos <= end <= |data| && data[pos..end] == StreamEntries(tracks)
    ensures D.TakeStreams(d, data, pos, end) == D.Fed(d, [])
    decreases |tracks|
  {
    hide StreamType, Registration, StreamEntries, D.TrackWithPid, D.TakeStream, D.TakeStreams;
    if tracks == [] {
      NoStreams(d, data, pos, end);
    } else {
      NextStreamIsTaken(d, tracks, data, pos, end);
      KnownStreamIsIgnored(d, tracks[0]);
      assert forall j :: 0 <= j < |tracks| - 1 ==> tracks[1..][j] == tracks[j + 1];
      KnownStreamsAreIgnored(d, tracks[1..], data, pos + 5 + |Registration(tracks[0].codec)|, end);
    }
  }

  lemma KnownStreamIsIgnored(d: D.Demux, track: MuxTrack)
    requires D.TrackWithPid(d.tracks, track.pid) < |d.tracks|
    ensures var info := Registration(track.codec);
            D.TakeStream(d, StreamType(track.codec), track.pid, info, |info|) == D.Fed(d, [])
  {
    hide D.TrackWithPid, PrivateStream, CodecOf, StreamType, Registration;
  }

  function PmtSectionOf(tracks: seq<MuxTrack>, pcrPid: u16): (s: seq<byte>)
    ensures |s| >= 16
  {
    WithChecksum(PmtBody(tracks, pcrPid))
  }

  /** A map of at most 4098 bytes can state its length. */
  lemma PmtIsWellFormed(tracks: seq<MuxTrack>, pcrPid: u16)
    requires |PmtSectionOf(tracks, pcrPid)| <= 4098
    ensures var s := PmtSectionOf(tracks, pcrPid);
            WellSized(s) && D.ChecksumHolds(s, |s|) && s[10] as int % 0x10 * 0x100 + s[11] == 0
            && s[12..|s| - 4] == StreamEntries(tracks)
  {
    hide Crc32, WordBytes, StreamEntries, D.ChecksumHolds;
    var body := PmtBody(tracks, pcrPid);
    var s := PmtSectionOf(tracks, pcrPid);
    ChecksumIsFound(body, []);
    assert WithChecksum(body) + [] == s;
    assert s[1] == body[1] && s[2] == body[2] && s[10] == body[10] && s[11] == body[11];
    assert s[12..|s| - 4] == body[12..];
    var rest := PmtRest(tracks, pcrPid);
    assert body == [0x02] + Be16(0xB000 + |rest| + 4) + rest;
    LengthIsRead(|rest| + 4, body);
    assert body[12..] == rest[9..] == StreamEntries(tracks);
  }

  lemma LengthIsRead(n: nat, body: seq<byte>)
    requires n < 0x1000 && |body| >= 3 && body[1..3] == Be16(0xB000 + n)
    ensures D.SectionLength(body) == n
  {
    var field := body[1..3];
    assert body[1] == field[0] && body[2] == field[1];
  }

  lemma PmtIsParsed(config: D.Config, d: D.Demux, tracks: seq<MuxTrack>, pcrPid: u16)
    requires DistinctPids(tracks) && |PmtSectionOf(tracks, pcrPid)| <= 4098
    ensures NoneKnown(d, tracks) ==>
              D.ParsePmtSection(config, d, PmtSectionOf(tracks, pcrPid))
              == D.Fed(d.(tracks := d.tracks + ListedTracks(tracks, d.nextTrackId),
                          nextTrackId := d.nextTrackId + |tracks|),
                       FoundTracks(tracks, d.nextTrackId))
    ensures AllKnown(d, tracks) ==> D.ParsePmtSection(config, d, PmtSectionOf(tracks, pcrPid)) == D.Fed(d, [])
  {
    hide PmtSectionOf, D.ChecksumHolds, D.TakeStreams, ListedTracks, FoundTracks, StreamEntries, D.TrackWithPid;
    hide DistinctPids;
    hide D.SectionLength;
    var s := PmtSectionOf(tracks, pcrPid);
    PmtIsWellFormed(tracks, pcrPid);
    var taken := D.TakeStreams(d, s, 12, |s| - 4);
    assert D.ParsePmtSection(config, d, s) == D.Fed(taken.demux, [] + taken.events);
    assert [] + taken.events == taken.events;
    if NoneKnown(d, tracks) {
      NewStreamsAreTaken(d, tracks, s, 12, |s| - 4);
    }
    if AllKnown(d, tracks) {
      KnownStreamsAreIgnored(d, tracks, s, 12, |s| - 4);
    }
  }

  // ---------- Both tables ----------

  /** The packets of the map, fed to a demuxer that waits for them. */
  lemma MapFed(config: D.Config, d: D.Demux, tracks: seq<MuxTrack>, pcrPid: u16, cc: u4)
    requires d.pmtPid == Some(PMT_PID) && DistinctPids(tracks) && |PmtSectionOf(tracks, pcrPid)| <= 4098
    ensures var packets := PsiPackets(PMT_PID, PmtSectionOf(tracks, pcrPid), true, cc);
            Whole(packets)
            && var fed := FeedAll(config, d, packets);
               (NoneKnown(d, tracks) ==>
                  fed == D.Fed(Cleared(d).(tracks := d.tracks + ListedTracks(tracks, d.nextTrackId),
                                           nextTrackId := d.nextTrackId + |tracks|),
                               FoundTracks(tracks, d.nextTrackId)))
               && (AllKnown(d, tracks) ==> fed == D.Fed(Cleared(d), []))
  {
    hide PsiPackets, FeedAll, D.ParsePmtSection, PmtSectionOf, DistinctPids, ListedTracks, FoundTracks, WellSized;
    hide NoneKnown, AllKnown, OnlyLast, Outputs, Whole;
    var section := PmtSectionOf(tracks, pcrPid);
    PmtIsWellFormed(tracks, pcrPid);
    SectionComesBack(d, section);
    MapPacketsFed(config, d, section, true, cc, section);
    PmtIsParsed(config, Cleared(d), tracks, pcrPid);
    SameKnown(d, Cleared(d), tracks);
  }

  /** The tables, fed to a demuxer in any state. */
  lemma TablesFed(config: D.Config, d: D.Demux, m: Mux)
    requires DistinctPids(m.tracks) && |PmtSectionOf(m.tracks, m.pcrPid)| <= 4098
    ensures Whole(Tables(m).packets)
    ensures var d0 := Cleared(d).(pmtPid := Some(PMT_PID));
            var fed := FeedAll(config, d, Tables(m).packets);
            (NoneKnown(d, m.tracks) ==>
               fed == D.Fed(d0.(tracks := d.tracks + ListedTracks(m.tracks, d.nextTrackId),
                                nextTrackId := d.nextTrackId + |m.tracks|),
                            FoundTracks(m.tracks, d.nextTrackId)))
            && (AllKnown(d, m.tracks) ==> fed == D.Fed(d0, []))
  {
    hide PsiPackets, FeedAll, WithChecksum, PatBody, PmtBody, DistinctPids, ListedTracks, FoundTracks, Whole;
    hide NoneKnown, AllKnown;
    var pat := PsiPackets(PAT_PID, WithChecksum(PatBody()), true, m.patCc);
    var pmt := PsiPackets(PMT_PID, PmtSectionOf(m.tracks, m.pcrPid), true, m.pmtCc);
    var d1 := d.(pmtPid := Some(PMT_PID));
    PatFed(config, d, m.patCc);
    MapFed(config, d1, m.tracks, m.pcrPid, m.pmtCc);
    FeedAllConcat(config, d, pat, pmt);
    BothWhole(pat, pmt);
    SameKnown(d, d1, m.tracks);
  }

  lemma BothWhole(a: seq<seq<byte>>, b: seq<seq<byte>>)
    requires Whole(a) && Whole(b)
    ensures Whole(a + b)
  {
  }

  lemma SameKnown(d: D.Demux, d1: D.Demux, tracks: seq<MuxTrack>)
    requires d1.tracks == d.tracks
    ensures (NoneKnown(d, tracks) <==> NoneKnown(d1, tracks)) && (AllKnown(d, tracks) <==> AllKnown(d1, tracks))
  {
  }

  // ---------- Corrupted maps ----------

  /** In strict mode a map section with up to four consecutive bytes corrupted, none of them in its length field,
      adds no tracks and is reported. */
  lemma CorruptedMapIsRejected(config: D.Config, d: D.Demux, before: seq<byte>, v: seq<byte>, w: seq<byte>,
                               after: seq<byte>)
    requires config.strictCrc && |v| == |w| <= 4 && v != w
    requires var section := before + v + after;
             |section| >= 12 && WellSized(section) && D.ChecksumHolds(section, |section|)
             && (|before| >= 3 || (|before| == 0 && |v| == 1))
    ensures D.ParsePmtSection(config, d, before + w + after)
         == D.Fed(d, [D.Diag(D.CrcError(if d.pmtPid.Some? then d.pmtPid.value else 0))])
  {
    hide Crc32, WordAt, WordBytes, D.TakeStreams;
    var s, t := before + v + after, before + w + after;
    var n := |s|;
    assert t[1] == s[1] && t[2] == s[2];
    BurstIsDetected(before, v, w, after);
    SelfCheck(s);
    SelfCheck(t);
  }

  lemma SelfCheck(s: seq<byte>)
    requires |s| >= 4
    ensures D.ChecksumHolds(s, |s|) <==> Crc32(s) == 0
  {
    hide Crc32, WordAt, WordBytes;
    var n := |s|;
    WordComesBack(s, n - 4, Crc32(s[..n - 4]));
    OwnChecksumGivesZero(s[..n - 4], s[n - 4..]);
    assert s[..n - 4] + s[n - 4..] == s;
    assert s[n - 4..n] == s[n - 4..];
  }
}
