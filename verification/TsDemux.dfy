/** MPEG transport streams: the demultiplexer, from unaligned bytes to tracks and frames. */
module TsDemux {
  import opened Bytes
  import opened Crc
  import opened TsCommon

  datatype Diagnostic =
    | SyncLoss
    | ContinuityGap(pid: u16, expected: u4, got: u4)
    | CrcError(pid: u16)
    | PesOverflow(pid: u16)
    | UnknownStreamType(streamType: byte, pid: u16)
    | AdaptationFieldOverflow(pid: u16)

  datatype Event =
    | TrackFound(trackId: nat, kind: Kind, codec: Codec, clockRate: nat)
    | FrameOut(trackId: nat, kind: Kind, codec: Codec, pts: int, dts: int, ptsUs: int, dtsUs: int, keyframe: bool,
               payload: seq<byte>)
    | Diag(diagnostic: Diagnostic)

  /** Limits, and the two codec questions the demuxer asks of a payload. */
  datatype Config = Config(maxReassembly: nat, strictCrc: bool, infer: seq<byte> -> Option<Codec>,
                           isKeyframe: (seq<byte>, Codec) -> bool)

  datatype Track = Track(pid: u16, trackId: nat, codec: Codec, kind: Kind, pesBuf: seq<byte>, pesStarted: bool,
                         expectedCc: Option<u4>, pendingProbe: bool, wrapOffset: int, lastRawPts: Option<nat>)

  datatype Demux = Demux(pmtPid: Option<u16>, tracks: seq<Track>, section: seq<byte>, target: Option<nat>,
                         nextTrackId: nat)

  datatype Fed = Fed(demux: Demux, events: seq<Event>)

  // ---------- Packets ----------

  /** What a packet carries. */
  datatype Parsed =
    | NoPayload
    | BadField(pid: u16)
    | Payload(pid: u16, start: bool, cc: u4, data: seq<byte>)

  function PidOf(hi: byte, lo: byte): u16 {
    hi as int % 0x20 * 0x100 + lo
  }

  function ParsePacket(pkt: seq<byte>): Parsed
    requires |pkt| == PACKET_SIZE
  {
    var pid := PidOf(pkt[1], pkt[2]);
    var control := pkt[3] / 0x10 % 4;
    var at := if control >= 2 then 5 + pkt[4] as int else 4;
    if control >= 2 && at > PACKET_SIZE then BadField(pid)
    else if control % 2 == 0 || at >= PACKET_SIZE then NoPayload
    else Payload(pid, pkt[1] / 0x40 % 2 == 1, pkt[3] % 0x10, pkt[at..])
  }

  // ---------- Elementary packets ----------

  datatype TrackFed = TrackFed(track: Track, events: seq<Event>)

  const HALF_WRAP := 0x1_0000_0000

  /** The wrap offset after a timestamp: a fall of more than half the range is taken for a wrap. */
  function NextOffset(offset: int, last: Option<nat>, pts: nat): int {
    if last.Some? && pts < last.value && last.value - pts > HALF_WRAP then offset + WRAP else offset
  }

  /** Ticks of the 90 kHz clock as microseconds; the product is taken in 64 bits. */
  function TicksToUs(ticks: int): int {
    TruncDiv(Wrap64(ticks * 100), 9)
  }

  function FrameEvent(config: Config, t: Track, pts: int, dts: int, payload: seq<byte>): Event {
    FrameOut(t.trackId, t.kind, t.codec, pts, dts, TicksToUs(pts), TicksToUs(dts),
             t.kind == Video && (config.isKeyframe)(payload, t.codec), payload)
  }

  /** What the header of an elementary packet says; nothing when it is malformed or has no payload. */
  datatype Pes = Pes(pts: nat, dts: nat, payload: seq<byte>)

  function ReadPes(b: seq<byte>): Option<Pes> {
    if |b| < 9 || b[0] != 0 || b[1] != 0 || b[2] != 1 then None
    else
      var flags, size := b[7] / 0x40, b[8];
      if 9 + size >= |b| then None
      else if flags == 1 || (flags >= 2 && size < 5) || (flags == 3 && size < 10) then None
      else
        var pts := if flags >= 2 then DecodeTimestamp(b, 9) else 0;
        Some(Pes(pts, if flags == 3 then DecodeTimestamp(b, 14) else pts, b[9 + size..]))
  }

  /** The buffered elementary packet becomes a frame; the buffer is emptied in any case. */
  function EmitPes(config: Config, track: Track): TrackFed {
    var read, t := ReadPes(track.pesBuf), track.(pesBuf := []);
    if read.None? then TrackFed(t, [])
    else
      var pes := read.value;
      var offset := NextOffset(t.wrapOffset, t.lastRawPts, pes.pts);
      var t1 := t.(wrapOffset := offset, lastRawPts := Some(pes.pts));
      if !t1.pendingProbe then TrackFed(t1, [FrameEvent(config, t1, pes.pts + offset, pes.dts + offset, pes.payload)])
      else
        var inferred := (config.infer)(pes.payload);
        if inferred.None? then TrackFed(t1, [])
        else
          var t2 := t1.(codec := inferred.value, kind := Video, pendingProbe := false);
          TrackFed(t2, [TrackFound(t2.trackId, Video, t2.codec, 90_000),
                        FrameEvent(config, t2, pes.pts + offset, pes.dts + offset, pes.payload)])
  }

  /** A payload of the track's packets. */
  function TakePayload(config: Config, track: Track, start: bool, cc: u4, data: seq<byte>): TrackFed {
    var gap := if track.expectedCc.Some? && cc != track.expectedCc.value
      then [Diag(ContinuityGap(track.pid, track.expectedCc.value, cc))] else [];
    var t := track.(expectedCc := Some(Next(cc)));
    var flushed := if start && t.pesBuf != [] then EmitPes(config, t) else TrackFed(t, []);
    var t1 := if start then flushed.track.(pesStarted := true, pesBuf := []) else t;
    if !t1.pesStarted then TrackFed(t1, gap + flushed.events)
    else if |t1.pesBuf| + |data| > config.maxReassembly then
      TrackFed(t1.(pesBuf := [], pesStarted := false), gap + flushed.events + [Diag(PesOverflow(track.pid))])
    else TrackFed(t1.(pesBuf := t1.pesBuf + data), gap + flushed.events)
  }

  function TrackWithPid(tracks: seq<Track>, pid: u16): (i: nat)
    ensures i <= |tracks|
    ensures i < |tracks| ==> tracks[i].pid == pid
    ensures forall j :: 0 <= j < i ==> tracks[j].pid != pid
  {
    if tracks == [] || tracks[0].pid == pid then 0 else 1 + TrackWithPid(tracks[1..], pid)
  }

  // ---------- Tables ----------

  /** What follows the pointer field of a payload that starts a section; nothing when the pointer leads out of it. */
  function AfterPointer(payload: seq<byte>, start: bool): Option<seq<byte>> {
    if !start || payload == [] then Some(payload)
    else if 1 + payload[0] as int >= |payload| then None
    else Some(payload[1 + payload[0]..])
  }

  function SectionLength(data: seq<byte>): (n: nat)
    requires |data| >= 3
    ensures n <= 0xFFF
  {
    data[1] as int % 0x10 * 0x100 + data[2]
  }

  predicate ChecksumHolds(data: seq<byte>, end: nat)
    requires 4 <= end <= |data|
  {
    WordAt(data, end - 4) == Crc32(data[..end - 4])
  }

  function ParsePat(config: Config, d: Demux, payload: seq<byte>, start: bool): Fed {
    var data := AfterPointer(payload, start);
    if data.None? || |data.value| < 12 then Fed(d, [])
    else
      var s := data.value;
      var end := Min(3 + SectionLength(s), |s|);
      if end < 4 then Fed(d, [])
      else
        var errors := if ChecksumHolds(s, end) then [] else [Diag(CrcError(PAT_PID))];
        if errors != [] && config.strictCrc then Fed(d, errors)
        else Fed(d.(pmtPid := Some(PidOf(s[10], s[11]))), errors)
  }

  datatype Reassembled = Reassembled(demux: Demux, section: Option<seq<byte>>)

  function Reassemble(d: Demux, payload: seq<byte>, start: bool): Reassembled {
    var data := AfterPointer(payload, start);
    if data.None? then Reassembled(d, None)
    else
      var d0 := if start && payload != [] then d.(section := [], target := None) else d;
      if data.value == [] then Reassembled(d0, None)
      else
        var section := d0.section + data.value;
        var target := if d0.target.None? && |section| >= 3 then Some(3 + SectionLength(section)) else d0.target;
        if target.None? || |section| < target.value then Reassembled(d0.(section := section, target := target), None)
        else Reassembled(d0.(section := [], target := None), Some(section[..target.value]))
  }

  function ClockRate(codec: Codec, kind: Kind): nat {
    if kind != Audio then 90_000
    else if codec == AAC || codec == Opus then 48_000
    else if codec == G711A || codec == G711U then 8_000
    else 90_000
  }

  /** A track newly listed in a map section. */
  function NewTrack(id: nat, pid: u16, codec: Codec, kind: Kind, pending: bool): Track {
    Track(pid, id, codec, kind, [], false, None, pending, 0, None)
  }

  /** One entry of a map section: a stream type, a packet identifier and descriptors. */
  function TakeStream(d: Demux, streamType: byte, pid: u16, info: seq<byte>, infoLength: nat): Fed {
    if TrackWithPid(d.tracks, pid) < |d.tracks| then Fed(d, [])
    else
      var resolved := if streamType == 0x06 then PrivateStream(info, 0) else CodecOf(streamType);
      var probe := resolved.None? && streamType == 0x06 && infoLength == 0;
      if resolved.None? && !probe then Fed(d, [Diag(UnknownStreamType(streamType, pid))])
      else
        var (codec, kind) := if probe then (Unknown, Video) else resolved.value;
        Fed(d.(tracks := d.tracks + [NewTrack(d.nextTrackId, pid, codec, kind, probe)],
               nextTrackId := d.nextTrackId + 1),
            if probe then [] else [TrackFound(d.nextTrackId, kind, codec, ClockRate(codec, kind))])
  }

  /** The entries from `pos` on. */
  function TakeStreams(d: Demux, data: seq<byte>, pos: nat, end: nat): Fed
    requires end <= |data|
    decreases end - pos
  {
    if pos + 5 > end then Fed(d, [])
    else
      var infoLength := data[pos + 3] as int % 0x10 * 0x100 + data[pos + 4];
      var first := TakeStream(d, data[pos], PidOf(data[pos + 1], data[pos + 2]),
                              data[pos + 5..pos + 5 + Min(infoLength, |data| - (pos + 5))], infoLength);
      var later := TakeStreams(first.demux, data, pos + 5 + infoLength, end);
      Fed(later.demux, first.events + later.events)
  }

  function ParsePmtSection(config: Config, d: Demux, data: seq<byte>): Fed {
    if |data| < 12 then Fed(d, [])
    else
      var end := 3 + SectionLength(data);
      if end > |data| then Fed(d, [])
      else
        var errors := if end < 4 || ChecksumHolds(data, end) then []
          else [Diag(CrcError(if d.pmtPid.Some? then d.pmtPid.value else 0))];
        if errors != [] && config.strictCrc then Fed(d, errors)
        else
          var infoLength := data[10] as int % 0x10 * 0x100 + data[11];
          var taken := TakeStreams(d, data, 12 + infoLength, Max(end - 4, 0));
          Fed(taken.demux, errors + taken.events)
  }

  function ParsePmt(config: Config, d: Demux, payload: seq<byte>, start: bool): Fed {
    var r := Reassemble(d, payload, start);
    if r.section.None? then Fed(r.demux, []) else ParsePmtSection(config, r.demux, r.section.value)
  }

  // ---------- Packets, in state ----------

  function FeedPayload(config: Config, d: Demux, pid: u16, start: bool, cc: u4, data: seq<byte>): Fed {
    if pid == PAT_PID then ParsePat(config, d, data, start)
    else if d.pmtPid == Some(pid) then ParsePmt(config, d, data, start)
    else if pid == NULL_PID then Fed(d, [])
    else
      var i := TrackWithPid(d.tracks, pid);
      if i == |d.tracks| then Fed(d, [])
      else
        var fed := TakePayload(config, d.tracks[i], start, cc, data);
        Fed(d.(tracks := d.tracks[i := fed.track]), fed.events)
  }

  function FeedPacket(config: Config, d: Demux, pkt: seq<byte>): Fed
    requires |pkt| == PACKET_SIZE
  {
    match ParsePacket(pkt)
    case NoPayload => Fed(d, [])
    case BadField(pid) => Fed(d, [Diag(AdaptationFieldOverflow(pid))])
    case Payload(pid, start, cc, data) => FeedPayload(config, d, pid, start, cc, data)
  }

  datatype Ran = Ran(demux: Demux, rest: seq<byte>, events: seq<Event>)

  /** All complete packets of a buffer; where a packet does not start with a sync byte, the next one is searched. */
  function RunPackets(config: Config, d: Demux, buf: seq<byte>): Ran
    decreases |buf|
  {
    if |buf| < PACKET_SIZE then Ran(d, buf, [])
    else if buf[0] != SYNC_BYTE then
      var next := FindSync(buf, 0);
      if next.None? then Ran(d, buf, [])
      else
        var later := RunPackets(config, d, buf[next.value..]);
        later.(events := [Diag(SyncLoss)] + later.events)
    else
      var fed := FeedPacket(config, d, buf[..PACKET_SIZE]);
      var later := RunPackets(config, fed.demux, buf[PACKET_SIZE..]);
      later.(events := fed.events + later.events)
  }

  function PushBytes(config: Config, d: Demux, remainder: seq<byte>, data: seq<byte>): Ran {
    var buf := remainder + data;
    var start := FindSync(buf, 0);
    if start.None? then Ran(d, buf[|buf| - Min(|buf|, PACKET_SIZE - 1)..], [])
    else
      var ran := RunPackets(config, d, buf[start.value..]);
      ran.(events := (if start.value > 0 then [Diag(SyncLoss)] else []) + ran.events)
  }

  /** The frames still buffered, in the order of tracks. */
  function FlushTracks(config: Config, tracks: seq<Track>): (seq<Track>, seq<Event>) {
    if tracks == [] then ([], [])
    else
      var first := if tracks[0].pesBuf != [] then EmitPes(config, tracks[0]) else TrackFed(tracks[0], []);
      var (later, events) := FlushTracks(config, tracks[1..]);
      ([first.track] + later, first.events + events)
  }

  // ---------- The demuxer ----------

  class MpegTsDemuxer {
    const config: Config
    var pmtPid: Option<u16>
    var tracks: seq<Track>
    var remainder: seq<byte>
    var sectionBuf: seq<byte>
    var sectionTarget: Option<nat>
    var nextTrackId: nat

    constructor (config: Config)
      ensures this.config == config && remainder == [] && Now() == Demux(None, [], [], None, 1)
    {
      this.config := config;
      pmtPid, tracks, remainder, sectionBuf, sectionTarget, nextTrackId := None, [], [], [], None, 1;
    }

    ghost function Now(): Demux
      reads this
    {
      Demux(pmtPid, tracks, sectionBuf, sectionTarget, nextTrackId)
    }

    method Push(data: seq<byte>) returns (events: seq<Event>)
      modifies this
      ensures Ran(Now(), remainder, events) == PushBytes(config, old(Now()), old(remainder), data)
    {
      hide RunPackets, FindSync, FeedPacket;
      events := [];
      var buf := remainder + data;
      remainder := [];
      var found := SearchSync(buf, 0);
      if found.None? {
        remainder := buf[|buf| - Min(|buf|, PACKET_SIZE - 1)..];
        return;
      }
      var offset := found.value;
      if offset > 0 {
        events := [Diag(SyncLoss)];
      }
      var more;
      more, remainder := FeedFrom(buf, offset);
      events := events + more;
    }

    method FeedFrom(buf: seq<byte>, from: nat) returns (events: seq<Event>, rest: seq<byte>)
      requires from <= |buf|
      modifies this`pmtPid, this`tracks, this`sectionBuf, this`sectionTarget, this`nextTrackId
      ensures Ran(Now(), rest, events) == RunPackets(config, old(Now()), buf[from..])
    {
      hide RunPackets, FindSync, FeedPacket;
      events := [];
      var offset := from;
      ghost var whole := RunPackets(config, Now(), buf[offset..]);
      var broken := false;
      while !broken && offset + PACKET_SIZE <= |buf|
        invariant offset <= |buf|
        invariant whole.demux == RunPackets(config, Now(), buf[offset..]).demux
        invariant whole.rest == RunPackets(config, Now(), buf[offset..]).rest
        invariant whole.events == events + RunPackets(config, Now(), buf[offset..]).events
        invariant broken ==> RunPackets(config, Now(), buf[offset..]) == Ran(Now(), buf[offset..], [])
        decreases |buf| - offset, !broken
      {
        if buf[offset] != SYNC_BYTE {
          var next := SearchSync(buf, offset);
          SyncMoves(buf, offset);
          if next.Some? {
            RunSkips(config, Now(), buf[offset..], next.value - offset);
            assert buf[offset..][next.value - offset..] == buf[next.value..];
            events := events + [Diag(SyncLoss)];
            offset := next.value;
          } else {
            RunEnds(config, Now(), buf[offset..]);
            broken := true;
          }
        } else {
          assert buf[offset..][..PACKET_SIZE] == buf[offset..offset + PACKET_SIZE];
          assert buf[offset..][PACKET_SIZE..] == buf[offset + PACKET_SIZE..];
          RunFeeds(config, Now(), buf[offset..]);
          var more := Feed(buf[offset..offset + PACKET_SIZE]);
          events := events + more;
          offset := offset + PACKET_SIZE;
        }
      }
      if !broken {
        RunEnds(config, Now(), buf[offset..]);
      }
      rest := buf[offset..];
    }

    method Flush() returns (events: seq<Event>)
      modifies this`tracks
      ensures var (after, out) := FlushTracks(config, old(tracks));
              Now() == old(Now()).(tracks := after) && events == out
    {
      var after;
      after, events := FlushAll(config, tracks);
      tracks := after;
    }

    method Feed(pkt: seq<byte>) returns (events: seq<Event>)
      requires |pkt| == PACKET_SIZE
      modifies this`pmtPid, this`tracks, this`sectionBuf, this`sectionTarget, this`nextTrackId
      ensures Fed(Now(), events) == FeedPacket(config, old(Now()), pkt)
    {
      hide ParsePat, ParsePmt, TakePayload, TrackWithPid;
      events := [];
      var pid := PidOf(pkt[1], pkt[2]);
      var start := pkt[1] / 0x40 % 2 == 1;
      var control := pkt[3] / 0x10 % 4;
      var cc: u4 := pkt[3] % 0x10;
      var payloadOffset := 4;
      if control == 2 || control == 3 {
        if 5 + pkt[4] as int > PACKET_SIZE {
          return [Diag(AdaptationFieldOverflow(pid))];
        }
        payloadOffset := 5 + pkt[4] as int;
      }
      if control == 0 || control == 2 || payloadOffset >= PACKET_SIZE {
        return;
      }
      var payload := pkt[payloadOffset..];
      if pid == PAT_PID {
        events := TakePat(payload, start);
        return;
      }
      if pmtPid == Some(pid) {
        events := TakePmt(payload, start);
        return;
      }
      if pid == NULL_PID {
        return;
      }
      var i := TrackWithPid(tracks, pid);
      if i < |tracks| {
        var fed := TakePayload(config, tracks[i], start, cc, payload);
        tracks := tracks[i := fed.track];
        return fed.events;
      }
    }

    method TakePat(payload: seq<byte>, start: bool) returns (events: seq<Event>)
      modifies this`pmtPid
      ensures Fed(Now(), events) == ParsePat(config, old(Now()), payload, start)
    {
      hide Crc32, WordAt;
      events := [];
      var data := payload;
      if start && payload != [] {
        var pointer: int := payload[0];
        if 1 + pointer >= |payload| {
          return;
        }
        data := payload[1 + pointer..];
      }
      if |data| < 12 {
        return;
      }
      var end := Min(3 + SectionLength(data), |data|);
      if end < 4 {
        return;
      }
      var stored := WordAt(data, end - 4);
      var computed := Crc32Mpeg2(data[..end - 4]);
      if stored != computed {
        events := [Diag(CrcError(PAT_PID))];
        if config.strictCrc {
          return;
        }
      }
      pmtPid := Some(PidOf(data[10], data[11]));
    }

    method TakePmt(payload: seq<byte>, start: bool) returns (events: seq<Event>)
      modifies this`tracks, this`sectionBuf, this`sectionTarget, this`nextTrackId
      ensures Fed(Now(), events) == ParsePmt(config, old(Now()), payload, start)
    {
      hide Reassemble, ParsePmtSection;
      var section := ReassemblePmtSection(payload, start);
      if section.None? {
        return [];
      }
      events := TakeSection(section.value);
    }

    method ReassemblePmtSection(payload: seq<byte>, start: bool) returns (section: Option<seq<byte>>)
      modifies this`sectionBuf, this`sectionTarget
      ensures Reassembled(Now(), section) == Reassemble(old(Now()), payload, start)
    {
      var data := payload;
      if start && payload != [] {
        var pointer: int := payload[0];
        if 1 + pointer >= |payload| {
          return None;
        }
        sectionBuf, sectionTarget := [], None;
        data := payload[1 + pointer..];
      }
      if data == [] {
        return None;
      }
      sectionBuf := sectionBuf + data;
      if sectionTarget.None? && |sectionBuf| >= 3 {
        sectionTarget := Some(3 + SectionLength(sectionBuf));
      }
      if sectionTarget.None? || |sectionBuf| < sectionTarget.value {
        return None;
      }
      section := Some(sectionBuf[..sectionTarget.value]);
      sectionBuf, sectionTarget := [], None;
    }

    method TakeSection(data: seq<byte>) returns (events: seq<Event>)
      modifies this`tracks, this`nextTrackId
      ensures Fed(Now(), events) == ParsePmtSection(config, old(Now()), data)
    {
      hide Crc32, WordAt, TakeStreams;
      events := [];
      if |data| < 12 {
        return;
      }
      var end := 3 + SectionLength(data);
      if end > |data| {
        return;
      }
      if end >= 4 {
        var stored := WordAt(data, end - 4);
        var computed := Crc32Mpeg2(data[..end - 4]);
        if stored != computed {
          events := [Diag(CrcError(if pmtPid.Some? then pmtPid.value else 0))];
          if config.strictCrc {
            return;
          }
        }
      }
      var infoLength := data[10] as int % 0x10 * 0x100 + data[11];
      var d := Demux(pmtPid, tracks, sectionBuf, sectionTarget, nextTrackId);
      TakeStreamsKeepsRest(d, data, 12 + infoLength, Max(end - 4, 0));
      var found;
      d, found := WalkStreams(d, data, 12 + infoLength, Max(end - 4, 0));
      tracks, nextTrackId := d.tracks, d.nextTrackId;
      events := events + found;
    }
  }

  /** Searching from within a buffer is searching what remains of it. */
  lemma SyncMoves(buf: seq<byte>, offset: nat)
    requires offset <= |buf|
    ensures var here, there := FindSync(buf, offset), FindSync(buf[offset..], 0);
            if there.None? then here.None? else here == Some(offset + there.value)
  {
    var there := FindSync(buf[offset..], 0);
    var moved := if there.None? then None else Some(offset + there.value);
    SyncShifts(buf, offset, there);
    SyncIsUnique(buf, offset, moved, FindSync(buf, offset));
  }

  lemma SyncShifts(buf: seq<byte>, offset: nat, there: Option<nat>)
    requires offset <= |buf| && IsSync(buf[offset..], 0, there)
    ensures IsSync(buf, offset, if there.None? then None else Some(offset + there.value))
  {
    var rest := buf[offset..];
    forall j | offset <= j < |buf|
      ensures Confirmed(buf, j) == Confirmed(rest, j - offset) && buf[j] == rest[j - offset]
    {
    }
    forall j | offset <= j < |buf| && j + PACKET_SIZE >= |buf| && there.None?
      ensures buf[j] != SYNC_BYTE
    {
      assert rest[j - offset] != SYNC_BYTE;
    }
    if there.Some? && there.value + PACKET_SIZE >= |rest| {
      forall j | offset <= j < offset + there.value && j + PACKET_SIZE >= |buf| ensures buf[j] != SYNC_BYTE {
        assert rest[j - offset] != SYNC_BYTE;
      }
    }
  }

  lemma RunEnds(config: Config, d: Demux, buf: seq<byte>)
    requires |buf| < PACKET_SIZE || (buf[0] != SYNC_BYTE && FindSync(buf, 0).None?)
    ensures RunPackets(config, d, buf) == Ran(d, buf, [])
  {
    hide FindSync, FeedPacket;
  }

  lemma RunSkips(config: Config, d: Demux, buf: seq<byte>, n: nat)
    requires |buf| >= PACKET_SIZE && buf[0] != SYNC_BYTE && FindSync(buf, 0) == Some(n)
    ensures 0 < n < |buf|
    ensures var later := RunPackets(config, d, buf[n..]);
            RunPackets(config, d, buf) == later.(events := [Diag(SyncLoss)] + later.events)
  {
    hide FeedPacket;
  }

  lemma RunFeeds(config: Config, d: Demux, buf: seq<byte>)
    requires |buf| >= PACKET_SIZE && buf[0] == SYNC_BYTE
    ensures var fed := FeedPacket(config, d, buf[..PACKET_SIZE]);
            var later := RunPackets(config, fed.demux, buf[PACKET_SIZE..]);
            RunPackets(config, d, buf) == later.(events := fed.events + later.events)
  {
    hide FindSync, FeedPacket;
  }

  /** Listing streams touches only the tracks. */
  lemma {:induction false} TakeStreamsKeepsRest(d: Demux, data: seq<byte>, pos: nat, end: nat)
    requires end <= |data|
    ensures var after := TakeStreams(d, data, pos, end).demux;
            after == d.(tracks := after.tracks, nextTrackId := after.nextTrackId) && d.tracks <= after.tracks
    decreases end - pos
  {
    hide TakeStream, PidOf;
    if pos + 5 <= end {
      var infoLength := data[pos + 3] as int % 0x10 * 0x100 + data[pos + 4];
      var info := data[pos + 5..pos + 5 + Min(infoLength, |data| - (pos + 5))];
      TakeStreamKeepsRest(d, data[pos], PidOf(data[pos + 1], data[pos + 2]), info, infoLength);
      var first := TakeStream(d, data[pos], PidOf(data[pos + 1], data[pos + 2]), info, infoLength);
      TakeStreamsKeepsRest(first.demux, data, pos + 5 + infoLength, end);
    }
  }

  lemma TakeStreamKeepsRest(d: Demux, streamType: byte, pid: u16, info: seq<byte>, infoLength: nat)
    ensures var after := TakeStream(d, streamType, pid, info, infoLength).demux;
            after == d.(tracks := after.tracks, nextTrackId := after.nextTrackId) && d.tracks <= after.tracks
  {
    hide PrivateStream, CodecOf, TrackWithPid;
  }

  method WalkStreams(start: Demux, data: seq<byte>, from: nat, end: nat) returns (d: Demux, events: seq<Event>)
    requires end <= |data|
    ensures Fed(d, events) == TakeStreams(start, data, from, end)
  {
    hide TakeStream, PidOf;
    d, events := start, [];
    var pos := from;
    ghost var whole := TakeStreams(start, data, from, end);
    while pos + 5 <= end
      invariant whole.demux == TakeStreams(d, data, pos, end).demux
      invariant whole.events == events + TakeStreams(d, data, pos, end).events
      decreases end - pos
    {
      var infoLength := data[pos + 3] as int % 0x10 * 0x100 + data[pos + 4];
      var info := data[pos + 5..pos + 5 + Min(infoLength, |data| - (pos + 5))];
      var fed := TakeStream(d, data[pos], PidOf(data[pos + 1], data[pos + 2]), info, infoLength);
      d, events := fed.demux, events + fed.events;
      pos := pos + 5 + infoLength;
    }
  }

  method FlushAll(config: Config, start: seq<Track>) returns (tracks: seq<Track>, events: seq<Event>)
    ensures (tracks, events) == FlushTracks(config, start)
  {
    hide EmitPes;
    tracks, events := [], [];
    ghost var whole := FlushTracks(config, start);
    for i := 0 to |start|
      invariant whole.0 == tracks + FlushTracks(config, start[i..]).0
      invariant whole.1 == events + FlushTracks(config, start[i..]).1
    {
      assert start[i..][1..] == start[i + 1..];
      var fed := TrackFed(start[i], []);
      if start[i].pesBuf != [] {
        fed := EmitPes(config, start[i]);
      }
      tracks, events := tracks + [fed.track], events + fed.events;
    }
    assert start[|start|..] == [] && tracks + [] == tracks && events + [] == events;
  }
}
