/** MPEG transport streams as other writers make them: packets, elementary headers and tables with any of their
    optional parts. */
module TsForms {
  import opened Bytes
  import opened Crc
  import opened TsCommon
  import opened TsMux
  import opened TsTables
  import D = TsDemux

  /** A bit of a byte. */
  function Bit(on: bool, weight: nat): nat {
    if on then weight else 0
  }

  // ---------- Packets ----------

  /** The fields of a packet header; `control` is 1 for payload, 2 for an adaptation field and 3 for both. */
  datatype PacketForm = PacketForm(error: bool, start: bool, priority: bool, pid: u16, scrambling: nat, control: nat,
                                   cc: u4)

  predicate Writable(f: PacketForm) {
    f.pid < 0x2000 && f.scrambling < 4 && f.control < 4
  }

  function WriteHeader(f: PacketForm): (s: seq<byte>)
    requires Writable(f)
    ensures |s| == 4
  {
    [0x47, Bit(f.error, 0x80) + Bit(f.start, 0x40) + Bit(f.priority, 0x20) + f.pid / 0x100, f.pid % 0x100,
     f.scrambling * 0x40 + f.control * 0x10 + f.cc]
  }

  /** The adaptation field with its length, where the header announces one. */
  function WriteField(f: PacketForm, field: seq<byte>): seq<byte>
    requires |field| < 0x100
  {
    if f.control >= 2 then [|field|] + field else []
  }

  lemma HeaderFields(f: PacketForm, rest: seq<byte>)
    requires Writable(f)
    ensures var pkt := WriteHeader(f) + rest;
            && D.PidOf(pkt[1], pkt[2]) == f.pid && (pkt[1] / 0x40 % 2 == 1 <==> f.start)
            && pkt[3] / 0x10 % 4 == f.control && pkt[3] % 0x10 == f.cc
  {
    var pkt := WriteHeader(f) + rest;
    var top: int, low: int := pkt[1], pkt[3];
    var hi: int := f.pid / 0x100;
    assert top == Bit(f.error, 0x80) + Bit(f.start, 0x40) + Bit(f.priority, 0x20) + hi && hi < 0x20;
    assert low == f.scrambling * 0x40 + f.control * 0x10 + f.cc;
    assert low / 0x10 == f.scrambling * 4 + f.control;
  }

  /** A packet is read as its payload, if it has any; an adaptation field is passed over whatever it holds. */
  lemma AnyPacketIsRead(f: PacketForm, field: seq<byte>, payload: seq<byte>)
    requires Writable(f) && |field| < 0x100
    requires |WriteHeader(f) + WriteField(f, field) + payload| == PACKET_SIZE
    ensures D.ParsePacket(WriteHeader(f) + WriteField(f, field) + payload)
         == if f.control % 2 == 0 || payload == [] then D.NoPayload else D.Payload(f.pid, f.start, f.cc, payload)
  {
    hide WriteHeader, D.PidOf;
    var pkt := WriteHeader(f) + WriteField(f, field) + payload;
    assert pkt == WriteHeader(f) + (WriteField(f, field) + payload);
    HeaderFields(f, WriteField(f, field) + payload);
    if f.control >= 2 {
      assert pkt[4] == |field|;
      assert pkt[5 + |field|..] == payload;
    } else {
      assert pkt[4..] == payload;
    }
  }

  /** A field that is announced as longer than the packet is reported, and nothing of the packet is used. */
  lemma LongFieldIsReported(f: PacketForm, rest: seq<byte>, config: D.Config, d: D.Demux)
    requires Writable(f) && f.control >= 2 && |rest| == PACKET_SIZE - 4 && rest[0] > PACKET_SIZE - 5
    ensures D.FeedPacket(config, d, WriteHeader(f) + rest)
         == D.Fed(d, [D.Diag(D.AdaptationFieldOverflow(f.pid))])
  {
    hide WriteHeader, D.PidOf, D.FeedPayload;
    HeaderFields(f, rest);
    var pkt := WriteHeader(f) + rest;
    assert pkt[4] == rest[0];
  }

  // ---------- Elementary packets ----------

  /** The header of an elementary packet: `flags` says whether there are no times (0), a presentation time (2) or
      both (3); `data` is the optional part behind the fixed one. */
  function WritePes(streamId: byte, length: u16, marks: byte, flags: nat, low: nat, data: seq<byte>,
                    payload: seq<byte>): seq<byte>
    requires flags < 4 && low < 0x40 && |data| < 0x100
  {
    [0, 0, 1, streamId] + Be16(length) + [marks, flags * 0x40 + low, |data|] + data + payload
  }

  lemma PesFields(streamId: byte, length: u16, marks: byte, flags: nat, low: nat, data: seq<byte>, payload: seq<byte>)
    requires flags < 4 && low < 0x40 && |data| < 0x100
    ensures var b := WritePes(streamId, length, marks, flags, low, data, payload);
            && |b| == 9 + |data| + |payload| && b[0] == 0 && b[1] == 0 && b[2] == 1
            && b[7] / 0x40 == flags && b[8] == |data| && b[9..9 + |data|] == data && b[9 + |data|..] == payload
  {
    hide Be16;
    var b := WritePes(streamId, length, marks, flags, low, data, payload);
    assert b[7] == flags * 0x40 + low;
  }

  /** Without times any optional part is passed over; a packet without payload, or with the forbidden flags, says
      nothing. */
  lemma UntimedPesIsRead(streamId: byte, length: u16, marks: byte, flags: nat, low: nat, data: seq<byte>,
                         payload: seq<byte>)
    requires flags < 2 && low < 0x40 && |data| < 0x100
    ensures D.ReadPes(WritePes(streamId, length, marks, flags, low, data, payload))
         == if flags == 0 && payload != [] then Some(D.Pes(0, 0, payload)) else None
  {
    hide WritePes;
    PesFields(streamId, length, marks, flags, low, data, payload);
  }

  /** With times, whatever follows them in the optional part: the decode time is the presentation time where it is
      not given. */
  lemma TimedPesIsRead(streamId: byte, length: u16, marks: byte, low: nat, m1: u4, pts: u64, m2: u4,
                       dts: Option<u64>, more: seq<byte>, payload: seq<byte>)
    requires low < 0x40 && |more| < 0x80
    ensures var times := EncodeTimestamp(m1, pts) + if dts.Some? then EncodeTimestamp(m2, dts.value) else [];
            D.ReadPes(WritePes(streamId, length, marks, if dts.Some? then 3 else 2, low, times + more, payload))
            == if payload == [] then None
               else Some(D.Pes(pts % WRAP, (if dts.Some? then dts.value else pts) % WRAP, payload))
  {
    hide WritePes, EncodeTimestamp, DecodeTimestamp;
    var times := EncodeTimestamp(m1, pts) + if dts.Some? then EncodeTimestamp(m2, dts.value) else [];
    var flags, data := if dts.Some? then 3 else 2, times + more;
    PesFields(streamId, length, marks, flags, low, data, payload);
    var b := WritePes(streamId, length, marks, flags, low, data, payload);
    assert b[9..9 + |data|][..5] == EncodeTimestamp(m1, pts);
    assert b[9..14] == b[9..9 + |data|][..5];
    TimestampComesBack(m1, pts, b, 9);
    if dts.Some? {
      assert b[9..9 + |data|][5..10] == EncodeTimestamp(m2, dts.value);
      assert b[14..19] == b[9..9 + |data|][5..10];
      TimestampComesBack(m2, dts.value, b, 14);
    }
  }

  /** An optional part too short for the times it is said to hold says nothing. */
  lemma ShortTimesSayNothing(streamId: byte, length: u16, marks: byte, flags: nat, low: nat, data: seq<byte>,
                             payload: seq<byte>)
    requires (flags == 2 && |data| < 5) || (flags == 3 && |data| < 10)
    requires low < 0x40
    ensures D.ReadPes(WritePes(streamId, length, marks, flags, low, data, payload)) == None
  {
    hide WritePes;
    PesFields(streamId, length, marks, flags, low, data, payload);
  }

  /** What does not begin with the three bytes of the start code, or is cut off within the fixed part, says
      nothing. */
  lemma OtherStartSaysNothing(b: seq<byte>)
    requires |b| < 9 || b[..3] != [0, 0, 1]
    ensures D.ReadPes(b) == None
  {
    if |b| >= 9 {
      assert b[..3] == [b[0], b[1], b[2]];
    }
  }

  /** Ten seconds at 90 kHz, as a presentation time and as a decode time. */
  lemma TimestampBytes()
    ensures EncodeTimestamp(2, 900_000) == [0x21, 0x00, 0x37, 0x77, 0x41]
    ensures EncodeTimestamp(1, 0x1_FFFF_FFFF) == [0x1F, 0xFF, 0xFF, 0xFF, 0xFF]
  {
  }

  // ---------- Frames of tracks whose codec is not known yet ----------

  /** While the codec is not inferred, frames are lost but times are followed; with the first payload that names
      one, the track is announced as video and its frame follows. */
  lemma ProbedFrames(config: D.Config, t: D.Track, pes: D.Pes)
    requires t.pendingProbe && D.ReadPes(t.pesBuf) == Some(pes)
    ensures var fed, named := D.EmitPes(config, t), (config.infer)(pes.payload);
            && fed.track.lastRawPts == Some(pes.pts) && fed.track.pesBuf == []
            && (named.None? ==> fed.events == [] && fed.track.pendingProbe && fed.track.codec == t.codec)
            && fed.track.wrapOffset == D.NextOffset(t.wrapOffset, t.lastRawPts, pes.pts)
            && (named.Some? ==>
                  var codec, pts, dts := named.value, pes.pts + fed.track.wrapOffset, pes.dts + fed.track.wrapOffset;
                  && fed.events == [D.TrackFound(t.trackId, Video, codec, 90_000),
                                    D.FrameOut(t.trackId, Video, codec, pts, dts, D.TicksToUs(pts), D.TicksToUs(dts),
                                               (config.isKeyframe)(pes.payload, codec), pes.payload)]
                  && fed.track.codec == codec && fed.track.kind == Video && !fed.track.pendingProbe)
  {
    hide D.ReadPes, D.NextOffset, D.TicksToUs;
  }

  // ---------- Descriptors ----------

  datatype Descriptor = Descriptor(tag: byte, content: seq<byte>)

  function WriteDescriptors(ds: seq<Descriptor>): seq<byte>
    requires forall i :: 0 <= i < |ds| ==> |ds[i].content| < 0x100
  {
    if ds == [] then [] else [ds[0].tag, |ds[0].content|] + ds[0].content + WriteDescriptors(ds[1..])
  }

  predicate Spells(tag: seq<byte>, name: string) {
    |tag| == |name| && forall i :: 0 <= i < |name| ==> tag[i] == name[i] as int
  }

  /** The formats that registration descriptors may name. */
  lemma RegisteredNames(tag: seq<byte>)
    ensures Spells(tag, "AV01") ==> Registered(tag) == Some((AV1, Video))
    ensures Spells(tag, "VP80") ==> Registered(tag) == Some((VP8, Video))
    ensures Spells(tag, "VP09") ==> Registered(tag) == Some((VP9, Video))
    ensures Spells(tag, "Opus") ==> Registered(tag) == Some((Opus, Audio))
    ensures Spells(tag, "MJPG") ==> Registered(tag) == Some((MJPEG, Video))
    ensures Spells(tag, "ADPC") ==> Registered(tag) == Some((ADPCM, Audio))
    ensures Registered(tag).Some? ==>
              Spells(tag, "AV01") || Spells(tag, "VP80") || Spells(tag, "VP09") || Spells(tag, "Opus")
              || Spells(tag, "MJPG") || Spells(tag, "ADPC")
  {
    if |tag| == 4 {
      assert tag == [tag[0], tag[1], tag[2], tag[3]];
    }
  }

  /** What one descriptor names: a registration by its first four bytes, and tag 0x80 AV1. */
  function Names(d: Descriptor): Option<(Codec, Kind)> {
    if d.tag == 0x05 then if |d.content| >= 4 then Registered(d.content[..4]) else None
    else if d.tag == 0x80 then Some((AV1, Video)) else None
  }

  function FirstNamed(ds: seq<Descriptor>): Option<(Codec, Kind)> {
    if ds == [] then None else if Names(ds[0]).Some? then Names(ds[0]) else FirstNamed(ds[1..])
  }

  /** Of any list of descriptors, the first that names a codec decides. */
  lemma {:induction false} FirstNamedDecides(before: seq<byte>, ds: seq<Descriptor>)
    requires forall i :: 0 <= i < |ds| ==> |ds[i].content| < 0x100
    ensures PrivateStream(before + WriteDescriptors(ds), |before|) == FirstNamed(ds)
    decreases |ds|
  {
    hide Registered;
    var info, at := before + WriteDescriptors(ds), |before|;
    if ds != [] {
      var d := ds[0];
      var own := [d.tag, |d.content|] + d.content;
      assert info == before + own + WriteDescriptors(ds[1..]);
      assert info[at] == d.tag && info[at + 1] == |d.content|;
      FirstNamedDecides(before + own, ds[1..]);
      if |d.content| >= 4 {
        assert info[at + 2..at + 6] == d.content[..4];
      }
    }
  }

  // ---------- Tables ----------

  /** A section: table id, twelve bits of length below four others, and a body that ends with four checksum bytes. */
  function WriteSection(table: byte, top: nat, body: seq<byte>, crc: bv32): seq<byte>
    requires top < 0x10 && |body| + 4 < 0x1000
  {
    [table, top * 0x10 + (|body| + 4) / 0x100, (|body| + 4) % 0x100] + body + WordBytes(crc)
  }

  lemma SectionFields(table: byte, top: nat, body: seq<byte>, crc: bv32, tail: seq<byte>)
    requires top < 0x10 && |body| + 4 < 0x1000
    ensures var s := WriteSection(table, top, body, crc) + tail;
            var end := 7 + |body|;
            && |s| == end + |tail| && 3 + D.SectionLength(s) == end && s[3..3 + |body|] == body
            && s[..end - 4] == WriteSection(table, top, body, crc)[..end - 4] && WordAt(s, end - 4) == crc
            && (D.ChecksumHolds(s, end) <==> crc == Crc32(WriteSection(table, top, body, crc)[..end - 4]))
  {
    hide Crc32, WordBytes, WordAt;
    var section := WriteSection(table, top, body, crc);
    var s, n := section + tail, |body| + 4;
    assert s[1] == top * 0x10 + n / 0x100 && s[2] == n % 0x100;
    assert (top * 0x10 + n / 0x100) % 0x10 == n / 0x100;
    assert s[3 + |body|..7 + |body|] == WordBytes(crc);
    WordComesBack(s, 3 + |body|, crc);
    assert s[..3 + |body|] == section[..3 + |body|];
  }

  /** The checksum that belongs to a section. */
  function RightCrc(table: byte, top: nat, body: seq<byte>): bv32
    requires top < 0x10 && |body| + 4 < 0x1000
  {
    Crc32([table, top * 0x10 + (|body| + 4) / 0x100, (|body| + 4) % 0x100] + body)
  }

  /** Bytes behind a pointer field that passes over `skipped`. */
  function Pointed(skipped: seq<byte>, rest: seq<byte>): seq<byte>
    requires |skipped| < 0x100
  {
    [|skipped|] + skipped + rest
  }

  lemma PointerIsFollowed(skipped: seq<byte>, rest: seq<byte>)
    requires |skipped| < 0x100
    ensures D.AfterPointer(Pointed(skipped, rest), true) == if rest == [] then None else Some(rest)
  {
    var payload := Pointed(skipped, rest);
    assert payload[1 + |skipped|..] == rest;
  }

  /** Any association table: the first program's map is followed; a wrong checksum is reported, and keeps the table
      from being used only in strict mode. */
  lemma AnyPatIsRead(config: D.Config, d: D.Demux, skipped: seq<byte>, table: byte, top: nat, head: seq<byte>,
                     high: nat, pid: u16, more: seq<byte>, crc: bv32, tail: seq<byte>)
    requires |skipped| < 0x100 && top < 0x10 && |head| == 7 && high < 8 && pid < 0x2000 && |more| < 0x800
    ensures var body := head + [high * 0x20 + pid / 0x100, pid % 0x100] + more;
            var right := crc == RightCrc(table, top, body);
            D.ParsePat(config, d, Pointed(skipped, WriteSection(table, top, body, crc) + tail), true)
            == D.Fed(if right || !config.strictCrc then d.(pmtPid := Some(pid)) else d,
                     if right then [] else [D.Diag(D.CrcError(PAT_PID))])
  {
    hide Crc32, WordBytes, WordAt, D.AfterPointer, D.ChecksumHolds, D.SectionLength, Pointed;
    var body := head + [high * 0x20 + pid / 0x100, pid % 0x100] + more;
    var section := WriteSection(table, top, body, crc);
    var s := section + tail;
    PointerIsFollowed(skipped, s);
    SectionFields(table, top, body, crc, tail);
    assert section[..3 + |body|] == [table, top * 0x10 + (|body| + 4) / 0x100, (|body| + 4) % 0x100] + body;
    assert s[10] == body[7] && s[11] == body[8];
    assert D.PidOf(s[10], s[11]) == pid;
  }

  /** A table whose pointer leads out of the payload, or that is cut off before its first program, is passed over. */
  lemma ShortPatIsIgnored(config: D.Config, d: D.Demux, skipped: seq<byte>, rest: seq<byte>)
    requires |skipped| < 0x100 && |rest| < 12
    ensures D.ParsePat(config, d, Pointed(skipped, rest), true) == D.Fed(d, [])
  {
    hide D.ChecksumHolds;
    PointerIsFollowed(skipped, rest);
  }

  /** A table that declares no bytes at all is passed over; one that declares any is followed in loose mode even where
      its declared end lies before its first program. */
  lemma DeclaredLengthOfPat(config: D.Config, d: D.Demux, s: seq<byte>)
    requires |s| >= 12 && !config.strictCrc
    ensures var fed := D.ParsePat(config, d, Pointed([], s), true);
            if s[1] % 0x10 == 0 && s[2] == 0 then fed == D.Fed(d, [])
            else fed.demux == d.(pmtPid := Some(D.PidOf(s[10], s[11])))
  {
    hide D.ChecksumHolds, D.AfterPointer;
    PointerIsFollowed([], s);
  }

  /** An entry of a map: stream type, packet identifier below three other bits, and descriptors below four. */
  datatype Entry = Entry(streamType: byte, high: nat, pid: u16, top: nat, info: seq<byte>)

  predicate WritableEntry(e: Entry) {
    e.high < 8 && e.pid < 0x2000 && e.top < 0x10 && |e.info| < 0x1000
  }

  function WriteEntry(e: Entry): seq<byte>
    requires WritableEntry(e)
  {
    [e.streamType, e.high * 0x20 + e.pid / 0x100, e.pid % 0x100, e.top * 0x10 + |e.info| / 0x100, |e.info| % 0x100]
    + e.info
  }

  ghost predicate WritableEntries(es: seq<Entry>) {
    forall i :: 0 <= i < |es| ==> WritableEntry(es[i])
  }

  function WriteEntries(es: seq<Entry>): seq<byte>
    requires WritableEntries(es)
  {
    if es == [] then [] else WriteEntry(es[0]) + WriteEntries(es[1..])
  }

  /** Entries taken one after the other. */
  function TakeEntries(d: D.Demux, es: seq<Entry>): D.Fed
    decreases |es|
  {
    if es == [] then D.Fed(d, [])
    else
      var first := D.TakeStream(d, es[0].streamType, es[0].pid, es[0].info, |es[0].info|);
      var later := TakeEntries(first.demux, es[1..]);
      D.Fed(later.demux, first.events + later.events)
  }

  lemma EntryFields(e: Entry, data: seq<byte>, pos: nat)
    requires WritableEntry(e) && pos <= |data| && WriteEntry(e) <= data[pos..]
    ensures pos + 5 + |e.info| <= |data|
    ensures data[pos] == e.streamType && D.PidOf(data[pos + 1], data[pos + 2]) == e.pid
    ensures data[pos + 3] as int % 0x10 * 0x100 + data[pos + 4] == |e.info|
    ensures data[pos + 5..pos + 5 + |e.info|] == e.info
  {
    var w, n := WriteEntry(e), |e.info|;
    var own := data[pos..pos + |w|];
    assert own == w;
    assert own[1] == data[pos + 1] && own[2] == data[pos + 2] && own[3] == data[pos + 3] && own[4] == data[pos + 4];
    assert (e.top * 0x10 + n / 0x100) % 0x10 == n / 0x100;
    assert data[pos + 5..pos + 5 + n] == own[5..];
  }

  lemma {:induction false} EntriesAreTaken(d: D.Demux, es: seq<Entry>, data: seq<byte>, pos: nat, end: nat)
    requires WritableEntries(es) && pos <= end <= |data| && data[pos..end] == WriteEntries(es)
    ensures D.TakeStreams(d, data, pos, end) == TakeEntries(d, es)
    decreases |es|
  {
    hide D.TakeStream, D.PidOf, WriteEntry;
    if es == [] {
      assert |data[pos..end]| == 0;
    } else {
      var e, rest := es[0], WriteEntries(es[1..]);
      EntrySize(e);
      assert WriteEntry(e) + rest <= data[pos..];
      assert WriteEntry(e) <= data[pos..];
      EntryFields(e, data, pos);
      var next := pos + 5 + |e.info|;
      assert data[next..end] == data[pos..end][5 + |e.info|..] == rest;
      EntriesAreTaken(D.TakeStream(d, e.streamType, e.pid, e.info, |e.info|).demux, es[1..], data, next, end);
    }
  }

  lemma EntrySize(e: Entry)
    requires WritableEntry(e)
    ensures |WriteEntry(e)| == 5 + |e.info|
  {
  }

  /** What stands between the length of a map section and its checksum. */
  function MapBody(head: seq<byte>, high: nat, program: seq<byte>, es: seq<Entry>): (s: seq<byte>)
    requires |head| == 7 && high < 0x10 && |program| < 0x1000 && WritableEntries(es)
    ensures |s| == 9 + |program| + |WriteEntries(es)|
  {
    head + [high * 0x10 + |program| / 0x100, |program| % 0x100] + program + WriteEntries(es)
  }

  lemma MapFields(table: byte, top: nat, head: seq<byte>, high: nat, program: seq<byte>, es: seq<Entry>, crc: bv32)
    requires top < 0x10 && |head| == 7 && high < 0x10 && |program| < 0x1000 && WritableEntries(es)
    requires 13 + |program| + |WriteEntries(es)| < 0x1000
    ensures var body := MapBody(head, high, program, es);
            var s, n := WriteSection(table, top, body, crc), |program|;
            && |s| == 7 + |body| && s[10] as int % 0x10 * 0x100 + s[11] == n
            && s[12 + n..3 + |body|] == WriteEntries(es)
            && s[..3 + |body|] == [table, top * 0x10 + (|body| + 4) / 0x100, (|body| + 4) % 0x100] + body
  {
    hide WordBytes, WriteEntries;
    var n, entries := |program|, WriteEntries(es);
    var body := MapBody(head, high, program, es);
    var s := WriteSection(table, top, body, crc);
    assert s[10] == body[7] && s[11] == body[8];
    assert (high * 0x10 + n / 0x100) % 0x10 == n / 0x100;
    assert s[3..3 + |body|] == body;
    assert s[12 + n..3 + |body|] == s[3..3 + |body|][9 + n..] == body[9 + n..] == entries;
  }

  /** Any map section: descriptors of the program are passed over, and the entries are taken in turn; a wrong checksum
      is reported first, and keeps them from being taken only in strict mode. */
  lemma AnyPmtIsRead(config: D.Config, d: D.Demux, table: byte, top: nat, head: seq<byte>, high: nat,
                     program: seq<byte>, es: seq<Entry>, crc: bv32)
    requires top < 0x10 && |head| == 7 && high < 0x10 && |program| < 0x1000 && WritableEntries(es)
    requires 13 + |program| + |WriteEntries(es)| < 0x1000
    ensures var body := MapBody(head, high, program, es);
            var right := crc == RightCrc(table, top, body);
            var errors := if right then [] else [D.Diag(D.CrcError(if d.pmtPid.Some? then d.pmtPid.value else 0))];
            var taken := TakeEntries(d, es);
            D.ParsePmtSection(config, d, WriteSection(table, top, body, crc))
            == if !right && config.strictCrc then D.Fed(d, errors) else D.Fed(taken.demux, errors + taken.events)
  {
    hide Crc32, D.ChecksumHolds, D.SectionLength, D.TakeStreams, TakeEntries, WriteSection, MapBody, WriteEntries;
    var body := MapBody(head, high, program, es);
    var s := WriteSection(table, top, body, crc);
    SectionFields(table, top, body, crc, []);
    assert s + [] == s;
    MapFields(table, top, head, high, program, es, crc);
    EntriesAreTaken(d, es, s, 12 + |program|, 3 + |body|);
  }

  // ---------- Streams ----------

  /** The stream types that name a codec, with their clock rates. */
  lemma StreamTypes()
    ensures CodecOf(0x1B) == Some((H264, Video)) && CodecOf(0x24) == Some((H265, Video))
    ensures CodecOf(0x33) == Some((H266, Video)) && CodecOf(0x9D) == Some((VP8, Video))
    ensures CodecOf(0x9E) == Some((VP9, Video)) && CodecOf(0x9F) == Some((AV1, Video))
    ensures CodecOf(0x0F) == Some((AAC, Audio)) && CodecOf(0x03) == Some((MP2, Audio))
    ensures CodecOf(0x04) == Some((MP3, Audio)) && CodecOf(0x90) == Some((G711A, Audio))
    ensures CodecOf(0x91) == Some((G711U, Audio)) && CodecOf(0x9C) == Some((Opus, Audio))
    ensures forall t: byte ::
              CodecOf(t).Some? <==> t in {0x1B, 0x24, 0x33, 0x9D, 0x9E, 0x9F, 0x0F, 0x03, 0x04, 0x90, 0x91, 0x9C}
    ensures D.ClockRate(AAC, Audio) == 48_000 && D.ClockRate(Opus, Audio) == 48_000
    ensures D.ClockRate(G711A, Audio) == 8_000 && D.ClockRate(G711U, Audio) == 8_000
    ensures forall c, k :: k != Audio || c !in {AAC, Opus, G711A, G711U} ==> D.ClockRate(c, k) == 90_000
  {
  }

  /** A stream that is already known is passed over; one whose type names a codec, or that is private and has a
      descriptor that does, is announced under the next number; a private one without descriptors is followed in
      silence until its codec is inferred; any other is reported. */
  lemma StreamIsListed(d: D.Demux, streamType: byte, pid: u16, info: seq<byte>)
    ensures var fed := D.TakeStream(d, streamType, pid, info, |info|);
            var named := if streamType == 0x06 then PrivateStream(info, 0) else CodecOf(streamType);
            if exists i :: 0 <= i < |d.tracks| && d.tracks[i].pid == pid then fed == D.Fed(d, [])
            else if named.None? && (streamType != 0x06 || info != []) then
              fed == D.Fed(d, [D.Diag(D.UnknownStreamType(streamType, pid))])
            else
              && |fed.demux.tracks| == |d.tracks| + 1 && d.tracks <= fed.demux.tracks
              && fed.demux.nextTrackId == d.nextTrackId + 1 && fed.demux.pmtPid == d.pmtPid
              && var t := fed.demux.tracks[|d.tracks|];
              && t.pid == pid && t.trackId == d.nextTrackId && t.pesBuf == [] && t.expectedCc == None
              && !t.pesStarted && t.wrapOffset == 0 && t.lastRawPts == None && (t.pendingProbe <==> named.None?)
              && (named.None? ==> fed.events == [] && t.codec == Unknown && t.kind == Video)
              && (named.Some? ==>
                    var (codec, kind) := named.value;
                    && t.codec == codec && t.kind == kind
                    && fed.events == [D.TrackFound(t.trackId, kind, codec, D.ClockRate(codec, kind))])
  {
    hide PrivateStream, CodecOf, D.ClockRate;
    assert (exists i :: 0 <= i < |d.tracks| && d.tracks[i].pid == pid)
        <==> D.TrackWithPid(d.tracks, pid) < |d.tracks|;
  }

  // ---------- Synchronisation ----------

  /** Bytes before the first packet, none of them a sync byte that another one confirms: the packets are fed as if
      they stood alone, behind one report. */
  lemma LeadingGarbageIsReported(config: D.Config, d: D.Demux, remainder: seq<byte>, data: seq<byte>, n: nat)
    requires 0 < n && n + PACKET_SIZE < |remainder + data|
    requires Confirmed(remainder + data, n) && forall j :: 0 <= j < n ==> !Confirmed(remainder + data, j)
    ensures var ran := D.RunPackets(config, d, (remainder + data)[n..]);
            D.PushBytes(config, d, remainder, data) == ran.(events := [D.Diag(D.SyncLoss)] + ran.events)
  {
    hide FindSync, D.RunPackets;
    SyncIsUnique(remainder + data, 0, FindSync(remainder + data, 0), Some(n));
  }

  /** Bytes without any packet are dropped but for the last 187, which may hold the beginning of one. */
  lemma GarbageIsDropped(config: D.Config, d: D.Demux, remainder: seq<byte>, data: seq<byte>)
    requires IsSync(remainder + data, 0, None)
    ensures var buf := remainder + data;
            D.PushBytes(config, d, remainder, data)
            == D.Ran(d, if |buf| <= 187 then buf else buf[|buf| - 187..], [])
  {
    hide FindSync, D.RunPackets;
    SyncIsUnique(remainder + data, 0, FindSync(remainder + data, 0), None);
    var buf := remainder + data;
    assert buf[0..] == buf;
  }

  /** Between packets, bytes up to the next confirmed sync byte are dropped behind one report. */
  lemma InnerGarbageIsReported(config: D.Config, d: D.Demux, buf: seq<byte>, n: nat)
    requires 0 < n && n + PACKET_SIZE < |buf| && buf[0] != SYNC_BYTE
    requires Confirmed(buf, n) && forall j :: 0 <= j < n ==> !Confirmed(buf, j)
    ensures var later := D.RunPackets(config, d, buf[n..]);
            D.RunPackets(config, d, buf) == later.(events := [D.Diag(D.SyncLoss)] + later.events)
  {
    hide FindSync, D.RunPackets;
    SyncIsUnique(buf, 0, FindSync(buf, 0), Some(n));
    D.RunSkips(config, d, buf, n);
  }

  // ---------- Fixed bytes of written streams ----------

  /** Packets begin with the sync byte, and tables have their own identifiers. */
  lemma PacketConstants(pid: u16, data: seq<byte>, start: bool, cc: u4)
    ensures PACKET_SIZE == 188 && PAT_PID == 0 && PMT_PID == 0x1000 && NULL_PID == 0x1FFF
    ensures PsiPacket(pid, data, start, cc)[0] == 0x47
    ensures data != [] ==> PesPacket(pid, data, start, cc, false, None)[0] == 0x47
  {
    hide Field, Taken, Fill;
  }

  lemma PatRegister()
    ensures Register(START, [0x00, 0xB0, 0x0D, 0x00, 0x01, 0xC1]) == 0x6579_B727
    ensures Register(0x6579_B727, [0x00, 0x00, 0x00, 0x01, 0xF0, 0x00]) == 0x2AB1_04B2
  {
    assert Step(0xFFFF_FFFF, 0x00) == 0x4E08_BFB4;
    assert Step(0x4E08_BFB4, 0xB0) == 0xBD89_E903;
    assert Step(0xBD89_E903, 0x0D) == 0x34D7_8E7E;
    assert Step(0x34D7_8E7E, 0x00) == 0x10B8_654C;
    assert Step(0x10B8_654C, 0x01) == 0xF0B5_8AC7;
    assert Step(0xF0B5_8AC7, 0xC1) == 0x6579_B727;
    assert Step(0x6579_B727, 0x00) == 0xC2D7_8AFC;
    assert Step(0xC2D7_8AFC, 0x00) == 0x8382_57F7;
    assert Step(0x8382_57F7, 0x00) == 0xE618_3137;
    assert Step(0xE618_3137, 0x01) == 0xC3DF_417C;
    assert Step(0xC3DF_417C, 0xF0) == 0x0630_3749;
    assert Step(0x0630_3749, 0x00) == 0x2AB1_04B2;
  }

  /** The association table: program 1, with its map in packets 0x1000. */
  lemma PatBytes()
    ensures WithChecksum(PatBody())
         == [0x00, 0xB0, 0x0D, 0x00, 0x01, 0xC1, 0x00, 0x00, 0x00, 0x01, 0xF0, 0x00] + [0x2A, 0xB1, 0x04, 0xB2]
  {
    hide Step, WordBytes;
    PatRegister();
    var first, second := [0x00, 0xB0, 0x0D, 0x00, 0x01, 0xC1], [0x00, 0x00, 0x00, 0x01, 0xF0, 0x00];
    assert PatBody() == first + second;
    RegisterConcat(START, first, second);
    PatWord();
  }

  lemma PatWord()
    ensures WordBytes(0x2AB1_04B2) == [0x2A, 0xB1, 0x04, 0xB2]
  {
  }

  /** A map section: program 1 in version 0, current, alone; the clock's packets and no program descriptors. */
  lemma MapBytes(tracks: seq<MuxTrack>, pcrPid: u16)
    requires pcrPid < 0x2000
    ensures var s := PmtSectionOf(tracks, pcrPid);
            s[0] == 0x02 && s[3..8] == [0x00, 0x01, 0xC1, 0x00, 0x00] && s[8..10] == Be16(0xE000 + pcrPid)
            && s[10..12] == [0xF0, 0x00]
  {
    hide StreamEntries, LengthField, Crc32, WordBytes;
    var s := PmtSectionOf(tracks, pcrPid);
    assert s[3..8] == [s[3], s[4], s[5], s[6], s[7]];
    assert s[10..12] == [s[10], s[11]];
  }

  /** The length field of a section: twelve bits below the bits 1011, the second of which a length of 0x4000 and more
      may set. */
  lemma LengthFieldBits(n: u16)
    ensures LengthField(n) % 0x1000 == n % 0x1000
    ensures LengthField(n) / 0x1000 == if n / 0x4000 % 2 == 1 then 0xF else 0xB
  {
  }

  /** An entry of a map, with the bits around its fields set. */
  lemma EntryBytes(track: MuxTrack)
    requires track.pid < 0x2000
    ensures var d := Registration(track.codec);
            StreamEntry(track)
            == WriteEntry(Entry(StreamType(track.codec), 7, track.pid, 0xF, d)) && WritableEntry(
                 Entry(StreamType(track.codec), 7, track.pid, 0xF, d))
  {
    hide Registration, StreamType;
    var d := Registration(track.codec);
    assert Be16(0xE000 + track.pid) == [0xE0 + track.pid / 0x100, track.pid % 0x100];
    assert Be16(0xF000 + |d|) == [0xF0, |d|];
  }

  /** Descriptors are registrations of four letters. */
  lemma RegistrationBytes(codec: Codec)
    ensures var d := Registration(codec);
            if codec in {AV1, VP8, VP9, Opus, MJPEG, ADPCM} then
              && |d| == 6 && d[0] == 0x05 && d[1] == 4
              && Spells(d[2..], match codec case AV1 => "AV01" case VP8 => "VP80" case VP9 => "VP09"
                                            case Opus => "Opus" case MJPEG => "MJPG" case _ => "ADPC")
            else d == []
  {
  }

  /** The length field of an elementary packet of which `n` bytes follow it: zero for video, and where 16 bits do not
      hold the 32 bits counted. */
  function LengthOf(streamId: byte, n: nat): u16 {
    var counted := n % 0x1_0000_0000;
    if streamId >= 0xE0 || counted > 0xFFFF then 0 else counted
  }

  /** An elementary header: start code, stream, length, flags and the size of the times, which follow. */
  lemma PesBytes(streamId: byte, payload: seq<byte>, pts: u64, dts: Option<u64>)
    ensures var b, both := BuildPes(streamId, payload, Some(pts), dts), dts.Some? && dts.value != pts;
            && b[..4] == [0, 0, 1, streamId] && ReadBe16(b, 4) == LengthOf(streamId, |b| - 6)
            && b[6] == 0x80 && b[7] == (if both then 0xC0 else 0x80) && b[8] == (if both then 10 else 5)
            && b[9..14] == EncodeTimestamp(if both then 3 else 2, pts)
            && (both ==> b[14..19] == EncodeTimestamp(1, dts.value))
            && b[if both then 19 else 14..] == payload
  {
    hide EncodeTimestamp, Be16, ReadBe16;
    var b, both := BuildPes(streamId, payload, Some(pts), dts), dts.Some? && dts.value != pts;
    var length := PesLength(streamId, if both then 10 else 5, |payload|);
    assert b[..4] == [0, 0, 1, streamId];
    assert b[4..6] == Be16(length);
    ReadBe16At(b, 4, length);
  }

  /** Without a presentation time the header announces no times and counts none, even where a decode time follows. */
  lemma UntimedPesBytes(streamId: byte, payload: seq<byte>, dts: Option<u64>)
    ensures BuildPes(streamId, payload, None, dts)
         == [0, 0, 1, streamId] + Be16(LengthOf(streamId, 3 + |payload|)) + [0x80, 0, 0]
            + (if dts.Some? then EncodeTimestamp(1, dts.value) else []) + payload
  {
    hide EncodeTimestamp, Be16;
  }

  /** The frames whose payload is rewritten before it is packed. */
  lemma PreparedFrames(track: MuxTrack, frame: Frame, prepare: (MuxTrack, Frame) -> seq<byte>)
    ensures var rewritten := track.codec == AAC || (track.kind == Video && track.codec in {H264, H265, H266});
            FramePes(track, frame, prepare)
            == BuildPes(track.streamId, if rewritten then prepare(track, frame) else frame.payload,
                        Some(UsTo90k(frame.ptsUs)),
                        if track.kind == Video then Some(UsTo90k(frame.dtsUs)) else None)
  {
    hide BuildPes, UsTo90k;
  }

  // ---------- New muxers ----------

  lemma {:induction false} CountOfKind(sorted: seq<TrackInfo>, i: nat, video: bool)
    requires i <= |sorted| && forall j :: 0 <= j < i ==> (sorted[j].kind == Video) != video
    ensures Videos(sorted[..i]) == if video then 0 else i
    decreases i
  {
    if i > 0 {
      CountOfKind(sorted, i - 1, video);
      VideosSnoc(sorted, i - 1);
    }
  }

  /** A new muxer counts from zero on every track; the first track of a kind has that kind's base and first stream
      number, and each further one the next of both. */
  lemma NewTracksCount(videoPidBase: u16, audioPidBase: u16, infos: seq<TrackInfo>, i: nat)
    requires i < |SortTracks(infos)|
    ensures var m := NewMux(videoPidBase, audioPidBase, infos);
            && |m.tracks| == |SortTracks(infos)| && m.patCc == 0 && m.pmtCc == 0
            && var t, video := m.tracks[i], m.tracks[i].kind == Video;
            && t.cc == 0
            && ((forall j :: 0 <= j < i ==> (m.tracks[j].kind == Video) != video) ==>
                  && t.pid == (if video then videoPidBase else audioPidBase)
                  && t.streamId == (if video then 0xE0 else 0xC0))
            && (i > 0 && (m.tracks[i - 1].kind == Video) == video ==>
                  && t.pid == (m.tracks[i - 1].pid + 1) % 0x1_0000
                  && t.streamId == (m.tracks[i - 1].streamId as int + 1) % 0x100)
  {
    var sorted, m := SortTracks(infos), NewMux(videoPidBase, audioPidBase, infos);
    hide SortTracks, Videos, PidAt, StreamAt;
    var video := sorted[i].kind == Video;
    NextPid(if video then videoPidBase else audioPidBase, 0);
    NextStream(if video then 0xE0 else 0xC0, 0);
    assert forall j :: 0 <= j < |sorted| ==> m.tracks[j].kind == sorted[j].kind;
    if forall j :: 0 <= j < i ==> (m.tracks[j].kind == Video) != video {
      CountOfKind(sorted, i, video);
    }
    if i > 0 {
      VideosSnoc(sorted, i - 1);
      var nth := if video then Videos(sorted[..i - 1]) else i - 1 - Videos(sorted[..i - 1]);
      NextPid(if video then videoPidBase else audioPidBase, nth);
      NextStream(if video then 0xE0 else 0xC0, nth);
    }
  }
}
