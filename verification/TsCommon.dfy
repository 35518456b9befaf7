/** MPEG transport streams: codecs, timestamps, and the cutting of elementary packets into 188-byte packets. */
module TsCommon {
  import opened Bytes

  const PACKET_SIZE := 188
  const SYNC_BYTE: byte := 0x47
  const PAT_PID: u16 := 0x0000
  const PMT_PID: u16 := 0x1000
  const NULL_PID: u16 := 0x1FFF

  /** Continuity counters have four bits. */
  type u4 = x: int | 0 <= x < 0x10

  datatype Kind = Video | Audio | Other

  datatype Codec =
    | H264 | H265 | H266 | VP8 | VP9 | AV1 | AAC | MP2 | MP3 | G711A | G711U | Opus
    | ADPCM | MJPEG | WebVtt | Unknown

  // ---------- Stream types ----------

  function StreamType(codec: Codec): byte {
    match codec
    case H264 => 0x1B
    case H265 => 0x24
    case H266 => 0x33
    case VP8 => 0x9D
    case VP9 => 0x9E
    case AV1 => 0x9F
    case AAC => 0x0F
    case MP2 => 0x03
    case MP3 => 0x04
    case G711A => 0x90
    case G711U => 0x91
    case _ => 0x06
  }

  function CodecOf(streamType: byte): Option<(Codec, Kind)> {
    if streamType == 0x1B then Some((H264, Video))
    else if streamType == 0x24 then Some((H265, Video))
    else if streamType == 0x33 then Some((H266, Video))
    else if streamType == 0x9D then Some((VP8, Video))
    else if streamType == 0x9E then Some((VP9, Video))
    else if streamType == 0x9F then Some((AV1, Video))
    else if streamType == 0x0F then Some((AAC, Audio))
    else if streamType == 0x03 then Some((MP2, Audio))
    else if streamType == 0x04 then Some((MP3, Audio))
    else if streamType == 0x90 then Some((G711A, Audio))
    else if streamType == 0x91 then Some((G711U, Audio))
    else if streamType == 0x9C then Some((Opus, Audio))
    else None
  }

  const TAG_AV01: seq<byte> := [0x41, 0x56, 0x30, 0x31]
  const TAG_VP80: seq<byte> := [0x56, 0x50, 0x38, 0x30]
  const TAG_VP09: seq<byte> := [0x56, 0x50, 0x30, 0x39]
  const TAG_OPUS: seq<byte> := [0x4F, 0x70, 0x75, 0x73]
  const TAG_MJPG: seq<byte> := [0x4D, 0x4A, 0x50, 0x47]
  const TAG_ADPC: seq<byte> := [0x41, 0x44, 0x50, 0x43]

  /** The registration descriptor that names a codec without a stream type of its own. */
  function Registration(codec: Codec): (s: seq<byte>)
    ensures |s| <= 6
  {
    match codec
    case AV1 => [0x05, 0x04] + TAG_AV01
    case VP8 => [0x05, 0x04] + TAG_VP80
    case VP9 => [0x05, 0x04] + TAG_VP09
    case Opus => [0x05, 0x04] + TAG_OPUS
    case MJPEG => [0x05, 0x04] + TAG_MJPG
    case ADPCM => [0x05, 0x04] + TAG_ADPC
    case _ => []
  }

  /** What a registration tag names. */
  function Registered(tag: seq<byte>): Option<(Codec, Kind)> {
    if tag == TAG_AV01 then Some((AV1, Video))
    else if tag == TAG_OPUS then Some((Opus, Audio))
    else if tag == TAG_VP09 then Some((VP9, Video))
    else if tag == TAG_VP80 then Some((VP8, Video))
    else if tag == TAG_MJPG then Some((MJPEG, Video))
    else if tag == TAG_ADPC then Some((ADPCM, Audio))
    else None
  }

  /** The first descriptor that names a codec; a descriptor that is cut off ends the search. */
  function PrivateStream(info: seq<byte>, offset: nat): Option<(Codec, Kind)>
    decreases |info| - offset
  {
    if offset + 2 > |info| || offset + 2 + info[offset + 1] > |info| then None
    else
      var size := info[offset + 1];
      if info[offset] == 0x05 && size >= 4 && Registered(info[offset + 2..offset + 6]).Some? then
        Registered(info[offset + 2..offset + 6])
      else if info[offset] == 0x80 then Some((AV1, Video))
      else PrivateStream(info, offset + 2 + size)
  }

  method IdentifyPrivateStream(info: seq<byte>) returns (r: Option<(Codec, Kind)>)
    ensures r == PrivateStream(info, 0)
  {
    var offset := 0;
    while offset + 2 <= |info|
      invariant PrivateStream(info, offset) == PrivateStream(info, 0)
      decreases |info| - offset
    {
      var tag, size := info[offset], info[offset + 1];
      if offset + 2 + size > |info| {
        break;
      }
      if tag == 0x05 && size >= 4 {
        var named := Registered(info[offset + 2..offset + 6]);
        if named.Some? {
          return named;
        }
      } else if tag == 0x80 {
        return Some((AV1, Video));
      }
      offset := offset + 2 + size;
    }
    return None;
  }

  // ---------- Timestamps of 33 bits ----------

  const WRAP: nat := 0x2_0000_0000

  function EncodeTimestamp(marker: u4, ts: u64): (s: seq<byte>)
    ensures |s| == 5
  {
    var t: nat := ts % WRAP;
    [marker * 16 + t / 0x4000_0000 * 2 + 1, t / 0x40_0000 % 0x100, t / 0x8000 % 0x80 * 2 + 1, t / 0x80 % 0x100,
     t % 0x80 * 2 + 1]
  }

  function DecodeTimestamp(s: seq<byte>, at: nat): (t: nat)
    requires at + 5 <= |s|
    ensures t < WRAP
  {
    var b0: int, b1: int, b2: int, b3: int, b4: int := s[at], s[at + 1], s[at + 2], s[at + 3], s[at + 4];
    b0 / 2 % 8 * 0x4000_0000 + b1 * 0x40_0000 + b2 / 2 * 0x8000 + b3 * 0x80 + b4 / 2
  }

  lemma Digits33(t: nat)
    requires t < WRAP
    ensures t / 0x4000_0000 < 8
    ensures t == t / 0x4000_0000 * 0x4000_0000 + t / 0x40_0000 % 0x100 * 0x40_0000 + t / 0x8000 % 0x80 * 0x8000
                 + t / 0x80 % 0x100 * 0x80 + t % 0x80
  {
    var t1 := t / 0x80;
    var t2 := t1 / 0x100;
    var t3 := t2 / 0x80;
    assert t2 == t / 0x8000 && t3 == t / 0x40_0000 && t3 / 0x100 == t / 0x4000_0000;
    assert t == t1 * 0x80 + t % 0x80 && t1 == t2 * 0x100 + t1 % 0x100;
    assert t2 == t3 * 0x80 + t2 % 0x80 && t3 == t3 / 0x100 * 0x100 + t3 % 0x100;
  }

  /** A timestamp comes back modulo 2^33, whatever the marker bits. */
  lemma TimestampComesBack(marker: u4, ts: u64, s: seq<byte>, at: nat)
    requires at + 5 <= |s| && s[at..at + 5] == EncodeTimestamp(marker, ts)
    ensures DecodeTimestamp(s, at) == ts % WRAP
  {
    var t := ts % WRAP;
    var e := s[at..at + 5];
    Digits33(t);
    assert s[at] == e[0] && s[at + 1] == e[1] && s[at + 2] == e[2] && s[at + 3] == e[3] && s[at + 4] == e[4];
    MarkerDrops(marker, t / 0x4000_0000);
  }

  lemma MarkerDrops(marker: u4, x: nat)
    requires x < 8
    ensures (marker * 16 + x * 2 + 1) / 2 % 8 == x
  {
    assert (marker * 16 + x * 2 + 1) / 2 == marker * 8 + x;
  }

  // ---------- Packets ----------

  /** The packet identifier with the start bit set on demand. */
  function WithStart(pid: u16, start: bool): u16 {
    if start && pid / 0x4000 % 2 == 0 then pid + 0x4000 else pid
  }

  /** The four header bytes; `control` is 1 for payload alone and 3 for an adaptation field before it. */
  function Header(pid: u16, start: bool, control: nat, cc: u4): (s: seq<byte>)
    requires control < 4
    ensures |s| == 4
  {
    [SYNC_BYTE, WithStart(pid, start) / 0x100, WithStart(pid, start) % 0x100, control * 16 + cc]
  }

  function PcrBytes(v: u64): (s: seq<byte>)
    ensures |s| == 6
  {
    [v / 0x200_0000 % 0x100, v / 0x2_0000 % 0x100, v / 0x200 % 0x100, v / 2 % 0x100, v % 2 * 0x80 + 0x7E, 0]
  }

  predicate NeedsField(first: bool, randomAccess: bool, pcr: Option<u64>) {
    first && (randomAccess || pcr.Some?)
  }

  /** Flags and clock reference of an adaptation field. */
  function FieldContent(randomAccess: bool, pcr: Option<u64>): (s: seq<byte>)
    ensures |s| == if pcr.Some? then 7 else 1
  {
    var flags := (if randomAccess then 0x40 else 0) + (if pcr.Some? then 0x10 else 0);
    [flags] + if pcr.Some? then PcrBytes(pcr.value) else []
  }

  /** How much payload a packet can hold. */
  function Room(first: bool, randomAccess: bool, pcr: Option<u64>): nat {
    if NeedsField(first, randomAccess, pcr) then PACKET_SIZE - 5 - |FieldContent(randomAccess, pcr)|
    else PACKET_SIZE - 4
  }

  /** The adaptation field, stuffed so that the payload ends with the packet. */
  function Field(first: bool, randomAccess: bool, pcr: Option<u64>, size: nat): (s: seq<byte>)
    requires size > 0
    ensures var room := Room(first, randomAccess, pcr);
            4 + |s| + (if size < room then size else room) == PACKET_SIZE
    ensures s != [] ==> s[0] == |s| - 1
  {
    var room := Room(first, randomAccess, pcr);
    var stuffing := if size < room then room - size else 0;
    if NeedsField(first, randomAccess, pcr) then
      [|FieldContent(randomAccess, pcr)| + stuffing] + FieldContent(randomAccess, pcr) + Fill(stuffing, 0xFF)
    else if stuffing == 0 then []
    else if stuffing == 1 then [0]
    else [stuffing - 1, 0] + Fill(stuffing - 2, 0xFF)
  }

  /** How much of `size` bytes the packet takes. */
  function Taken(first: bool, randomAccess: bool, pcr: Option<u64>, size: nat): (n: nat)
    ensures n <= size && (size > 0 ==> n > 0)
  {
    Min(size, Room(first, randomAccess, pcr))
  }

  function PesPacket(pid: u16, data: seq<byte>, first: bool, cc: u4, randomAccess: bool,
                     pcr: Option<u64>): (s: seq<byte>)
    requires data != []
    ensures |s| == PACKET_SIZE
  {
    var field := Field(first, randomAccess, pcr, |data|);
    Header(pid, first, if field == [] then 1 else 3, cc) + field + data[..Taken(first, randomAccess, pcr, |data|)]
  }

  function Next(cc: u4): u4 {
    (cc + 1) % 16
  }

  /** The packets that carry `data`; only the first of a unit bears the start bit and the clock. */
  function PesPackets(pid: u16, data: seq<byte>, first: bool, cc: u4, randomAccess: bool,
                      pcr: Option<u64>): seq<seq<byte>>
    decreases |data|
  {
    if data == [] then []
    else
      [PesPacket(pid, data, first, cc, randomAccess, pcr)]
      + PesPackets(pid, data[Taken(first, randomAccess, pcr, |data|)..], false, Next(cc), randomAccess, pcr)
  }

  /** The counter after `n` packets. */
  function Advance(cc: u4, n: nat): u4 {
    (cc + n) % 16
  }

  method CopyInto(a: array<byte>, at: nat, s: seq<byte>)
    requires at + |s| <= a.Length
    modifies a
    ensures a[..] == old(a[..at]) + s + old(a[at + |s|..])
  {
    for i := 0 to |s|
      invariant a[..at] == old(a[..at])
      invariant a[at..at + i] == s[..i]
      invariant a[at + i..] == old(a[at + i..])
    {
      a[at + i] := s[i];
      assert a[at + i + 1..] == a[at + i..][1..];
      assert old(a[at + i..])[1..] == old(a[at + i + 1..]);
      assert a[at..at + i + 1] == a[at..at + i] + [s[i]];
    }
    assert a[..] == a[..at] + a[at..at + |s|] + a[at + |s|..];
  }

  /** An adaptation field with flags and clock, lengthened over stuffing bytes where the payload is short. */
  method FillWantedField(pkt: array<byte>, randomAccess: bool, pcr: Option<u64>, size: nat) returns (headerEnd: nat)
    requires pkt.Length == PACKET_SIZE && pkt[..] == Fill(PACKET_SIZE, 0xFF)
    requires size > 0 && NeedsField(true, randomAccess, pcr)
    modifies pkt
    ensures headerEnd == 4 + |Field(true, randomAccess, pcr, size)|
    ensures pkt[4..headerEnd] == Field(true, randomAccess, pcr, size)
  {
    hide FieldContent;
    var content := FieldContent(randomAccess, pcr);
    CopyInto(pkt, 5, content);
    ghost var rest := pkt[5..];
    assert rest == content + Fill(PACKET_SIZE - 5 - |content|, 0xFF);
    headerEnd := 5 + |content|;
    var available := PACKET_SIZE - headerEnd;
    var stuffing := 0;
    if size < available {
      stuffing := available - size;
      headerEnd := headerEnd + stuffing;
    }
    pkt[4] := |content| + stuffing;
    assert pkt[5..] == rest;
    assert pkt[4..headerEnd] == [pkt[4]] + rest[..headerEnd - 5];
    assert rest[..headerEnd - 5] == content + Fill(stuffing, 0xFF);
  }

  /** An adaptation field for stuffing alone. */
  method FillStuffing(pkt: array<byte>, stuffing: nat) returns (headerEnd: nat)
    requires pkt.Length == PACKET_SIZE && pkt[..] == Fill(PACKET_SIZE, 0xFF) && 1 <= stuffing <= PACKET_SIZE - 4
    modifies pkt
    ensures headerEnd == 4 + stuffing
    ensures pkt[4..headerEnd] == if stuffing == 1 then [0] else [stuffing - 1, 0] + Fill(stuffing - 2, 0xFF)
  {
    if stuffing == 1 {
      pkt[4] := 0;
      return 5;
    }
    pkt[4], pkt[5] := stuffing - 1, 0;
    headerEnd := 4 + stuffing;
    assert pkt[6..headerEnd] == Fill(stuffing - 2, 0xFF);
    assert pkt[4..headerEnd] == [pkt[4], pkt[5]] + pkt[6..headerEnd];
  }

  /** One packet, filled in place. */
  method FillPesPacket(pid: u16, data: seq<byte>, first: bool, cc: u4, randomAccess: bool, pcr: Option<u64>)
    returns (pkt: array<byte>, taken: nat)
    requires data != []
    ensures fresh(pkt) && pkt[..] == PesPacket(pid, data, first, cc, randomAccess, pcr)
    ensures taken == Taken(first, randomAccess, pcr, |data|)
  {
    hide FieldContent, PcrBytes, Header;
    pkt := new byte[PACKET_SIZE](_ => 0xFF);
    assert pkt[..] == Fill(PACKET_SIZE, 0xFF);
    var control, headerEnd := 1, 4;
    if NeedsField(first, randomAccess, pcr) {
      control := 3;
      headerEnd := FillWantedField(pkt, randomAccess, pcr, |data|);
    } else if |data| < PACKET_SIZE - 4 {
      control := 3;
      headerEnd := FillStuffing(pkt, PACKET_SIZE - 4 - |data|);
    }
    ghost var field := Field(first, randomAccess, pcr, |data|);
    assert pkt[4..headerEnd] == field;
    PacketSplits(pid, data, first, cc, randomAccess, pcr);
    hide Field, Room, NeedsField, Taken, PesPacket;
    taken := PACKET_SIZE - headerEnd;
    ghost var rest := pkt[4..];
    assert rest[..headerEnd - 4] == field;
    var header := Header(pid, first, control, cc);
    CopyInto(pkt, 0, header);
    assert pkt[..] == header + rest;
    CopyInto(pkt, headerEnd, data[..taken]);
    PutTogether(header, rest, headerEnd, data[..taken]);
  }

  lemma PacketSplits(pid: u16, data: seq<byte>, first: bool, cc: u4, randomAccess: bool, pcr: Option<u64>)
    requires data != []
    ensures var field := Field(first, randomAccess, pcr, |data|);
            var taken := PACKET_SIZE - 4 - |field|;
            taken == Taken(first, randomAccess, pcr, |data|) <= |data|
            && (field == [] <==> !NeedsField(first, randomAccess, pcr) && |data| >= PACKET_SIZE - 4)
            && PesPacket(pid, data, first, cc, randomAccess, pcr)
               == Header(pid, first, if field == [] then 1 else 3, cc) + field + data[..taken]
  {
    hide FieldContent, Header;
  }

  lemma PutTogether(header: seq<byte>, rest: seq<byte>, headerEnd: nat, data: seq<byte>)
    requires |header| == 4 && |rest| == PACKET_SIZE - 4 && 4 <= headerEnd && headerEnd + |data| == PACKET_SIZE
    ensures (header + rest)[..headerEnd] + data + (header + rest)[PACKET_SIZE..]
         == header + rest[..headerEnd - 4] + data
  {
    assert (header + rest)[..headerEnd] == header + rest[..headerEnd - 4];
  }

  lemma NextPesPacket(pid: u16, pes: seq<byte>, offset: nat, first: bool, cc: u4, randomAccess: bool, pcr: Option<u64>)
    requires offset < |pes|
    ensures var taken := Taken(first, randomAccess, pcr, |pes| - offset);
            PesPackets(pid, pes[offset..], first, cc, randomAccess, pcr)
            == [PesPacket(pid, pes[offset..], first, cc, randomAccess, pcr)]
               + PesPackets(pid, pes[offset + taken..], false, Next(cc), randomAccess, pcr)
  {
    hide PesPacket, Taken;
    var taken := Taken(first, randomAccess, pcr, |pes| - offset);
    assert pes[offset..][taken..] == pes[offset + taken..];
  }

  lemma AdvanceOne(cc: u4, n: nat)
    ensures Advance(cc, 0) == cc && Advance(cc, n + 1) == Next(Advance(cc, n))
  {
  }

  method WritePesPackets(start: seq<byte>, pid: u16, pes: seq<byte>, cc: u4, randomAccess: bool, pcr: Option<u64>)
    returns (buf: seq<byte>, next: u4)
    ensures var packets := PesPackets(pid, pes, true, cc, randomAccess, pcr);
            buf == start + Flatten(packets) && next == Advance(cc, |packets|)
  {
    hide PesPacket, PesPackets, Taken, Advance, Next;
    buf, next := start, cc;
    var offset, first, count := 0, true, 0;
    ghost var all := PesPackets(pid, pes, true, cc, randomAccess, pcr);
    assert pes[0..] == pes;
    AdvanceOne(cc, 0);
    while offset < |pes|
      invariant offset <= |pes|
      invariant next == Advance(cc, count)
      invariant buf + Flatten(PesPackets(pid, pes[offset..], first, next, randomAccess, pcr)) == start + Flatten(all)
      invariant count + |PesPackets(pid, pes[offset..], first, next, randomAccess, pcr)| == |all|
    {
      NextPesPacket(pid, pes, offset, first, next, randomAccess, pcr);
      AdvanceOne(cc, count);
      var pkt, taken := FillPesPacket(pid, pes[offset..], first, next, randomAccess, pcr);
      buf := buf + pkt[..];
      offset := offset + taken;
      next := Next(next);
      first := false;
      count := count + 1;
    }
    assert pes[offset..] == [];
    NoPesPackets(pid, first, next, randomAccess, pcr);
  }

  lemma NoPesPackets(pid: u16, first: bool, cc: u4, randomAccess: bool, pcr: Option<u64>)
    ensures PesPackets(pid, [], first, cc, randomAccess, pcr) == []
  {
  }

  // ---------- Synchronisation ----------

  /** A sync byte at `i` that the next packet confirms. */
  predicate Confirmed(data: seq<byte>, i: nat) {
    i + PACKET_SIZE < |data| && data[i] == SYNC_BYTE && data[i + PACKET_SIZE] == SYNC_BYTE
  }

  /** What a search for a packet boundary may return: the first confirmed sync byte, or failing that the first sync
      byte among the last 188 bytes. */
  ghost predicate IsSync(data: seq<byte>, start: nat, found: Option<nat>) {
    match found
    case Some(i) =>
      start <= i < |data| && data[i] == SYNC_BYTE
      && (i + PACKET_SIZE < |data| ==> Confirmed(data, i))
      && (forall j :: start <= j < i ==> !Confirmed(data, j))
      && (i + PACKET_SIZE >= |data| ==>
            forall j :: start <= j < i && j + PACKET_SIZE >= |data| ==> data[j] != SYNC_BYTE)
    case None =>
      (forall j :: start <= j < |data| ==> !Confirmed(data, j))
      && (forall j :: start <= j < |data| && j + PACKET_SIZE >= |data| ==> data[j] != SYNC_BYTE)
  }

  /** At most one answer satisfies the description. */
  lemma SyncIsUnique(data: seq<byte>, start: nat, a: Option<nat>, b: Option<nat>)
    requires IsSync(data, start, a) && IsSync(data, start, b)
    ensures a == b
  {
  }

  function FirstConfirmed(data: seq<byte>, i: nat): (r: nat)
    requires i <= |data|
    ensures i <= r <= |data|
    ensures forall j :: i <= j < r ==> !Confirmed(data, j)
    ensures r < |data| ==> Confirmed(data, r)
    decreases |data| - i
  {
    if i == |data| || Confirmed(data, i) then i else FirstConfirmed(data, i + 1)
  }

  function FirstSyncByte(data: seq<byte>, i: nat): (r: nat)
    requires i <= |data|
    ensures i <= r <= |data|
    ensures forall j :: i <= j < r ==> data[j] != SYNC_BYTE
    ensures r < |data| ==> data[r] == SYNC_BYTE
    decreases |data| - i
  {
    if i == |data| || data[i] == SYNC_BYTE then i else FirstSyncByte(data, i + 1)
  }

  function FindSync(data: seq<byte>, start: nat): (found: Option<nat>)
    requires start <= |data|
    ensures IsSync(data, start, found)
  {
    var confirmed := FirstConfirmed(data, start);
    var last := FirstSyncByte(data, Max(start, |data| - PACKET_SIZE));
    if confirmed < |data| then Some(confirmed) else if last < |data| then Some(last) else None
  }

  method SearchSync(data: seq<byte>, start: nat) returns (found: Option<nat>)
    requires start <= |data|
    ensures found == FindSync(data, start)
  {
    var end := if |data| >= PACKET_SIZE then |data| - PACKET_SIZE else 0;
    var i := start;
    while i < end
      invariant start <= i && (start <= end ==> i <= end)
      invariant forall j :: start <= j < i ==> !Confirmed(data, j)
    {
      if data[i] == SYNC_BYTE && (i + PACKET_SIZE >= |data| || data[i + PACKET_SIZE] == SYNC_BYTE) {
        found := Some(i);
        SyncIsUnique(data, start, found, FindSync(data, start));
        return;
      }
      i := i + 1;
    }
    i := if end < start then start else end;
    while i < |data|
      invariant start <= i <= |data|
      invariant forall j :: start <= j < |data| ==> !Confirmed(data, j)
      invariant forall j :: start <= j < i && j + PACKET_SIZE >= |data| ==> data[j] != SYNC_BYTE
    {
      if data[i] == SYNC_BYTE {
        found := Some(i);
        SyncIsUnique(data, start, found, FindSync(data, start));
        return;
      }
      i := i + 1;
    }
    found := None;
    SyncIsUnique(data, start, found, FindSync(data, start));
  }
}
