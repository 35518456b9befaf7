/** JT/T 1078 RTP: the packet header, the fragmenting packetizer and the per-channel frame assembler. */
module Jtt1078 {
  import opened Bytes

  const SEQUENCE_PERIOD := 0x1_0000
  const MAX_BODY := 0xFFFF
  const SIM_BYTES := 6
  const DEFAULT_MAX_PACKET_PAYLOAD := 1400

  datatype Version = V2013 | V2019

  datatype FrameType = IFrame | PFrame | BFrame | Audio | Passthrough | Other(v: byte) {
    function ToBits(): (b: byte)
      ensures b < 16
    {
      match this
      case IFrame => 0
      case PFrame => 1
      case BFrame => 2
      case Audio => 3
      case Passthrough => 4
      case Other(v) => v % 16
    }

    predicate IsVideo() {
      IFrame? || PFrame? || BFrame?
    }
  }

  function FrameTypeFromBits(bits: byte): FrameType {
    var b := bits % 16;
    if b == 0 then IFrame else if b == 1 then PFrame else if b == 2 then BFrame
    else if b == 3 then Audio else if b == 4 then Passthrough else Other(b)
  }

  datatype SubPackage = Atomic | First | Last | Intermediate {
    function ToBits(): byte {
      match this
      case Atomic => 0
      case First => 1
      case Last => 2
      case Intermediate => 3
    }
  }

  function SubPackageFromBits(bits: byte): Option<SubPackage> {
    var b := bits % 16;
    if b == 0 then Some(Atomic) else if b == 1 then Some(First) else if b == 2 then Some(Last)
    else if b == 3 then Some(Intermediate) else None
  }

  datatype Header = Header(
    version: Version,
    payloadType: byte,
    marker: bool,
    sim: string,
    channel: byte,
    frameType: FrameType,
    subPackage: SubPackage,
    packetSeq: u16,
    timestampMs: u64,
    lastIframeIntervalMs: Option<u16>,
    lastFrameIntervalMs: Option<u16>,
    payloadLen: u16)

  // ---------- BCD ----------

  function DigitChar(d: int): char
    requires 0 <= d < 16
  {
    if d < 10 then '0' + d as char else '0'
  }

  predicate IsDigit(c: char) {
    '0' <= c <= '9'
  }

  function DigitValue(c: char): (d: int)
    requires IsDigit(c)
    ensures 0 <= d < 10
  {
    c as int - '0' as int
  }

  function BcdToStr(bcd: seq<byte>): (s: string)
    ensures |s| == 2 * |bcd|
  {
    if bcd == [] then "" else [DigitChar(bcd[0] / 16), DigitChar(bcd[0] % 16)] + BcdToStr(bcd[1..])
  }

  function DigitsOf(s: string): (d: string)
    ensures forall c :: c in d ==> IsDigit(c)
  {
    if s == "" then "" else if IsDigit(s[0]) then [s[0]] + DigitsOf(s[1..]) else DigitsOf(s[1..])
  }

  /** The `i`-th decimal digit of the text, zero beyond its end. */
  function DigitAt(s: string, i: nat): (d: int)
    ensures 0 <= d < 10
  {
    var digits := DigitsOf(s);
    if i < |digits| then DigitValue(digits[i]) else 0
  }

  function SimBcd(s: string, from: nat, count: nat): (out: seq<byte>)
    ensures |out| == count
    decreases count
  {
    if count == 0 then [] else [DigitAt(s, from) * 16 + DigitAt(s, from + 1)] + SimBcd(s, from + 2, count - 1)
  }

  lemma {:induction false} SimBcdAt(s: string, from: nat, count: nat, k: nat)
    requires k < count
    ensures SimBcd(s, from, count)[k] == DigitAt(s, from + 2 * k) * 16 + DigitAt(s, from + 2 * k + 1)
    decreases count
  {
    hide DigitAt;
    if k > 0 {
      SimBcdAt(s, from + 2, count - 1, k - 1);
    }
  }

  /** Encodes decimal digits into the bytes of `out`, two a byte; other characters are skipped, and missing
      digits count as zero. */
  method StrToBcd(digits: string, out: array<byte>)
    modifies out
    ensures out[..] == SimBcd(digits, 0, out.Length)
  {
    var all := DigitsOf(digits);
    var next := 0;
    for i := 0 to out.Length
      invariant next == Min(2 * i, |all|)
      invariant forall k :: 0 <= k < i ==> out[k] == DigitAt(digits, 2 * k) * 16 + DigitAt(digits, 2 * k + 1)
    {
      var hi, lo := 0, 0;
      if next < |all| {
        hi := DigitValue(all[next]);
        next := next + 1;
      }
      if next < |all| {
        lo := DigitValue(all[next]);
        next := next + 1;
      }
      out[i] := hi * 16 + lo;
    }
    forall k | 0 <= k < out.Length ensures out[k] == SimBcd(digits, 0, out.Length)[k] {
      SimBcdAt(digits, 0, out.Length, k);
    }
  }

  predicate IsSim(s: string) {
    |s| == 2 * SIM_BYTES && forall c :: c in s ==> IsDigit(c)
  }

  lemma {:induction false} DigitsOfDigits(s: string)
    requires forall c :: c in s ==> IsDigit(c)
    ensures DigitsOf(s) == s
  {
    if s != "" {
      DigitsOfDigits(s[1..]);
      assert s == [s[0]] + s[1..];
    }
  }

  lemma PairOfDigits(hi: char, lo: char)
    requires IsDigit(hi) && IsDigit(lo)
    ensures var b := DigitValue(hi) * 16 + DigitValue(lo); DigitChar(b / 16) == hi && DigitChar(b % 16) == lo
  {
  }

  lemma {:induction false} BcdFrom(s: string, from: nat, count: nat)
    requires DigitsOf(s) == s && from + 2 * count == |s|
    ensures BcdToStr(SimBcd(s, from, count)) == s[from..]
    decreases count
  {
    hide DigitsOf, DigitChar, DigitValue;
    if count > 0 {
      BcdFrom(s, from + 2, count - 1);
      assert s[from] in DigitsOf(s) && s[from + 1] in DigitsOf(s);
      PairOfDigits(s[from], s[from + 1]);
      var bcd := SimBcd(s, from, count);
      assert bcd[1..] == SimBcd(s, from + 2, count - 1);
      assert s[from..] == [s[from], s[from + 1]] + s[from + 2..];
    }
  }

  /** A SIM number of twelve digits survives its six BCD bytes. */
  lemma SimRoundTrip(s: string)
    requires IsSim(s)
    ensures BcdToStr(SimBcd(s, 0, SIM_BYTES)) == s
  {
    DigitsOfDigits(s);
    BcdFrom(s, 0, SIM_BYTES);
    assert s[0..] == s;
  }

  // ---------- Parsing ----------

  function SimLength(version: Version): nat {
    if version.V2013? then 6 else 10
  }

  /** Bytes between the data-type byte and the payload. */
  function TailLength(frameType: FrameType): nat {
    if frameType.IsVideo() then 14 else if frameType.Audio? then 10 else 2
  }

  function ParseWithVersion(data: seq<byte>, version: Version): Option<(Header, nat)> {
    var tail := 10 + SimLength(version);
    if |data| < tail + 2 then None
    else if data[0] != 0x30 || data[1] != 0x31 || data[2] != 0x63 || data[3] != 0x64 then None
    else
      var frameType := FrameTypeFromBits(data[tail - 1] / 16);
      var subPackage := SubPackageFromBits(data[tail - 1] % 16);
      var payloadOffset := tail + TailLength(frameType);
      if subPackage.None? || |data| < payloadOffset then None
      else
        var payloadLen := ReadBe16(data, payloadOffset - 2);
        if |data| < payloadOffset + payloadLen then None
        else
          Some((Header(
                  version,
                  data[5] % 128,
                  data[5] >= 128,
                  BcdToStr(data[8..tail - 2]),
                  data[tail - 2],
                  frameType,
                  subPackage.value,
                  ReadBe16(data, 6),
                  if TailLength(frameType) >= 10 then ReadBe64(data, tail) else 0,
                  if frameType.IsVideo() then Some(ReadBe16(data, tail + 8)) else None,
                  if frameType.IsVideo() then Some(ReadBe16(data, tail + 10)) else None,
                  payloadLen), payloadOffset))
  }

  function Parse(data: seq<byte>): (r: Option<(Header, nat)>)
    ensures r.Some? ==> r.value.1 + r.value.0.payloadLen <= |data|
  {
    ParseWithVersion(data, V2013)
  }

  // ---------- Packetizing ----------

  datatype SourceFrame = SourceFrame(payloadType: byte, timestampMs: u64, frameType: FrameType, data: seq<byte>)

  function Chunks(data: seq<byte>, max: nat): (c: seq<seq<byte>>)
    requires max > 0
    ensures forall i :: 0 <= i < |c| ==> 0 < |c[i]| <= max
    ensures data != [] <==> c != []
  {
    if data == [] then []
    else if |data| <= max then [data]
    else [data[..max]] + Chunks(data[max..], max)
  }

  function MarkOf(i: nat, total: nat): SubPackage {
    if total == 1 then Atomic else if i == 0 then First else if i == total - 1 then Last else Intermediate
  }

  /** The timing fields, whose presence the packetizer decides by the frame type it was given. */
  function TimingFields(frame: SourceFrame): seq<byte> {
    if frame.frameType.IsVideo() then Be64(frame.timestampMs) + Be16(0) + Be16(0)
    else if frame.frameType.ToBits() == 3 then Be64(frame.timestampMs)
    else []
  }

  function PacketOf(sim: seq<byte>, channel: byte, seqNo: u16, frame: SourceFrame, mark: SubPackage,
                    chunk: seq<byte>): seq<byte> {
    [0x30, 0x31, 0x63, 0x64, 0x81, frame.payloadType % 128] + Be16(seqNo) + sim
    + [channel, frame.frameType.ToBits() * 16 + mark.ToBits()]
    + TimingFields(frame) + Be16(Min(|chunk|, MAX_BODY)) + chunk
  }

  function PacketsOf(sim: seq<byte>, channel: byte, firstSeq: nat, frame: SourceFrame, max: nat): (p: seq<seq<byte>>)
    requires max > 0
  {
    var chunks := Chunks(frame.data, max);
    seq(|chunks|, i requires 0 <= i < |chunks| =>
      PacketOf(sim, channel, (firstSeq + i) % SEQUENCE_PERIOD, frame, MarkOf(i, |chunks|), chunks[i]))
  }

  class Packetizer {
    const sim: seq<byte>
    const channel: byte
    var maxPayloadBytes: nat
    var nextSeq: u16

    ghost predicate Valid()
      reads this
    {
      maxPayloadBytes > 0
    }

    constructor (simDigits: string, channel: byte)
      ensures Valid() && nextSeq == 0 && maxPayloadBytes == DEFAULT_MAX_PACKET_PAYLOAD
      ensures sim == SimBcd(simDigits, 0, SIM_BYTES) && this.channel == channel
    {
      var bcd := new byte[SIM_BYTES];
      StrToBcd(simDigits, bcd);
      sim := bcd[..];
      this.channel := channel;
      maxPayloadBytes, nextSeq := DEFAULT_MAX_PACKET_PAYLOAD, 0;
    }

    method SetMaxPayloadBytes(max: nat)
      modifies this`maxPayloadBytes
      ensures Valid() && maxPayloadBytes == Max(max, 1)
    {
      maxPayloadBytes := Max(max, 1);
    }

    method WritePacket(frame: SourceFrame, i: nat, total: nat, chunk: seq<byte>) returns (packet: seq<byte>)
      requires i < total
      ensures packet == PacketOf(sim, channel, nextSeq, frame, MarkOf(i, total), chunk)
    {
      var ftBits := frame.frameType.ToBits();
      var mark := if total == 1 then 0 else if i == 0 then 1 else if i == total - 1 then 2 else 3;
      packet := [0x30, 0x31, 0x63, 0x64];
      packet := packet + [0x81];
      packet := packet + [frame.payloadType % 128];
      packet := packet + Be16(nextSeq);
      packet := packet + sim;
      packet := packet + [channel];
      packet := packet + [ftBits * 16 + mark];
      packet := packet + TimingFields(frame);
      packet := packet + Be16(Min(|chunk|, MAX_BODY));
      packet := packet + chunk;
    }

    method Packetize(frame: SourceFrame) returns (packets: seq<seq<byte>>)
      requires Valid()
      modifies this`nextSeq
      ensures Valid()
      ensures packets == PacketsOf(sim, channel, old(nextSeq), frame, maxPayloadBytes)
      ensures nextSeq == (old(nextSeq) + |packets|) % SEQUENCE_PERIOD
    {
      hide PacketOf, Chunks;
      var chunks := Chunks(frame.data, maxPayloadBytes);
      var total := |chunks|;
      ghost var all := PacketsOf(sim, channel, nextSeq, frame, maxPayloadBytes);
      ghost var first: int := nextSeq;
      packets := [];
      for i := 0 to total
        invariant nextSeq == (first + i) % SEQUENCE_PERIOD
        invariant packets == all[..i]
        invariant maxPayloadBytes == old(maxPayloadBytes)
      {
        var packet := WritePacket(frame, i, total, chunks[i]);
        assert all[i] == packet;
        packets := packets + [packet];
        nextSeq := (nextSeq + 1) % SEQUENCE_PERIOD;
      }
      assert all[..total] == all;
    }
  }

  // ---------- A packet parses back ----------

  /** The packetizer lays out the timing fields the way the parser expects: all types but `Other(v)` whose low
      four bits denote a video frame. */
  predicate LayoutAgrees(frameType: FrameType) {
    !(frameType.Other? && frameType.ToBits() <= 2)
  }

  function HeaderOf(sim: seq<byte>, channel: byte, seqNo: u16, frame: SourceFrame, mark: SubPackage, len: u16): Header {
    var frameType := FrameTypeFromBits(frame.frameType.ToBits());
    var zero: Option<u16> := if frameType.IsVideo() then Some(0) else None;
    Header(V2013, frame.payloadType % 128, false, BcdToStr(sim), channel, frameType, mark, seqNo,
           if TailLength(frameType) >= 10 then frame.timestampMs else 0, zero, zero, len)
  }

  function Head(sim: seq<byte>, channel: byte, seqNo: u16, frame: SourceFrame, mark: SubPackage): seq<byte> {
    [0x30, 0x31, 0x63, 0x64, 0x81, frame.payloadType % 128] + Be16(seqNo) + sim
    + [channel, frame.frameType.ToBits() * 16 + mark.ToBits()]
  }

  lemma ParsesHead(p: seq<byte>, sim: seq<byte>, channel: byte, seqNo: u16, frame: SourceFrame, mark: SubPackage)
    requires |sim| == SIM_BYTES
    requires |p| >= 18 && p[..16] == Head(sim, channel, seqNo, frame, mark)
    ensures p[0] == 0x30 && p[1] == 0x31 && p[2] == 0x63 && p[3] == 0x64
    ensures p[5] == frame.payloadType % 128 && ReadBe16(p, 6) == seqNo && p[8..14] == sim && p[14] == channel
    ensures p[15] == frame.frameType.ToBits() * 16 + mark.ToBits()
    ensures SubPackageFromBits(p[15] % 16) == Some(mark)
    ensures FrameTypeFromBits(p[15] / 16) == FrameTypeFromBits(frame.frameType.ToBits())
  {
    var h := Head(sim, channel, seqNo, frame, mark);
    assert forall i :: 0 <= i < 16 ==> p[i] == h[i];
    assert p[6..8] == h[6..8] == Be16(seqNo);
    ReadBe16At(p, 6, seqNo);
    assert p[8..14] == h[8..14] == sim;
  }

  lemma ParsesTiming(p: seq<byte>, frame: SourceFrame)
    requires LayoutAgrees(frame.frameType)
    requires |p| >= 16 + |TimingFields(frame)| && p[16..16 + |TimingFields(frame)|] == TimingFields(frame)
    ensures var frameType := FrameTypeFromBits(frame.frameType.ToBits());
            && |TimingFields(frame)| == TailLength(frameType) - 2
            && (TailLength(frameType) >= 10 ==> ReadBe64(p, 16) == frame.timestampMs)
            && (frameType.IsVideo() ==> ReadBe16(p, 24) == 0 && ReadBe16(p, 26) == 0)
  {
    hide ReadBe64;
    var t := TimingFields(frame);
    if |t| >= 8 {
      SubSlice(p, 16, 16 + |t|, 0, 8);
      assert t[0..8] == Be64(frame.timestampMs);
      ReadBe64At(p, 16, frame.timestampMs);
    }
    if |t| == 12 {
      SubSlice(p, 16, 28, 8, 10);
      SubSlice(p, 16, 28, 10, 12);
      assert t[8..10] == Be16(0) && t[10..12] == Be16(0);
      ReadBe16At(p, 24, 0);
      ReadBe16At(p, 26, 0);
    }
  }

  lemma PacketLayout(sim: seq<byte>, channel: byte, seqNo: u16, frame: SourceFrame, mark: SubPackage, chunk: seq<byte>)
    requires |sim| == SIM_BYTES && |chunk| <= MAX_BODY
    ensures var p := PacketOf(sim, channel, seqNo, frame, mark, chunk);
            var at := 16 + |TimingFields(frame)|;
            && |p| == at + 2 + |chunk|
            && p[..16] == Head(sim, channel, seqNo, frame, mark)
            && p[16..at] == TimingFields(frame)
            && ReadBe16(p, at) == |chunk|
            && p[at + 2..] == chunk
  {
    hide TimingFields;
    var p := PacketOf(sim, channel, seqNo, frame, mark, chunk);
    var h, t, len := Head(sim, channel, seqNo, frame, mark), TimingFields(frame), Be16(|chunk|);
    assert p == h + t + len + chunk;
    var at := 16 + |t|;
    assert p[at..at + 2] == len;
    ReadBe16At(p, at, |chunk|);
  }

  /** A packet parses back to its header and its chunk, with the frame type reduced to its four bits. */
  lemma PacketParsesBack(sim: seq<byte>, channel: byte, seqNo: u16, frame: SourceFrame, mark: SubPackage,
                         chunk: seq<byte>)
    requires |sim| == SIM_BYTES && |chunk| <= MAX_BODY && LayoutAgrees(frame.frameType)
    ensures var p := PacketOf(sim, channel, seqNo, frame, mark, chunk);
            && |p| >= |chunk|
            && Parse(p) == Some((HeaderOf(sim, channel, seqNo, frame, mark, |chunk|), |p| - |chunk|))
            && p[|p| - |chunk|..] == chunk
  {
    hide PacketOf, TimingFields, Head, ReadBe64, ReadBe16, BcdToStr;
    var p := PacketOf(sim, channel, seqNo, frame, mark, chunk);
    PacketLayout(sim, channel, seqNo, frame, mark, chunk);
    ParsesHead(p, sim, channel, seqNo, frame, mark);
    ParsesTiming(p, frame);
  }

  /** The chunk comes back exactly when the layouts agree and its length fits 16 bits: an `Other` type that denotes
      video on the wire is read with timing fields it was not written with, and a longer chunk is cut. */
  lemma ChunkComesBackIff(sim: seq<byte>, channel: byte, seqNo: u16, frame: SourceFrame, mark: SubPackage,
                          chunk: seq<byte>)
    requires |sim| == SIM_BYTES
    ensures var p := PacketOf(sim, channel, seqNo, frame, mark, chunk);
            (Parse(p).Some? && p[Parse(p).value.1..Parse(p).value.1 + Parse(p).value.0.payloadLen] == chunk)
            <==> LayoutAgrees(frame.frameType) && |chunk| <= MAX_BODY
  {
    hide PacketOf, TimingFields, Head, ReadBe64, ReadBe16, BcdToStr;
    var p := PacketOf(sim, channel, seqNo, frame, mark, chunk);
    if |chunk| > MAX_BODY {
      hide Parse;
      assert Parse(p).Some? ==> Parse(p).value.0.payloadLen < |chunk|;
    } else if LayoutAgrees(frame.frameType) {
      PacketParsesBack(sim, channel, seqNo, frame, mark, chunk);
    } else {
      PacketLayout(sim, channel, seqNo, frame, mark, chunk);
      ParsesHead(p, sim, channel, seqNo, frame, mark);
      NoTiming(frame);
    }
  }

  /** A packet at which it fails: one byte of the type `Other(1)` is too short for the timing fields of video. */
  lemma OtherVideoIsMisread()
    ensures var p := PacketOf(Fill(SIM_BYTES, 0), 0, 0, SourceFrame(0, 0, Other(1), [7]), Atomic, [7]);
            Parse(p) == None
  {
    hide BcdToStr;
    var frame := SourceFrame(0, 0, Other(1), [7]);
    var p := PacketOf(Fill(SIM_BYTES, 0), 0, 0, frame, Atomic, [7]);
    PacketLayout(Fill(SIM_BYTES, 0), 0, 0, frame, Atomic, [7]);
    NoTiming(frame);
    assert |p| == 19;
    hide PacketOf;
    ParsesHead(p, Fill(SIM_BYTES, 0), 0, 0, frame, Atomic);
  }

  lemma NoTiming(frame: SourceFrame)
    requires !LayoutAgrees(frame.frameType)
    ensures TimingFields(frame) == [] && FrameTypeFromBits(frame.frameType.ToBits()).IsVideo()
  {
  }

  // ---------- Assembling ----------

  datatype AssemblyKey = AssemblyKey(sim: string, channel: byte)

  datatype AssemblyBuffer = AssemblyBuffer(
    data: seq<byte>, firstTimestampMs: u64, lastPacketSeq: u16, frameType: FrameType, payloadType: byte)

  datatype Frame = Frame(
    payloadType: byte, sim: string, channel: byte, frameType: FrameType, timestampMs: u64, data: seq<byte>)

  datatype Diagnostic =
    | CacheOverflow(sim: string, channel: byte, droppedBytes: nat)
    | SequenceGap(expected: u16, got: u16)
    | LateFragment(packetSeq: u16)
    | BadHeader

  function KeyOf(h: Header): AssemblyKey {
    AssemblyKey(h.sim, h.channel)
  }

  datatype KeyStep = KeyStep(buffer: Option<AssemblyBuffer>, frames: seq<Frame>, diags: seq<Diagnostic>)

  /** What one packet does to the assembly buffer of its own channel. */
  function StepKey(buffer: Option<AssemblyBuffer>, h: Header, payload: seq<byte>, maxCache: nat): KeyStep {
    if h.subPackage.Atomic? then
      KeyStep(buffer, [Frame(h.payloadType, h.sim, h.channel, h.frameType, h.timestampMs, payload)], [])
    else if h.subPackage.First? then
      KeyStep(Some(AssemblyBuffer(payload, h.timestampMs, h.packetSeq, h.frameType, h.payloadType)), [], [])
    else
      match buffer
      case None => KeyStep(None, [], [LateFragment(h.packetSeq)])
      case Some(b) =>
        var expected := (b.lastPacketSeq + 1) % SEQUENCE_PERIOD;
        if h.packetSeq != expected then KeyStep(None, [], [SequenceGap(expected, h.packetSeq)])
        else if |b.data| + |payload| > maxCache then
          KeyStep(None, [], [CacheOverflow(h.sim, h.channel, |b.data| + |payload|)])
        else if h.subPackage.Last? then
          KeyStep(None, [Frame(b.payloadType, h.sim, h.channel, b.frameType, b.firstTimestampMs, b.data + payload)], [])
        else
          KeyStep(Some(b.(data := b.data + payload, lastPacketSeq := h.packetSeq)), [], [])
  }

  type Buffers = map<AssemblyKey, AssemblyBuffer>

  function Get(buffers: Buffers, key: AssemblyKey): Option<AssemblyBuffer> {
    if key in buffers then Some(buffers[key]) else None
  }

  function Put(buffers: Buffers, key: AssemblyKey, buffer: Option<AssemblyBuffer>): Buffers {
    match buffer
    case Some(b) => buffers[key := b]
    case None => buffers - {key}
  }

  datatype Step = Step(buffers: Buffers, frames: seq<Frame>, diags: seq<Diagnostic>)

  function PayloadAt(data: seq<byte>, h: Header, offset: nat): seq<byte>
    requires offset + h.payloadLen <= |data|
  {
    data[offset..offset + h.payloadLen]
  }

  /** What one raw packet does to the assembler. */
  function StepPacket(buffers: Buffers, data: seq<byte>, maxCache: nat): Step {
    match Parse(data)
    case None => Step(buffers, [], [BadHeader])
    case Some((h, offset)) =>
      var r := StepKey(Get(buffers, KeyOf(h)), h, PayloadAt(data, h, offset), maxCache);
      Step(Put(buffers, KeyOf(h), r.buffer), r.frames, r.diags)
  }

  class FrameAssembler {
    var buffers: Buffers
    const maxCacheBytes: nat

    constructor (maxCacheBytes: nat)
      ensures buffers == map[] && this.maxCacheBytes == maxCacheBytes
    {
      buffers := map[];
      this.maxCacheBytes := maxCacheBytes;
    }

    method Push(data: seq<byte>) returns (frames: seq<Frame>, diags: seq<Diagnostic>)
      modifies this
      ensures Step(buffers, frames, diags) == StepPacket(old(buffers), data, maxCacheBytes)
    {
      hide ParseWithVersion;
      frames, diags := [], [];
      var parsed := Parse(data);
      if parsed.None? {
        return [], [BadHeader];
      }
      var (hdr, payloadOffset) := parsed.value;
      var end := Min(payloadOffset + hdr.payloadLen, |data|);
      var payload := data[payloadOffset..end];
      var key := AssemblyKey(hdr.sim, hdr.channel);
      PutSame(buffers, key);

      if hdr.subPackage == Atomic {
        frames := [Frame(hdr.payloadType, hdr.sim, hdr.channel, hdr.frameType, hdr.timestampMs, payload)];
        return;
      }
      if hdr.subPackage == First {
        var buf := AssemblyBuffer(payload, hdr.timestampMs, hdr.packetSeq, hdr.frameType, hdr.payloadType);
        buffers := buffers[key := buf];
        return;
      }
      if key in buffers {
        var buf := buffers[key];
        var expectedSeq := (buf.lastPacketSeq + 1) % SEQUENCE_PERIOD;
        if hdr.packetSeq != expectedSeq {
          diags := [SequenceGap(expectedSeq, hdr.packetSeq)];
          buffers := buffers - {key};
          return;
        }
        if |buf.data| + |payload| > maxCacheBytes {
          diags := [CacheOverflow(hdr.sim, hdr.channel, |buf.data| + |payload|)];
          buffers := buffers - {key};
          return;
        }
        buf := buf.(data := buf.data + payload, lastPacketSeq := hdr.packetSeq);
        buffers := buffers[key := buf];
        if hdr.subPackage == Last {
          frames := [Frame(buf.payloadType, hdr.sim, hdr.channel, buf.frameType, buf.firstTimestampMs, buf.data)];
          buffers := buffers - {key};
        }
      } else {
        diags := [LateFragment(hdr.packetSeq)];
      }
    }
  }

  lemma PutSame(buffers: Buffers, key: AssemblyKey)
    ensures Put(buffers, key, Get(buffers, key)) == buffers
  {
    if key !in buffers {
      assert buffers - {key} == buffers;
    }
  }

  lemma PutGet(buffers: Buffers, key: AssemblyKey, buffer: Option<AssemblyBuffer>, other: AssemblyKey)
    ensures Get(Put(buffers, key, buffer), other) == if other == key then buffer else Get(buffers, other)
  {
  }

  // ---------- One channel: which frames come out ----------

  /** A sender: the frames it packetizes in turn, starting from sequence number 0. */
  datatype Channel = Channel(simDigits: string, number: byte, maxPayload: nat, frames: seq<SourceFrame>)

  ghost predicate Sendable(c: Channel, maxCache: nat) {
    && IsSim(c.simDigits)
    && 0 < c.maxPayload <= MAX_BODY
    && forall f :: f in c.frames ==> f.data != [] && |f.data| <= maxCache && LayoutAgrees(f.frameType)
  }

  ghost function ChunksOf(c: Channel, j: nat): (r: seq<seq<byte>>)
    requires j < |c.frames| && c.maxPayload > 0
    ensures forall i :: 0 <= i < |r| ==> 0 < |r[i]| <= c.maxPayload
    ensures c.frames[j].data != [] ==> |r| > 0
  {
    Chunks(c.frames[j].data, c.maxPayload)
  }

  /** The true sequence number of frame `j`'s first packet. */
  ghost function Start(c: Channel, j: nat): nat
    requires j <= |c.frames| && c.maxPayload > 0
  {
    if j == 0 then 0 else Start(c, j - 1) + |ChunksOf(c, j - 1)|
  }

  lemma {:induction false} StartGrows(c: Channel, i: nat, j: nat)
    requires i <= j <= |c.frames| && c.maxPayload > 0
    ensures Start(c, i) <= Start(c, j)
    decreases j
  {
    if i < j {
      StartGrows(c, i, j - 1);
    }
  }

  ghost function Total(c: Channel): nat
    requires c.maxPayload > 0
  {
    Start(c, |c.frames|)
  }

  /** The frame that packet number `p` belongs to. */
  ghost function FrameAt(c: Channel, p: nat): (j: nat)
    requires c.maxPayload > 0 && p < Total(c)
    ensures j < |c.frames| && Start(c, j) <= p < Start(c, j + 1)
  {
    FrameBelow(c, p, |c.frames|)
  }

  ghost function FrameBelow(c: Channel, p: nat, n: nat): (j: nat)
    requires c.maxPayload > 0 && n <= |c.frames| && p < Start(c, n)
    ensures j < n && Start(c, j) <= p < Start(c, j + 1)
  {
    if p < Start(c, n - 1) then FrameBelow(c, p, n - 1) else n - 1
  }

  lemma FrameAtIs(c: Channel, p: nat, j: nat)
    requires c.maxPayload > 0 && p < Total(c) && j < |c.frames| && Start(c, j) <= p < Start(c, j + 1)
    ensures FrameAt(c, p) == j
  {
    var k := FrameAt(c, p);
    if k < j {
      StartGrows(c, k + 1, j);
    } else if j < k {
      StartGrows(c, j + 1, k);
    }
  }

  /** The packet with true sequence number `p`. */
  datatype Packet = Packet(frame: nat, index: nat, count: nat, source: SourceFrame, chunk: seq<byte>) {
    function Mark(): SubPackage {
      MarkOf(index, count)
    }
  }

  ghost function PacketAt(c: Channel, p: nat): (k: Packet)
    requires c.maxPayload > 0 && p < Total(c)
    ensures k.index < k.count && |k.chunk| <= c.maxPayload && k.frame < |c.frames|
    ensures k.source == c.frames[k.frame] && Start(c, k.frame) + k.index == p
    ensures k.count == |ChunksOf(c, k.frame)| && k.chunk == ChunksOf(c, k.frame)[k.index]
  {
    var j := FrameAt(c, p);
    var i := p - Start(c, j);
    Packet(j, i, |ChunksOf(c, j)|, c.frames[j], ChunksOf(c, j)[i])
  }

  ghost function SimOf(c: Channel): seq<byte> {
    SimBcd(c.simDigits, 0, SIM_BYTES)
  }

  ghost function WireAt(c: Channel, p: nat): seq<byte>
    requires c.maxPayload > 0 && p < Total(c)
  {
    var k := PacketAt(c, p);
    PacketOf(SimOf(c), c.number, p % SEQUENCE_PERIOD, k.source, k.Mark(), k.chunk)
  }

  lemma PacketsOfAt(sim: seq<byte>, channel: byte, firstSeq: nat, frame: SourceFrame, max: nat, i: nat)
    requires max > 0 && i < |Chunks(frame.data, max)|
    ensures |PacketsOf(sim, channel, firstSeq, frame, max)| == |Chunks(frame.data, max)|
    ensures PacketsOf(sim, channel, firstSeq, frame, max)[i]
         == PacketOf(sim, channel, (firstSeq + i) % SEQUENCE_PERIOD, frame, MarkOf(i, |Chunks(frame.data, max)|),
                     Chunks(frame.data, max)[i])
  {
    hide PacketOf, Chunks;
  }

  /** The stream is what the packetizer emits: frame `j`, packetized when the 16-bit counter has reached its
      start, is exactly the packets numbered from there on. */
  lemma PacketizerMakesStream(c: Channel, j: nat, i: nat)
    requires c.maxPayload > 0 && j < |c.frames| && i < |ChunksOf(c, j)|
    ensures Start(c, j) + i < Total(c)
    ensures |PacketsOf(SimOf(c), c.number, Start(c, j) % SEQUENCE_PERIOD, c.frames[j], c.maxPayload)|
         == Start(c, j + 1) - Start(c, j)
    ensures PacketsOf(SimOf(c), c.number, Start(c, j) % SEQUENCE_PERIOD, c.frames[j], c.maxPayload)[i]
         == WireAt(c, Start(c, j) + i)
  {
    hide PacketOf, Chunks, PacketsOf;
    PacketsOfAt(SimOf(c), c.number, Start(c, j) % SEQUENCE_PERIOD, c.frames[j], c.maxPayload, i);
    StartGrows(c, j + 1, |c.frames|);
    FrameAtIs(c, Start(c, j) + i, j);
    SequenceAfter(Start(c, j), i);
  }

  lemma SequenceAfter(start: nat, i: nat)
    ensures (start % SEQUENCE_PERIOD + i) % SEQUENCE_PERIOD == (start + i) % SEQUENCE_PERIOD
  {
  }

  ghost function HeaderAt(c: Channel, p: nat): Header
    requires 0 < c.maxPayload <= MAX_BODY && p < Total(c)
  {
    var k := PacketAt(c, p);
    HeaderOf(SimOf(c), c.number, p % SEQUENCE_PERIOD, k.source, k.Mark(), |k.chunk|)
  }

  ghost predicate InStream(c: Channel, arrived: seq<nat>) {
    c.maxPayload > 0 && forall i :: 0 <= i < |arrived| ==> arrived[i] < Total(c)
  }

  /** The channel's own arrivals, fed to its own assembly buffer. */
  ghost function RunKey(c: Channel, arrived: seq<nat>, maxCache: nat): KeyStep
    requires c.maxPayload <= MAX_BODY && InStream(c, arrived)
  {
    if arrived == [] then KeyStep(None, [], [])
    else
      var n := |arrived| - 1;
      var before := RunKey(c, arrived[..n], maxCache);
      var last := StepKey(before.buffer, HeaderAt(c, arrived[n]), PacketAt(c, arrived[n]).chunk, maxCache);
      KeyStep(last.buffer, before.frames + last.frames, before.diags + last.diags)
  }

  /** The last arrival that is a fragment of a larger frame. */
  ghost function LastFragment(c: Channel, arrived: seq<nat>): (r: Option<nat>)
    requires InStream(c, arrived)
    ensures r.Some? ==> r.value in arrived && PacketAt(c, r.value).count > 1
  {
    if arrived == [] then None
    else
      var n := |arrived| - 1;
      if PacketAt(c, arrived[n]).count > 1 then Some(arrived[n]) else LastFragment(c, arrived[..n])
  }

  /** Packets arrive in the order sent, any of them lost, and fewer than 65536 numbers lie between two
      consecutive arriving fragments. */
  ghost predicate InOrder(c: Channel, arrived: seq<nat>) {
    && InStream(c, arrived)
    && (arrived != [] ==>
          var n := |arrived| - 1;
          && InOrder(c, arrived[..n])
          && (forall i :: 0 <= i < n ==> arrived[i] < arrived[n])
          && (PacketAt(c, arrived[n]).count > 1 && LastFragment(c, arrived[..n]).Some? ==>
                arrived[n] - LastFragment(c, arrived[..n]).value <= SEQUENCE_PERIOD))
  }

  ghost predicate AllArrived(arrived: seq<nat>, from: nat, to: nat) {
    forall p :: from <= p < to ==> p in arrived
  }

  /** The frame that comes out when all its packets arrive. */
  ghost function Emitted(c: Channel, j: nat): Frame
    requires j < |c.frames|
  {
    var f := c.frames[j];
    var frameType := FrameTypeFromBits(f.frameType.ToBits());
    Frame(f.payloadType % 128, c.simDigits, c.number, frameType,
          if TailLength(frameType) >= 10 then f.timestampMs else 0, f.data)
  }

  /** Of the first `n` frames, those all of whose packets arrived, in order. */
  ghost function Completed(c: Channel, arrived: seq<nat>, n: nat): seq<Frame>
    requires c.maxPayload > 0 && n <= |c.frames|
  {
    if n == 0 then []
    else
      Completed(c, arrived, n - 1)
      + (if AllArrived(arrived, Start(c, n - 1), Start(c, n)) then [Emitted(c, n - 1)] else [])
  }

  /** The assembly buffer: the leading fragments of the last fragmented frame, if all of them arrived and more
      are to come. */
  ghost function Held(c: Channel, arrived: seq<nat>): Option<AssemblyBuffer>
    requires InStream(c, arrived)
  {
    match LastFragment(c, arrived)
    case None => None
    case Some(q) =>
      var k := PacketAt(c, q);
      if k.index + 1 < k.count && AllArrived(arrived, Start(c, k.frame), q + 1)
      then Some(BufferAt(c, q)) else None
  }

  ghost function BufferAt(c: Channel, q: nat): AssemblyBuffer
    requires c.maxPayload > 0 && q < Total(c)
  {
    var k := PacketAt(c, q);
    var out := Emitted(c, k.frame);
    AssemblyBuffer(Flatten(ChunksOf(c, k.frame)[..k.index + 1]), out.timestampMs, q % SEQUENCE_PERIOD,
                   out.frameType, out.payloadType)
  }

  lemma {:induction false} ChunksRejoin(data: seq<byte>, max: nat)
    requires max > 0
    ensures Flatten(Chunks(data, max)) == data
  {
    if |data| > max {
      ChunksRejoin(data[max..], max);
      assert data == data[..max] + data[max..];
    } else if data != [] {
      assert Flatten([data]) == data + Flatten<byte>([]);
    }
  }

  lemma {:induction false} PrefixFlattens(parts: seq<seq<byte>>, n: nat)
    requires n < |parts|
    ensures Flatten(parts[..n + 1]) == Flatten(parts[..n]) + parts[n]
    ensures |Flatten(parts[..n + 1])| <= |Flatten(parts)|
  {
    assert parts[..n + 1] == parts[..n] + [parts[n]];
    FlattenSnoc(parts[..n], parts[n]);
    assert parts == parts[..n + 1] + parts[n + 1..];
    FlattenConcat(parts[..n + 1], parts[n + 1..]);
  }

  /** A frame whose last packet is `p` completes now, or not at all. */
  ghost function CompletedBy(c: Channel, arrived: seq<nat>, p: nat): seq<Frame>
    requires c.maxPayload > 0 && p < Total(c)
  {
    var j := FrameAt(c, p);
    if p + 1 == Start(c, j + 1) && AllArrived(arrived + [p], Start(c, j), p + 1) then [Emitted(c, j)] else []
  }

  lemma {:induction false} CompletedGrows(c: Channel, arrived: seq<nat>, p: nat, n: nat)
    requires c.maxPayload > 0 && p < Total(c) && n <= |c.frames|
    requires forall i :: 0 <= i < |arrived| ==> arrived[i] < p
    requires forall f :: f in c.frames ==> f.data != []
    ensures Completed(c, arrived + [p], n)
         == Completed(c, arrived, n) + (if FrameAt(c, p) < n then CompletedBy(c, arrived, p) else [])
  {
    hide Chunks, Emitted;
    if n > 0 {
      CompletedGrows(c, arrived, p, n - 1);
      var j := FrameAt(c, p);
      var lo, hi := Start(c, n - 1), Start(c, n);
      assert c.frames[n - 1] in c.frames && lo < hi;
      if n - 1 < j {
        StartGrows(c, n, j);
        assert hi <= p;
        assert forall x :: lo <= x < hi ==> (x in arrived + [p] <==> x in arrived);
      } else if n - 1 == j {
        assert p !in arrived && !AllArrived(arrived, lo, hi);
        if AllArrived(arrived + [p], lo, hi) {
          assert hi - 1 in arrived + [p];
        }
      } else {
        StartGrows(c, j + 1, n - 1);
        assert lo !in arrived + [p];
      }
    }
  }

  /** If the packet before `p` of the same frame arrived at all, it was the last fragment to arrive. */
  lemma PreviousIsLast(c: Channel, arrived: seq<nat>, p: nat)
    requires InOrder(c, arrived) && p < Total(c) && 0 < PacketAt(c, p).index
    requires forall i :: 0 <= i < |arrived| ==> arrived[i] < p
    requires p - 1 in arrived
    ensures LastFragment(c, arrived) == Some(p - 1)
    ensures PacketAt(c, p - 1).frame == PacketAt(c, p).frame && PacketAt(c, p - 1).index == PacketAt(c, p).index - 1
  {
    hide Chunks, PacketAt, Start, FrameAt;
    SameFrameBefore(c, p);
    var n := |arrived| - 1;
    var i :| 0 <= i <= n && arrived[i] == p - 1;
    assert arrived[n] == p - 1;
  }

  lemma SameFrameBefore(c: Channel, p: nat)
    requires c.maxPayload > 0 && p < Total(c) && 0 < PacketAt(c, p).index
    ensures PacketAt(c, p - 1).frame == PacketAt(c, p).frame && PacketAt(c, p - 1).count == PacketAt(c, p).count
    ensures PacketAt(c, p - 1).index == PacketAt(c, p).index - 1
  {
    hide Chunks;
    FrameAtIs(c, p - 1, FrameAt(c, p));
  }

  /** The header of packet `p` agrees with the frame that is to come out. */
  lemma HeaderIsEmitted(c: Channel, p: nat)
    requires 0 < c.maxPayload <= MAX_BODY && IsSim(c.simDigits) && p < Total(c)
    ensures var h, out := HeaderAt(c, p), Emitted(c, PacketAt(c, p).frame);
            && h.subPackage == PacketAt(c, p).Mark() && h.packetSeq == p % SEQUENCE_PERIOD
            && h.payloadType == out.payloadType && h.sim == out.sim && h.channel == out.channel
            && h.frameType == out.frameType && h.timestampMs == out.timestampMs
  {
    hide Chunks, SimBcd, BcdToStr;
    SimRoundTrip(c.simDigits);
  }

  /** The buffer after `p` has arrived as well. */
  ghost predicate Follows(c: Channel, arrived: seq<nat>, p: nat, maxCache: nat)
    requires InStream(c, arrived) && c.maxPayload <= MAX_BODY && p < Total(c)
  {
    StepKey(Held(c, arrived), HeaderAt(c, p), PacketAt(c, p).chunk, maxCache)
    .(diags := []) == KeyStep(Held(c, arrived + [p]), CompletedBy(c, arrived, p), [])
  }

  lemma LastFragmentSnoc(c: Channel, arrived: seq<nat>, p: nat)
    requires InStream(c, arrived) && p < Total(c)
    ensures InStream(c, arrived + [p])
    ensures LastFragment(c, arrived + [p]) == if PacketAt(c, p).count > 1 then Some(p) else LastFragment(c, arrived)
  {
    assert (arrived + [p])[..|arrived|] == arrived;
  }

  lemma ArrivesLast(arrived: seq<nat>, p: nat, from: nat)
    requires from <= p && AllArrived(arrived, from, p)
    ensures AllArrived(arrived + [p], from, p + 1)
  {
    forall x | from <= x < p + 1 ensures x in arrived + [p] {
      assert x == p || x in arrived;
    }
  }

  lemma HeldUnchanged(c: Channel, arrived: seq<nat>, p: nat)
    requires InStream(c, arrived) && p < Total(c) && PacketAt(c, p).count == 1
    requires forall i :: 0 <= i < |arrived| ==> arrived[i] < p
    ensures InStream(c, arrived + [p]) && Held(c, arrived + [p]) == Held(c, arrived)
  {
    hide Chunks, LastFragment, BufferAt;
    LastFragmentSnoc(c, arrived, p);
    if LastFragment(c, arrived).Some? {
      var q := LastFragment(c, arrived).value;
      var from := Start(c, PacketAt(c, q).frame);
      assert forall x :: from <= x < q + 1 ==> (x in arrived <==> x in arrived + [p]);
    }
  }

  lemma FollowsAtomic(c: Channel, arrived: seq<nat>, p: nat, maxCache: nat)
    requires Sendable(c, maxCache) && InOrder(c, arrived) && p < Total(c) && PacketAt(c, p).count == 1
    requires forall i :: 0 <= i < |arrived| ==> arrived[i] < p
    ensures Follows(c, arrived, p, maxCache)
  {
    hide Chunks, HeaderAt, LastFragment, Held;
    HeldUnchanged(c, arrived, p);
    HeaderIsEmitted(c, p);
    WholeFrame(c, p);
    ArrivesLast(arrived, p, p);
  }

  lemma WholeFrame(c: Channel, p: nat)
    requires c.maxPayload > 0 && p < Total(c) && PacketAt(c, p).count == 1
    ensures PacketAt(c, p).chunk == PacketAt(c, p).source.data
  {
    var k := PacketAt(c, p);
    ChunksRejoin(k.source.data, c.maxPayload);
    hide Chunks;
    assert ChunksOf(c, k.frame) == [k.chunk];
    assert Flatten([k.chunk]) == k.chunk + Flatten<byte>([]);
  }

  lemma FollowsFirst(c: Channel, arrived: seq<nat>, p: nat, maxCache: nat)
    requires Sendable(c, maxCache) && InOrder(c, arrived) && p < Total(c)
    requires PacketAt(c, p).count > 1 && PacketAt(c, p).index == 0
    ensures Follows(c, arrived, p, maxCache)
  {
    hide Chunks, HeaderAt, LastFragment, Held;
    var k := PacketAt(c, p);
    HeldSnoc(c, arrived, p);
    HeaderIsEmitted(c, p);
    ArrivesLast(arrived, p, p);
    assert ChunksOf(c, k.frame)[..1] == [k.chunk];
    assert Flatten([k.chunk]) == k.chunk + Flatten<byte>([]);
    assert CompletedBy(c, arrived, p) == [];
    assert Start(c, k.frame) == p;
    assert Held(c, arrived + [p]) == Some(BufferAt(c, p));
    assert BufferAt(c, p).data == k.chunk;
    var step := StepKey(Held(c, arrived), HeaderAt(c, p), k.chunk, maxCache);
    assert step.frames == [];
    assert step.buffer == Some(BufferAt(c, p));
  }

  /** The expected fragment: the buffer grows by it, and the frame is complete with the last. */
  lemma FollowsNext(c: Channel, arrived: seq<nat>, p: nat, maxCache: nat)
    requires Sendable(c, maxCache) && InStream(c, arrived) && p < Total(c)
    requires PacketAt(c, p).count > 1 && PacketAt(c, p).index > 0
    requires Held(c, arrived) == Some(BufferAt(c, p - 1))
    requires AllArrived(arrived + [p], Start(c, PacketAt(c, p).frame), p + 1)
    ensures Follows(c, arrived, p, maxCache)
  {
    hide Chunks, HeaderAt, LastFragment, Held, BufferAt, Emitted, Start, PacketAt, CompletedBy, StepKey;
    var k := PacketAt(c, p);
    assert k.source in c.frames;
    BufferGrows(c, p);
    HeldSnoc(c, arrived, p);
    HeaderIsEmitted(c, p);
    StepNext(BufferAt(c, p - 1), HeaderAt(c, p), k.chunk, maxCache);
    CompletedByIs(c, arrived, p);
    EmittedData(c, k.frame);
  }

  lemma EmittedData(c: Channel, j: nat)
    requires j < |c.frames|
    ensures Emitted(c, j).data == c.frames[j].data
  {
  }

  lemma CompletedByIs(c: Channel, arrived: seq<nat>, p: nat)
    requires c.maxPayload > 0 && p < Total(c)
    requires AllArrived(arrived + [p], Start(c, PacketAt(c, p).frame), p + 1)
    ensures var k := PacketAt(c, p);
            CompletedBy(c, arrived, p) == if k.index + 1 == k.count then [Emitted(c, k.frame)] else []
  {
    hide Chunks;
  }

  lemma StepNext(b: AssemblyBuffer, h: Header, payload: seq<byte>, maxCache: nat)
    requires h.subPackage.Intermediate? || h.subPackage.Last?
    requires (b.lastPacketSeq + 1) % SEQUENCE_PERIOD == h.packetSeq && |b.data| + |payload| <= maxCache
    ensures StepKey(Some(b), h, payload, maxCache)
         == if h.subPackage.Last?
            then
              var frame := Frame(b.payloadType, h.sim, h.channel, b.frameType, b.firstTimestampMs, b.data + payload);
              KeyStep(None, [frame], [])
            else KeyStep(Some(b.(data := b.data + payload, lastPacketSeq := h.packetSeq)), [], [])
  {
  }

  lemma BufferGrows(c: Channel, p: nat)
    requires c.maxPayload > 0 && p < Total(c) && PacketAt(c, p).index > 0
    ensures var b, b', k, out := BufferAt(c, p - 1), BufferAt(c, p), PacketAt(c, p), Emitted(c, PacketAt(c, p).frame);
            && b' == b.(data := b.data + k.chunk, lastPacketSeq := p % SEQUENCE_PERIOD)
            && (b.lastPacketSeq + 1) % SEQUENCE_PERIOD == p % SEQUENCE_PERIOD
            && b.payloadType == out.payloadType && b.frameType == out.frameType && b.firstTimestampMs == out.timestampMs
            && |b.data| + |k.chunk| <= |k.source.data|
            && (k.index + 1 == k.count ==> b.data + k.chunk == k.source.data)
  {
    BufferDataGrows(c, p);
    hide Chunks, PacketAt, Start, FrameAt, Emitted, Flatten;
    SameFrameBefore(c, p);
    NextSequence(p - 1);
  }

  lemma BufferDataGrows(c: Channel, p: nat)
    requires c.maxPayload > 0 && p < Total(c) && PacketAt(c, p).index > 0
    ensures var b, b', k := BufferAt(c, p - 1), BufferAt(c, p), PacketAt(c, p);
            && b'.data == b.data + k.chunk
            && |b.data| + |k.chunk| <= |k.source.data|
            && (k.index + 1 == k.count ==> b.data + k.chunk == k.source.data)
  {
    hide Chunks, ChunksOf, PacketAt, Start, FrameAt, Emitted, Flatten;
    var k := PacketAt(c, p);
    PartsRejoin(c, p);
    SameFrameBefore(c, p);
    LeadingParts(ChunksOf(c, k.frame), k.index);
  }

  lemma PartsRejoin(c: Channel, p: nat)
    requires c.maxPayload > 0 && p < Total(c)
    ensures Flatten(ChunksOf(c, PacketAt(c, p).frame)) == PacketAt(c, p).source.data
  {
    hide Chunks, PacketAt, Flatten;
    ChunksRejoin(PacketAt(c, p).source.data, c.maxPayload);
  }

  lemma NextSequence(q: nat)
    ensures (q % SEQUENCE_PERIOD + 1) % SEQUENCE_PERIOD == (q + 1) % SEQUENCE_PERIOD
  {
  }

  lemma LeadingParts(parts: seq<seq<byte>>, n: nat)
    requires n < |parts|
    ensures Flatten(parts[..n + 1]) == Flatten(parts[..n]) + parts[n]
    ensures |Flatten(parts[..n])| + |parts[n]| <= |Flatten(parts)|
    ensures n + 1 == |parts| ==> Flatten(parts[..n]) + parts[n] == Flatten(parts)
  {
    PrefixFlattens(parts, n);
    if n + 1 == |parts| {
      assert parts[..n + 1] == parts;
    }
  }

  lemma HeldSnoc(c: Channel, arrived: seq<nat>, p: nat)
    requires InStream(c, arrived) && p < Total(c) && PacketAt(c, p).count > 1
    ensures InStream(c, arrived + [p])
    ensures var k := PacketAt(c, p);
            Held(c, arrived + [p])
            == if k.index + 1 < k.count && AllArrived(arrived + [p], Start(c, k.frame), p + 1)
               then Some(BufferAt(c, p)) else None
  {
    hide Chunks, LastFragment, BufferAt;
    LastFragmentSnoc(c, arrived, p);
  }

  /** A fragment that does not continue the buffer: the buffer is dropped and nothing comes out. */
  lemma FollowsGap(c: Channel, arrived: seq<nat>, p: nat, maxCache: nat)
    requires Sendable(c, maxCache) && InStream(c, arrived) && p < Total(c)
    requires PacketAt(c, p).count > 1 && PacketAt(c, p).index > 0
    requires Held(c, arrived).Some? ==>
               (Held(c, arrived).value.lastPacketSeq + 1) % SEQUENCE_PERIOD != p % SEQUENCE_PERIOD
    requires !AllArrived(arrived + [p], Start(c, PacketAt(c, p).frame), p + 1)
    ensures Follows(c, arrived, p, maxCache)
  {
    hide Chunks, HeaderAt, LastFragment, Held;
    HeldSnoc(c, arrived, p);
    HeaderIsEmitted(c, p);
  }

  lemma FollowsLater(c: Channel, arrived: seq<nat>, p: nat, maxCache: nat)
    requires Sendable(c, maxCache) && InOrder(c, arrived) && p < Total(c)
    requires forall i :: 0 <= i < |arrived| ==> arrived[i] < p
    requires LastFragment(c, arrived).Some? ==> p - LastFragment(c, arrived).value <= SEQUENCE_PERIOD
    requires PacketAt(c, p).count > 1 && PacketAt(c, p).index > 0
    ensures Follows(c, arrived, p, maxCache)
  {
    hide Chunks, LastFragment, Follows, PacketAt, Held, AllArrived, BufferAt;
    var from := Start(c, PacketAt(c, p).frame);
    if p - 1 in arrived && AllArrived(arrived, from, p) {
      HeldBefore(c, arrived, p);
      ArrivesLast(arrived, p, from);
      FollowsNext(c, arrived, p, maxCache);
    } else {
      MissesEarlier(c, arrived, p, from);
      HeldDoesNotFit(c, arrived, p);
      FollowsGap(c, arrived, p, maxCache);
    }
  }

  lemma HeldBefore(c: Channel, arrived: seq<nat>, p: nat)
    requires InOrder(c, arrived) && p < Total(c) && 0 < PacketAt(c, p).index
    requires forall i :: 0 <= i < |arrived| ==> arrived[i] < p
    requires p - 1 in arrived && AllArrived(arrived, Start(c, PacketAt(c, p).frame), p)
    ensures Held(c, arrived) == Some(BufferAt(c, p - 1))
  {
    hide Chunks, BufferAt, LastFragment, FrameAt, Start, PacketAt;
    PreviousIsLast(c, arrived, p);
    SameFrameBefore(c, p);
  }

  lemma HeldDoesNotFit(c: Channel, arrived: seq<nat>, p: nat)
    requires InStream(c, arrived) && p < Total(c) && 0 < PacketAt(c, p).index
    requires forall i :: 0 <= i < |arrived| ==> arrived[i] < p
    requires LastFragment(c, arrived).Some? ==> p - LastFragment(c, arrived).value <= SEQUENCE_PERIOD
    requires !(p - 1 in arrived && AllArrived(arrived, Start(c, PacketAt(c, p).frame), p))
    ensures Held(c, arrived).Some? ==>
              (Held(c, arrived).value.lastPacketSeq + 1) % SEQUENCE_PERIOD != p % SEQUENCE_PERIOD
  {
    hide Chunks, PacketAt, Start, FrameAt, Emitted, LastFragment, AllArrived;
    if Held(c, arrived).Some? {
      var q := LastFragment(c, arrived).value;
      if p == q + 1 {
        HeldReaches(c, arrived, p);
        assert false;
      }
      NotNext(q, p);
    }
  }

  lemma HeldReaches(c: Channel, arrived: seq<nat>, p: nat)
    requires InStream(c, arrived) && p < Total(c) && 0 < PacketAt(c, p).index
    requires Held(c, arrived).Some? && LastFragment(c, arrived) == Some(p - 1)
    ensures p - 1 in arrived && AllArrived(arrived, Start(c, PacketAt(c, p).frame), p)
  {
    hide Chunks;
    SameFrameBefore(c, p);
  }

  lemma NotNext(q: nat, p: nat)
    requires q < p <= q + SEQUENCE_PERIOD && p != q + 1
    ensures (q % SEQUENCE_PERIOD + 1) % SEQUENCE_PERIOD != p % SEQUENCE_PERIOD
  {
  }

  lemma MissesEarlier(c: Channel, arrived: seq<nat>, p: nat, from: nat)
    requires from < p && !(p - 1 in arrived && AllArrived(arrived, from, p))
    ensures !AllArrived(arrived + [p], from, p + 1)
  {
    if AllArrived(arrived + [p], from, p + 1) {
      forall x | from <= x < p ensures x in arrived {
        assert x in arrived + [p];
      }
    }
  }

  /** Loss atomicity for one channel: out come exactly the frames all of whose packets arrived, whole and in
      order, across any number of 16-bit wraps. */
  lemma {:induction false} ChannelDelivers(c: Channel, arrived: seq<nat>, maxCache: nat)
    requires Sendable(c, maxCache) && InOrder(c, arrived)
    ensures var run := RunKey(c, arrived, maxCache);
            run.buffer == Held(c, arrived) && run.frames == Completed(c, arrived, |c.frames|)
  {
    if arrived == [] {
      NothingCompleted(c, |c.frames|);
    } else {
      var n := |arrived| - 1;
      var p := arrived[n];
      assert arrived == arrived[..n] + [p];
      hide StepKey, Held, Completed, CompletedBy, Chunks, HeaderAt, LastFragment;
      ChannelDelivers(c, arrived[..n], maxCache);
      FollowsAny(c, arrived[..n], p, maxCache);
      CompletedGrows(c, arrived[..n], p, |c.frames|);
      var before := RunKey(c, arrived[..n], maxCache);
      assert Completed(c, arrived, |c.frames|) == before.frames + CompletedBy(c, arrived[..n], p);
    }
  }

  lemma FollowsAny(c: Channel, arrived: seq<nat>, p: nat, maxCache: nat)
    requires Sendable(c, maxCache) && InOrder(c, arrived) && p < Total(c)
    requires forall i :: 0 <= i < |arrived| ==> arrived[i] < p
    requires PacketAt(c, p).count > 1 && LastFragment(c, arrived).Some? ==>
               p - LastFragment(c, arrived).value <= SEQUENCE_PERIOD
    ensures Follows(c, arrived, p, maxCache)
  {
    hide Chunks, LastFragment, Follows;
    var k := PacketAt(c, p);
    if k.count == 1 {
      FollowsAtomic(c, arrived, p, maxCache);
    } else if k.index == 0 {
      FollowsFirst(c, arrived, p, maxCache);
    } else {
      FollowsLater(c, arrived, p, maxCache);
    }
  }

  lemma {:induction false} NothingCompleted(c: Channel, n: nat)
    requires c.maxPayload > 0 && n <= |c.frames|
    requires forall f :: f in c.frames ==> f.data != []
    ensures Completed(c, [], n) == []
  {
    if n > 0 {
      NothingCompleted(c, n - 1);
      assert c.frames[n - 1] in c.frames;
      assert Start(c, n - 1) !in [];
    }
  }

  // ---------- One channel: duplicated and reordered packets ----------

  /** Packets arrive in any order and any number of times, but between two consecutive arriving fragments the true
      numbers stay within one period of the one expected. */
  ghost predicate Nearby(c: Channel, arrived: seq<nat>) {
    && InStream(c, arrived)
    && (arrived != [] ==>
          var n := |arrived| - 1;
          && Nearby(c, arrived[..n])
          && (PacketAt(c, arrived[n]).count > 1 && LastFragment(c, arrived[..n]).Some? ==>
                Distance(arrived[n], LastFragment(c, arrived[..n]).value + 1) < SEQUENCE_PERIOD))
  }

  /** After packet `p` on top of `heard`: the last fragment of an unbroken sequence from its frame's first fragment,
      if more are to come. */
  ghost function NextHeard(c: Channel, heard: Option<nat>, p: nat): Option<nat>
    requires c.maxPayload > 0 && p < Total(c)
  {
    var k := PacketAt(c, p);
    if k.count == 1 then heard
    else if k.index == 0 || (heard == Some(p - 1) && k.index + 1 < k.count) then Some(p)
    else None
  }

  /** The frame that packet `p` completes on top of `heard`. */
  ghost function CompletedOn(c: Channel, heard: Option<nat>, p: nat): seq<Frame>
    requires c.maxPayload > 0 && p < Total(c)
  {
    var k := PacketAt(c, p);
    if k.index + 1 == k.count && (k.index == 0 || heard == Some(p - 1)) then [Emitted(c, k.frame)] else []
  }

  ghost function Heard(c: Channel, arrived: seq<nat>): Option<nat>
    requires InStream(c, arrived)
  {
    if arrived == [] then None
    else NextHeard(c, Heard(c, arrived[..|arrived| - 1]), arrived[|arrived| - 1])
  }

  /** The frames whose packets arrived one after the other, from the first to the last, with no other fragment of the
      channel between them. */
  ghost function Unbroken(c: Channel, arrived: seq<nat>): seq<Frame>
    requires InStream(c, arrived)
  {
    if arrived == [] then []
    else
      var n := |arrived| - 1;
      Unbroken(c, arrived[..n]) + CompletedOn(c, Heard(c, arrived[..n]), arrived[n])
  }

  /** What packet `p` is reported for on top of `heard`: a later fragment of a frame, but no fragment it continues, or
      not the one before it. */
  ghost function ReportedOn(c: Channel, heard: Option<nat>, p: nat): seq<Diagnostic>
    requires c.maxPayload > 0 && p < Total(c)
  {
    if PacketAt(c, p).index == 0 || heard == Some(p - 1) then []
    else if heard.None? then [LateFragment(p % SEQUENCE_PERIOD)]
    else [SequenceGap((heard.value + 1) % SEQUENCE_PERIOD, p % SEQUENCE_PERIOD)]
  }

  ghost function Reported(c: Channel, arrived: seq<nat>): seq<Diagnostic>
    requires InStream(c, arrived)
  {
    if arrived == [] then []
    else
      var n := |arrived| - 1;
      Reported(c, arrived[..n]) + ReportedOn(c, Heard(c, arrived[..n]), arrived[n])
  }

  ghost function HeardBuffer(c: Channel, heard: Option<nat>): Option<AssemblyBuffer>
    requires c.maxPayload > 0 && (heard.Some? ==> heard.value < Total(c))
  {
    if heard.None? then None else Some(BufferAt(c, heard.value))
  }

  /** What was heard last is the last fragment that arrived. */
  lemma {:induction false} HeardIsLast(c: Channel, arrived: seq<nat>)
    requires InStream(c, arrived)
    ensures Heard(c, arrived).Some? ==>
              Heard(c, arrived) == LastFragment(c, arrived) && Heard(c, arrived).value < Total(c)
  {
    hide Chunks, PacketAt;
    if arrived != [] {
      HeardIsLast(c, arrived[..|arrived| - 1]);
    }
  }

  lemma NotNextNearby(q: nat, p: nat)
    requires Distance(p, q + 1) < SEQUENCE_PERIOD && p != q + 1
    ensures (q % SEQUENCE_PERIOD + 1) % SEQUENCE_PERIOD != p % SEQUENCE_PERIOD
  {
  }

  /** The buffer and the frames after `p` has arrived on top of `heard`. */
  ghost predicate StepsOn(c: Channel, heard: Option<nat>, p: nat, maxCache: nat)
    requires 0 < c.maxPayload <= MAX_BODY && p < Total(c) && (heard.Some? ==> heard.value < Total(c))
  {
    var step := StepKey(HeardBuffer(c, heard), HeaderAt(c, p), PacketAt(c, p).chunk, maxCache);
    var next := NextHeard(c, heard, p);
    step.buffer == HeardBuffer(c, next) && step.frames == CompletedOn(c, heard, p)
    && step.diags == ReportedOn(c, heard, p)
  }

  lemma StepsOnStart(c: Channel, heard: Option<nat>, p: nat, maxCache: nat)
    requires Sendable(c, maxCache) && p < Total(c) && (heard.Some? ==> heard.value < Total(c))
    requires PacketAt(c, p).index == 0
    ensures StepsOn(c, heard, p, maxCache)
  {
    hide Chunks, HeaderAt;
    var k := PacketAt(c, p);
    HeaderIsEmitted(c, p);
    if k.count == 1 {
      WholeFrame(c, p);
    } else {
      assert ChunksOf(c, k.frame)[..1] == [k.chunk];
      assert Flatten([k.chunk]) == k.chunk + Flatten<byte>([]);
      assert BufferAt(c, p).data == k.chunk;
      var step := StepKey(HeardBuffer(c, heard), HeaderAt(c, p), k.chunk, maxCache);
      assert step.frames == [];
      assert step.buffer == Some(BufferAt(c, p));
    }
  }

  lemma StepsOnNext(c: Channel, p: nat, maxCache: nat)
    requires Sendable(c, maxCache) && p < Total(c) && PacketAt(c, p).index > 0
    ensures StepsOn(c, Some(p - 1), p, maxCache)
  {
    hide Chunks, HeaderAt, BufferAt, Emitted, PacketAt, FrameAt, Start, Total, StepKey, NextHeard, CompletedOn, IsSim;
    hide ReportedOn;
    NextAndCompleted(c, p);
    NextStep(c, p, maxCache);
  }

  lemma NextStep(c: Channel, p: nat, maxCache: nat)
    requires Sendable(c, maxCache) && p < Total(c) && 0 < PacketAt(c, p).index < PacketAt(c, p).count
    ensures var k := PacketAt(c, p);
            StepKey(Some(BufferAt(c, p - 1)), HeaderAt(c, p), k.chunk, maxCache)
            == if k.index + 1 == k.count then KeyStep(None, [Emitted(c, k.frame)], [])
               else KeyStep(Some(BufferAt(c, p)), [], [])
  {
    LaterMark(PacketAt(c, p));
    assert PacketAt(c, p).source in c.frames;
    hide HeaderAt, BufferAt, Emitted, PacketAt, StepKey, Packet.Mark, Total, IsSim;
    var k := PacketAt(c, p);
    HeaderIsEmitted(c, p);
    BufferGrows(c, p);
    EmittedData(c, k.frame);
    StepGrows(BufferAt(c, p - 1), BufferAt(c, p), HeaderAt(c, p), k.chunk, Emitted(c, k.frame), maxCache);
  }

  /** A fragment that continues the buffer `b`, stated by what the frame is to be. */
  lemma StepGrows(b: AssemblyBuffer, grown: AssemblyBuffer, h: Header, chunk: seq<byte>, out: Frame, maxCache: nat)
    requires h.subPackage.Intermediate? || h.subPackage.Last?
    requires grown == b.(data := b.data + chunk, lastPacketSeq := h.packetSeq)
    requires (b.lastPacketSeq + 1) % SEQUENCE_PERIOD == h.packetSeq && |b.data| + |chunk| <= maxCache
    requires b.payloadType == out.payloadType && b.frameType == out.frameType && b.firstTimestampMs == out.timestampMs
    requires h.sim == out.sim && h.channel == out.channel
    requires h.subPackage.Last? ==> b.data + chunk == out.data
    ensures StepKey(Some(b), h, chunk, maxCache)
         == if h.subPackage.Last? then KeyStep(None, [out], []) else KeyStep(Some(grown), [], [])
  {
    StepNext(b, h, chunk, maxCache);
  }

  lemma LaterMark(k: Packet)
    requires 0 < k.index < k.count
    ensures k.Mark() == if k.index + 1 == k.count then Last else Intermediate
  {
  }

  lemma NextAndCompleted(c: Channel, p: nat)
    requires c.maxPayload > 0 && p < Total(c) && 0 < PacketAt(c, p).index < PacketAt(c, p).count
    ensures var k := PacketAt(c, p);
            NextHeard(c, Some(p - 1), p) == (if k.index + 1 < k.count then Some(p) else None)
            && CompletedOn(c, Some(p - 1), p) == (if k.index + 1 < k.count then [] else [Emitted(c, k.frame)])
            && ReportedOn(c, Some(p - 1), p) == []
  {
    hide PacketAt, Emitted;
  }

  lemma StepsOnGap(c: Channel, heard: Option<nat>, p: nat, maxCache: nat)
    requires Sendable(c, maxCache) && p < Total(c) && (heard.Some? ==> heard.value < Total(c))
    requires PacketAt(c, p).index > 0 && heard != Some(p - 1)
    requires heard.Some? ==> Distance(p, heard.value + 1) < SEQUENCE_PERIOD
    ensures StepsOn(c, heard, p, maxCache)
  {
    hide Chunks, HeaderAt, HeardBuffer, PacketAt, FrameAt, Start, Total, StepKey, NextHeard, CompletedOn, IsSim;
    hide ReportedOn;
    NeitherHeard(c, heard, p);
    GapStep(c, heard, p, maxCache);
    NothingHeard(c);
  }

  lemma GapStep(c: Channel, heard: Option<nat>, p: nat, maxCache: nat)
    requires Sendable(c, maxCache) && p < Total(c) && (heard.Some? ==> heard.value < Total(c))
    requires 0 < PacketAt(c, p).index < PacketAt(c, p).count && heard != Some(p - 1)
    requires heard.Some? ==> Distance(p, heard.value + 1) < SEQUENCE_PERIOD
    ensures var step := StepKey(HeardBuffer(c, heard), HeaderAt(c, p), PacketAt(c, p).chunk, maxCache);
            step.buffer == None && step.frames == [] && step.diags == ReportedOn(c, heard, p)
  {
    hide Chunks, HeaderAt, BufferAt, PacketAt, FrameAt, Start, StepKey, Packet.Mark, Total, IsSim;
    LaterMark(PacketAt(c, p));
    HeaderIsEmitted(c, p);
    if heard.Some? {
      NotNextNearby(heard.value, p);
      BufferEnds(c, heard.value);
    }
    StepBreaks(HeardBuffer(c, heard), HeaderAt(c, p), PacketAt(c, p).chunk, maxCache);
  }

  lemma NeitherHeard(c: Channel, heard: Option<nat>, p: nat)
    requires c.maxPayload > 0 && p < Total(c) && 0 < PacketAt(c, p).index < PacketAt(c, p).count && heard != Some(p - 1)
    ensures NextHeard(c, heard, p) == None && CompletedOn(c, heard, p) == []
  {
    hide PacketAt, Emitted;
  }

  lemma StepBreaks(buffer: Option<AssemblyBuffer>, h: Header, chunk: seq<byte>, maxCache: nat)
    requires h.subPackage.Intermediate? || h.subPackage.Last?
    requires buffer.Some? ==> (buffer.value.lastPacketSeq + 1) % SEQUENCE_PERIOD != h.packetSeq
    ensures StepKey(buffer, h, chunk, maxCache)
         == KeyStep(None, [], if buffer.None? then [LateFragment(h.packetSeq)]
                              else [SequenceGap((buffer.value.lastPacketSeq + 1) % SEQUENCE_PERIOD, h.packetSeq)])
  {
  }

  lemma BufferEnds(c: Channel, q: nat)
    requires c.maxPayload > 0 && q < Total(c)
    ensures BufferAt(c, q).lastPacketSeq == q % SEQUENCE_PERIOD
  {
  }

  /** Whatever is lost, duplicated or reordered, out come exactly the frames whose packets arrived unbroken, in the
      order in which their last packets arrived; and every fragment that continues nothing is reported, with the number
      that was due where there was one. */
  lemma {:induction false} AnyOrderDelivers(c: Channel, arrived: seq<nat>, maxCache: nat)
    requires Sendable(c, maxCache) && Nearby(c, arrived)
    ensures Heard(c, arrived).Some? ==> Heard(c, arrived).value < Total(c)
    ensures var run := RunKey(c, arrived, maxCache);
            run.buffer == HeardBuffer(c, Heard(c, arrived)) && run.frames == Unbroken(c, arrived)
            && run.diags == Reported(c, arrived)
  {
    hide Chunks, StepKey, HeaderAt, PacketAt, BufferAt, Emitted, LastFragment, NextHeard, CompletedOn, HeardBuffer;
    hide ReportedOn;
    HeardIsLast(c, arrived);
    NothingHeard(c);
    if arrived != [] {
      var n := |arrived| - 1;
      var p, heard := arrived[n], Heard(c, arrived[..n]);
      AnyOrderDelivers(c, arrived[..n], maxCache);
      HeardIsLast(c, arrived[..n]);
      if PacketAt(c, p).index == 0 {
        StepsOnStart(c, heard, p, maxCache);
      } else if heard == Some(p - 1) {
        StepsOnNext(c, p, maxCache);
      } else {
        StepsOnGap(c, heard, p, maxCache);
      }
    }
  }

  lemma NothingHeard(c: Channel)
    requires c.maxPayload > 0
    ensures HeardBuffer(c, None) == None
  {
  }

  /** Hence every frame that comes out is one of the frames sent, whole. */
  lemma {:induction false} OnlySentFrames(c: Channel, arrived: seq<nat>, f: Frame)
    requires InStream(c, arrived) && f in Unbroken(c, arrived)
    ensures exists j :: 0 <= j < |c.frames| && f == Emitted(c, j)
  {
    hide Chunks, Emitted;
    var n := |arrived| - 1;
    if f in Unbroken(c, arrived[..n]) {
      OnlySentFrames(c, arrived[..n], f);
    } else {
      assert f == Emitted(c, PacketAt(c, arrived[n]).frame);
    }
  }

  // ---------- Many channels interleaved ----------

  /** One arrival: which channel, and which of its packets. */
  datatype Arrival = Arrival(channel: nat, position: nat)

  ghost predicate ArrivalsExist(channels: seq<Channel>, arrivals: seq<Arrival>) {
    forall i :: 0 <= i < |arrivals| ==>
      && arrivals[i].channel < |channels|
      && channels[arrivals[i].channel].maxPayload > 0
      && arrivals[i].position < Total(channels[arrivals[i].channel])
  }

  /** The assembler after all arrivals, whichever way the channels interleave. */
  ghost function RunAll(channels: seq<Channel>, arrivals: seq<Arrival>, maxCache: nat): Step
    requires ArrivalsExist(channels, arrivals)
  {
    if arrivals == [] then Step(map[], [], [])
    else
      var n := |arrivals| - 1;
      var before := RunAll(channels, arrivals[..n], maxCache);
      var last := StepPacket(before.buffers, WireAt(channels[arrivals[n].channel], arrivals[n].position), maxCache);
      Step(last.buffers, before.frames + last.frames, before.diags + last.diags)
  }

  /** The arrivals of channel `k`. */
  ghost function Own(arrivals: seq<Arrival>, k: nat): seq<nat> {
    if arrivals == [] then []
    else
      var n := |arrivals| - 1;
      Own(arrivals[..n], k) + (if arrivals[n].channel == k then [arrivals[n].position] else [])
  }

  /** The frames that carry the key of one channel. */
  ghost function FramesOf(frames: seq<Frame>, key: AssemblyKey): seq<Frame> {
    if frames == [] then []
    else
      (if AssemblyKey(frames[0].sim, frames[0].channel) == key then [frames[0]] else []) + FramesOf(frames[1..], key)
  }

  lemma {:induction false} FramesOfConcat(a: seq<Frame>, b: seq<Frame>, key: AssemblyKey)
    ensures FramesOf(a + b, key) == FramesOf(a, key) + FramesOf(b, key)
  {
    if a == [] {
      assert a + b == b;
    } else {
      assert (a + b)[1..] == a[1..] + b;
      FramesOfConcat(a[1..], b, key);
    }
  }

  ghost function KeyOfChannel(c: Channel): AssemblyKey {
    AssemblyKey(c.simDigits, c.number)
  }

  ghost predicate AllSendable(channels: seq<Channel>, maxCache: nat) {
    && (forall k :: 0 <= k < |channels| ==> Sendable(channels[k], maxCache))
    && (forall i, j :: 0 <= i < j < |channels| ==> KeyOfChannel(channels[i]) != KeyOfChannel(channels[j]))
  }

  /** A packet's frames carry its key, and there is at most one. */
  lemma StepKeepsKey(buffer: Option<AssemblyBuffer>, h: Header, payload: seq<byte>, maxCache: nat, key: AssemblyKey)
    ensures var frames := StepKey(buffer, h, payload, maxCache).frames;
            FramesOf(frames, key) == if key == KeyOf(h) then frames else []
  {
    var frames := StepKey(buffer, h, payload, maxCache).frames;
    assert frames != [] ==> frames == [frames[0]] + frames[1..] && FramesOf(frames[1..], key) == [];
  }

  /** A packet of channel `c` acts on the assembly buffer of `c` alone. */
  lemma StepIsLocal(c: Channel, p: nat, buffers: Buffers, maxCache: nat, key: AssemblyKey)
    requires Sendable(c, maxCache) && p < Total(c)
    ensures var step := StepPacket(buffers, WireAt(c, p), maxCache);
            var own := StepKey(Get(buffers, KeyOfChannel(c)), HeaderAt(c, p), PacketAt(c, p).chunk, maxCache);
            && step.diags == own.diags
            && Get(step.buffers, key) == (if key == KeyOfChannel(c) then own.buffer else Get(buffers, key))
            && FramesOf(step.frames, key) == (if key == KeyOfChannel(c) then own.frames else [])
  {
    hide ParseWithVersion, StepKey, PacketOf, SimBcd, BcdToStr, Chunks, Put, Get;
    var k := PacketAt(c, p);
    SimRoundTrip(c.simDigits);
    assert k.source in c.frames;
    PacketParsesBack(SimOf(c), c.number, p % SEQUENCE_PERIOD, k.source, k.Mark(), k.chunk);
    var wire, h := WireAt(c, p), HeaderAt(c, p);
    assert PayloadAt(wire, h, |wire| - |k.chunk|) == k.chunk;
    assert KeyOf(h) == KeyOfChannel(c);
    var own := StepKey(Get(buffers, KeyOf(h)), h, k.chunk, maxCache);
    PutGet(buffers, KeyOf(h), own.buffer, key);
    StepKeepsKey(Get(buffers, KeyOf(h)), h, k.chunk, maxCache, key);
  }

  lemma {:induction false} OwnIsInStream(channels: seq<Channel>, arrivals: seq<Arrival>, k: nat)
    requires ArrivalsExist(channels, arrivals) && k < |channels| && channels[k].maxPayload > 0
    ensures InStream(channels[k], Own(arrivals, k))
  {
    if arrivals != [] {
      OwnIsInStream(channels, arrivals[..|arrivals| - 1], k);
    }
  }

  /** Non-interference: for channel `k` the assembler behaves as if it received that channel alone. */
  lemma {:induction false} ChannelsDoNotInterfere(channels: seq<Channel>, arrivals: seq<Arrival>, maxCache: nat, k: nat)
    requires AllSendable(channels, maxCache) && ArrivalsExist(channels, arrivals) && k < |channels|
    ensures InStream(channels[k], Own(arrivals, k))
    ensures var all, own := RunAll(channels, arrivals, maxCache), RunKey(channels[k], Own(arrivals, k), maxCache);
            && Get(all.buffers, KeyOfChannel(channels[k])) == own.buffer
            && FramesOf(all.frames, KeyOfChannel(channels[k])) == own.frames
  {
    OwnIsInStream(channels, arrivals, k);
    if arrivals != [] {
      var n := |arrivals| - 1;
      var a := arrivals[n];
      var c, key := channels[a.channel], KeyOfChannel(channels[k]);
      ChannelsDoNotInterfere(channels, arrivals[..n], maxCache, k);
      var before := RunAll(channels, arrivals[..n], maxCache);
      StepIsLocal(c, a.position, before.buffers, maxCache, key);
      FramesOfConcat(before.frames, StepPacket(before.buffers, WireAt(c, a.position), maxCache).frames, key);
      hide StepPacket, StepKey, WireAt, HeaderAt, PacketAt, Get, FramesOf, Sendable, Total;
      if a.channel == k {
        assert Own(arrivals, k)[..|Own(arrivals[..n], k)|] == Own(arrivals[..n], k);
      } else {
        assert KeyOfChannel(c) != key;
        assert Own(arrivals, k) == Own(arrivals[..n], k);
      }
    }
  }

  /** Loss atomicity and non-interference together: however the packets of channels with distinct SIM and number
      interleave, and whichever are lost, each channel gets exactly its fully arrived frames, whole and in order. */
  lemma EveryChannelDelivers(channels: seq<Channel>, arrivals: seq<Arrival>, maxCache: nat, k: nat)
    requires AllSendable(channels, maxCache) && ArrivalsExist(channels, arrivals) && k < |channels|
    requires InOrder(channels[k], Own(arrivals, k))
    ensures FramesOf(RunAll(channels, arrivals, maxCache).frames, KeyOfChannel(channels[k]))
         == Completed(channels[k], Own(arrivals, k), |channels[k].frames|)
  {
    ChannelsDoNotInterfere(channels, arrivals, maxCache, k);
    ChannelDelivers(channels[k], Own(arrivals, k), maxCache);
  }

  /** The same for duplicated and reordered packets: each channel gets exactly its unbroken frames, all of which it was
      sent. */
  lemma EveryChannelDeliversAnyOrder(channels: seq<Channel>, arrivals: seq<Arrival>, maxCache: nat, k: nat)
    requires AllSendable(channels, maxCache) && ArrivalsExist(channels, arrivals) && k < |channels|
    requires Nearby(channels[k], Own(arrivals, k))
    ensures var out := FramesOf(RunAll(channels, arrivals, maxCache).frames, KeyOfChannel(channels[k]));
            out == Unbroken(channels[k], Own(arrivals, k))
            && forall f :: f in out ==> exists j :: 0 <= j < |channels[k].frames| && f == Emitted(channels[k], j)
  {
    var c, own := channels[k], Own(arrivals, k);
    ChannelsDoNotInterfere(channels, arrivals, maxCache, k);
    AnyOrderDelivers(c, own, maxCache);
    hide Emitted, Unbroken, RunAll, RunKey;
    forall f | f in Unbroken(c, own) ensures exists j :: 0 <= j < |c.frames| && f == Emitted(c, j) {
      OnlySentFrames(c, own, f);
    }
  }

  /** No frame comes out under a key that no channel has. */
  lemma {:induction false} NoForeignFrames(channels: seq<Channel>, arrivals: seq<Arrival>, maxCache: nat,
                                           key: AssemblyKey)
    requires AllSendable(channels, maxCache) && ArrivalsExist(channels, arrivals)
    requires forall k :: 0 <= k < |channels| ==> KeyOfChannel(channels[k]) != key
    ensures FramesOf(RunAll(channels, arrivals, maxCache).frames, key) == []
  {
    if arrivals != [] {
      var n := |arrivals| - 1;
      var c, p := channels[arrivals[n].channel], arrivals[n].position;
      NoForeignFrames(channels, arrivals[..n], maxCache, key);
      var before := RunAll(channels, arrivals[..n], maxCache);
      StepIsLocal(c, p, before.buffers, maxCache, key);
      FramesOfConcat(before.frames, StepPacket(before.buffers, WireAt(c, p), maxCache).frames, key);
    }
  }
}
