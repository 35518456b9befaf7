/** JT/T 1078 as other senders write it: headers with any marker and intervals, SIM numbers with any digits, and
    frames that outgrow the cache. */
module Jtt1078Forms {
  import opened Bytes
  import opened Jtt1078

  // ---------- Headers ----------

  /** The fields of a packet header on the wire. */
  datatype WireHeader = WireHeader(flags: byte, marker: bool, payloadType: byte, seqNo: u16, sim: seq<byte>,
                                   channel: byte, dataType: byte, mark: byte, timestampMs: u64, iframeMs: u16,
                                   frameMs: u16)

  predicate Writable(w: WireHeader, version: Version) {
    && w.payloadType < 0x80 && w.dataType < 0x10 && w.mark < 0x10
    && |w.sim| == if version.V2013? then 6 else 10
  }

  /** Video frames have a timestamp and two intervals, audio frames a timestamp, and other data neither. */
  function WriteTiming(w: WireHeader): seq<byte> {
    if w.dataType <= 2 then Be64(w.timestampMs) + Be16(w.iframeMs) + Be16(w.frameMs)
    else if w.dataType == 3 then Be64(w.timestampMs)
    else []
  }

  function WriteFront(w: WireHeader): seq<byte>
    requires w.payloadType < 0x80 && w.dataType < 0x10 && w.mark < 0x10
  {
    [0x30, 0x31, 0x63, 0x64, w.flags, (if w.marker then 0x80 else 0) + w.payloadType] + Be16(w.seqNo) + w.sim
    + [w.channel, w.dataType * 0x10 + w.mark]
  }

  function WritePacket(w: WireHeader, payload: seq<byte>): seq<byte>
    requires w.payloadType < 0x80 && w.dataType < 0x10 && w.mark < 0x10 && |payload| < 0x1_0000
  {
    WriteFront(w) + WriteTiming(w) + Be16(|payload|) + payload
  }

  function TypeOf(dataType: byte): FrameType {
    match dataType
    case 0 => IFrame
    case 1 => PFrame
    case 2 => BFrame
    case 3 => Audio
    case 4 => Passthrough
    case _ => Other(dataType)
  }

  function MarkNamed(mark: byte): Option<SubPackage> {
    match mark
    case 0 => Some(Atomic)
    case 1 => Some(First)
    case 2 => Some(Last)
    case 3 => Some(Intermediate)
    case _ => None
  }

  function HeaderRead(w: WireHeader, version: Version, mark: SubPackage, size: u16): Header {
    Header(version, w.payloadType, w.marker, BcdToStr(w.sim), w.channel, TypeOf(w.dataType), mark, w.seqNo,
           if w.dataType <= 3 then w.timestampMs else 0,
           if w.dataType <= 2 then Some(w.iframeMs) else None,
           if w.dataType <= 2 then Some(w.frameMs) else None, size)
  }

  lemma FrontIsRead(w: WireHeader, version: Version, rest: seq<byte>)
    requires Writable(w, version)
    ensures var p, tail := WriteFront(w) + rest, 10 + SimLength(version);
            && |p| == tail + |rest| && p[tail..] == rest
            && p[0] == 0x30 && p[1] == 0x31 && p[2] == 0x63 && p[3] == 0x64
            && p[5] % 128 == w.payloadType && (p[5] >= 128 <==> w.marker) && ReadBe16(p, 6) == w.seqNo
            && p[8..tail - 2] == w.sim && p[tail - 2] == w.channel
            && p[tail - 1] / 16 == w.dataType && p[tail - 1] % 16 == w.mark
  {
    hide Be16, ReadBe16;
    var p, tail := WriteFront(w) + rest, 10 + SimLength(version);
    assert p[6..8] == Be16(w.seqNo);
    ReadBe16At(p, 6, w.seqNo);
    assert p[tail - 1] == w.dataType * 0x10 + w.mark;
    assert p[tail..] == rest;
  }

  lemma TimingIsRead(w: WireHeader, front: seq<byte>, payload: seq<byte>, tail: seq<byte>)
    requires |payload| < 0x1_0000
    ensures var p, at := front + (WriteTiming(w) + (Be16(|payload|) + (payload + tail))), |front|;
            var end := at + |WriteTiming(w)|;
            && ReadBe16(p, end) == |payload| && p[end + 2..end + 2 + |payload|] == payload
            && (w.dataType <= 3 ==> end >= at + 8 && ReadBe64(p, at) == w.timestampMs)
            && (w.dataType <= 2 ==>
                  end == at + 12 && ReadBe16(p, at + 8) == w.iframeMs && ReadBe16(p, at + 10) == w.frameMs)
  {
    hide Be16, ReadBe16, Be64, ReadBe64;
    var p, at := front + (WriteTiming(w) + (Be16(|payload|) + (payload + tail))), |front|;
    var end := at + |WriteTiming(w)|;
    assert p[end..end + 2] == Be16(|payload|);
    ReadBe16At(p, end, |payload|);
    if w.dataType <= 3 {
      assert p[at..at + 8] == Be64(w.timestampMs);
      ReadBe64At(p, at, w.timestampMs);
    }
    if w.dataType <= 2 {
      assert p[at + 8..at + 10] == Be16(w.iframeMs) && p[at + 10..at + 12] == Be16(w.frameMs);
      ReadBe16At(p, at + 8, w.iframeMs);
      ReadBe16At(p, at + 10, w.frameMs);
    }
  }

  /** A packet of either version is read field by field, whatever follows it; a sub-package mark above three is
      refused. */
  lemma AnyPacketIsRead(w: WireHeader, version: Version, payload: seq<byte>, tail: seq<byte>)
    requires Writable(w, version) && |payload| < 0x1_0000
    ensures var p := WritePacket(w, payload) + tail;
            var at := |WritePacket(w, payload)| - |payload|;
            && at + |payload| <= |p| && p[at..at + |payload|] == payload
            && ParseWithVersion(p, version)
               == if MarkNamed(w.mark).None? then None
                  else Some((HeaderRead(w, version, MarkNamed(w.mark).value, |payload|), at))
  {
    hide Be16, ReadBe16, Be64, ReadBe64, BcdToStr;
    var p, front := WritePacket(w, payload) + tail, WriteFront(w);
    var rest := WriteTiming(w) + (Be16(|payload|) + (payload + tail));
    assert p == front + rest;
    FrontIsRead(w, version, rest);
    TimingIsRead(w, front, payload, tail);
    KindsAreRead(w);
    hide WriteFront, WriteTiming, FrameTypeFromBits, SubPackageFromBits, TailLength;
  }

  lemma KindsAreRead(w: WireHeader)
    requires w.dataType < 0x10 && w.mark < 0x10
    ensures FrameTypeFromBits(w.dataType) == TypeOf(w.dataType) && SubPackageFromBits(w.mark) == MarkNamed(w.mark)
    ensures TailLength(TypeOf(w.dataType)) == |WriteTiming(w)| + 2
    ensures TypeOf(w.dataType).IsVideo() <==> w.dataType <= 2
    ensures TailLength(TypeOf(w.dataType)) >= 10 <==> w.dataType <= 3
  {
  }

  /** What does not begin with the magic number, or is cut off before its data type or within its payload, is no
      packet. */
  lemma OtherBytesAreRefused(data: seq<byte>, version: Version)
    requires |data| < 12 + SimLength(version) || data[..4] != [0x30, 0x31, 0x63, 0x64]
    ensures ParseWithVersion(data, version) == None
  {
    if |data| >= 12 + SimLength(version) {
      assert data[..4] == [data[0], data[1], data[2], data[3]];
    }
  }

  /** The packetizer's packets are those a declarative writer makes, unmarked and with intervals of zero, as long as the
      layouts agree; of a chunk that 16 bits cannot measure, the first 65535 bytes are the payload. */
  lemma PacketIsWritten(sim: seq<byte>, channel: byte, seqNo: u16, frame: SourceFrame, mark: SubPackage,
                        chunk: seq<byte>)
    requires LayoutAgrees(frame.frameType)
    ensures var w := WireHeader(0x81, false, frame.payloadType % 128, seqNo, sim, channel, frame.frameType.ToBits(),
                                mark.ToBits(), frame.timestampMs, 0, 0);
            var n := if |chunk| < 0x1_0000 then |chunk| else 0xFFFF;
            PacketOf(sim, channel, seqNo, frame, mark, chunk) == WritePacket(w, chunk[..n]) + chunk[n..]
  {
    hide Be16, Be64;
    var n := if |chunk| < 0x1_0000 then |chunk| else 0xFFFF;
    assert chunk == chunk[..n] + chunk[n..];
  }

  // ---------- SIM numbers ----------

  /** Whatever the text: its first twelve digits, filled up with zeros behind them. */
  lemma AnySimIsPadded(s: string, k: nat)
    requires k < 12
    ensures var digits, back := DigitsOf(s), BcdToStr(SimBcd(s, 0, SIM_BYTES));
            |back| == 12 && back[k] == if k < |digits| then digits[k] else '0'
  {
    hide DigitsOf, DigitAt, DigitChar, BcdToStr, SimBcd;
    var bcd, j := SimBcd(s, 0, SIM_BYTES), k / 2;
    SimBcdAt(s, 0, SIM_BYTES, j);
    BcdAt(bcd, k);
    var hi, lo := DigitAt(s, 2 * j), DigitAt(s, 2 * j + 1);
    assert (hi * 16 + lo) / 16 == hi && (hi * 16 + lo) % 16 == lo;
    assert k == if k % 2 == 0 then 2 * j else 2 * j + 1;
    DigitShown(s, k);
  }

  lemma DigitShown(s: string, k: nat)
    ensures DigitChar(DigitAt(s, k)) == if k < |DigitsOf(s)| then DigitsOf(s)[k] else '0'
  {
  }

  lemma {:induction false} BcdAt(bcd: seq<byte>, k: nat)
    requires k < 2 * |bcd|
    ensures BcdToStr(bcd)[k] == DigitChar(if k % 2 == 0 then bcd[k / 2] / 16 else bcd[k / 2] % 16)
  {
    hide DigitChar;
    if k >= 2 {
      BcdAt(bcd[1..], k - 2);
    }
  }

  /** The digits are the ten characters from 0 to 9, and packets carry 1400 bytes unless set otherwise. */
  lemma Digits(c: char)
    ensures IsDigit(c) <==> c in "0123456789"
    ensures DEFAULT_MAX_PACKET_PAYLOAD == 1400
  {
    var all := "0123456789";
    if IsDigit(c) {
      assert all[c as int - '0' as int] == c;
    }
  }

  /** Half-bytes above nine read as the digit zero. */
  lemma BcdBytes()
    ensures BcdToStr([0x13, 0x9F, 0xA0]) == "139000"
    ensures DigitsOf("+86 13") == "8613"
  {
    assert BcdToStr([0xA0]) == "00";
    assert BcdToStr([0x9F, 0xA0]) == "9000";
    assert DigitsOf("3") == "3";
    assert DigitsOf("13") == "13";
    assert DigitsOf(" 13") == "13";
    assert DigitsOf("6 13") == "613";
    assert DigitsOf("86 13") == "8613";
  }

  // ---------- The cache ----------

  /** Fragments fed one after the other to the buffer of their channel. */
  function Feed(buffer: Option<AssemblyBuffer>, fragments: seq<(Header, seq<byte>)>, maxCache: nat): KeyStep
    decreases |fragments|
  {
    if fragments == [] then KeyStep(buffer, [], [])
    else
      var first := StepKey(buffer, fragments[0].0, fragments[0].1, maxCache);
      var later := Feed(first.buffer, fragments[1..], maxCache);
      KeyStep(later.buffer, first.frames + later.frames, first.diags + later.diags)
  }

  function TotalSize(fragments: seq<(Header, seq<byte>)>): nat {
    if fragments == [] then 0 else |fragments[0].1| + TotalSize(fragments[1..])
  }

  /** Fragments that continue number `last`, one after the other, none of them the last of its frame. */
  ghost predicate Continue(last: u16, fragments: seq<(Header, seq<byte>)>) {
    forall i :: 0 <= i < |fragments| ==>
      fragments[i].0.subPackage.Intermediate? && fragments[i].0.packetSeq == (last + 1 + i) % SEQUENCE_PERIOD
  }

  lemma FragmentStep(b: AssemblyBuffer, h: Header, payload: seq<byte>, maxCache: nat)
    requires h.subPackage.Intermediate? && h.packetSeq == (b.lastPacketSeq + 1) % SEQUENCE_PERIOD
    ensures StepKey(Some(b), h, payload, maxCache)
         == if |b.data| + |payload| > maxCache
            then KeyStep(None, [], [CacheOverflow(h.sim, h.channel, |b.data| + |payload|)])
            else KeyStep(Some(b.(data := b.data + payload, lastPacketSeq := h.packetSeq)), [], [])
  {
  }

  lemma ContinuesOn(last: u16, fragments: seq<(Header, seq<byte>)>)
    requires fragments != [] && Continue(last, fragments)
    ensures fragments[0].0.subPackage.Intermediate? && fragments[0].0.packetSeq == (last + 1) % SEQUENCE_PERIOD
    ensures Continue(fragments[0].0.packetSeq, fragments[1..])
  {
    var first := fragments[0].0.packetSeq;
    assert first == (last + 1 + 0) % SEQUENCE_PERIOD;
    forall i | 0 <= i < |fragments| - 1 ensures fragments[1..][i].0.packetSeq == (first + 1 + i) % SEQUENCE_PERIOD {
      assert fragments[1..][i] == fragments[i + 1];
      SequenceAfter(last + 1, 1 + i);
    }
  }

  lemma FeedNext(buffer: Option<AssemblyBuffer>, first: (Header, seq<byte>), rest: seq<(Header, seq<byte>)>,
                 maxCache: nat)
    ensures var step := StepKey(buffer, first.0, first.1, maxCache);
            var later := Feed(step.buffer, rest, maxCache);
            Feed(buffer, [first] + rest, maxCache)
            == KeyStep(later.buffer, step.frames + later.frames, step.diags + later.diags)
  {
    hide StepKey;
    assert ([first] + rest)[1..] == rest;
  }

  /** A frame whose fragments all arrive outgrows the cache exactly with the fragment that takes it past the limit;
      that fragment is reported with the size reached, the frame is forgotten, and nothing before it is reported. */
  lemma {:induction false} OverflowIsReported(b: AssemblyBuffer, fragments: seq<(Header, seq<byte>)>,
                                              over: (Header, seq<byte>), maxCache: nat)
    requires Continue(b.lastPacketSeq, fragments + [over])
    requires |b.data| + TotalSize(fragments) <= maxCache < |b.data| + TotalSize(fragments) + |over.1|
    ensures Feed(Some(b), fragments + [over], maxCache)
         == KeyStep(None, [], [CacheOverflow(over.0.sim, over.0.channel,
                                             |b.data| + TotalSize(fragments) + |over.1|)])
    decreases |fragments|
  {
    hide StepKey, Feed, Continue;
    ContinuesOn(b.lastPacketSeq, fragments + [over]);
    if fragments == [] {
      FragmentStep(b, over.0, over.1, maxCache);
      FeedNext(Some(b), over, [], maxCache);
      assert fragments + [over] == [over] + [];
      assert Feed(None, [], maxCache) == KeyStep(None, [], []) by { NothingFed(maxCache); }
    } else {
      var first, rest := fragments[0], fragments[1..];
      assert fragments + [over] == [first] + (rest + [over]) && (fragments + [over])[1..] == rest + [over];
      FragmentStep(b, first.0, first.1, maxCache);
      FeedNext(Some(b), first, rest + [over], maxCache);
      OverflowIsReported(b.(data := b.data + first.1, lastPacketSeq := first.0.packetSeq), rest, over, maxCache);
    }
  }

  lemma NothingFed(maxCache: nat)
    ensures Feed(None, [], maxCache) == KeyStep(None, [], [])
  {
  }

  /** Frames with both limits of the cache: four bytes fit a cache of four, five do not. */
  lemma CacheOfFour(h: Header)
    requires h.subPackage.Last? && h.packetSeq == 8
    ensures var b := AssemblyBuffer([1, 2], 5, 7, IFrame, 98);
            && StepKey(Some(b), h, [3, 4], 4)
               == KeyStep(None, [Frame(98, h.sim, h.channel, IFrame, 5, [1, 2, 3, 4])], [])
            && StepKey(Some(b), h, [3, 4, 5], 4) == KeyStep(None, [], [CacheOverflow(h.sim, h.channel, 5)])
  {
    assert [1, 2] + [3, 4] == [1, 2, 3, 4];
  }

  /** Other bytes are reported and leave all buffers alone. */
  lemma BadPacketIsReported(buffers: Buffers, data: seq<byte>, maxCache: nat)
    requires Parse(data).None?
    ensures StepPacket(buffers, data, maxCache) == Step(buffers, [], [BadHeader])
  {
  }
}
