/** FLV: file header and tags, their encoding, and the streaming demuxer with its bounded buffer. */
module Flv {
  import opened Bytes

  const FLV_FILE_HEADER_BYTES := 9
  const FLV_FULL_HEADER_BYTES := 13
  const FLV_TAG_HEADER_BYTES := 11
  const FLV_TAG_OVERHEAD := 15
  const FLV_TAG_DATA_LEN_MAX := 0xFF_FFFF

  datatype FlvTagType = Audio | Video | Script {
    function ToU8(): byte {
      match this
      case Audio => 8
      case Video => 9
      case Script => 18
    }
  }

  function TagTypeFromU8(v: byte): Option<FlvTagType> {
    if v == 8 then Some(Audio) else if v == 9 then Some(Video) else if v == 18 then Some(Script) else None
  }

  datatype FlvStreamError =
    | InvalidHeaderSignature
    | UnsupportedHeaderVersion(version: byte)
    | InvalidHeaderDataOffset(dataOffset: nat)
    | Truncated(expectedAtLeast: nat, actual: nat)
    | InvalidTagType(raw: byte)
    | TagPayloadTooLarge(declared: nat, maxAllowed: nat)
    | DemuxBufferTooLarge(buffered: nat, maxAllowed: nat)

  datatype Result<+T> = Ok(value: T) | Err(error: FlvStreamError)

  datatype FlvHeader = FlvHeader(hasAudio: bool, hasVideo: bool) {
    function Encode(): (s: seq<byte>)
      ensures |s| == FLV_FULL_HEADER_BYTES
    {
      [0x46, 0x4C, 0x56, 1, (if hasAudio then 4 else 0) + (if hasVideo then 1 else 0)]
      + Be32(FLV_FILE_HEADER_BYTES) + Be32(0)
    }
  }

  datatype FlvTag = FlvTag(tagType: FlvTagType, timestampMs: u32, payload: seq<byte>) {
    function Encode(): (s: seq<byte>) {
      var dataLen := Min(|payload|, FLV_TAG_DATA_LEN_MAX);
      [tagType.ToU8(), dataLen / 0x1_0000, dataLen / 0x100 % 0x100, dataLen % 0x100,
       timestampMs / 0x1_0000 % 0x100, timestampMs / 0x100 % 0x100, timestampMs % 0x100, timestampMs / 0x100_0000,
       0, 0, 0]
      + payload[..dataLen]
    }

    function EncodeWithPreviousTagSize(): seq<byte> {
      Encode() + Be32(|Encode()|)
    }
  }

  datatype FlvDemuxEvent =
    | HeaderEvent(header: FlvHeader)
    | TagEvent(tag: FlvTag)
    | PreviousTagSizeMismatch(expected: u32, actual: u32)

  /** The header at the front of `raw`, with the number of bytes it takes up to the first tag. */
  function ParsePrefix(raw: seq<byte>): Result<(FlvHeader, nat)> {
    if |raw| < FLV_FILE_HEADER_BYTES then Err(Truncated(FLV_FILE_HEADER_BYTES, |raw|))
    else if raw[..3] != [0x46, 0x4C, 0x56] then Err(InvalidHeaderSignature)
    else if raw[3] != 1 then Err(UnsupportedHeaderVersion(raw[3]))
    else
      var dataOffset := ReadBe32(raw, 5);
      if dataOffset < FLV_FILE_HEADER_BYTES then Err(InvalidHeaderDataOffset(dataOffset))
      else if |raw| < dataOffset + 4 then Err(Truncated(dataOffset + 4, |raw|))
      else Ok((FlvHeader(raw[4] / 4 % 2 == 1, raw[4] % 2 == 1), dataOffset + 4))
  }

  // ---------- Specification of the demuxer ----------

  datatype State = State(buffer: seq<byte>, headerParsed: bool)

  /** The declared payload length of the tag at the front. */
  function DeclaredLength(raw: seq<byte>): nat
    requires |raw| >= FLV_TAG_OVERHEAD
  {
    raw[1] as int * 0x1_0000 + raw[2] as int * 0x100 + raw[3] as int
  }

  function TagEvents(raw: seq<byte>, tagType: FlvTagType): seq<FlvDemuxEvent>
    requires |raw| >= FLV_TAG_OVERHEAD && |raw| >= FLV_TAG_OVERHEAD + DeclaredLength(raw)
  {
    var len := DeclaredLength(raw);
    var ts := raw[7] as int * 0x100_0000 + raw[4] as int * 0x1_0000 + raw[5] as int * 0x100 + raw[6] as int;
    var previous := ReadBe32(raw, FLV_TAG_HEADER_BYTES + len);
    var expected := FLV_TAG_HEADER_BYTES + len;
    [TagEvent(FlvTag(tagType, ts, raw[FLV_TAG_HEADER_BYTES..FLV_TAG_HEADER_BYTES + len]))]
    + if previous != expected then [PreviousTagSizeMismatch(expected, previous)] else []
  }

  /** What stands at the front: not enough bytes yet, a tag that cannot be accepted, or a complete tag. */
  datatype Front = Incomplete | Bad(error: FlvStreamError) | Complete(events: seq<FlvDemuxEvent>, total: nat)

  function NextTag(raw: seq<byte>, max: nat): (f: Front)
    ensures f.Complete? ==> FLV_TAG_OVERHEAD <= f.total <= |raw|
  {
    if |raw| < FLV_TAG_OVERHEAD then Incomplete
    else if TagTypeFromU8(raw[0]).None? then Bad(InvalidTagType(raw[0]))
    else if DeclaredLength(raw) > max then Bad(TagPayloadTooLarge(DeclaredLength(raw), max))
    else if |raw| < FLV_TAG_OVERHEAD + DeclaredLength(raw) then Incomplete
    else Complete(TagEvents(raw, TagTypeFromU8(raw[0]).value), FLV_TAG_OVERHEAD + DeclaredLength(raw))
  }

  datatype Scan = Scan(events: seq<FlvDemuxEvent>, rest: seq<byte>, error: Option<FlvStreamError>)

  /** All complete tags at the front of `raw`, the unconsumed rest, and the error that stopped the scan. */
  function ScanTags(raw: seq<byte>, max: nat): Scan
    decreases |raw|
  {
    match NextTag(raw, max)
    case Incomplete => Scan([], raw, None)
    case Bad(e) => Scan([], raw, Some(e))
    case Complete(events, total) =>
      var later := ScanTags(raw[total..], max);
      Scan(events + later.events, later.rest, later.error)
  }

  datatype Outcome = Outcome(state: State, result: Result<seq<FlvDemuxEvent>>)

  /** Tags are scanned to the end; a bad tag resets the demuxer and loses the events found so far. */
  function AfterTags(before: seq<FlvDemuxEvent>, raw: seq<byte>, max: nat): Outcome {
    var scan := ScanTags(raw, max);
    match scan.error
    case Some(e) => Outcome(State([], false), Err(e))
    case None => Outcome(State(scan.rest, true), Ok(before + scan.events))
  }

  /** A bad file header is reported but does not reset the demuxer. */
  function Parsed(s: State, max: nat): Outcome {
    if s.headerParsed then AfterTags([], s.buffer, max)
    else if |s.buffer| < FLV_FULL_HEADER_BYTES then Outcome(s, Ok([]))
    else
      match ParsePrefix(s.buffer)
      case Err(e) => Outcome(s, Err(e))
      case Ok((header, consumed)) => AfterTags([HeaderEvent(header)], s.buffer[consumed..], max)
  }

  function Pushed(s: State, chunk: seq<byte>, max: nat): Outcome {
    if |s.buffer| + |chunk| > max then
      Outcome(State([], false), Err(DemuxBufferTooLarge(|s.buffer| + |chunk|, max)))
    else Parsed(State(s.buffer + chunk, s.headerParsed), max)
  }

  class FlvDemuxer {
    var buffer: seq<byte>
    var headerParsed: bool
    const maxBufferBytes: nat

    constructor (maxBufferBytes: nat)
      ensures this.maxBufferBytes == Max(maxBufferBytes, FLV_FULL_HEADER_BYTES)
      ensures Now() == State([], false)
    {
      buffer, headerParsed := [], false;
      this.maxBufferBytes := Max(maxBufferBytes, FLV_FULL_HEADER_BYTES);
    }

    ghost function Now(): State
      reads this
    {
      State(buffer, headerParsed)
    }

    method Reset()
      modifies this
      ensures Now() == State([], false)
    {
      buffer, headerParsed := [], false;
    }

    method Push(chunk: seq<byte>) returns (result: Result<seq<FlvDemuxEvent>>)
      modifies this
      ensures var outcome := Pushed(old(Now()), chunk, maxBufferBytes);
              Now() == outcome.state && result == outcome.result
    {
      var nextLen := |buffer| + |chunk|;
      if nextLen > maxBufferBytes {
        Reset();
        return Err(DemuxBufferTooLarge(nextLen, maxBufferBytes));
      }
      buffer := buffer + chunk;
      result := ParseBuffer();
    }

    method ParseBuffer() returns (result: Result<seq<FlvDemuxEvent>>)
      modifies this
      ensures var outcome := Parsed(old(Now()), maxBufferBytes);
              Now() == outcome.state && result == outcome.result
    {
      var events: seq<FlvDemuxEvent> := [];
      var offset := 0;
      if !headerParsed {
        if |buffer| < FLV_FULL_HEADER_BYTES {
          return Ok([]);
        }
        var prefix := ParsePrefix(buffer);
        if prefix.Err? {
          return Err(prefix.error);
        }
        headerParsed := true;
        offset := prefix.value.1;
        events := [HeaderEvent(prefix.value.0)];
      }
      assert buffer[0..] == buffer;
      var tags, end, error := CollectTags(buffer, offset);
      if error.Some? {
        Reset();
        return Err(error.value);
      }
      if end > 0 {
        buffer := buffer[end..];
      }
      return Ok(events + tags);
    }

    /** Reads the tag at the front of `raw`, if it is complete. */
    method ReadTag(raw: seq<byte>) returns (front: Front)
      ensures front == NextTag(raw, maxBufferBytes)
    {
      hide TagEvents, DeclaredLength;
      if |raw| < FLV_TAG_OVERHEAD {
        return Incomplete;
      }
      var tagType := TagTypeFromU8(raw[0]);
      if tagType.None? {
        return Bad(InvalidTagType(raw[0]));
      }
      var payloadLen := DeclaredLength(raw);
      if payloadLen > maxBufferBytes {
        return Bad(TagPayloadTooLarge(payloadLen, maxBufferBytes));
      }
      var tagTotal := FLV_TAG_OVERHEAD + payloadLen;
      if |raw| < tagTotal {
        return Incomplete;
      }
      return Complete(TagEvents(raw, tagType.value), tagTotal);
    }

    /** The tag loop: all complete tags of `data` from `first` on, and where it stopped. */
    method CollectTags(data: seq<byte>, first: nat)
      returns (events: seq<FlvDemuxEvent>, offset: nat, error: Option<FlvStreamError>)
      requires first <= |data|
      ensures first <= offset <= |data|
      ensures ScanTags(data[first..], maxBufferBytes) == Scan(events, data[offset..], error)
    {
      hide ScanTags, NextTag;
      events, offset, error := [], first, None;
      ghost var whole := ScanTags(data[first..], maxBufferBytes);
      while true
        invariant first <= offset <= |data|
        invariant whole.error == ScanTags(data[offset..], maxBufferBytes).error
        invariant whole.rest == ScanTags(data[offset..], maxBufferBytes).rest
        invariant whole.events == events + ScanTags(data[offset..], maxBufferBytes).events
        decreases |data| - offset
      {
        var raw := data[offset..];
        var front := ReadTag(raw);
        ScanFollows(raw, maxBufferBytes, front);
        if front.Bad? {
          error := Some(front.error);
          break;
        }
        if front.Incomplete? {
          break;
        }
        assert raw[front.total..] == data[offset + front.total..];
        events := events + front.events;
        offset := offset + front.total;
      }
      assert events + [] == events;
    }
  }

  lemma ScanFollows(raw: seq<byte>, max: nat, front: Front)
    requires front == NextTag(raw, max)
    ensures front.Incomplete? ==> ScanTags(raw, max) == Scan([], raw, None)
    ensures front.Bad? ==> ScanTags(raw, max) == Scan([], raw, Some(front.error))
    ensures front.Complete? ==>
              var later := ScanTags(raw[front.total..], max);
              ScanTags(raw, max) == Scan(front.events + later.events, later.rest, later.error)
  {
    hide NextTag;
  }

  // ---------- Chunks do not matter ----------

  lemma NextTagContinues(x: seq<byte>, y: seq<byte>, max: nat)
    requires !NextTag(x, max).Incomplete?
    ensures NextTag(x + y, max) == NextTag(x, max)
  {
    assert DeclaredLength(x + y) == DeclaredLength(x);
    if NextTag(x, max).Complete? {
      var end := FLV_TAG_HEADER_BYTES + DeclaredLength(x);
      assert (x + y)[FLV_TAG_HEADER_BYTES..end] == x[FLV_TAG_HEADER_BYTES..end];
      assert ReadBe32(x + y, end) == ReadBe32(x, end);
    }
  }

  lemma {:induction false} ScanContinues(x: seq<byte>, y: seq<byte>, max: nat)
    ensures var first := ScanTags(x, max);
            var whole := ScanTags(x + y, max);
            if first.error.None? then
              var second := ScanTags(first.rest + y, max);
              whole == Scan(first.events + second.events, second.rest, second.error)
            else whole.error == first.error
    decreases |x|
  {
    hide NextTag, ScanTags;
    var front := NextTag(x, max);
    ScanNext(x, max);
    ScanNext(x + y, max);
    if !front.Incomplete? {
      NextTagContinues(x, y, max);
    }
    if front.Complete? {
      assert (x + y)[front.total..] == x[front.total..] + y;
      ScanContinues(x[front.total..], y, max);
      var later, second := ScanTags(x[front.total..], max), ScanTags(ScanTags(x, max).rest + y, max);
      assert front.events + (later.events + second.events) == front.events + later.events + second.events;
    } else {
      assert [] + ScanTags(x + y, max).events == ScanTags(x + y, max).events;
    }
  }

  lemma ScanNext(x: seq<byte>, max: nat)
    ensures var front := NextTag(x, max);
            && (front.Incomplete? ==> ScanTags(x, max) == Scan([], x, None))
            && (front.Bad? ==> ScanTags(x, max) == Scan([], x, Some(front.error)))
            && (front.Complete? ==>
                  var later := ScanTags(x[front.total..], max);
                  ScanTags(x, max) == Scan(front.events + later.events, later.rest, later.error))
  {
    hide NextTag;
  }

  lemma ParsePrefixContinues(x: seq<byte>, y: seq<byte>)
    requires ParsePrefix(x).Ok?
    ensures ParsePrefix(x + y) == ParsePrefix(x) && (x + y)[ParsePrefix(x).value.1..] == x[ParsePrefix(x).value.1..] + y
  {
    assert (x + y)[..3] == x[..3];
  }

  function Prepend(before: seq<FlvDemuxEvent>, o: Outcome): Outcome {
    match o.result
    case Ok(events) => Outcome(o.state, Ok(before + events))
    case Err(_) => o
  }

  lemma AfterTagsContinues(before: seq<FlvDemuxEvent>, x: seq<byte>, y: seq<byte>, max: nat)
    requires AfterTags(before, x, max).result.Ok?
    ensures var first := AfterTags(before, x, max);
            AfterTags(before, x + y, max)
            == Prepend(first.result.value, AfterTags([], first.state.buffer + y, max))
  {
    hide ScanTags;
    ScanContinues(x, y, max);
    var first, whole := ScanTags(x, max), ScanTags(x + y, max);
    var second := ScanTags(first.rest + y, max);
    assert before + (first.events + second.events) == before + first.events + ([] + second.events);
  }

  /** Splitting a chunk changes nothing: when the first part is accepted, pushing the rest afterwards leaves
      the same state as pushing both at once, and gives the same events or the same error. */
  lemma PushSplits(s: State, a: seq<byte>, b: seq<byte>, max: nat)
    requires |s.buffer| + |a| + |b| <= max
    requires Pushed(s, a, max).result.Ok?
    ensures var first := Pushed(s, a, max);
            Pushed(s, a + b, max) == Prepend(first.result.value, Pushed(first.state, b, max))
  {
    var x := s.buffer + a;
    assert s.buffer + (a + b) == x + b;
    var first := Pushed(s, a, max);
    BufferStaysBounded(s, a, max);
    if s.headerParsed {
      AfterTagsContinues([], x, b, max);
    } else if |x| >= FLV_FULL_HEADER_BYTES {
      var (header, consumed) := ParsePrefix(x).value;
      ParsePrefixContinues(x, b);
      AfterTagsContinues([HeaderEvent(header)], x[consumed..], b, max);
    } else {
      var second := Pushed(first.state, b, max);
      assert second.result.Ok? ==> [] + second.result.value == second.result.value;
    }
  }

  lemma {:induction false} ScanRestIsShorter(x: seq<byte>, max: nat)
    ensures |ScanTags(x, max).rest| <= |x|
    decreases |x|
  {
    hide NextTag;
    if NextTag(x, max).Complete? {
      ScanRestIsShorter(x[NextTag(x, max).total..], max);
    }
  }

  /** Whatever is pushed, the buffer never exceeds the limit, and never exceeds what was there plus the chunk. */
  lemma BufferStaysBounded(s: State, chunk: seq<byte>, max: nat)
    ensures |Pushed(s, chunk, max).state.buffer| <= max
    ensures |Pushed(s, chunk, max).state.buffer| <= |s.buffer| + |chunk|
  {
    var x := s.buffer + chunk;
    ScanRestIsShorter(x, max);
    if ParsePrefix(x).Ok? {
      ScanRestIsShorter(x[ParsePrefix(x).value.1..], max);
    }
  }

  // ---------- The demuxer inverts the encoder ----------

  function EncodeTags(tags: seq<FlvTag>): seq<byte> {
    if tags == [] then [] else tags[0].EncodeWithPreviousTagSize() + EncodeTags(tags[1..])
  }

  function TagsAsEvents(tags: seq<FlvTag>): seq<FlvDemuxEvent> {
    if tags == [] then [] else [TagEvent(tags[0])] + TagsAsEvents(tags[1..])
  }

  lemma TagLayout(tag: FlvTag)
    requires |tag.payload| <= FLV_TAG_DATA_LEN_MAX
    ensures var enc, raw := tag.Encode(), tag.EncodeWithPreviousTagSize();
            && |enc| == FLV_TAG_HEADER_BYTES + |tag.payload|
            && |raw| == FLV_TAG_OVERHEAD + |tag.payload|
            && raw[..FLV_TAG_HEADER_BYTES] == enc[..FLV_TAG_HEADER_BYTES]
            && raw[FLV_TAG_HEADER_BYTES..|enc|] == tag.payload
            && ReadBe32(raw, |enc|) == |enc|
  {
    hide ReadBe32;
    var enc, raw := tag.Encode(), tag.EncodeWithPreviousTagSize();
    assert tag.payload[..|tag.payload|] == tag.payload;
    assert raw[FLV_TAG_HEADER_BYTES..|enc|] == enc[FLV_TAG_HEADER_BYTES..] == tag.payload;
    assert raw[|enc|..|enc| + 4] == Be32(|enc|);
    ReadBe32At(raw, |enc|, |enc|);
  }

  lemma HeaderOfEncodedTag(tag: FlvTag)
    requires |tag.payload| <= FLV_TAG_DATA_LEN_MAX
    ensures var h := tag.Encode();
            && |h| >= FLV_TAG_HEADER_BYTES
            && TagTypeFromU8(h[0]) == Some(tag.tagType)
            && h[1] as int * 0x1_0000 + h[2] as int * 0x100 + h[3] as int == |tag.payload|
  {
    Digits24(|tag.payload|);
  }

  lemma TimestampOfEncodedTag(tag: FlvTag)
    ensures var h := tag.Encode();
            && |h| >= FLV_TAG_HEADER_BYTES
            && h[7] as int * 0x100_0000 + h[4] as int * 0x1_0000 + h[5] as int * 0x100 + h[6] as int == tag.timestampMs
  {
    Digits32(tag.timestampMs);
  }

  lemma ScanOfEncodedTag(tag: FlvTag, y: seq<byte>, max: nat)
    requires |tag.payload| <= FLV_TAG_DATA_LEN_MAX && |tag.payload| <= max
    ensures var raw := tag.EncodeWithPreviousTagSize() + y;
            NextTag(raw, max) == Complete([TagEvent(tag)], |tag.EncodeWithPreviousTagSize()|)
  {
    var enc := tag.EncodeWithPreviousTagSize();
    HeaderOfEncodedTag(tag);
    TimestampOfEncodedTag(tag);
    TagLayout(tag);
    var h := tag.Encode();
    assert forall i :: 0 <= i < FLV_TAG_HEADER_BYTES ==>
      enc[i] == enc[..FLV_TAG_HEADER_BYTES][i] == h[..FLV_TAG_HEADER_BYTES][i] == h[i];
    hide FlvTag.Encode, FlvTag.EncodeWithPreviousTagSize, ReadBe32;
    assert TagEvents(enc, tag.tagType) == [TagEvent(tag)];
    assert NextTag(enc, max) == Complete([TagEvent(tag)], |enc|);
    NextTagContinues(enc, y, max);
  }

  ghost predicate Encodable(tags: seq<FlvTag>, max: nat) {
    forall t :: t in tags ==> |t.payload| <= FLV_TAG_DATA_LEN_MAX && |t.payload| <= max
  }

  lemma {:induction false} ScanOfEncodedTags(tags: seq<FlvTag>, max: nat)
    requires Encodable(tags, max)
    ensures ScanTags(EncodeTags(tags), max) == Scan(TagsAsEvents(tags), [], None)
  {
    if tags != [] {
      hide NextTag;
      var enc, later := tags[0].EncodeWithPreviousTagSize(), EncodeTags(tags[1..]);
      ScanOfEncodedTags(tags[1..], max);
      ScanOfEncodedTag(tags[0], later, max);
      assert (enc + later)[|enc|..] == later;
    }
  }

  lemma ParseOfEncodedHeader(header: FlvHeader, y: seq<byte>)
    ensures ParsePrefix(header.Encode() + y) == Ok((header, FLV_FULL_HEADER_BYTES))
    ensures (header.Encode() + y)[FLV_FULL_HEADER_BYTES..] == y
  {
    var raw := header.Encode() + y;
    assert raw[..3] == [0x46, 0x4C, 0x56];
    assert raw[5..9] == Be32(FLV_FILE_HEADER_BYTES);
    ReadBe32At(raw, 5, FLV_FILE_HEADER_BYTES);
  }

  /** All chunks pushed in turn: the final state and the concatenated events, or the first error. */
  ghost function PushAll(s: State, chunks: seq<seq<byte>>, max: nat): Outcome
    decreases |chunks|
  {
    if chunks == [] then Outcome(s, Ok([]))
    else
      var first := Pushed(s, chunks[0], max);
      match first.result
      case Err(_) => first
      case Ok(events) => Prepend(events, PushAll(first.state, chunks[1..], max))
  }

  /** No push on the way exceeds the limit. */
  ghost predicate Fits(s: State, chunks: seq<seq<byte>>, max: nat)
    decreases |chunks|
  {
    chunks != [] ==>
      |s.buffer| + |chunks[0]| <= max && Fits(Pushed(s, chunks[0], max).state, chunks[1..], max)
  }

  /** Tags cut into chunks anywhere, with part of them already buffered. */
  lemma {:induction false} TagChunks(s: State, chunks: seq<seq<byte>>, max: nat)
    requires s.headerParsed && Fits(s, chunks, max)
    requires ScanTags(s.buffer, max) == Scan([], s.buffer, None)
    requires ScanTags(s.buffer + Flatten(chunks), max).error.None?
    ensures var whole := ScanTags(s.buffer + Flatten(chunks), max);
            PushAll(s, chunks, max) == Outcome(State(whole.rest, true), Ok(whole.events))
    decreases |chunks|
  {
    if chunks == [] {
      assert s.buffer + Flatten(chunks) == s.buffer;
    } else {
      var later := Flatten(chunks[1..]);
      var x := s.buffer + chunks[0];
      assert s.buffer + Flatten(chunks) == x + later;
      ScanContinues(x, later, max);
      var first := Pushed(s, chunks[0], max);
      assert first.state == State(ScanTags(x, max).rest, true);
      RestIsStuck(x, max);
      TagChunks(first.state, chunks[1..], max);
      assert [] + ScanTags(x, max).events == ScanTags(x, max).events;
    }
  }

  lemma {:induction false} RestIsStuck(x: seq<byte>, max: nat)
    requires ScanTags(x, max).error.None?
    ensures var rest := ScanTags(x, max).rest; ScanTags(rest, max) == Scan([], rest, None)
    decreases |x|
  {
    hide NextTag;
    if NextTag(x, max).Complete? {
      RestIsStuck(x[NextTag(x, max).total..], max);
    }
  }

  /** A header and tags, cut into chunks that never exceed the buffer: out come exactly the header and then the
      tags, with no size mismatch, and the buffer is empty at the end. */
  lemma {:induction false} ChunkedStreamInverts(s: State, chunks: seq<seq<byte>>, max: nat, header: FlvHeader,
                                                tags: seq<FlvTag>)
    requires Encodable(tags, max)
    requires !s.headerParsed && |s.buffer| < FLV_FULL_HEADER_BYTES && Fits(s, chunks, max)
    requires s.buffer + Flatten(chunks) == header.Encode() + EncodeTags(tags)
    ensures PushAll(s, chunks, max) == Outcome(State([], true), Ok([HeaderEvent(header)] + TagsAsEvents(tags)))
    decreases |chunks|
  {
    hide ScanTags, ParsePrefix, EncodeTags, FlvHeader.Encode;
    assert |s.buffer + Flatten(chunks)| >= FLV_FULL_HEADER_BYTES;
    if chunks == [] {
      assert false;
    }
    var later := Flatten(chunks[1..]);
    var x := s.buffer + chunks[0];
    assert s.buffer + Flatten(chunks) == x + later;
    var first := Pushed(s, chunks[0], max);
    if |x| < FLV_FULL_HEADER_BYTES {
      ChunkedStreamInverts(first.state, chunks[1..], max, header, tags);
      assert [] + ([HeaderEvent(header)] + TagsAsEvents(tags)) == [HeaderEvent(header)] + TagsAsEvents(tags);
    } else {
      PrefixSplits(x, later, header.Encode(), EncodeTags(tags));
      HeaderArrives(s, chunks, max, header, tags, x[FLV_FULL_HEADER_BYTES..]);
    }
  }

  lemma PrefixSplits(x: seq<byte>, later: seq<byte>, head: seq<byte>, tail: seq<byte>)
    requires x + later == head + tail && |x| >= |head|
    ensures x == head + x[|head|..] && x[|head|..] + later == tail
  {
    assert x == (x + later)[..|x|] == (head + tail)[..|x|];
    assert (x + later)[|head|..] == tail;
  }

  /** The chunk that completes the header also brings the first bytes `y` of the tags. */
  lemma HeaderArrives(s: State, chunks: seq<seq<byte>>, max: nat, header: FlvHeader, tags: seq<FlvTag>, y: seq<byte>)
    requires Encodable(tags, max) && chunks != []
    requires !s.headerParsed && Fits(s, chunks, max)
    requires s.buffer + chunks[0] == header.Encode() + y && y + Flatten(chunks[1..]) == EncodeTags(tags)
    ensures PushAll(s, chunks, max) == Outcome(State([], true), Ok([HeaderEvent(header)] + TagsAsEvents(tags)))
  {
    hide ScanTags, ParsePrefix, FlvHeader.Encode, EncodeTags, TagsAsEvents, Pushed;
    var later := Flatten(chunks[1..]);
    ScanOfEncodedTags(tags, max);
    ScanContinues(y, later, max);
    var scan := ScanTags(y, max);
    RestIsStuck(y, max);
    HeaderPushed(s, chunks, max, header, y);
    var first := Pushed(s, chunks[0], max);
    TagChunks(first.state, chunks[1..], max);
    assert [HeaderEvent(header)] + scan.events + ScanTags(scan.rest + later, max).events
        == [HeaderEvent(header)] + TagsAsEvents(tags);
  }

  lemma HeaderPushed(s: State, chunks: seq<seq<byte>>, max: nat, header: FlvHeader, y: seq<byte>)
    requires chunks != [] && !s.headerParsed && Fits(s, chunks, max) && s.buffer + chunks[0] == header.Encode() + y
    requires ScanTags(y, max).error.None?
    ensures var scan := ScanTags(y, max);
            Pushed(s, chunks[0], max) == Outcome(State(scan.rest, true), Ok([HeaderEvent(header)] + scan.events))
            && Fits(Pushed(s, chunks[0], max).state, chunks[1..], max)
  {
    hide ScanTags, ParsePrefix, FlvHeader.Encode;
    ParseOfEncodedHeader(header, y);
  }

  // ---------- Errors ----------

  /** After an error the demuxer starts afresh exactly when the buffer overflowed or a tag was bad. After a bad or
      incomplete file header it keeps the buffer. */
  lemma ErrorStartsAfreshIff(s: State, chunk: seq<byte>, max: nat)
    requires Pushed(s, chunk, max).result.Err?
    ensures Pushed(s, chunk, max).state == State([], false)
       <==> |s.buffer| + |chunk| > max || s.headerParsed || ParsePrefix(s.buffer + chunk).Ok?
    ensures var after := Pushed(s, chunk, max).state;
            after == State([], false) || after == State(s.buffer + chunk, false)
  {
    hide ScanTags, ParsePrefix;
  }

  /** A chunk at which it does not: thirteen bytes without the signature stay in the buffer, so that every header
      pushed after them is rejected too. */
  lemma BadSignatureIsKept(chunk: seq<byte>, max: nat)
    requires |chunk| + 13 <= max
    ensures var kept := State(Fill(13, 0), false);
            Pushed(State([], false), Fill(13, 0), max) == Outcome(kept, Err(InvalidHeaderSignature))
            && Pushed(kept, chunk, max) == Outcome(State(Fill(13, 0) + chunk, false), Err(InvalidHeaderSignature))
  {
    var bad := Fill(13, 0);
    assert [] + bad == bad;
    assert bad[0] == 0 && (bad + chunk)[..3][0] == 0 && bad[..3][0] == 0;
  }

  /** Since the buffer is kept, a header error undoes nothing: pushing the rest is as if nothing had been cut. */
  lemma HeaderErrorIsForgotten(s: State, a: seq<byte>, b: seq<byte>, max: nat)
    requires |s.buffer| + |a| + |b| <= max
    requires !s.headerParsed && ParsePrefix(s.buffer + a).Err? && Pushed(s, a, max).result.Err?
    ensures Pushed(Pushed(s, a, max).state, b, max) == Pushed(s, a + b, max)
  {
    hide ScanTags, ParsePrefix;
    assert s.buffer + (a + b) == s.buffer + a + b;
  }

  /** An acceptable header is reported as truncated exactly when at least thirteen bytes but not all of it have
      arrived. Pushing the rest then completes it. */
  lemma CutHeaderIsRecovered(raw: seq<byte>, cut: nat, max: nat)
    requires ParsePrefix(raw).Ok? && cut <= |raw| <= max
    ensures var consumed := ParsePrefix(raw).value.1;
            var first := Pushed(State([], false), raw[..cut], max);
            (FLV_FULL_HEADER_BYTES <= cut < consumed
             <==> first == Outcome(State(raw[..cut], false), Err(Truncated(consumed, cut))))
            && (cut < consumed ==> Pushed(first.state, raw[cut..], max) == Pushed(State([], false), raw, max))
  {
    var consumed := ParsePrefix(raw).value.1;
    var part := raw[..cut];
    assert [] + part == part && [] + raw == raw && part + raw[cut..] == raw;
    if FLV_FULL_HEADER_BYTES <= cut {
      PartOfHeader(raw, cut);
    }
    hide ScanTags, ParsePrefix;
  }

  lemma PartOfHeader(raw: seq<byte>, cut: nat)
    requires ParsePrefix(raw).Ok? && FLV_FULL_HEADER_BYTES <= cut <= |raw|
    ensures var consumed := ParsePrefix(raw).value.1;
            ParsePrefix(raw[..cut])
            == if cut < consumed then Err(Truncated(consumed, cut)) else Ok((ParsePrefix(raw).value.0, consumed))
  {
    var part := raw[..cut];
    assert part[..3] == raw[..3];
    assert ReadBe32(part, 5) == ReadBe32(raw, 5);
  }

  /** No chunk ends within the header's bytes from the thirteenth on; `n` bytes have arrived before. */
  ghost predicate NoCutInside(n: nat, chunks: seq<seq<byte>>, consumed: nat)
    decreases |chunks|
  {
    chunks != [] && n < consumed ==>
      !(FLV_FULL_HEADER_BYTES <= n + |chunks[0]| < consumed) && NoCutInside(n + |chunks[0]|, chunks[1..], consumed)
  }

  /** What a stream with an acceptable header and good tags comes to. */
  ghost predicate Acceptable(raw: seq<byte>, max: nat) {
    ParsePrefix(raw).Ok? && ScanTags(raw[ParsePrefix(raw).value.1..], max).error.None?
  }

  ghost function Accepted(raw: seq<byte>, max: nat): Outcome
    requires Acceptable(raw, max)
  {
    var (header, consumed) := ParsePrefix(raw).value;
    var scan := ScanTags(raw[consumed..], max);
    Outcome(State(scan.rest, true), Ok([HeaderEvent(header)] + scan.events))
  }

  /** The push that completes the header, and the tags after it. */
  lemma HeaderCompletes(s: State, chunks: seq<seq<byte>>, max: nat)
    requires chunks != [] && !s.headerParsed && Fits(s, chunks, max)
    requires Acceptable(s.buffer + Flatten(chunks), max)
    requires |s.buffer + chunks[0]| >= ParsePrefix(s.buffer + Flatten(chunks)).value.1
    ensures PushAll(s, chunks, max) == Accepted(s.buffer + Flatten(chunks), max)
  {
    hide ScanTags, ParsePrefix, Pushed;
    var raw, x, later := s.buffer + Flatten(chunks), s.buffer + chunks[0], Flatten(chunks[1..]);
    var (header, consumed) := ParsePrefix(raw).value;
    assert raw == x + later;
    assert raw[..|x|] == x;
    HeaderIsLong(raw);
    PartOfHeader(raw, |x|);
    var y := x[consumed..];
    assert raw[consumed..] == y + later;
    ScanContinues(y, later, max);
    RestIsStuck(y, max);
    var scan := ScanTags(y, max);
    assert Pushed(s, chunks[0], max) == Outcome(State(scan.rest, true), Ok([HeaderEvent(header)] + scan.events)) by {
      PushedHeader(s, chunks[0], max);
    }
    TagChunks(State(scan.rest, true), chunks[1..], max);
    var rest := ScanTags(scan.rest + later, max);
    assert [HeaderEvent(header)] + scan.events + rest.events == [HeaderEvent(header)] + (scan.events + rest.events);
  }

  lemma PushedHeader(s: State, chunk: seq<byte>, max: nat)
    requires !s.headerParsed && |s.buffer| + |chunk| <= max && Acceptable(s.buffer + chunk, max)
    ensures Pushed(s, chunk, max) == Accepted(s.buffer + chunk, max)
  {
    hide ScanTags;
  }

  lemma HeaderIsLong(raw: seq<byte>)
    requires ParsePrefix(raw).Ok?
    ensures FLV_FULL_HEADER_BYTES <= ParsePrefix(raw).value.1 <= |raw|
  {
  }

  /** A push that does not complete the header: nothing yet, or an error, and the buffer is kept. */
  lemma HeaderWaits(s: State, chunk: seq<byte>, later: seq<byte>, max: nat)
    requires !s.headerParsed && |s.buffer| + |chunk| <= max && ParsePrefix(s.buffer + chunk + later).Ok?
    requires |s.buffer + chunk| < ParsePrefix(s.buffer + chunk + later).value.1
    ensures var x := s.buffer + chunk;
            Pushed(s, chunk, max).state == State(x, false)
            && if |x| < FLV_FULL_HEADER_BYTES then Pushed(s, chunk, max).result == Ok([])
               else Pushed(s, chunk, max).result.Err?
  {
    hide ScanTags, ParsePrefix;
    var x := s.buffer + chunk;
    assert (x + later)[..|x|] == x;
    if |x| >= FLV_FULL_HEADER_BYTES {
      PartOfHeader(x + later, |x|);
    }
  }

  /** A stream with an acceptable header, however long, and good tags, cut into chunks that fit: it is accepted without
      an error if and only if no chunk ends within the header's bytes from the thirteenth on. */
  lemma {:induction false} ChunksAcceptedIff(s: State, chunks: seq<seq<byte>>, max: nat)
    requires !s.headerParsed && |s.buffer| < FLV_FULL_HEADER_BYTES && Fits(s, chunks, max)
    requires Acceptable(s.buffer + Flatten(chunks), max)
    ensures var raw := s.buffer + Flatten(chunks);
            (PushAll(s, chunks, max).result.Ok? <==> NoCutInside(|s.buffer|, chunks, ParsePrefix(raw).value.1))
            && (PushAll(s, chunks, max).result.Ok? ==> PushAll(s, chunks, max) == Accepted(raw, max))
    decreases |chunks|
  {
    hide ScanTags, ParsePrefix, Pushed;
    var raw := s.buffer + Flatten(chunks);
    HeaderIsLong(raw);
    if chunks == [] {
      assert false;
    }
    var x, later := s.buffer + chunks[0], Flatten(chunks[1..]);
    assert raw == x + later;
    if |x| >= ParsePrefix(raw).value.1 {
      HeaderCompletes(s, chunks, max);
    } else {
      HeaderWaits(s, chunks[0], later, max);
      if |x| < FLV_FULL_HEADER_BYTES {
        ChunksAcceptedIff(State(x, false), chunks[1..], max);
        PrependNothing(PushAll(State(x, false), chunks[1..], max));
      }
    }
  }

  lemma PrependNothing(o: Outcome)
    ensures Prepend([], o) == o
  {
    if o.result.Ok? {
      assert [] + o.result.value == o.result.value;
    }
  }

  /** All chunks pushed in turn, going on after errors: the final state and all events. */
  ghost function PushOn(s: State, chunks: seq<seq<byte>>, max: nat): (State, seq<FlvDemuxEvent>)
    decreases |chunks|
  {
    if chunks == [] then (s, [])
    else
      var first := Pushed(s, chunks[0], max);
      var (last, events) := PushOn(first.state, chunks[1..], max);
      (last, (if first.result.Ok? then first.result.value else []) + events)
  }

  lemma {:induction false} PushOnAccepted(s: State, chunks: seq<seq<byte>>, max: nat)
    requires PushAll(s, chunks, max).result.Ok?
    ensures PushOn(s, chunks, max) == (PushAll(s, chunks, max).state, PushAll(s, chunks, max).result.value)
    decreases |chunks|
  {
    hide Pushed;
    if chunks != [] {
      PushOnAccepted(Pushed(s, chunks[0], max).state, chunks[1..], max);
    }
  }

  /** Wherever the chunks end, a caller who goes on after the errors gets the header and all tags. */
  lemma {:induction false} ErrorsAreForgotten(s: State, chunks: seq<seq<byte>>, max: nat)
    requires !s.headerParsed && Fits(s, chunks, max) && Acceptable(s.buffer + Flatten(chunks), max)
    requires |s.buffer| < ParsePrefix(s.buffer + Flatten(chunks)).value.1
    ensures var accepted := Accepted(s.buffer + Flatten(chunks), max);
            PushOn(s, chunks, max) == (accepted.state, accepted.result.value)
    decreases |chunks|
  {
    hide ScanTags, ParsePrefix, Pushed;
    var raw := s.buffer + Flatten(chunks);
    HeaderIsLong(raw);
    if chunks == [] {
      assert false;
    }
    var x, later := s.buffer + chunks[0], Flatten(chunks[1..]);
    assert raw == x + later;
    if |x| >= ParsePrefix(raw).value.1 {
      HeaderCompletes(s, chunks, max);
      PushOnAccepted(s, chunks, max);
    } else {
      HeaderWaits(s, chunks[0], later, max);
      ErrorsAreForgotten(State(x, false), chunks[1..], max);
      var (last, events) := PushOn(State(x, false), chunks[1..], max);
      assert [] + events == events;
    }
  }
}
