/** FLV as any writer may make it: headers with extra bytes, and tags with any stream id and any trailing size. */
module FlvFormat {
  import opened Bytes
  import opened Flv

  function Be24(n: nat): (s: seq<byte>)
    requires n < 0x100_0000
    ensures |s| == 3
  {
    [n / 0x1_0000, n / 0x100 % 0x100, n % 0x100]
  }

  /** A tag as it stands in a file: its trailer is meant to be its own size. */
  datatype RawTag = RawTag(kind: byte, timestampMs: u32, streamId: nat, payload: seq<byte>, trailer: u32)

  predicate Writable(t: RawTag) {
    |t.payload| < 0x100_0000 && t.streamId < 0x100_0000
  }

  /** The low 24 bits of the time stand before its high eight. */
  function WriteTag(t: RawTag): seq<byte>
    requires Writable(t)
  {
    [t.kind] + Be24(|t.payload|) + Be24(t.timestampMs % 0x100_0000) + [t.timestampMs / 0x100_0000] + Be24(t.streamId)
    + t.payload + Be32(t.trailer)
  }

  function KindOf(kind: byte): Option<FlvTagType> {
    match kind
    case 8 => Some(Audio)
    case 9 => Some(Video)
    case 18 => Some(Script)
    case _ => None
  }

  /** What the demuxer is to say of a tag: the tag itself, and its trailing size if that is not the size of header
      and payload. */
  function Said(t: RawTag): seq<FlvDemuxEvent>
    requires Writable(t) && KindOf(t.kind).Some?
  {
    [TagEvent(FlvTag(KindOf(t.kind).value, t.timestampMs, t.payload))]
    + if t.trailer == 11 + |t.payload| then [] else [PreviousTagSizeMismatch(11 + |t.payload|, t.trailer)]
  }

  lemma TagIsLaidOut(t: RawTag, rest: seq<byte>)
    requires Writable(t)
    ensures var raw := WriteTag(t) + rest;
            && |raw| >= 15 + |t.payload| && raw[0] == t.kind && DeclaredLength(raw) == |t.payload|
            && raw[7] as int * 0x100_0000 + raw[4] as int * 0x1_0000 + raw[5] as int * 0x100 + raw[6] as int
               == t.timestampMs
            && raw[11..11 + |t.payload|] == t.payload && ReadBe32(raw, 11 + |t.payload|) == t.trailer
            && raw[15 + |t.payload|..] == rest
  {
    hide Be32, ReadBe32;
    var n, raw := |t.payload|, WriteTag(t) + rest;
    var size, low, high, id := Be24(n), Be24(t.timestampMs % 0x100_0000), t.timestampMs / 0x100_0000, Be24(t.streamId);
    var head := [t.kind] + size + low + [high] + id;
    assert raw == head + (t.payload + (Be32(t.trailer) + rest));
    assert raw[1] == size[0] && raw[2] == size[1] && raw[3] == size[2];
    assert raw[4] == low[0] && raw[5] == low[1] && raw[6] == low[2] && raw[7] == high;
    Digits24(n);
    Digits24(t.timestampMs % 0x100_0000);
    assert raw[11 + n..15 + n] == Be32(t.trailer);
    ReadBe32At(raw, 11 + n, t.trailer);
  }

  /** A complete tag is taken for what it says, with its trailing size compared. */
  lemma AnyTagIsRead(t: RawTag, rest: seq<byte>, max: nat)
    requires Writable(t)
    ensures NextTag(WriteTag(t) + rest, max)
         == if KindOf(t.kind).None? then Bad(InvalidTagType(t.kind))
            else if |t.payload| > max then Bad(TagPayloadTooLarge(|t.payload|, max))
            else Complete(Said(t), 15 + |t.payload|)
  {
    hide WriteTag, DeclaredLength, ReadBe32;
    TagIsLaidOut(t, rest);
  }

  ghost predicate Acceptable(tags: seq<RawTag>, max: nat) {
    forall i :: 0 <= i < |tags| ==> Writable(tags[i]) && KindOf(tags[i].kind).Some? && |tags[i].payload| <= max
  }

  function WriteTags(tags: seq<RawTag>): seq<byte>
    requires forall i :: 0 <= i < |tags| ==> Writable(tags[i])
  {
    if tags == [] then [] else WriteTag(tags[0]) + WriteTags(tags[1..])
  }

  function AllSaid(tags: seq<RawTag>, max: nat): seq<FlvDemuxEvent>
    requires Acceptable(tags, max)
  {
    if tags == [] then [] else Said(tags[0]) + AllSaid(tags[1..], max)
  }

  /** Any tags, followed by anything: the demuxer says what each of them is, and goes on with what follows. */
  lemma {:induction false} AnyTagsAreRead(tags: seq<RawTag>, rest: seq<byte>, max: nat)
    requires Acceptable(tags, max)
    ensures var later := ScanTags(rest, max);
            ScanTags(WriteTags(tags) + rest, max) == later.(events := AllSaid(tags, max) + later.events)
  {
    hide WriteTag, NextTag, Said;
    if tags == [] {
      assert [] + rest == rest;
      assert [] + ScanTags(rest, max).events == ScanTags(rest, max).events;
    } else {
      var first, tail := WriteTag(tags[0]), WriteTags(tags[1..]) + rest;
      assert WriteTags(tags) + rest == first + tail;
      AnyTagIsRead(tags[0], tail, max);
      AnyTagsAreRead(tags[1..], rest, max);
      TagIsLaidOut(tags[0], tail);
      assert (first + tail)[15 + |tags[0].payload|..] == tail;
      var later := ScanTags(rest, max).events;
      assert Said(tags[0]) + (AllSaid(tags[1..], max) + later) == AllSaid(tags, max) + later;
    }
  }

  // ---------- Headers ----------

  /** A file header as any writer may make it: all flag bits, extra bytes before the first tag, any first size. */
  function WriteHeader(version: byte, flags: byte, extra: seq<byte>, trailer: u32): seq<byte>
    requires |extra| < 0x1000_0000
  {
    [0x46, 0x4C, 0x56, version, flags] + Be32(9 + |extra|) + extra + Be32(trailer)
  }

  /** The header says audio by bit 2 and video by bit 0, and tags begin after the extra bytes and a size. */
  lemma AnyHeaderIsRead(version: byte, flags: byte, extra: seq<byte>, trailer: u32, rest: seq<byte>)
    requires |extra| < 0x1000_0000
    ensures var raw := WriteHeader(version, flags, extra, trailer) + rest;
            && ParsePrefix(raw)
               == (if version != 1 then Err(UnsupportedHeaderVersion(version))
                   else Ok((FlvHeader(flags / 4 % 2 == 1, flags % 2 == 1), 13 + |extra|)))
            && raw[13 + |extra|..] == rest
  {
    hide Be32, ReadBe32;
    var raw := WriteHeader(version, flags, extra, trailer) + rest;
    var head := [0x46, 0x4C, 0x56, version, flags];
    assert raw == head + (Be32(9 + |extra|) + (extra + (Be32(trailer) + rest)));
    assert raw[..3] == head[..3] && raw[3] == head[3] && raw[4] == head[4];
    assert raw[5..9] == Be32(9 + |extra|);
    ReadBe32At(raw, 5, 9 + |extra|);
  }

  /** Why a header is refused: it is cut off, or has another signature or version, or places its tags within itself. */
  lemma HeaderIsRefused(raw: seq<byte>)
    ensures |raw| < 9 ==> ParsePrefix(raw) == Err(Truncated(9, |raw|))
    ensures |raw| >= 9 && raw[..3] != [0x46, 0x4C, 0x56] ==> ParsePrefix(raw) == Err(InvalidHeaderSignature)
    ensures |raw| >= 9 && raw[..5] == [0x46, 0x4C, 0x56, 1, raw[4]] && ReadBe32(raw, 5) < 9 ==>
              ParsePrefix(raw) == Err(InvalidHeaderDataOffset(ReadBe32(raw, 5)))
  {
    hide ReadBe32;
    if |raw| >= 9 && raw[..5] == [0x46, 0x4C, 0x56, 1, raw[4]] {
      assert raw[..3] == raw[..5][..3] && raw[3] == raw[..5][3];
    }
  }

  /** A header cut off before its first tag says how many bytes it needs. */
  lemma CutHeaderIsTruncated(flags: byte, extra: seq<byte>, trailer: u32, n: nat)
    requires |extra| < 0x1000_0000 && 9 <= n < 13 + |extra|
    ensures |WriteHeader(1, flags, extra, trailer)| == 13 + |extra|
    ensures ParsePrefix(WriteHeader(1, flags, extra, trailer)[..n]) == Err(Truncated(13 + |extra|, n))
  {
    hide Be32, ReadBe32;
    var whole := WriteHeader(1, flags, extra, trailer);
    var raw, head := whole[..n], [0x46, 0x4C, 0x56, 1, flags];
    assert whole == head + (Be32(9 + |extra|) + (extra + Be32(trailer)));
    assert raw[..3] == head[..3] && raw[3] == head[3];
    assert raw[5..9] == whole[5..9];
    assert raw[5..9] == Be32(9 + |extra|);
    ReadBe32At(raw, 5, 9 + |extra|);
  }

  /** A chunk that would overfill the buffer is refused with the size it would have, and everything is forgotten. */
  lemma OverfullIsRefused(s: State, chunk: seq<byte>, max: nat)
    requires |s.buffer + chunk| > max
    ensures Pushed(s, chunk, max) == Outcome(State([], false), Err(DemuxBufferTooLarge(|s.buffer + chunk|, max)))
  {
  }

  /** A whole file from any writer, pushed at once to a fresh demuxer. */
  lemma AnyFileIsRead(flags: byte, extra: seq<byte>, trailer: u32, tags: seq<RawTag>, max: nat)
    requires |extra| < 0x1000_0000 && Acceptable(tags, max)
    requires |WriteHeader(1, flags, extra, trailer) + WriteTags(tags)| <= max
    ensures Pushed(State([], false), WriteHeader(1, flags, extra, trailer) + WriteTags(tags), max)
         == Outcome(State([], true),
                    Ok([HeaderEvent(FlvHeader(flags / 4 % 2 == 1, flags % 2 == 1))] + AllSaid(tags, max)))
  {
    var header, body := WriteHeader(1, flags, extra, trailer), WriteTags(tags);
    assert |header| >= 13;
    hide WriteHeader, ParsePrefix, ScanTags, AllSaid, WriteTags;
    AnyHeaderIsRead(1, flags, extra, trailer, body);
    AnyTagsAreRead(tags, [], max);
    assert body + [] == body && [] + (header + body) == header + body;
    NothingToScan(max);
    assert AllSaid(tags, max) + [] == AllSaid(tags, max);
  }

  lemma NothingToScan(max: nat)
    ensures ScanTags([], max) == Scan([], [], None)
  {
  }

  // ---------- What is written ----------

  lemma LowDigits(n: u32)
    ensures n % 0x100_0000 / 0x1_0000 == n / 0x1_0000 % 0x100
    ensures n % 0x100_0000 / 0x100 % 0x100 == n / 0x100 % 0x100 && n % 0x100_0000 % 0x100 == n % 0x100
  {
    var q: int, r: int := n / 0x100_0000, n % 0x100_0000;
    DropHigh(n, q, r, 0x100, 0x1_0000);
    DropHigh(n, q, r, 0x1_0000, 0x100);
    DropHigh(n, q, r, 0x100_0000, 1);
    assert (q * 0x1_0000 + r / 0x100) % 0x100 == r / 0x100 % 0x100;
    assert (q * 0x100_0000 + r) % 0x100 == r % 0x100;
  }

  lemma DropHigh(n: int, q: int, r: int, a: nat, b: nat)
    requires (a, b) in {(0x100, 0x1_0000), (0x1_0000, 0x100), (0x100_0000, 1)}
    requires n == q * 0x100_0000 + r
    ensures n / b == q * a + r / b
  {
  }

  /** The tags the encoder writes are those with stream id zero and their own size behind them; a payload is cut to
      the longest that 24 bits can declare. */
  lemma EncodedTagIs(tag: FlvTag)
    ensures var kind := match tag.tagType case Audio => 8 case Video => 9 case Script => 18;
            var payload := if |tag.payload| < 0x100_0000 then tag.payload else tag.payload[..0xFF_FFFF];
            tag.EncodeWithPreviousTagSize()
            == WriteTag(RawTag(kind, tag.timestampMs, 0, payload, 11 + |payload|))
  {
    hide Be32;
    LowDigits(tag.timestampMs);
    var payload := if |tag.payload| < 0x100_0000 then tag.payload else tag.payload[..0xFF_FFFF];
    var n, ts: int := |payload|, tag.timestampMs;
    assert tag.payload[..n] == payload;
    assert Be24(n) == [n / 0x1_0000, n / 0x100 % 0x100, n % 0x100];
    assert Be24(ts % 0x100_0000) == [ts / 0x1_0000 % 0x100, ts / 0x100 % 0x100, ts % 0x100];
    assert Be24(0) == [0, 0, 0];
    hide Be24;
    assert |tag.Encode()| == 11 + n;
  }

  /** The header the encoder writes. */
  lemma EncodedHeaderIs(hasAudio: bool, hasVideo: bool)
    ensures var flags := (if hasAudio then 4 else 0) + (if hasVideo then 1 else 0);
            FlvHeader(hasAudio, hasVideo).Encode() == WriteHeader(1, flags, [], 0)
  {
  }
}
