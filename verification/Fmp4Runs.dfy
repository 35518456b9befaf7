/** Fragmented MP4 as other writers make it: track runs with any of their optional fields. */
module Fmp4Runs {
  import opened Bytes
  import opened Fmp4Demux

  // ---------- Track runs ----------

  /** Which optional fields a track run has. */
  datatype RunForm = RunForm(version: byte, dataOffset: Option<u32>, firstFlags: Option<u32>, durations: bool,
                             sizes: bool, flags: bool, offsets: bool)

  /** One sample as a writer knows it; offsets are two's complement words. */
  datatype RunEntry = RunEntry(duration: u32, size: u32, flags: u32, offset: u32)

  function Word(present: bool, v: u32): (s: seq<byte>)
    ensures |s| == if present then 4 else 0
  {
    if present then Be32(v) else []
  }

  function OptionWord(v: Option<u32>): (s: seq<byte>)
    ensures |s| == if v.Some? then 4 else 0
  {
    if v.Some? then Be32(v.value) else []
  }

  /** The 24 flag bits of a run. */
  function RunFlags(f: RunForm): nat {
    (if f.dataOffset.Some? then 0x1 else 0) + (if f.firstFlags.Some? then 0x4 else 0)
    + (if f.durations then 0x100 else 0) + (if f.sizes then 0x200 else 0)
    + (if f.flags then 0x400 else 0) + (if f.offsets then 0x800 else 0)
  }

  function WriteEntry(f: RunForm, e: RunEntry): seq<byte> {
    Word(f.durations, e.duration) + Word(f.sizes, e.size) + Word(f.flags, e.flags) + Word(f.offsets, e.offset)
  }

  function WriteEntries(f: RunForm, entries: seq<RunEntry>): seq<byte> {
    if entries == [] then [] else WriteEntry(f, entries[0]) + WriteEntries(f, entries[1..])
  }

  function WriteHead(f: RunForm, count: u32): seq<byte> {
    Be32(f.version * 0x100_0000 + RunFlags(f)) + Be32(count) + OptionWord(f.dataOffset) + OptionWord(f.firstFlags)
  }

  function WriteRun(f: RunForm, count: u32, entries: seq<RunEntry>): seq<byte> {
    WriteHead(f, count) + WriteEntries(f, entries)
  }

  /** What a reader is to make of a sample: absent fields are zero, and the first sample has the flags of the run
      when the run has them and its entries have none. */
  function ReadBack(f: RunForm, e: RunEntry, isFirst: bool): TrunSample {
    TrunSample(if f.durations then e.duration else 0, if f.sizes then e.size else 0,
               if f.flags then e.flags else if isFirst && f.firstFlags.Some? then f.firstFlags.value else 0,
               if !f.offsets then 0 else if e.offset < 0x8000_0000 then e.offset else e.offset - 0x1_0000_0000)
  }

  function AllReadBack(f: RunForm, entries: seq<RunEntry>, isFirst: bool): seq<TrunSample> {
    if entries == [] then [] else [ReadBack(f, entries[0], isFirst)] + AllReadBack(f, entries[1..], false)
  }

  lemma FlagsAreSeen(f: RunForm)
    ensures var flags := RunFlags(f);
            && (HasFlag(flags, 0x1) <==> f.dataOffset.Some?) && (HasFlag(flags, 0x4) <==> f.firstFlags.Some?)
            && (HasFlag(flags, 0x100) <==> f.durations) && (HasFlag(flags, 0x200) <==> f.sizes)
            && (HasFlag(flags, 0x400) <==> f.flags) && (HasFlag(flags, 0x800) <==> f.offsets)
            && flags < 0x100_0000
  {
  }

  /** Four words one after the other, each of them there or not, are found behind those that are there. */
  lemma WordsAreRead(data: seq<byte>, pos: nat, a: seq<byte>, b: seq<byte>, c: seq<byte>, d: seq<byte>)
    requires pos <= |data| && a + b + c + d <= data[pos..]
    ensures pos + |a| + |b| + |c| + |d| <= |data|
    ensures data[pos..pos + |a|] == a && data[pos + |a|..pos + |a| + |b|] == b
    ensures data[pos + |a| + |b|..pos + |a| + |b| + |c|] == c
    ensures data[pos + |a| + |b| + |c|..pos + |a| + |b| + |c| + |d|] == d
  {
    var all := a + b + c + d;
    assert data[pos..pos + |all|] == all;
    var s := data[pos..pos + |all|];
    assert s[..|a|] == a && s[|a|..|a| + |b|] == b;
    assert s[|a| + |b|..|a| + |b| + |c|] == c && s[|a| + |b| + |c|..] == d;
  }

  lemma EntryIsRead(f: RunForm, e: RunEntry, data: seq<byte>, pos: nat, firstFlags: u32, isFirst: bool)
    requires pos <= |data| && WriteEntry(f, e) <= data[pos..]
    requires firstFlags == if f.firstFlags.Some? then f.firstFlags.value else 0
    ensures |WriteEntry(f, e)| == EntrySize(RunFlags(f)) && pos + EntrySize(RunFlags(f)) <= |data|
    ensures EntryAt(data, pos, RunFlags(f), firstFlags, isFirst) == ReadBack(f, e, isFirst)
  {
    FlagsAreSeen(f);
    hide RunFlags, HasFlag, ReadBe32, Be32;
    var p1 := pos + if f.durations then 4 else 0;
    var p2 := p1 + if f.sizes then 4 else 0;
    var p3 := p2 + if f.flags then 4 else 0;
    WordsAreRead(data, pos, Word(f.durations, e.duration), Word(f.sizes, e.size), Word(f.flags, e.flags),
                 Word(f.offsets, e.offset));
    if f.durations {
      ReadBe32At(data, pos, e.duration);
    }
    if f.sizes {
      ReadBe32At(data, p1, e.size);
    }
    if f.flags {
      ReadBe32At(data, p2, e.flags);
    }
    if f.offsets {
      ReadBe32At(data, p3, e.offset);
    }
  }

  /** All entries are there, or more are announced than can be read. */
  ghost predicate Announces(f: RunForm, count: nat, entries: nat, tail: nat) {
    count == entries || (count > entries && tail < EntrySize(RunFlags(f)))
  }

  lemma FirstOfRest(data: seq<byte>, pos: nat, first: seq<byte>, rest: seq<byte>)
    requires pos <= |data| && data[pos..] == first + rest
    ensures first <= data[pos..] && pos + |first| <= |data| && data[pos + |first|..] == rest
  {
    assert data[pos + |first|..] == data[pos..][|first|..];
  }

  lemma {:induction false} EntriesAreRead(f: RunForm, entries: seq<RunEntry>, tail: seq<byte>, data: seq<byte>,
                                          pos: nat, firstFlags: u32, isFirst: bool, count: nat)
    requires pos <= |data| && data[pos..] == WriteEntries(f, entries) + tail
    requires Announces(f, count, |entries|, |tail|)
    requires firstFlags == if f.firstFlags.Some? then f.firstFlags.value else 0
    ensures Entries(data, pos, RunFlags(f), firstFlags, isFirst, count) == AllReadBack(f, entries, isFirst)
    decreases |entries|
  {
    hide WriteEntry, EntryAt, ReadBack, RunFlags, EntrySize;
    if entries == [] {
      assert |data| == pos + |tail|;
    } else {
      var first, rest := WriteEntry(f, entries[0]), WriteEntries(f, entries[1..]);
      assert data[pos..] == first + (rest + tail);
      hide WriteEntries;
      FirstOfRest(data, pos, first, rest + tail);
      EntryIsRead(f, entries[0], data, pos, firstFlags, isFirst);
      EntriesAreRead(f, entries[1..], tail, data, pos + |first|, firstFlags, false, count - 1);
    }
  }

  lemma HeadIsRead(f: RunForm, count: u32, rest: seq<byte>)
    ensures var data, p1 := WriteHead(f, count) + rest, 8 + if f.dataOffset.Some? then 4 else 0;
            var p2 := p1 + if f.firstFlags.Some? then 4 else 0;
            && p2 <= |data| && data[p2..] == rest
            && ReadBe32(data, 0) % 0x100_0000 == RunFlags(f) && ReadBe32(data, 4) == count
            && (f.dataOffset.Some? ==> ReadBe32(data, 8) == f.dataOffset.value)
            && (f.firstFlags.Some? ==> ReadBe32(data, p1) == f.firstFlags.value)
  {
    FlagsAreSeen(f);
    hide RunFlags, ReadBe32, Be32;
    var data, p1 := WriteHead(f, count) + rest, 8 + if f.dataOffset.Some? then 4 else 0;
    WordsAreRead(data, 0, Be32(f.version * 0x100_0000 + RunFlags(f)), Be32(count), OptionWord(f.dataOffset),
                 OptionWord(f.firstFlags));
    ReadBe32At(data, 0, f.version * 0x100_0000 + RunFlags(f));
    ReadBe32At(data, 4, count);
    if f.dataOffset.Some? {
      ReadBe32At(data, 8, f.dataOffset.value);
    }
    if f.firstFlags.Some? {
      ReadBe32At(data, p1, f.firstFlags.value);
    }
  }

  /** A run of any form is read back field by field, whatever follows it; when more entries are announced than are
      there, those that are there are read. */
  lemma AnyRunIsRead(f: RunForm, count: u32, entries: seq<RunEntry>, tail: seq<byte>)
    requires Announces(f, count, |entries|, |tail|)
    ensures ParseTrun(WriteRun(f, count, entries) + tail)
         == (if f.dataOffset.Some? then Signed32(f.dataOffset.value) else 0, AllReadBack(f, entries, true))
  {
    FlagsAreSeen(f);
    hide RunFlags, HasFlag, WriteHead, WriteEntries, ReadBack, ReadBe32, Entries, Signed32;
    var rest := WriteEntries(f, entries) + tail;
    var data := WriteRun(f, count, entries) + tail;
    assert data == WriteHead(f, count) + rest;
    HeadIsRead(f, count, rest);
    var firstFlags := if f.firstFlags.Some? then f.firstFlags.value else 0;
    var p2 := 8 + (if f.dataOffset.Some? then 4 else 0) + if f.firstFlags.Some? then 4 else 0;
    EntriesAreRead(f, entries, tail, data, p2, firstFlags, true, count);
  }

  const FIRST_FLAGS_FORM := RunForm(0, Some(108), Some(0x200_0000), true, true, false, false)

  lemma FirstFlagsHead()
    ensures WriteHead(FIRST_FLAGS_FORM, 1) == [0, 0, 3, 5] + [0, 0, 0, 1] + [0, 0, 0, 108] + [2, 0, 0, 0]
  {
    assert RunFlags(FIRST_FLAGS_FORM) == 0x305;
  }

  lemma FirstFlagsEntry()
    ensures var e := RunEntry(3000, 4, 0, 0);
            && WriteEntries(FIRST_FLAGS_FORM, [e]) == [0, 0, 0x0B, 0xB8] + [0, 0, 0, 4]
            && AllReadBack(FIRST_FLAGS_FORM, [e], true) == [TrunSample(3000, 4, 0x200_0000, 0)]
  {
    assert WriteEntries(FIRST_FLAGS_FORM, []) == [];
  }

  /** A run with one sample of duration 3000 and size 4, and with flags for its first sample. */
  lemma RunWithFirstFlags()
    ensures ParseTrun([0, 0, 3, 5] + [0, 0, 0, 1] + [0, 0, 0, 108] + [2, 0, 0, 0]
                      + ([0, 0, 0x0B, 0xB8] + [0, 0, 0, 4]) + [])
         == (108, [TrunSample(3000, 4, 0x200_0000, 0)])
  {
    hide WriteHead, WriteEntries, AllReadBack, ParseTrun;
    FirstFlagsHead();
    FirstFlagsEntry();
    AnyRunIsRead(FIRST_FLAGS_FORM, 1, [RunEntry(3000, 4, 0, 0)], []);
  }
}
