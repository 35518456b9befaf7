/** MPEG transport streams: the program clock and the random-access marks, read back from the packets of a run. */
module TsClock {
  import opened Bytes
  import opened TsCommon
  import opened TsMux
  import opened TsTables
  import opened TsRoundTrip
  import D = TsDemux

  // ---------- Reading a packet ----------

  /** A base of 33 bits at 90 kHz and an extension of nine bits at 27 MHz, with six reserved bits between them. */
  datatype Clock = Clock(base: nat, extension: nat)

  function ReadClock(s: seq<byte>, at: nat): Clock
    requires at + 6 <= |s|
  {
    var b0: int, b1: int, b2: int, b3: int, b4: int, b5: int :=
      s[at], s[at + 1], s[at + 2], s[at + 3], s[at + 4], s[at + 5];
    Clock(b0 * 0x200_0000 + b1 * 0x2_0000 + b2 * 0x200 + b3 * 2 + b4 / 0x80, b4 % 2 * 0x100 + b5)
  }

  /** What the adaptation field of a packet says; `others` are the flags for anything else. */
  datatype Marks = Marks(randomAccess: bool, clock: Option<Clock>, others: nat)

  const NO_MARKS := Marks(false, None, 0)

  function ReadMarks(pkt: seq<byte>): Marks
    requires |pkt| == PACKET_SIZE
  {
    if pkt[3] / 0x20 % 2 == 0 then NO_MARKS else ReadField(pkt[4..])
  }

  /** A field of length zero is stuffing. */
  function ReadField(s: seq<byte>): Marks
    requires |s| == PACKET_SIZE - 4
  {
    if s[0] == 0 then NO_MARKS
    else
      var flags: int := s[1];
      Marks(flags / 0x40 % 2 == 1, if flags / 0x10 % 2 == 1 then Some(ReadClock(s, 2)) else None,
            flags / 0x80 * 0x80 + flags / 0x20 % 2 * 0x20 + flags % 0x10)
  }

  // ---------- One packet ----------

  lemma Shifts(v: nat)
    ensures v / 0x200 == v / 2 / 0x100 && v / 0x2_0000 == v / 0x200 / 0x100
    ensures v / 0x200_0000 == v / 0x2_0000 / 0x100 && v / WRAP == v / 0x200_0000 / 0x100
  {
  }

  lemma ClockDigits(v: nat)
    ensures v / 0x200_0000 % 0x100 * 0x200_0000 + v / 0x2_0000 % 0x100 * 0x2_0000 + v / 0x200 % 0x100 * 0x200
            + v / 2 % 0x100 * 2 + v % 2
         == v % WRAP
  {
    Shifts(v);
    Digits(v, v / 2, v / 0x200, v / 0x2_0000, v / 0x200_0000, v / WRAP);
  }

  lemma Digits(v: nat, v1: nat, v2: nat, v3: nat, v4: nat, v5: nat)
    requires v1 == v / 2 && v2 == v1 / 0x100 && v3 == v2 / 0x100 && v4 == v3 / 0x100 && v5 == v4 / 0x100
    requires v5 == v / WRAP
    ensures v4 % 0x100 * 0x200_0000 + v3 % 0x100 * 0x2_0000 + v2 % 0x100 * 0x200 + v1 % 0x100 * 2 + v % 2 == v % WRAP
  {
    assert v == v5 * WRAP + v % WRAP;
  }

  /** The six bytes give the low 33 bits of the clock, and no extension. */
  lemma ClockComesBack(v: u64, s: seq<byte>, at: nat)
    requires at + 6 <= |s| && s[at..at + 6] == PcrBytes(v)
    ensures ReadClock(s, at) == Clock(v % WRAP, 0)
  {
    var e := s[at..at + 6];
    ClockDigits(v);
    assert s[at] == e[0] && s[at + 1] == e[1] && s[at + 2] == e[2] && s[at + 3] == e[3] && s[at + 4] == e[4];
    assert s[at + 5] == e[5];
  }

  /** What `PesPacket` is to say: the marks of the first packet of a unit, and none elsewhere. */
  function MarksSent(first: bool, randomAccess: bool, pcr: Option<u64>): Marks {
    if !first then NO_MARKS
    else Marks(randomAccess, if pcr.Some? then Some(Clock(pcr.value % WRAP, 0)) else None, 0)
  }

  lemma WantedFieldIsRead(randomAccess: bool, pcr: Option<u64>, size: nat, tail: seq<byte>)
    requires size > 0 && NeedsField(true, randomAccess, pcr)
    requires |Field(true, randomAccess, pcr, size) + tail| == PACKET_SIZE - 4
    ensures ReadField(Field(true, randomAccess, pcr, size) + tail) == MarksSent(true, randomAccess, pcr)
  {
    hide PcrBytes, ReadClock;
    var field, content := Field(true, randomAccess, pcr, size), FieldContent(randomAccess, pcr);
    var s := field + tail;
    assert field[1] == content[0] && field[0] > 0;
    assert s[0] == field[0] && s[1] == field[1];
    if pcr.Some? {
      assert field[2..8] == content[1..] == PcrBytes(pcr.value);
      assert s[2..8] == field[2..8];
      ClockComesBack(pcr.value, s, 2);
    }
  }

  lemma StuffingIsRead(first: bool, randomAccess: bool, pcr: Option<u64>, size: nat, tail: seq<byte>)
    requires size > 0 && !NeedsField(first, randomAccess, pcr)
    requires Field(first, randomAccess, pcr, size) != []
    requires |Field(first, randomAccess, pcr, size) + tail| == PACKET_SIZE - 4
    ensures ReadField(Field(first, randomAccess, pcr, size) + tail) == NO_MARKS
  {
    var field := Field(first, randomAccess, pcr, size);
    assert (field + tail)[0] == field[0];
    if |field| > 1 {
      assert (field + tail)[1] == field[1] == 0;
    }
  }

  /** The first packet of a unit carries the marks asked for, the others carry none. */
  lemma PesPacketMarks(pid: u16, data: seq<byte>, first: bool, cc: u4, randomAccess: bool, pcr: Option<u64>)
    requires pid < 0x2000 && data != []
    ensures ReadMarks(PesPacket(pid, data, first, cc, randomAccess, pcr)) == MarksSent(first, randomAccess, pcr)
  {
    hide ReadField, FieldContent;
    var field, taken := Field(first, randomAccess, pcr, |data|), data[..Taken(first, randomAccess, pcr, |data|)];
    var control := if field == [] then 1 else 3;
    var header, pkt := Header(pid, first, control, cc), PesPacket(pid, data, first, cc, randomAccess, pcr);
    ControlIsRead(pid, first, control, cc);
    assert pkt[3] == header[3] && pkt[4..] == field + taken by { hide Header, Field; }
    hide Header, Field, Taken, PesPacket;
    if NeedsField(first, randomAccess, pcr) {
      WantedFieldIsRead(randomAccess, pcr, |data|, taken);
    } else if field != [] {
      StuffingIsRead(first, randomAccess, pcr, |data|, taken);
    }
  }

  lemma ControlIsRead(pid: u16, start: bool, control: nat, cc: u4)
    requires control < 4
    ensures Header(pid, start, control, cc)[3] / 0x20 % 2 == control / 2
  {
  }

  /** Between the marks and the payload there is nothing but stuffing. */
  lemma StuffingIsOnes(first: bool, randomAccess: bool, pcr: Option<u64>, size: nat, k: nat)
    requires size > 0
    ensures var field := Field(first, randomAccess, pcr, size);
            var marks := if NeedsField(first, randomAccess, pcr) && pcr.Some? then 8 else 2;
            marks <= k < |field| ==> field[k] == 0xFF
  {
    hide PcrBytes;
  }

  // ---------- Whole runs ----------

  /** A packet that carries marks. */
  datatype Marked = Marked(pid: u16, start: bool, marks: Marks)

  function MarkedOf(pkt: seq<byte>): seq<Marked>
    requires |pkt| == PACKET_SIZE
  {
    if ReadMarks(pkt) == NO_MARKS then []
    else [Marked(D.PidOf(pkt[1], pkt[2]), pkt[1] / 0x40 % 2 == 1, ReadMarks(pkt))]
  }

  function AllMarked(packets: seq<seq<byte>>): seq<Marked>
    requires Whole(packets)
  {
    if packets == [] then [] else MarkedOf(packets[0]) + AllMarked(packets[1..])
  }

  lemma {:induction false} AllMarkedConcat(a: seq<seq<byte>>, b: seq<seq<byte>>)
    requires Whole(a) && Whole(b)
    ensures Whole(a + b) && AllMarked(a + b) == AllMarked(a) + AllMarked(b)
  {
    hide MarkedOf;
    BothWhole(a, b);
    if a == [] {
      assert a + b == b;
    } else {
      assert (a + b)[0] == a[0] && (a + b)[1..] == a[1..] + b;
      AllMarkedConcat(a[1..], b);
    }
  }

  lemma PesPacketIsMarked(pid: u16, data: seq<byte>, first: bool, cc: u4, randomAccess: bool, pcr: Option<u64>)
    requires pid < 0x2000 && data != []
    ensures MarkedOf(PesPacket(pid, data, first, cc, randomAccess, pcr))
         == if NeedsField(first, randomAccess, pcr) then [Marked(pid, true, MarksSent(true, randomAccess, pcr))] else []
  {
    var field := Field(first, randomAccess, pcr, |data|);
    var control := if field == [] then 1 else 3;
    var header, pkt := Header(pid, first, control, cc), PesPacket(pid, data, first, cc, randomAccess, pcr);
    assert pkt[1] == header[1] && pkt[2] == header[2] by { hide Header, Field; }
    PesPacketMarks(pid, data, first, cc, randomAccess, pcr);
    HeaderIsRead(pid, first, control, cc, header);
    hide Header, Field, PesPacket, ReadMarks, D.PidOf;
  }

  lemma {:induction false} PesPacketsAreMarked(pid: u16, data: seq<byte>, first: bool, cc: u4, randomAccess: bool,
                                               pcr: Option<u64>)
    requires pid < 0x2000
    ensures var packets := PesPackets(pid, data, first, cc, randomAccess, pcr);
            Whole(packets)
            && AllMarked(packets)
               == if data != [] && NeedsField(first, randomAccess, pcr)
                  then [Marked(pid, true, MarksSent(true, randomAccess, pcr))] else []
    decreases |data|
  {
    hide PesPacket, Taken, MarkedOf;
    PesPacketsAreWhole(pid, data, first, cc, randomAccess, pcr);
    if data != [] {
      PesPacketIsMarked(pid, data, first, cc, randomAccess, pcr);
      PesPacketsAreMarked(pid, data[Taken(first, randomAccess, pcr, |data|)..], false, Next(cc), randomAccess, pcr);
    }
  }

  lemma {:induction false} PsiPacketsAreUnmarked(pid: u16, data: seq<byte>, start: bool, cc: u4)
    requires pid < 0x2000
    ensures Whole(PsiPackets(pid, data, start, cc)) && AllMarked(PsiPackets(pid, data, start, cc)) == []
    decreases |data|
  {
    PsiPacketsAreWhole(pid, data, start, cc);
    var header, pkt := Header(pid, start, 1, cc), PsiPacket(pid, data, start, cc);
    ControlIsRead(pid, start, 1, cc);
    assert pkt[3] == header[3] by { hide Header; }
    hide Header, PsiPacket;
    assert MarkedOf(pkt) == [];
    var n := PsiTaken(start, |data|);
    hide MarkedOf;
    if n < |data| {
      PsiPacketsAreUnmarked(pid, data[n..], false, Next(cc));
    }
  }

  /** The marks that pushing one frame is to send: on the first packet of a key frame of a video track, with the low
      33 bits of its decode time. */
  function KeyMarks(tracks: seq<MuxTrack>, op: Op): seq<Marked> {
    if op.WriteTables? then []
    else
      var i := IndexOf(tracks, op.frame.trackId);
      if i == |tracks| || !op.frame.isKey || tracks[i].kind != Video then []
      else [Marked(tracks[i].pid, true, Marks(true, Some(Clock(UsTo90k(op.frame.dtsUs) % WRAP, 0)), 0))]
  }

  function AllKeyMarks(tracks: seq<MuxTrack>, ops: seq<Op>): seq<Marked> {
    if ops == [] then [] else KeyMarks(tracks, ops[0]) + AllKeyMarks(tracks, ops[1..])
  }

  /** The tracks of a muxer at work are those it was made with, but for their counters. */
  ghost predicate SameTracks(base: seq<MuxTrack>, m: Mux) {
    |m.tracks| == |base|
    && forall i :: 0 <= i < |base| ==> m.tracks[i] == base[i].(cc := m.tracks[i].cc) && base[i].pid < 0x2000
  }

  lemma FrameIsMarked(base: seq<MuxTrack>, m: Mux, f: Frame, prepare: (MuxTrack, Frame) -> seq<byte>)
    requires SameTracks(base, m)
    ensures var muxed := PushFrame(m, f, prepare);
            && Whole(muxed.packets) && AllMarked(muxed.packets) == KeyMarks(base, PushOne(f))
            && SameTracks(base, muxed.mux)
  {
    hide PesPackets, FramePes, Advance, UsTo90k;
    SameIndex(base, m.tracks, f.trackId);
    var i := IndexOf(m.tracks, f.trackId);
    if i < |base| {
      var track := m.tracks[i];
      var pes := FramePes(track, f, prepare);
      assert pes != [] by { PesIsNotEmpty(track, f, prepare); }
      var random := f.isKey && IsVideo(track);
      PesPacketsAreMarked(track.pid, pes, true, track.cc, random, if random then Some(UsTo90k(f.dtsUs)) else None);
    }
  }

  lemma PesIsNotEmpty(track: MuxTrack, f: Frame, prepare: (MuxTrack, Frame) -> seq<byte>)
    ensures FramePes(track, f, prepare) != []
  {
    hide UsTo90k, PesTimes, PesFlags, PesLength;
  }

  lemma TablesAreUnmarked(base: seq<MuxTrack>, m: Mux)
    requires SameTracks(base, m)
    ensures Whole(Tables(m).packets) && AllMarked(Tables(m).packets) == [] && SameTracks(base, Tables(m).mux)
  {
    hide PsiPackets, PatBody, PmtBody, WithChecksum, AllMarked, Advance;
    var pat, pmt := WithChecksum(PatBody()), WithChecksum(PmtBody(m.tracks, m.pcrPid));
    PsiPacketsAreUnmarked(PAT_PID, pat, true, m.patCc);
    PsiPacketsAreUnmarked(PMT_PID, pmt, true, m.pmtCc);
    AllMarkedConcat(PsiPackets(PAT_PID, pat, true, m.patCc), PsiPackets(PMT_PID, pmt, true, m.pmtCc));
  }

  /** Over a whole run of the muxer, with tables anywhere in it: clocks and random-access marks are on the first
      packets of the key frames of video tracks, one for each, and on no other packet. */
  lemma {:induction false} RunSendsKeyMarks(base: seq<MuxTrack>, m: Mux, ops: seq<Op>,
                                            prepare: (MuxTrack, Frame) -> seq<byte>)
    requires SameTracks(base, m)
    ensures var packets := MuxRun(m, ops, prepare).packets;
            Whole(packets) && AllMarked(packets) == AllKeyMarks(base, ops)
    decreases |ops|
  {
    hide AllMarked, KeyMarks, PushFrame, Tables, SameTracks;
    if ops == [] {
      assert AllMarked([]) == [] by { NothingMarked(); }
    } else {
      var first := MuxOp(m, ops[0], prepare);
      if ops[0].PushOne? {
        FrameIsMarked(base, m, ops[0].frame, prepare);
      } else {
        TablesAreUnmarked(base, m);
        assert KeyMarks(base, ops[0]) == [] by { TablesHaveNoMarks(base); }
      }
      RunSendsKeyMarks(base, first.mux, ops[1..], prepare);
      AllMarkedConcat(first.packets, MuxRun(first.mux, ops[1..], prepare).packets);
    }
  }

  lemma NothingMarked()
    ensures AllMarked([]) == []
  {
  }

  lemma TablesHaveNoMarks(base: seq<MuxTrack>)
    ensures KeyMarks(base, WriteTables) == []
  {
  }

  // ---------- The clock's ticks ----------

  /** Ticks of the 90 kHz clock are whole ninety-thousandths of a second, as long as nine times the microseconds fit
      in 64 bits; a time before zero counts as zero. */
  lemma TicksAreNinetyKilohertz(us: i64)
    ensures us < 0 ==> UsTo90k(us) == 0
    ensures 0 <= us && us * 9 < TWO64 ==> UsTo90k(us) == us * 90_000 / 1_000_000
  {
  }

  /** A key frame at ten seconds: the clock bytes of its 900000 ticks. */
  lemma ClockAtTenSeconds()
    ensures UsTo90k(10_000_000) == 900_000
    ensures PcrBytes(900_000) == [0x00, 0x06, 0xDD, 0xD0, 0x7E, 0x00]
  {
  }

  // ---------- The track that carries the clock ----------

  /** The clock's packet identifier, where a map section names it. */
  function ReadPcrPid(section: seq<byte>): u16
    requires |section| >= 12
  {
    D.PidOf(section[8], section[9])
  }

  /** The map names a video track for the clock if there is one, so one that sends clocks; failing that the first
      track, and the video base where there is none. */
  lemma MapNamesClock(base: u16, audioBase: u16, infos: seq<TrackInfo>)
    requires var m := NewMux(base, audioBase, infos); m.pcrPid < 0x2000
    ensures var m := NewMux(base, audioBase, infos);
            && ReadPcrPid(PmtSectionOf(m.tracks, m.pcrPid)) == m.pcrPid
            && ((exists i :: 0 <= i < |m.tracks| && m.tracks[i].kind == Video) ==>
                  exists i :: 0 <= i < |m.tracks| && m.tracks[i].kind == Video && m.tracks[i].pid == m.pcrPid
                              && forall j :: 0 <= j < i ==> m.tracks[j].kind != Video)
            && ((forall i :: 0 <= i < |m.tracks| ==> m.tracks[i].kind != Video) ==>
                  m.pcrPid == if m.tracks == [] then base else m.tracks[0].pid)
  {
    hide SortTracks, Assign, PmtSectionOf, FirstVideo, ReadPcrPid;
    var m := NewMux(base, audioBase, infos);
    FirstVideoIsFirst(m.tracks);
    PcrPidIsRead(m.tracks, m.pcrPid);
  }

  lemma PcrPidIsRead(tracks: seq<MuxTrack>, pcrPid: u16)
    requires pcrPid < 0x2000
    ensures ReadPcrPid(PmtSectionOf(tracks, pcrPid)) == pcrPid
  {
    hide StreamEntries, LengthField, Crc.Crc32;
    var section, field := PmtSectionOf(tracks, pcrPid), Be16(0xE000 + pcrPid);
    assert section[8] == field[0] && section[9] == field[1];
  }

  lemma {:induction false} FirstVideoIsFirst(tracks: seq<MuxTrack>)
    ensures var i := FirstVideo(tracks);
            (i < |tracks| ==> tracks[i].kind == Video) && forall j :: 0 <= j < i ==> tracks[j].kind != Video
  {
    if tracks != [] && tracks[0].kind != Video {
      FirstVideoIsFirst(tracks[1..]);
      var i := FirstVideo(tracks);
      forall j | 0 <= j < i ensures tracks[j].kind != Video {
        assert j == 0 || tracks[j] == tracks[1..][j - 1];
      }
    }
  }
}
