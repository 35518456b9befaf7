/** MPEG transport streams: what the demuxer reports when packets of a track are lost. */
module TsLoss {
  import opened Bytes
  import opened TsCommon
  import opened TsMux
  import opened TsTables
  import opened TsRoundTrip
  import opened TsClock
  import D = TsDemux

  /** A break in the counters of a track: the counter that was due and the one that came. */
  datatype Break = Break(expected: u4, got: u4)

  /** The breaks reported for a packet identifier, in order. */
  function Breaks(events: seq<D.Event>, pid: u16): seq<Break> {
    if events == [] then []
    else
      (if events[0].Diag? && events[0].diagnostic.ContinuityGap? && events[0].diagnostic.pid == pid
       then [Break(events[0].diagnostic.expected, events[0].diagnostic.got)] else [])
      + Breaks(events[1..], pid)
  }

  lemma {:induction false} BreaksConcat(a: seq<D.Event>, b: seq<D.Event>, pid: u16)
    ensures Breaks(a + b, pid) == Breaks(a, pid) + Breaks(b, pid)
  {
    if a == [] {
      assert a + b == b;
    } else {
      assert (a + b)[0] == a[0] && (a + b)[1..] == a[1..] + b;
      BreaksConcat(a[1..], b, pid);
    }
  }

  ghost predicate NoBreaks(events: seq<D.Event>) {
    forall k :: 0 <= k < |events| ==> !(events[k].Diag? && events[k].diagnostic.ContinuityGap?)
  }

  lemma {:induction false} NothingToReport(events: seq<D.Event>, pid: u16)
    requires NoBreaks(events)
    ensures Breaks(events, pid) == []
  {
    if events != [] {
      assert !(events[0].Diag? && events[0].diagnostic.ContinuityGap?);
      NothingToReport(events[1..], pid);
    }
  }

  // ---------- One payload ----------

  /** One payload packet of a track is reported exactly when a counter is due and another one comes, with both;
      apart from that report the answer does not depend on the counter, and the next one is due afterwards. */
  lemma BreakIsReportedIff(config: D.Config, t: D.Track, start: bool, cc: u4, data: seq<byte>)
    ensures var fed := D.TakePayload(config, t, start, cc, data);
            var unasked := D.TakePayload(config, t.(expectedCc := None), start, cc, data);
            && fed.events == (if t.expectedCc.Some? && t.expectedCc.value != cc
                              then [D.Diag(D.ContinuityGap(t.pid, t.expectedCc.value, cc))] else [])
                             + unasked.events
            && NoBreaks(unasked.events)
            && fed.track == unasked.track
            && fed.track.expectedCc == Some((cc + 1) % 16) && fed.track.pid == t.pid
  {
    hide D.TakePayload, NoBreaks;
    OnlyTheReport(config, t, start, cc, data);
    UnaskedIsQuiet(config, t, start, cc, data);
  }

  lemma OnlyTheReport(config: D.Config, t: D.Track, start: bool, cc: u4, data: seq<byte>)
    ensures var fed := D.TakePayload(config, t, start, cc, data);
            var unasked := D.TakePayload(config, t.(expectedCc := None), start, cc, data);
            && fed.events == (if t.expectedCc.Some? && t.expectedCc.value != cc
                              then [D.Diag(D.ContinuityGap(t.pid, t.expectedCc.value, cc))] else [])
                             + unasked.events
            && fed.track == unasked.track
  {
    hide D.EmitPes, Next;
    assert t.(expectedCc := None).(expectedCc := Some(Next(cc))) == t.(expectedCc := Some(Next(cc)));
  }

  lemma UnaskedIsQuiet(config: D.Config, t: D.Track, start: bool, cc: u4, data: seq<byte>)
    ensures var unasked := D.TakePayload(config, t.(expectedCc := None), start, cc, data);
            && NoBreaks(unasked.events)
            && unasked.track.expectedCc == Some((cc + 1) % 16) && unasked.track.pid == t.pid
  {
    hide D.EmitPes;
    EmissionHasNoBreak(config, t.(expectedCc := Some(Next(cc))));
  }

  lemma EmissionHasNoBreak(config: D.Config, t: D.Track)
    ensures var fed := D.EmitPes(config, t);
            NoBreaks(fed.events) && fed.track.expectedCc == t.expectedCc && fed.track.pid == t.pid
  {
    hide D.ReadPes, D.NextOffset, D.TicksToUs;
  }

  lemma PayloadBreaks(config: D.Config, t: D.Track, start: bool, cc: u4, data: seq<byte>, pid: u16)
    ensures Breaks(D.TakePayload(config, t, start, cc, data).events, pid)
         == if t.pid == pid && t.expectedCc.Some? && t.expectedCc.value != cc then [Break(t.expectedCc.value, cc)]
            else []
  {
    hide D.TakePayload;
    BreakIsReportedIff(config, t, start, cc, data);
    var unasked := D.TakePayload(config, t.(expectedCc := None), start, cc, data).events;
    var report := if t.expectedCc.Some? && t.expectedCc.value != cc
      then [D.Diag(D.ContinuityGap(t.pid, t.expectedCc.value, cc))] else [];
    BreaksConcat(report, unasked, pid);
    NothingToReport(unasked, pid);
  }

  /** Two packets lost where counter 4 is due. */
  lemma TwoLost(config: D.Config, t: D.Track, data: seq<byte>)
    requires t.expectedCc == Some(4) && !t.pesStarted
    ensures D.TakePayload(config, t, false, 6, data).events == [D.Diag(D.ContinuityGap(t.pid, 4, 6))]
  {
  }

  // ---------- Any packets ----------

  /** The counters of the packets that bring payload for `pid`. */
  function Arrived(packets: seq<seq<byte>>, pid: u16): seq<u4>
    requires Whole(packets)
  {
    if packets == [] then []
    else
      var p := D.ParsePacket(packets[0]);
      (if p.Payload? && p.pid == pid then [p.cc] else []) + Arrived(packets[1..], pid)
  }

  /** The packet is no association table that makes `pid` the map's. */
  ghost predicate Harmless(config: D.Config, pkt: seq<byte>, pid: u16) {
    && |pkt| == PACKET_SIZE
    && forall d: D.Demux :: d.pmtPid != Some(pid) ==> D.FeedPacket(config, d, pkt).demux.pmtPid != Some(pid)
  }

  /** Track number `i` of the demuxer takes the packets of `pid`. */
  ghost predicate Takes(d: D.Demux, pid: u16, i: nat) {
    && pid != PAT_PID && pid != NULL_PID && d.pmtPid != Some(pid)
    && i < |d.tracks| && D.TrackWithPid(d.tracks, pid) == i
  }

  /** Track number `i` takes the packets of `pid` and has this counter due. */
  ghost predicate Due(d: D.Demux, pid: u16, i: nat, due: Option<u4>) {
    Takes(d, pid, i) && d.tracks[i].expectedCc == due
  }

  /** The break there is when counter `cc` comes. */
  function BreakAt(due: Option<u4>, cc: u4): seq<Break> {
    if due.Some? && due.value != cc then [Break(due.value, cc)] else []
  }

  /** The counter of packet number `k` of a track, counted from the one with counter `first`. */
  function CounterOf(first: u4, k: int): u4 {
    (first + k) % 16
  }

  /** The number of packets missing between two of a track is no multiple of 16. */
  predicate LosesBetween(a: int, b: int) {
    (b - a - 1) % 16 != 0
  }

  /** What is reported when packets of a track arrive in turn, `sent` telling the number of each: a break for every
      two in a row between which a number of packets is missing that is no multiple of 16. */
  function Reports(first: u4, sent: seq<int>): seq<Break> {
    if |sent| < 2 then []
    else
      (if LosesBetween(sent[0], sent[1])
       then [Break(CounterOf(first, sent[0] + 1), CounterOf(first, sent[1]))] else [])
      + Reports(first, sent[1..])
  }

  lemma CountersMeetIff(first: u4, a: int, b: int)
    ensures CounterOf(first, a + 1) == CounterOf(first, b) <==> !LosesBetween(a, b)
    ensures CounterOf(first, b + 1) == Next(CounterOf(first, b))
  {
    var x, y := first + a + 1, first + b;
    assert x == x / 16 * 16 + x % 16 && y == y / 16 * 16 + y % 16;
    var apart := y / 16 - x / 16;
    assert b - a - 1 == apart * 16 + (y % 16 - x % 16);
  }

  lemma {:induction false} FirstIsStable(a: seq<D.Track>, b: seq<D.Track>, pid: u16)
    requires D.TrackWithPid(a, pid) < |a| && |a| <= |b|
    requires forall j :: 0 <= j < |a| ==> b[j].pid == a[j].pid
    ensures D.TrackWithPid(b, pid) == D.TrackWithPid(a, pid)
  {
    var i, j := D.TrackWithPid(a, pid), D.TrackWithPid(b, pid);
    assert b[i].pid == pid;
  }

  /** A packet for the track: its counter is compared, and nothing else is reported for it. */
  lemma OwnPacket(config: D.Config, d: D.Demux, pkt: seq<byte>, pid: u16, i: nat, due: Option<u4>)
    requires Due(d, pid, i, due) && |pkt| == PACKET_SIZE
    requires D.ParsePacket(pkt).Payload? && D.ParsePacket(pkt).pid == pid
    ensures var fed, cc := D.FeedPacket(config, d, pkt), D.ParsePacket(pkt).cc;
            Due(fed.demux, pid, i, Some(Next(cc))) && Breaks(fed.events, pid) == BreakAt(due, cc)
  {
    hide D.ParsePacket, D.TakePayload;
    var p, t := D.ParsePacket(pkt), d.tracks[i];
    BreakIsReportedIff(config, t, p.start, p.cc, p.data);
    PayloadBreaks(config, t, p.start, p.cc, p.data, pid);
    var fed := D.FeedPacket(config, d, pkt);
    assert fed.demux.tracks == d.tracks[i := D.TakePayload(config, t, p.start, p.cc, p.data).track];
    FirstIsStable(d.tracks, fed.demux.tracks, pid);
  }

  /** Any other packet leaves the track's counter alone and reports no break for it. */
  lemma OtherPacket(config: D.Config, d: D.Demux, pkt: seq<byte>, pid: u16, i: nat, due: Option<u4>)
    requires Due(d, pid, i, due) && Harmless(config, pkt, pid)
    requires !(D.ParsePacket(pkt).Payload? && D.ParsePacket(pkt).pid == pid)
    ensures var fed := D.FeedPacket(config, d, pkt);
            Due(fed.demux, pid, i, due) && Breaks(fed.events, pid) == []
  {
    assert D.FeedPacket(config, d, pkt).demux.pmtPid != Some(pid);
    hide D.TakePayload, D.ParsePat, D.ParsePmt, D.ParsePacket;
    var p, fed := D.ParsePacket(pkt), D.FeedPacket(config, d, pkt);
    if p.Payload? {
      if p.pid == PAT_PID {
        PatReportsNoBreak(config, d, p.data, p.start);
        NothingToReport(fed.events, pid);
      } else if d.pmtPid == Some(p.pid) {
        MapReportsNoBreak(config, d, p.data, p.start);
        NothingToReport(fed.events, pid);
        FirstIsStable(d.tracks, fed.demux.tracks, pid);
      } else if p.pid != NULL_PID && D.TrackWithPid(d.tracks, p.pid) < |d.tracks| {
        OtherTrack(config, d, p.pid, p.start, p.cc, p.data, pid, i);
      }
    }
  }

  lemma OtherTrack(config: D.Config, d: D.Demux, other: u16, start: bool, cc: u4, data: seq<byte>, pid: u16, i: nat)
    requires Takes(d, pid, i) && other != pid && D.TrackWithPid(d.tracks, other) < |d.tracks|
    ensures var k := D.TrackWithPid(d.tracks, other);
            var fed := D.TakePayload(config, d.tracks[k], start, cc, data);
            && k != i && Breaks(fed.events, pid) == []
            && Takes(d.(tracks := d.tracks[k := fed.track]), pid, i)
  {
    hide D.TakePayload;
    var k := D.TrackWithPid(d.tracks, other);
    var t := d.tracks[k];
    var fed := D.TakePayload(config, t, start, cc, data);
    BreakIsReportedIff(config, t, start, cc, data);
    PayloadBreaks(config, t, start, cc, data, pid);
    FirstIsStable(d.tracks, d.tracks[k := fed.track], pid);
  }

  lemma PatReportsNoBreak(config: D.Config, d: D.Demux, payload: seq<byte>, start: bool)
    ensures var fed := D.ParsePat(config, d, payload, start);
            NoBreaks(fed.events) && fed.demux == d.(pmtPid := fed.demux.pmtPid)
  {
    hide D.ChecksumHolds, D.AfterPointer;
  }

  lemma MapReportsNoBreak(config: D.Config, d: D.Demux, payload: seq<byte>, start: bool)
    ensures var fed := D.ParsePmt(config, d, payload, start);
            NoBreaks(fed.events) && d.tracks <= fed.demux.tracks && fed.demux.pmtPid == d.pmtPid
  {
    hide D.ParsePmtSection, D.Reassemble;
    var r := D.Reassemble(d, payload, start);
    ReassembleKeepsRest(d, payload, start);
    if r.section.Some? {
      SectionReportsNoBreak(config, r.demux, r.section.value);
    }
  }

  lemma SectionReportsNoBreak(config: D.Config, d: D.Demux, data: seq<byte>)
    ensures var fed := D.ParsePmtSection(config, d, data);
            NoBreaks(fed.events) && d.tracks <= fed.demux.tracks && fed.demux.pmtPid == d.pmtPid
  {
    hide D.ChecksumHolds, D.TakeStreams;
    if |data| >= 12 && 3 + D.SectionLength(data) <= |data| {
      var end := 3 + D.SectionLength(data);
      var pos := 12 + data[10] as int % 0x10 * 0x100 + data[11];
      StreamsReportNoBreak(d, data, pos, Max(end - 4, 0));
      D.TakeStreamsKeepsRest(d, data, pos, Max(end - 4, 0));
    }
  }

  lemma {:induction false} StreamsReportNoBreak(d: D.Demux, data: seq<byte>, pos: nat, end: nat)
    requires end <= |data|
    ensures NoBreaks(D.TakeStreams(d, data, pos, end).events)
    decreases end - pos
  {
    hide PrivateStream, CodecOf, D.TrackWithPid, D.PidOf, D.ClockRate;
    if pos + 5 <= end {
      var infoLength := data[pos + 3] as int % 0x10 * 0x100 + data[pos + 4];
      var info := data[pos + 5..pos + 5 + Min(infoLength, |data| - (pos + 5))];
      var first := D.TakeStream(d, data[pos], D.PidOf(data[pos + 1], data[pos + 2]), info, infoLength);
      assert NoBreaks(first.events);
      hide D.TakeStream;
      StreamsReportNoBreak(first.demux, data, pos + 5 + infoLength, end);
    }
  }

  ghost predicate AllHarmless(config: D.Config, packets: seq<seq<byte>>, pid: u16) {
    Whole(packets) && forall k :: 0 <= k < |packets| ==> Harmless(config, packets[k], pid)
  }

  lemma HarmlessAreWhole(config: D.Config, packets: seq<seq<byte>>, pid: u16)
    requires AllHarmless(config, packets, pid)
    ensures Whole(packets)
  {
  }

  lemma NextFed(config: D.Config, d: D.Demux, packets: seq<seq<byte>>, pid: u16)
    requires AllHarmless(config, packets, pid) && packets != []
    ensures Whole(packets) && Harmless(config, packets[0], pid) && AllHarmless(config, packets[1..], pid)
    ensures var fed := D.FeedPacket(config, d, packets[0]);
            Breaks(FeedAll(config, d, packets).events, pid)
            == Breaks(fed.events, pid) + Breaks(FeedAll(config, fed.demux, packets[1..]).events, pid)
  {
    hide D.FeedPacket, Harmless, Breaks;
    var fed := D.FeedPacket(config, d, packets[0]);
    BreaksConcat(fed.events, FeedAll(config, fed.demux, packets[1..]).events, pid);
  }

  /** Packets with these counters are those with the numbers `sent`. */
  ghost predicate Numbered(counters: seq<u4>, first: u4, sent: seq<int>) {
    |counters| == |sent| && forall k :: 0 <= k < |sent| ==> counters[k] == CounterOf(first, sent[k])
  }

  lemma NumberedNext(packets: seq<seq<byte>>, pid: u16, first: u4, sent: seq<int>)
    requires Whole(packets) && packets != [] && Numbered(Arrived(packets, pid), first, sent)
    ensures var p := D.ParsePacket(packets[0]);
            if p.Payload? && p.pid == pid
            then sent != [] && p.cc == CounterOf(first, sent[0])
                 && Numbered(Arrived(packets[1..], pid), first, sent[1..])
            else Numbered(Arrived(packets[1..], pid), first, sent)
  {
    hide D.ParsePacket, CounterOf;
    var p, rest := D.ParsePacket(packets[0]), Arrived(packets[1..], pid);
    if p.Payload? && p.pid == pid {
      var all := Arrived(packets, pid);
      assert all == [p.cc] + rest;
      forall k | 0 <= k < |rest| ensures rest[k] == CounterOf(first, sent[1..][k]) {
        assert all[k + 1] == rest[k];
      }
    } else {
      assert Arrived(packets, pid) == rest;
    }
  }

  lemma ReportsNext(first: u4, sent: seq<int>)
    requires |sent| >= 2
    ensures Reports(first, sent)
         == BreakAt(Some(CounterOf(first, sent[0] + 1)), CounterOf(first, sent[1])) + Reports(first, sent[1..])
    ensures CounterOf(first, sent[1] + 1) == Next(CounterOf(first, sent[1]))
  {
    hide CounterOf, LosesBetween, Next;
    CountersMeetIff(first, sent[0], sent[1]);
  }

  /** Packets of one track, any of them lost, repeated or out of order, among any other packets: between two that
      arrive in turn, a break is reported with the counter due after the first and the counter of the second,
      exactly when the number of packets missing between them is no multiple of 16. */
  lemma {:induction false} LossIsReportedIff(config: D.Config, d: D.Demux, packets: seq<seq<byte>>, pid: u16, i: nat,
                                             first: u4, sent: seq<int>)
    requires sent != [] && Due(d, pid, i, Some(CounterOf(first, sent[0] + 1))) && AllHarmless(config, packets, pid)
    requires Numbered(Arrived(packets, pid), first, sent[1..])
    ensures Breaks(FeedAll(config, d, packets).events, pid) == Reports(first, sent)
    decreases |packets|
  {
    hide D.FeedPacket, D.ParsePacket, Harmless, AllHarmless, Due, BreakAt, CounterOf, Numbered, Reports, Arrived;
    hide FeedAll, Whole, Next, Breaks;
    HarmlessAreWhole(config, packets, pid);
    if packets == [] {
      NothingMissing(config, d, pid, first, sent);
    } else {
      var p, fed, rest := D.ParsePacket(packets[0]), D.FeedPacket(config, d, packets[0]), packets[1..];
      NextFed(config, d, packets, pid);
      NumberedNext(packets, pid, first, sent[1..]);
      if p.Payload? && p.pid == pid {
        var due := Some(CounterOf(first, sent[0] + 1));
        OwnPacket(config, d, packets[0], pid, i, due);
        ReportsNext(first, sent);
        assert sent[1..][0] == sent[1];
        LossIsReportedIff(config, fed.demux, rest, pid, i, first, sent[1..]);
      } else {
        OtherPacket(config, d, packets[0], pid, i, Some(CounterOf(first, sent[0] + 1)));
        LossIsReportedIff(config, fed.demux, rest, pid, i, first, sent);
      }
    }
  }

  lemma NothingMissing(config: D.Config, d: D.Demux, pid: u16, first: u4, sent: seq<int>)
    requires |sent| >= 1 ==> Numbered(Arrived([], pid), first, sent[1..])
    ensures Breaks(FeedAll(config, d, []).events, pid) == Reports(first, sent) == []
  {
  }

  /** The same for a track of which nothing has arrived yet: the first packet is never reported. */
  lemma {:induction false} FirstLossIsReportedIff(config: D.Config, d: D.Demux, packets: seq<seq<byte>>, pid: u16,
                                                  i: nat, first: u4, sent: seq<int>)
    requires Due(d, pid, i, None) && AllHarmless(config, packets, pid)
    requires Numbered(Arrived(packets, pid), first, sent)
    ensures Breaks(FeedAll(config, d, packets).events, pid) == Reports(first, sent)
    decreases |packets|
  {
    hide D.FeedPacket, D.ParsePacket, Harmless, AllHarmless, Due, BreakAt, CounterOf, Numbered, Reports, Arrived;
    hide FeedAll, Whole, Next, Breaks;
    HarmlessAreWhole(config, packets, pid);
    if packets == [] {
      assert sent == [] by { NothingArrived(pid, first, sent); }
      NothingMissing(config, d, pid, first, sent);
    } else {
      var p, fed, rest := D.ParsePacket(packets[0]), D.FeedPacket(config, d, packets[0]), packets[1..];
      NextFed(config, d, packets, pid);
      NumberedNext(packets, pid, first, sent);
      if p.Payload? && p.pid == pid {
        OwnPacket(config, d, packets[0], pid, i, None);
        assert BreakAt(None, p.cc) == [] by { NoBreakAt(p.cc); }
        CountersMeetIff(first, sent[0], sent[0]);
        LossIsReportedIff(config, fed.demux, rest, pid, i, first, sent);
      } else {
        OtherPacket(config, d, packets[0], pid, i, None);
        FirstLossIsReportedIff(config, fed.demux, rest, pid, i, first, sent);
      }
    }
  }

  lemma NoBreakAt(cc: u4)
    ensures BreakAt(None, cc) == []
  {
  }

  lemma NothingArrived(pid: u16, first: u4, sent: seq<int>)
    requires Numbered(Arrived([], pid), first, sent)
    ensures sent == []
  {
  }

  // ---------- Muxed streams that lose packets ----------

  lemma {:induction false} ArrivedConcat(a: seq<seq<byte>>, b: seq<seq<byte>>, pid: u16)
    requires Whole(a) && Whole(b)
    ensures Whole(a + b) && Arrived(a + b, pid) == Arrived(a, pid) + Arrived(b, pid)
  {
    hide D.ParsePacket;
    BothWhole(a, b);
    if a == [] {
      assert a + b == b;
    } else {
      assert (a + b)[0] == a[0] && (a + b)[1..] == a[1..] + b;
      ArrivedConcat(a[1..], b, pid);
    }
  }

  /** Counters that count on from `cc`. */
  ghost predicate CountsOn(counters: seq<u4>, cc: u4) {
    forall k :: 0 <= k < |counters| ==> counters[k] == CounterOf(cc, k)
  }

  lemma CountsOnConcat(a: seq<u4>, b: seq<u4>, cc: u4)
    requires CountsOn(a, cc) && CountsOn(b, Advance(cc, |a|))
    ensures CountsOn(a + b, cc)
  {
    hide CounterOf, Advance;
    forall k | |a| <= k < |a + b| ensures (a + b)[k] == CounterOf(cc, k) {
      CounterAfter(cc, |a|, k - |a|);
      assert (a + b)[k] == b[k - |a|];
    }
  }

  lemma CounterAfter(cc: u4, n: nat, k: nat)
    ensures CounterOf(Advance(cc, n), k) == CounterOf(cc, n + k)
  {
  }

  lemma {:induction false} UnitCountsOn(own: u16, data: seq<byte>, first: bool, cc: u4, randomAccess: bool,
                                        pcr: Option<u64>, pid: u16)
    requires own < 0x2000
    ensures var packets := PesPackets(own, data, first, cc, randomAccess, pcr);
            && Whole(packets)
            && CountsOn(Arrived(packets, pid), cc)
            && |Arrived(packets, pid)| == if own == pid then |packets| else 0
    decreases |data|
  {
    hide PesPacket, Taken, D.ParsePacket, CounterOf;
    PesPacketsAreWhole(own, data, first, cc, randomAccess, pcr);
    if data != [] {
      PesPacketIsRead(own, data, first, cc, randomAccess, pcr);
      var rest := PesPackets(own, data[Taken(first, randomAccess, pcr, |data|)..], false, Next(cc), randomAccess, pcr);
      UnitCountsOn(own, data[Taken(first, randomAccess, pcr, |data|)..], false, Next(cc), randomAccess, pcr, pid);
      if own == pid {
        OneMore(cc, Arrived(rest, pid));
      }
    }
  }

  lemma OneMore(cc: u4, later: seq<u4>)
    requires CountsOn(later, Next(cc))
    ensures CountsOn([cc] + later, cc)
  {
  }

  lemma {:induction false} TableIsElsewhere(own: u16, data: seq<byte>, start: bool, cc: u4, pid: u16)
    requires own < 0x2000 && own != pid
    ensures Whole(PsiPackets(own, data, start, cc)) && Arrived(PsiPackets(own, data, start, cc), pid) == []
    decreases |data|
  {
    hide PsiPacket, D.ParsePacket;
    PsiPacketsAreWhole(own, data, start, cc);
    PsiPacketIsRead(own, data, start, cc);
    var n := PsiTaken(start, |data|);
    if n < |data| {
      TableIsElsewhere(own, data[n..], false, Next(cc), pid);
    }
  }

  lemma AllHarmlessConcat(config: D.Config, a: seq<seq<byte>>, b: seq<seq<byte>>, pid: u16)
    requires AllHarmless(config, a, pid) && AllHarmless(config, b, pid)
    ensures AllHarmless(config, a + b, pid)
  {
    hide Harmless;
    BothWhole(a, b);
  }

  lemma OtherThanPat(config: D.Config, pkt: seq<byte>, pid: u16)
    requires |pkt| == PACKET_SIZE && D.ParsePacket(pkt).Payload? && D.ParsePacket(pkt).pid != PAT_PID
    ensures Harmless(config, pkt, pid)
  {
    forall d: D.Demux | d.pmtPid != Some(pid) ensures D.FeedPacket(config, d, pkt).demux.pmtPid != Some(pid) {
      hide D.TakePayload, D.ParsePat, D.ParsePmt, D.ParsePacket;
      var p := D.ParsePacket(pkt);
      MapReportsNoBreak(config, d, p.data, p.start);
    }
  }

  lemma {:induction false} UnitIsHarmless(config: D.Config, own: u16, data: seq<byte>, first: bool, cc: u4,
                                          randomAccess: bool, pcr: Option<u64>, pid: u16)
    requires own < 0x2000 && own != PAT_PID
    ensures AllHarmless(config, PesPackets(own, data, first, cc, randomAccess, pcr), pid)
    decreases |data|
  {
    hide PesPacket, Taken, D.ParsePacket, Harmless;
    PesPacketsAreWhole(own, data, first, cc, randomAccess, pcr);
    if data != [] {
      PesPacketIsRead(own, data, first, cc, randomAccess, pcr);
      OtherThanPat(config, PesPacket(own, data, first, cc, randomAccess, pcr), pid);
      UnitIsHarmless(config, own, data[Taken(first, randomAccess, pcr, |data|)..], false, Next(cc), randomAccess, pcr,
                     pid);
    }
  }

  lemma {:induction false} MapIsHarmless(config: D.Config, data: seq<byte>, start: bool, cc: u4, pid: u16)
    ensures AllHarmless(config, PsiPackets(PMT_PID, data, start, cc), pid)
    decreases |data|
  {
    hide PsiPacket, D.ParsePacket, Harmless;
    PsiPacketsAreWhole(PMT_PID, data, start, cc);
    PsiPacketIsRead(PMT_PID, data, start, cc);
    OtherThanPat(config, PsiPacket(PMT_PID, data, start, cc), pid);
    var n := PsiTaken(start, |data|);
    if n < |data| {
      MapIsHarmless(config, data[n..], false, Next(cc), pid);
    }
  }

  lemma PatIsHarmless(config: D.Config, cc: u4, pid: u16)
    requires pid != PMT_PID
    ensures AllHarmless(config, PsiPackets(PAT_PID, WithChecksum(PatBody()), true, cc), pid)
  {
    hide D.FeedPacket, WithChecksum, PsiPacket;
    var section := WithChecksum(PatBody());
    var pkt := PsiPacket(PAT_PID, section, true, cc);
    PsiPacketsAreWhole(PAT_PID, section, true, cc);
    assert PsiPackets(PAT_PID, section, true, cc) == [pkt];
    hide PsiPackets;
    forall d: D.Demux | d.pmtPid != Some(pid) ensures D.FeedPacket(config, d, pkt).demux.pmtPid != Some(pid) {
      PatFed(config, d, cc);
      FeedOne(config, d, pkt);
    }
  }

  lemma FeedOne(config: D.Config, d: D.Demux, pkt: seq<byte>)
    requires Whole([pkt])
    ensures FeedAll(config, d, [pkt]).demux == D.FeedPacket(config, d, pkt).demux
  {
    hide D.FeedPacket;
    assert [pkt][1..] == [];
  }

  lemma TablesCountFor(config: D.Config, base: seq<MuxTrack>, m: Mux, pid: u16)
    requires SameTracks(base, m) && IsElementary(pid)
    ensures AllHarmless(config, Tables(m).packets, pid) && Arrived(Tables(m).packets, pid) == []
    ensures Tables(m).mux.tracks == m.tracks
  {
    hide PsiPackets, PatBody, PmtBody, WithChecksum, Arrived, Advance, AllHarmless;
    var pat, pmt := WithChecksum(PatBody()), WithChecksum(PmtBody(m.tracks, m.pcrPid));
    PatIsHarmless(config, m.patCc, pid);
    MapIsHarmless(config, pmt, true, m.pmtCc, pid);
    AllHarmlessConcat(config, PsiPackets(PAT_PID, pat, true, m.patCc), PsiPackets(PMT_PID, pmt, true, m.pmtCc), pid);
    TableIsElsewhere(PAT_PID, pat, true, m.patCc, pid);
    TableIsElsewhere(PMT_PID, pmt, true, m.pmtCc, pid);
    ArrivedConcat(PsiPackets(PAT_PID, pat, true, m.patCc), PsiPackets(PMT_PID, pmt, true, m.pmtCc), pid);
  }

  /** Tracks with identifiers of their own, none of them a table's. */
  ghost predicate Apart(base: seq<MuxTrack>) {
    && (forall i :: 0 <= i < |base| ==> IsElementary(base[i].pid))
    && forall i, j :: 0 <= i < j < |base| ==> base[i].pid != base[j].pid
  }

  lemma FrameCountsFor(config: D.Config, base: seq<MuxTrack>, m: Mux, f: Frame,
                       prepare: (MuxTrack, Frame) -> seq<byte>, i: nat)
    requires SameTracks(base, m) && Apart(base) && i < |base|
    ensures var muxed := PushFrame(m, f, prepare);
            && AllHarmless(config, muxed.packets, base[i].pid) && SameTracks(base, muxed.mux)
            && CountsOn(Arrived(muxed.packets, base[i].pid), m.tracks[i].cc)
            && muxed.mux.tracks[i].cc == Advance(m.tracks[i].cc, |Arrived(muxed.packets, base[i].pid)|)
  {
    hide PesPackets, FramePes, Arrived, AllHarmless, CountsOn, Harmless, UsTo90k;
    var pid := base[i].pid;
    FrameIsMarked(base, m, f, prepare);
    var j := IndexOf(m.tracks, f.trackId);
    if j < |base| {
      var track := m.tracks[j];
      var pes := FramePes(track, f, prepare);
      var random := f.isKey && IsVideo(track);
      var pcr := if random then Some(UsTo90k(f.dtsUs)) else None;
      UnitIsHarmless(config, track.pid, pes, true, track.cc, random, pcr, pid);
      UnitCountsOn(track.pid, pes, true, track.cc, random, pcr, pid);
      if j != i {
        NoneCount(Arrived(FramePackets(track, f, prepare), pid), track.cc, m.tracks[i].cc);
      }
    } else {
      NothingArrives(config, pid, m.tracks[i].cc);
    }
  }

  lemma NoneCount(none: seq<u4>, a: u4, b: u4)
    requires none == []
    ensures CountsOn(none, b) && Advance(b, 0) == b
  {
  }

  lemma NothingArrives(config: D.Config, pid: u16, cc: u4)
    ensures AllHarmless(config, [], pid) && Arrived([], pid) == [] && CountsOn([], cc) && Advance(cc, 0) == cc
  {
  }

  /** In a muxed stream the payload packets of a track are counted on, and no table takes a track's identifier. */
  lemma {:induction false} RunCountsOn(config: D.Config, base: seq<MuxTrack>, m: Mux, ops: seq<Op>,
                                       prepare: (MuxTrack, Frame) -> seq<byte>, i: nat)
    requires SameTracks(base, m) && Apart(base) && i < |base|
    ensures var packets := MuxRun(m, ops, prepare).packets;
            AllHarmless(config, packets, base[i].pid) && CountsOn(Arrived(packets, base[i].pid), m.tracks[i].cc)
    decreases |ops|
  {
    assert |m.tracks| == |base|;
    hide PushFrame, Tables, SameTracks, AllHarmless, CountsOn, Arrived, Advance, Whole;
    var pid, cc := base[i].pid, m.tracks[i].cc;
    NothingArrives(config, pid, cc);
    if ops != [] {
      var first := MuxOp(m, ops[0], prepare);
      if ops[0].PushOne? {
        FrameCountsFor(config, base, m, ops[0].frame, prepare, i);
      } else {
        TablesCountFor(config, base, m, pid);
        TablesAreUnmarked(base, m);
      }
      var later := MuxRun(first.mux, ops[1..], prepare).packets;
      RunCountsOn(config, base, first.mux, ops[1..], prepare, i);
      AllHarmlessConcat(config, first.packets, later, pid);
      HarmlessAreWhole(config, first.packets, pid);
      HarmlessAreWhole(config, later, pid);
      ArrivedConcat(first.packets, later, pid);
      CountsOnConcat(Arrived(first.packets, pid), Arrived(later, pid), cc);
    }
  }

  // ---------- A lossy channel ----------

  /** The packets with these numbers, in this order. */
  function Picked(packets: seq<seq<byte>>, picks: seq<nat>): (arrived: seq<seq<byte>>)
    requires forall k :: 0 <= k < |picks| ==> picks[k] < |packets|
    ensures |arrived| == |picks|
  {
    if picks == [] then [] else [packets[picks[0]]] + Picked(packets, picks[1..])
  }

  /** For each picked packet that brings payload for `pid`: how many such packets come before it in the stream. */
  function Numbers(packets: seq<seq<byte>>, picks: seq<nat>, pid: u16): seq<int>
    requires Whole(packets) && forall k :: 0 <= k < |picks| ==> picks[k] < |packets|
  {
    if picks == [] then []
    else
      var p := D.ParsePacket(packets[picks[0]]);
      (if p.Payload? && p.pid == pid then [|Arrived(packets[..picks[0]], pid)|] else [])
      + Numbers(packets, picks[1..], pid)
  }

  lemma CounterAt(packets: seq<seq<byte>>, k: nat, pid: u16, cc: u4)
    requires Whole(packets) && k < |packets| && CountsOn(Arrived(packets, pid), cc)
    requires D.ParsePacket(packets[k]).Payload? && D.ParsePacket(packets[k]).pid == pid
    ensures D.ParsePacket(packets[k]).cc == CounterOf(cc, |Arrived(packets[..k], pid)|)
  {
    hide D.ParsePacket, CounterOf;
    var before, rest := packets[..k], packets[k..];
    assert packets == before + rest;
    ArrivedConcat(before, rest, pid);
    var n := |Arrived(before, pid)|;
    assert Arrived(rest, pid)[0] == D.ParsePacket(packets[k]).cc;
    assert Arrived(packets, pid)[n] == Arrived(rest, pid)[0];
  }

  lemma {:induction false} PickedCounters(packets: seq<seq<byte>>, picks: seq<nat>, pid: u16, cc: u4)
    requires Whole(packets) && forall k :: 0 <= k < |picks| ==> picks[k] < |packets|
    requires CountsOn(Arrived(packets, pid), cc)
    ensures var arrived, numbers := Picked(packets, picks), Numbers(packets, picks, pid);
            Whole(arrived) && Numbered(Arrived(arrived, pid), cc, numbers)
  {
    hide D.ParsePacket, CounterOf, CountsOn;
    if picks != [] {
      PickedCounters(packets, picks[1..], pid, cc);
      var p := D.ParsePacket(packets[picks[0]]);
      var arrived, later := Picked(packets, picks), Picked(packets, picks[1..]);
      assert arrived[1..] == later;
      if p.Payload? && p.pid == pid {
        CounterAt(packets, picks[0], pid, cc);
        assert Arrived(arrived, pid) == [p.cc] + Arrived(later, pid);
      } else {
        assert Arrived(arrived, pid) == Arrived(later, pid);
        assert Numbers(packets, picks, pid) == Numbers(packets, picks[1..], pid);
      }
    }
  }

  lemma {:induction false} PickedAreHarmless(config: D.Config, packets: seq<seq<byte>>, picks: seq<nat>, pid: u16)
    requires AllHarmless(config, packets, pid) && forall k :: 0 <= k < |picks| ==> picks[k] < |packets|
    ensures AllHarmless(config, Picked(packets, picks), pid)
  {
    hide Harmless;
    if picks != [] {
      PickedAreHarmless(config, packets, picks[1..], pid);
    }
  }

  /** A muxed stream over a channel that loses, repeats and reorders packets: on every track the breaks reported are
      exactly those between two packets in a row of the track whose distance in the stream is no multiple of 16
      beyond one, with the counter after the first and that of the second. */
  lemma LossyStreamReports(config: D.Config, m: Mux, ops: seq<Op>, prepare: (MuxTrack, Frame) -> seq<byte>, i: nat,
                           picks: seq<nat>, d: D.Demux, j: nat)
    requires Apart(m.tracks) && i < |m.tracks|
    requires var packets := MuxRun(m, ops, prepare).packets;
             forall k :: 0 <= k < |picks| ==> picks[k] < |packets|
    requires Takes(d, m.tracks[i].pid, j) && d.tracks[j].expectedCc == None
    ensures var packets, pid := MuxRun(m, ops, prepare).packets, m.tracks[i].pid;
            var arrived := Picked(packets, picks);
            && Whole(packets) && Whole(arrived)
            && Breaks(FeedAll(config, d, arrived).events, pid)
               == Reports(m.tracks[i].cc, Numbers(packets, picks, pid))
  {
    var packets, pid, cc := MuxRun(m, ops, prepare).packets, m.tracks[i].pid, m.tracks[i].cc;
    assert SameTracks(m.tracks, m);
    hide MuxRun, Arrived, Picked, Numbers, Breaks, Reports, FeedAll, Takes, Harmless, CountsOn, CounterOf;
    RunCountsOn(config, m.tracks, m, ops, prepare, i);
    PickedCounters(packets, picks, pid, cc);
    PickedAreHarmless(config, packets, picks, pid);
    FirstLossIsReportedIff(config, d, Picked(packets, picks), pid, j, cc, Numbers(packets, picks, pid));
  }
}
