/** Splitting a payload into RTP packets and putting the packets back in order. */
module Rtp {
  import opened Bytes

  const PERIOD := 0x1_0000

  datatype RtpHeader = RtpHeader(
    version: byte, payloadType: byte, sequenceNumber: u16, timestamp: u32, ssrc: u32, marker: bool)

  datatype RtpPacket = RtpPacket(header: RtpHeader, payload: seq<byte>)

  function Key(p: RtpPacket): u16 {
    p.header.sequenceNumber
  }

  function PayloadOf(packets: seq<RtpPacket>): seq<byte> {
    if packets == [] then [] else packets[0].payload + PayloadOf(packets[1..])
  }

  lemma {:induction false} PayloadOfSnoc(packets: seq<RtpPacket>, p: RtpPacket)
    ensures PayloadOf(packets + [p]) == PayloadOf(packets) + p.payload
  {
    if packets != [] {
      assert (packets + [p])[1..] == packets[1..] + [p];
      PayloadOfSnoc(packets[1..], p);
    } else {
      assert [p][1..] == [];
    }
  }

  // ---------- Packetizing ----------

  /** The packets number upwards from the header's sequence number modulo 2^16, carry consecutive non-empty
      pieces of the payload, and only the last is marked. */
  ghost predicate IsPacketizationOf(out: seq<RtpPacket>, payload: seq<byte>, mtu: nat, header: RtpHeader) {
    && PayloadOf(out) == payload
    && forall k :: 0 <= k < |out| ==>
         && out[k].header == header.(sequenceNumber := (header.sequenceNumber + k) % PERIOD, marker := k == |out| - 1)
         && 0 < |out[k].payload| <= Max(mtu - 12, 1)
         && (k < |out| - 1 ==> |out[k].payload| == Max(mtu - 12, 1))
  }

  method PacketizePayload(payload: seq<byte>, mtu: nat, header: RtpHeader) returns (out: seq<RtpPacket>)
    ensures IsPacketizationOf(out, payload, mtu, header)
  {
    hide PayloadOf;
    var payloadMtu := Max(mtu - 12, 1);
    out := [];
    assert PayloadOf(out) == [] by { NoPayload(); }
    var next := header.sequenceNumber;
    var cursor := payload;
    while cursor != []
      invariant PayloadOf(out) + cursor == payload
      invariant next == (header.sequenceNumber + |out|) % PERIOD
      invariant forall k :: 0 <= k < |out| ==>
                  && out[k].header == header.(sequenceNumber := (header.sequenceNumber + k) % PERIOD,
                                              marker := k == |out| - 1 && cursor == [])
                  && 0 < |out[k].payload| <= payloadMtu
                  && (k < |out| - 1 || cursor != [] ==> |out[k].payload| == payloadMtu)
      decreases |cursor|
    {
      var take := Min(|cursor|, payloadMtu);
      var chunk := cursor[..take];
      assert cursor == chunk + cursor[take..];
      cursor := cursor[take..];
      var packet := RtpPacket(header.(sequenceNumber := next, marker := cursor == []), chunk);
      PayloadOfSnoc(out, packet);
      NextKey(header.sequenceNumber + |out|);
      out := out + [packet];
      next := (next + 1) % PERIOD;
    }
  }

  lemma NoPayload()
    ensures PayloadOf([]) == []
  {
  }

  // ---------- Putting packets in order ----------

  ghost predicate Sorted(packets: seq<RtpPacket>) {
    forall i, j :: 0 <= i < j < |packets| ==> Key(packets[i]) <= Key(packets[j])
  }

  /** Stable insertion: before the first packet whose number is not smaller. */
  function Insert(p: RtpPacket, sorted: seq<RtpPacket>): seq<RtpPacket> {
    if sorted == [] || Key(p) <= Key(sorted[0]) then [p] + sorted
    else [sorted[0]] + Insert(p, sorted[1..])
  }

  /** Stable sort by sequence number. */
  function SortByKey(packets: seq<RtpPacket>): seq<RtpPacket> {
    if packets == [] then [] else Insert(packets[0], SortByKey(packets[1..]))
  }

  lemma {:induction false} InsertKeepsAll(p: RtpPacket, sorted: seq<RtpPacket>)
    ensures multiset(Insert(p, sorted)) == multiset(sorted) + multiset{p}
  {
    if !(sorted == [] || Key(p) <= Key(sorted[0])) {
      InsertKeepsAll(p, sorted[1..]);
      assert sorted == [sorted[0]] + sorted[1..];
    }
  }

  lemma {:induction false} InsertSorts(p: RtpPacket, sorted: seq<RtpPacket>)
    requires Sorted(sorted)
    ensures Sorted(Insert(p, sorted))
    ensures Insert(p, sorted) != []
    ensures Insert(p, sorted)[0] == p || (sorted != [] && Insert(p, sorted)[0] == sorted[0])
  {
    if !(sorted == [] || Key(p) <= Key(sorted[0])) {
      InsertSorts(p, sorted[1..]);
      var rest := Insert(p, sorted[1..]);
      forall i | 0 <= i < |rest| ensures Key(sorted[0]) <= Key(rest[i]) {
        assert i == 0 || Key(rest[0]) <= Key(rest[i]);
      }
    }
  }

  lemma {:induction false} SortSorts(packets: seq<RtpPacket>)
    ensures Sorted(SortByKey(packets))
    ensures multiset(SortByKey(packets)) == multiset(packets) && |SortByKey(packets)| == |packets|
  {
    hide Insert, Sorted;
    if packets == [] {
      SortedWhenEmpty();
    } else {
      SortSorts(packets[1..]);
      InsertSorts(packets[0], SortByKey(packets[1..]));
      InsertKeepsAll(packets[0], SortByKey(packets[1..]));
      assert packets == [packets[0]] + packets[1..];
    }
    assert |multiset(SortByKey(packets))| == |SortByKey(packets)|;
  }

  lemma SortedWhenEmpty()
    ensures Sorted([])
  {
  }

  /** The packets with one sequence number, in order. */
  function WithKey(packets: seq<RtpPacket>, n: u16): seq<RtpPacket> {
    if packets == [] then [] else (if Key(packets[0]) == n then [packets[0]] else []) + WithKey(packets[1..], n)
  }

  lemma {:induction false} InsertIsStable(p: RtpPacket, sorted: seq<RtpPacket>, n: u16)
    ensures WithKey(Insert(p, sorted), n) == (if Key(p) == n then [p] else []) + WithKey(sorted, n)
  {
    if sorted == [] || Key(p) <= Key(sorted[0]) {
      assert Insert(p, sorted)[1..] == sorted;
    } else {
      InsertIsStable(p, sorted[1..], n);
      assert Insert(p, sorted)[1..] == Insert(p, sorted[1..]);
    }
  }

  /** Packets with the same number keep their order of arrival. */
  lemma {:induction false} SortIsStable(packets: seq<RtpPacket>, n: u16)
    ensures WithKey(SortByKey(packets), n) == WithKey(packets, n)
  {
    hide Insert;
    if packets != [] {
      SortIsStable(packets[1..], n);
      InsertIsStable(packets[0], SortByKey(packets[1..]), n);
    }
  }

  /** The distance from packet `k` of a sorted list to its successor, cyclically. */
  function Gap(sorted: seq<RtpPacket>, k: nat): int
    requires k < |sorted|
  {
    if k + 1 < |sorted| then Key(sorted[k + 1]) - Key(sorted[k])
    else PERIOD + Key(sorted[0]) - Key(sorted[k])
  }

  /** Where the order starts: after the widest cyclic gap. Among equal gaps the first internal one counts,
      and the gap across the wrap counts only when it is strictly the widest. */
  ghost predicate StartsAfterWidestGap(sorted: seq<RtpPacket>, start: nat)
    requires sorted != []
  {
    var last := |sorted| - 1;
    && start < |sorted|
    && if start == 0 then forall k :: 0 <= k < last ==> Gap(sorted, k) < Gap(sorted, last)
       else && Gap(sorted, start - 1) >= Gap(sorted, last)
            && (forall k :: 0 <= k < start - 1 ==> Gap(sorted, k) < Gap(sorted, start - 1))
            && (forall k :: start <= k < last ==> Gap(sorted, k) <= Gap(sorted, start - 1))
  }

  lemma LaterStartExcludesEarlier(sorted: seq<RtpPacket>, lo: nat, hi: nat)
    requires sorted != [] && lo < hi && StartsAfterWidestGap(sorted, hi)
    ensures !StartsAfterWidestGap(sorted, lo)
  {
    if lo == 0 {
      assert !(Gap(sorted, hi - 1) < Gap(sorted, |sorted| - 1));
    } else {
      assert Gap(sorted, lo - 1) < Gap(sorted, hi - 1);
    }
  }

  /** The widest-gap rule picks one start, so the order it gives is determined by the packets. */
  lemma StartIsUnique(sorted: seq<RtpPacket>, a: nat, b: nat)
    requires sorted != [] && StartsAfterWidestGap(sorted, a) && StartsAfterWidestGap(sorted, b)
    ensures a == b
  {
    if a < b {
      LaterStartExcludesEarlier(sorted, a, b);
    } else if b < a {
      LaterStartExcludesEarlier(sorted, b, a);
    }
  }

  ghost predicate IsReordering(packets: seq<RtpPacket>, ordered: seq<RtpPacket>) {
    if packets == [] then ordered == []
    else exists start: nat :: IsRotation(SortByKey(packets), start, ordered)
  }

  ghost predicate IsRotation(sorted: seq<RtpPacket>, start: nat, ordered: seq<RtpPacket>) {
    && sorted != []
    && StartsAfterWidestGap(sorted, start)
    && ordered == sorted[start..] + sorted[..start]
  }

  /** Index of the first widest internal gap, or the last index when all internal gaps are zero. */
  method ScanGaps(sorted: seq<RtpPacket>) returns (splitAfter: nat, largestGap: nat)
    requires sorted != [] && Sorted(sorted)
    ensures splitAfter < |sorted|
    ensures forall k :: 0 <= k < |sorted| - 1 ==> Gap(sorted, k) <= largestGap
    ensures if largestGap == 0 then splitAfter == |sorted| - 1
            else splitAfter < |sorted| - 1 && Gap(sorted, splitAfter) == largestGap
                 && forall k :: 0 <= k < splitAfter ==> Gap(sorted, k) < largestGap
  {
    var last := |sorted| - 1;
    largestGap, splitAfter := 0, last;
    for idx := 0 to last
      invariant splitAfter <= last
      invariant if largestGap == 0 then splitAfter == last
                else splitAfter < idx && Gap(sorted, splitAfter) == largestGap
                     && forall k :: 0 <= k < splitAfter ==> Gap(sorted, k) < largestGap
      invariant forall k :: 0 <= k < idx ==> Gap(sorted, k) <= largestGap
    {
      var gap := (Key(sorted[idx + 1]) - Key(sorted[idx])) % PERIOD;
      if gap > largestGap {
        largestGap, splitAfter := gap, idx;
      }
    }
  }

  method FindStart(sorted: seq<RtpPacket>) returns (start: nat)
    requires sorted != [] && Sorted(sorted)
    ensures StartsAfterWidestGap(sorted, start)
  {
    var last := |sorted| - 1;
    var splitAfter, largestGap := ScanGaps(sorted);
    var wrapGap := Max(PERIOD + Key(sorted[0]) - Key(sorted[last]), 0);
    assert wrapGap == Gap(sorted, last) > 0;
    if wrapGap > largestGap {
      splitAfter := last;
    }
    start := if splitAfter + 1 == |sorted| then 0 else splitAfter + 1;
  }

  method Concatenate(ordered: seq<RtpPacket>) returns (out: seq<byte>)
    ensures out == PayloadOf(ordered)
  {
    out := [];
    for i := 0 to |ordered|
      invariant out == PayloadOf(ordered[..i])
    {
      PayloadOfSnoc(ordered[..i], ordered[i]);
      assert ordered[..i + 1] == ordered[..i] + [ordered[i]];
      out := out + ordered[i].payload;
    }
    assert ordered[..|ordered|] == ordered;
  }

  method DepacketizePayload(packets: seq<RtpPacket>) returns (out: seq<byte>)
    ensures exists ordered :: IsReordering(packets, ordered) && out == PayloadOf(ordered)
  {
    if packets == [] {
      assert IsReordering(packets, []);
      return [];
    }
    var sorted := SortByKey(packets);
    SortSorts(packets);
    var start := FindStart(sorted);
    var ordered := sorted;
    if start != 0 {
      ordered := sorted[start..] + sorted[..start];
    }
    assert IsRotation(sorted, start, ordered);
    out := Concatenate(ordered);
  }

  // ---------- When the order sent is recovered ----------

  /** `truths` are the unwrapped numbers of the packets sent, increasing within one period. */
  ghost predicate Numbers(sent: seq<RtpPacket>, truths: seq<nat>) {
    && |sent| == |truths| > 0
    && (forall i, j :: 0 <= i < j < |truths| ==> truths[i] < truths[j])
    && truths[|truths| - 1] - truths[0] < PERIOD
    && forall k :: 0 <= k < |sent| ==> Key(sent[k]) == truths[k] % PERIOD
  }

  /** The distance from packet `k` to its successor; from the last, to the first of the next period. */
  ghost function TrueGap(truths: seq<nat>, k: nat): int
    requires k < |truths|
  {
    if k + 1 < |truths| then truths[k + 1] as int - truths[k] as int
    else PERIOD + truths[0] as int - truths[k] as int
  }

  ghost function Cycle(n: nat): nat {
    n / PERIOD
  }

  /** The gap from last to first is wider than every gap inside. It may be equalled only by gaps that begin
      before the wrap, when the numbers do wrap. */
  ghost predicate BoundaryIsWidest(truths: seq<nat>)
    requires truths != []
  {
    var last := |truths| - 1;
    forall k :: 0 <= k < last ==>
      || TrueGap(truths, k) < TrueGap(truths, last)
      || (TrueGap(truths, k) == TrueGap(truths, last) && Cycle(truths[k]) < Cycle(truths[last]))
  }

  /** How many of the numbers lie in the cycle of the first. */
  ghost function Turn(truths: seq<nat>): nat
    requires truths != []
  {
    var last := |truths| - 1;
    if last == 0 || Cycle(truths[last]) == Cycle(truths[0]) then |truths| else Turn(truths[..last])
  }

  lemma {:induction false} TurnSplits(truths: seq<nat>)
    requires truths != []
    requires forall i, j :: 0 <= i < j < |truths| ==> truths[i] < truths[j]
    requires truths[|truths| - 1] - truths[0] < PERIOD
    ensures 0 < Turn(truths) <= |truths|
    ensures forall k :: 0 <= k < Turn(truths) ==> Cycle(truths[k]) == Cycle(truths[0])
    ensures forall k :: Turn(truths) <= k < |truths| ==> Cycle(truths[k]) == Cycle(truths[0]) + 1
  {
    var last := |truths| - 1;
    if last == 0 {
    } else if Cycle(truths[last]) == Cycle(truths[0]) {
      forall k | 0 <= k <= last ensures Cycle(truths[k]) == Cycle(truths[0]) {
        assert truths[0] <= truths[k] <= truths[last];
      }
    } else {
      TurnSplits(truths[..last]);
    }
  }

  /** The sent packets as sorting by the wrapped number leaves them: the part after the wrap comes first. */
  ghost function AsSorted(sent: seq<RtpPacket>, turn: nat): seq<RtpPacket>
    requires turn <= |sent|
  {
    sent[turn..] + sent[..turn]
  }

  ghost predicate StrictlySorted(packets: seq<RtpPacket>) {
    forall i, j :: 0 <= i < j < |packets| ==> Key(packets[i]) < Key(packets[j])
  }

  lemma TailMultiset(a: seq<RtpPacket>)
    requires a != []
    ensures multiset(a[1..]) == multiset(a) - multiset{a[0]}
  {
    assert a == [a[0]] + a[1..];
  }

  lemma SameHead(a: seq<RtpPacket>, b: seq<RtpPacket>)
    requires a != [] && b != []
    requires StrictlySorted(a) && Sorted(b) && multiset(a) == multiset(b)
    ensures a[0] == b[0]
  {
    assert b[0] in multiset(a) && a[0] in multiset(b);
    var i :| 0 <= i < |a| && a[i] == b[0];
    var j :| 0 <= j < |b| && b[j] == a[0];
    assert Key(b[0]) <= Key(b[j]);
    HeadIsLeast(a, i);
  }

  lemma HeadIsLeast(a: seq<RtpPacket>, i: nat)
    requires StrictlySorted(a) && i < |a|
    ensures Key(a[i]) <= Key(a[0]) ==> i == 0
  {
  }

  lemma {:induction false} SortedFormIsUnique(a: seq<RtpPacket>, b: seq<RtpPacket>)
    requires StrictlySorted(a) && Sorted(b) && multiset(a) == multiset(b)
    ensures a == b
  {
    assert |multiset(a)| == |a| && |multiset(b)| == |b|;
    if a != [] {
      SameHead(a, b);
      TailMultiset(a);
      TailMultiset(b);
      TailsAreSorted(a, b);
      hide StrictlySorted, Sorted;
      SortedFormIsUnique(a[1..], b[1..]);
      assert a == [a[0]] + a[1..] && b == [b[0]] + b[1..];
    }
  }

  lemma TailsAreSorted(a: seq<RtpPacket>, b: seq<RtpPacket>)
    requires a != [] && b != [] && StrictlySorted(a) && Sorted(b)
    ensures StrictlySorted(a[1..]) && Sorted(b[1..])
  {
  }

  lemma KeyInCycle(sent: seq<RtpPacket>, truths: seq<nat>, i: nat)
    requires Numbers(sent, truths) && i < |sent|
    ensures 0 < Turn(truths) <= |sent|
    ensures Key(sent[i]) == truths[i] - PERIOD * (Cycle(truths[0]) + if i < Turn(truths) then 0 else 1)
  {
    TurnSplits(truths);
    assert truths[i] % PERIOD == truths[i] - PERIOD * Cycle(truths[i]);
  }

  /** Where the packet that sorts to place `k` stands in the order sent. */
  ghost function Place(n: nat, turn: nat, k: nat): int {
    if k < n - turn then k + turn else k - (n - turn)
  }

  lemma AsSortedIsSorted(sent: seq<RtpPacket>, truths: seq<nat>)
    requires Numbers(sent, truths)
    ensures 0 < Turn(truths) <= |sent| && StrictlySorted(AsSorted(sent, Turn(truths)))
  {
    var n, m := |sent|, Turn(truths);
    TurnSplits(truths);
    var c := AsSorted(sent, m);
    forall i, j | 0 <= i < j < n ensures Key(c[i]) < Key(c[j]) {
      var a, b := Place(n, m, i), Place(n, m, j);
      assert c[i] == sent[a] && c[j] == sent[b];
      KeyInCycle(sent, truths, a);
      KeyInCycle(sent, truths, b);
      if b < a {
        assert truths[0] <= truths[b] < truths[a] <= truths[n - 1];
      }
    }
  }

  /** The cyclic gaps of the sorted packets are the true gaps, turned. */
  lemma SortedGap(sent: seq<RtpPacket>, truths: seq<nat>, k: nat)
    requires Numbers(sent, truths) && k < |sent|
    requires 0 < Turn(truths) <= |sent|
    ensures Gap(AsSorted(sent, Turn(truths)), k) == TrueGap(truths, Place(|sent|, Turn(truths), k))
  {
    var n, m, c := |sent|, Turn(truths), AsSorted(sent, Turn(truths));
    var next := if k + 1 < n then k + 1 else 0;
    var a, b := Place(n, m, k), Place(n, m, next);
    assert c[k] == sent[a] && c[next] == sent[b];
    assert b == if a + 1 < n then a + 1 else 0;
    KeyInCycle(sent, truths, a);
    KeyInCycle(sent, truths, b);
  }

  ghost predicate GapsAreTurned(c: seq<RtpPacket>, truths: seq<nat>, m: nat) {
    && |c| == |truths| && 0 < m <= |c|
    && (forall k :: 0 <= k < |c| ==> Gap(c, k) == TrueGap(truths, Place(|c|, m, k)))
    && (forall k :: 0 <= k < |c| ==> (Cycle(truths[k]) < Cycle(truths[|c| - 1]) <==> k < m < |c|))
  }

  lemma WidestBoundaryStarts(c: seq<RtpPacket>, truths: seq<nat>, m: nat)
    requires c != [] && GapsAreTurned(c, truths, m) && BoundaryIsWidest(truths)
    ensures StartsAfterWidestGap(c, |c| - m)
  {
    var n := |c|;
    if m < n {
      assert Gap(c, n - m - 1) == TrueGap(truths, n - 1);
      assert Gap(c, n - 1) == TrueGap(truths, m - 1);
    }
  }

  lemma StartMakesBoundaryWidest(c: seq<RtpPacket>, truths: seq<nat>, m: nat)
    requires c != [] && GapsAreTurned(c, truths, m) && StartsAfterWidestGap(c, |c| - m)
    ensures BoundaryIsWidest(truths)
  {
    var n := |c|;
    forall k | 0 <= k < n - 1
      ensures TrueGap(truths, k) < TrueGap(truths, n - 1)
              || (TrueGap(truths, k) == TrueGap(truths, n - 1) && Cycle(truths[k]) < Cycle(truths[n - 1]))
    {
      var place := if k >= m then k - m else k + n - m;
      assert Gap(c, place) == TrueGap(truths, k);
      if m < n {
        assert Gap(c, n - m - 1) == TrueGap(truths, n - 1);
      } else {
        assert Gap(c, n - 1) == TrueGap(truths, n - 1);
      }
    }
  }

  lemma TrueStart(sent: seq<RtpPacket>, truths: seq<nat>)
    requires Numbers(sent, truths)
    ensures 0 < Turn(truths) <= |sent|
    ensures var m := Turn(truths);
            StartsAfterWidestGap(AsSorted(sent, m), |sent| - m) <==> BoundaryIsWidest(truths)
  {
    var m := Turn(truths);
    TurnSplits(truths);
    var c := AsSorted(sent, m);
    forall k: nat | k < |c| ensures Gap(c, k) == TrueGap(truths, Place(|c|, m, k)) {
      SortedGap(sent, truths, k);
    }
    assert GapsAreTurned(c, truths, m);
    if BoundaryIsWidest(truths) {
      WidestBoundaryStarts(c, truths, m);
    }
    if StartsAfterWidestGap(c, |c| - m) {
      StartMakesBoundaryWidest(c, truths, m);
    }
  }

  /** For packets numbered within one period: whatever order they arrive in, the order sent is recovered
      exactly when the boundary gap is the widest. */
  lemma OrderIsRecoveredIff(sent: seq<RtpPacket>, truths: seq<nat>, packets: seq<RtpPacket>, ordered: seq<RtpPacket>)
    requires Numbers(sent, truths)
    requires multiset(packets) == multiset(sent)
    requires IsReordering(packets, ordered)
    ensures ordered == sent <==> BoundaryIsWidest(truths)
  {
    var n, m := |sent|, Turn(truths);
    AsSortedIsSorted(sent, truths);
    TrueStart(sent, truths);
    var c := AsSorted(sent, m);
    SortSorts(packets);
    AsSortedKeepsAll(sent, m);
    SortedFormIsUnique(c, SortByKey(packets));
    NonEmpty(packets, sent);
    var start: nat :| IsRotation(c, start, ordered);
    RotationIsSent(sent, m, start);
    if StartsAfterWidestGap(c, n - m) {
      StartIsUnique(c, start, n - m);
    }
  }

  lemma NonEmpty(packets: seq<RtpPacket>, sent: seq<RtpPacket>)
    requires multiset(packets) == multiset(sent) && sent != []
    ensures packets != []
  {
    assert sent[0] in multiset(sent);
  }

  lemma AsSortedKeepsAll(sent: seq<RtpPacket>, m: nat)
    requires m <= |sent|
    ensures multiset(AsSorted(sent, m)) == multiset(sent)
  {
    assert sent == sent[..m] + sent[m..];
  }

  lemma RotationIsSent(sent: seq<RtpPacket>, m: nat, start: nat)
    requires 0 < m <= |sent| && start < |sent| && StrictlySorted(AsSorted(sent, m))
    ensures var c := AsSorted(sent, m); c[start..] + c[..start] == sent <==> start == |sent| - m
  {
    var c := AsSorted(sent, m);
    if c[start..] + c[..start] == sent {
      assert c[start] == (c[start..] + c[..start])[0];
      assert c[|sent| - m] == sent[0];
    }
  }

  /** Any subset of packets whose true numbers span less than half a period is put in the order sent. */
  lemma SurvivorsKeepOrder(sent: seq<RtpPacket>, truths: seq<nat>, packets: seq<RtpPacket>, ordered: seq<RtpPacket>)
    requires Numbers(sent, truths) && truths[|truths| - 1] - truths[0] < PERIOD / 2
    requires multiset(packets) == multiset(sent)
    requires IsReordering(packets, ordered)
    ensures ordered == sent
  {
    OrderIsRecoveredIff(sent, truths, packets, ordered);
    forall k | 0 <= k < |truths| - 1 ensures TrueGap(truths, k) < TrueGap(truths, |truths| - 1) {
      assert truths[0] <= truths[k] < truths[k + 1] <= truths[|truths| - 1];
    }
  }

  /** Depacketizing inverts packetizing: up to 65535 packets in any order, also when their numbers wrap. */
  lemma DepacketizeInvertsPacketize(payload: seq<byte>, mtu: nat, header: RtpHeader, sent: seq<RtpPacket>,
                                    packets: seq<RtpPacket>, ordered: seq<RtpPacket>)
    requires IsPacketizationOf(sent, payload, mtu, header) && |sent| < PERIOD
    requires multiset(packets) == multiset(sent)
    requires IsReordering(packets, ordered)
    ensures ordered == sent && PayloadOf(ordered) == payload
  {
    if sent == [] {
      assert |multiset(packets)| == |packets| && |multiset(sent)| == |sent|;
    } else {
      var truths: seq<nat> := seq(|sent|, k => header.sequenceNumber + k);
      forall k | 0 <= k < |sent| ensures Key(sent[k]) == truths[k] % PERIOD {
        assert sent[k].header.sequenceNumber == (header.sequenceNumber + k) % PERIOD;
      }
      OrderIsRecoveredIff(sent, truths, packets, ordered);
      assert BoundaryIsWidest(truths);
    }
  }

  /** A full period of 65536 consecutive packets is recovered from one starting number only, 1: with no free
      number left the boundary gap ties with all others. */
  lemma FullPeriodIsRecoveredOnlyFromOne(sent: seq<RtpPacket>, first: u16, packets: seq<RtpPacket>,
                                         ordered: seq<RtpPacket>)
    requires |sent| == PERIOD
    requires forall k :: 0 <= k < PERIOD ==> Key(sent[k]) == (first + k) % PERIOD
    requires multiset(packets) == multiset(sent)
    requires IsReordering(packets, ordered)
    ensures ordered == sent <==> first == 1
  {
    hide Numbers, BoundaryIsWidest, IsReordering, Key;
    var truths: seq<nat> := seq(PERIOD, k => first + k);
    FullPeriodNumbers(sent, truths, first);
    OrderIsRecoveredIff(sent, truths, packets, ordered);
    FullPeriodBoundary(truths, first);
  }

  lemma FullPeriodNumbers(sent: seq<RtpPacket>, truths: seq<nat>, first: u16)
    requires |sent| == |truths| == PERIOD
    requires forall k :: 0 <= k < PERIOD ==> truths[k] == first + k && Key(sent[k]) == (first + k) % PERIOD
    ensures Numbers(sent, truths)
  {
  }

  lemma FullPeriodBoundary(truths: seq<nat>, first: u16)
    requires |truths| == PERIOD
    requires forall k :: 0 <= k < PERIOD ==> truths[k] == first + k
    ensures BoundaryIsWidest(truths) <==> first == 1
  {
    var last := PERIOD - 1;
    assert TrueGap(truths, last) == 1;
    assert forall k :: 0 <= k < last ==> TrueGap(truths, k) == 1;
    assert truths[last - 1] == first + PERIOD - 2 && truths[last] == first + PERIOD - 1;
    if BoundaryIsWidest(truths) {
      assert Cycle(truths[last - 1]) < Cycle(truths[last]);
    }
  }

  lemma {:induction false} AscendsByOne(c: seq<RtpPacket>, lo: nat, hi: nat)
    requires Sorted(c) && lo < hi <= |c|
    requires forall k :: lo <= k < hi - 1 ==> Key(c[k + 1]) == (Key(c[k]) as int + 1) % PERIOD
    ensures Key(c[hi - 1]) == Key(c[lo]) as int + (hi - 1 - lo)
    decreases hi
  {
    if hi > lo + 1 {
      AscendsByOne(c, lo, hi - 1);
      assert Key(c[hi - 2]) <= Key(c[hi - 1]);
    }
  }

  /** More than a full period, rotated so that it numbers upwards, does not start after the widest gap: the rotation
      would have to part two packets with the same number. */
  lemma NoLongRotation(c: seq<RtpPacket>, start: nat)
    requires Sorted(c) && |c| > PERIOD && start < |c|
    requires var r := c[start..] + c[..start];
             forall k :: 0 <= k < |r| - 1 ==> Key(r[k + 1]) == (Key(r[k]) as int + 1) % PERIOD
    ensures !StartsAfterWidestGap(c, start)
  {
    var n, r := |c|, c[start..] + c[..start];
    forall k | start <= k < n - 1 ensures Key(c[k + 1]) == (Key(c[k]) as int + 1) % PERIOD {
      assert r[k - start] == c[k] && r[k - start + 1] == c[k + 1];
    }
    AscendsByOne(c, start, n);
    if start == 0 {
      assert false;
    }
    forall k | 0 <= k < start - 1 ensures Key(c[k + 1]) == (Key(c[k]) as int + 1) % PERIOD {
      assert r[n - start + k] == c[k] && r[n - start + k + 1] == c[k + 1];
    }
    AscendsByOne(c, 0, start);
    assert r[n - start - 1] == c[n - 1] && r[n - start] == c[0];
    assert Key(c[0]) <= Key(c[n - 1]) && Key(c[start - 1]) <= Key(c[start]);
    assert Gap(c, start - 1) == 0 && Gap(c, n - 1) == 1;
  }

  ghost predicate Consecutive(sent: seq<RtpPacket>, first: u16) {
    forall k :: 0 <= k < |sent| ==> Key(sent[k]) == (first + k) % PERIOD
  }

  lemma ShortRunIsRecovered(sent: seq<RtpPacket>, first: u16, packets: seq<RtpPacket>, ordered: seq<RtpPacket>)
    requires Consecutive(sent, first) && 0 < |sent| < PERIOD
    requires multiset(packets) == multiset(sent)
    requires IsReordering(packets, ordered)
    ensures ordered == sent
  {
    var truths: seq<nat> := seq(|sent|, k => first + k);
    assert Numbers(sent, truths);
    OrderIsRecoveredIff(sent, truths, packets, ordered);
    assert BoundaryIsWidest(truths);
  }

  lemma LongRunIsNotRecovered(sent: seq<RtpPacket>, first: u16, packets: seq<RtpPacket>, ordered: seq<RtpPacket>)
    requires Consecutive(sent, first) && |sent| > PERIOD
    requires packets != [] && IsReordering(packets, ordered)
    ensures ordered != sent
  {
    hide SortByKey, StartsAfterWidestGap, Sorted;
    var c := SortByKey(packets);
    var start: nat :| IsRotation(c, start, ordered);
    StartIsWithin(c, start);
    SortSorts(packets);
    if ordered == sent {
      KeysAreConsecutive(sent, first);
      hide Key, Consecutive;
      NoLongRotation(c, start);
    }
  }

  lemma KeysAreConsecutive(sent: seq<RtpPacket>, first: u16)
    requires Consecutive(sent, first)
    ensures forall k :: 0 <= k < |sent| - 1 ==> Key(sent[k + 1]) == (Key(sent[k]) as int + 1) % PERIOD
  {
    forall k | 0 <= k < |sent| - 1 ensures Key(sent[k + 1]) == (Key(sent[k]) as int + 1) % PERIOD {
      NextKey(first + k);
      assert Key(sent[k + 1]) == (first + (k + 1)) % PERIOD;
    }
  }

  lemma NextKey(n: nat)
    ensures (n + 1) % PERIOD == (n % PERIOD + 1) % PERIOD
  {
  }

  lemma StartIsWithin(c: seq<RtpPacket>, start: nat)
    requires c != [] && StartsAfterWidestGap(c, start)
    ensures start < |c|
  {
  }

  /** Packets numbered upwards from `first`, as many as there may be: the order sent is recovered exactly when there
      are fewer than a full period of them, or a full period that starts at number 1. */
  lemma ConsecutiveIsRecoveredIff(sent: seq<RtpPacket>, first: u16, packets: seq<RtpPacket>, ordered: seq<RtpPacket>)
    requires Consecutive(sent, first)
    requires multiset(packets) == multiset(sent)
    requires IsReordering(packets, ordered)
    ensures ordered == sent <==> |sent| < PERIOD || (|sent| == PERIOD && first == 1)
  {
    assert |multiset(packets)| == |packets| && |multiset(sent)| == |sent|;
    if sent == [] {
      assert ordered == [];
    } else {
      hide IsReordering;
      if |sent| < PERIOD {
        ShortRunIsRecovered(sent, first, packets, ordered);
      } else if |sent| == PERIOD {
        FullPeriodIsRecoveredOnlyFromOne(sent, first, packets, ordered);
      } else {
        LongRunIsNotRecovered(sent, first, packets, ordered);
      }
    }
  }
}
