/**
 Reordering of RTP packets: 16-bit sequence numbers are extended to an unbounded order,
 early packets wait in a bounded buffer, and three rules force their release.
 */
module RtpReorder {
  import opened Bytes

  const SEQUENCE_PERIOD := 0x1_0000
  const HALF_SEQUENCE_PERIOD := 0x8000
  const ABSOLUTE_PENDING_CAP := 64

  datatype Settings = Settings(maxPackets: nat, maxDelayMs: nat)

  datatype Entry<T> = Entry(sequenceNumber: nat, arrivalMs: nat, packet: T)

  datatype Arrival<T> = Arrival(raw: u16, arrivalMs: nat, packet: T)

  datatype State<T> = State(expected: Option<nat>, pending: seq<Entry<T>>)

  // ---------- Extending a 16-bit number ----------

  /** The number a raw 16-bit value stands for when `expected` comes next: the value itself when it is
      less than half a period ahead, and `expected - 1` (late, to be dropped) otherwise. */
  function Extend(expected: nat, raw: u16): nat {
    var off := (raw - expected) % SEQUENCE_PERIOD;
    if off < HALF_SEQUENCE_PERIOD then expected + off else Max(expected - 1, 0)
  }

  /** The three-candidate search: the previous, the same and the next cycle are compared by distance. */
  method NearestCycle(expected: nat, raw: u16) returns (seqNo: nat)
    ensures seqNo == Extend(expected, raw)
  {
    var base := expected / SEQUENCE_PERIOD * SEQUENCE_PERIOD + raw;
    var best := base;
    var bestDiff := Distance(base, expected);
    var k := -1;
    while k <= 1
      invariant k in {-1, 1, 3}
      invariant k == -1 ==> best == base
      invariant k == 1 ==>
                  if Distance(base - SEQUENCE_PERIOD, expected) < Distance(base, expected)
                  then best == base - SEQUENCE_PERIOD else best == base
      invariant k == 3 ==>
                  bestDiff <= Distance(base, expected) && bestDiff <= Distance(base + SEQUENCE_PERIOD, expected)
                  && bestDiff <= Distance(base - SEQUENCE_PERIOD, expected)
      invariant best in {base, base - SEQUENCE_PERIOD, base + SEQUENCE_PERIOD}
      invariant bestDiff == Distance(best, expected)
      decreases 3 - k
    {
      var candidate := base + k * SEQUENCE_PERIOD;
      var diff := Distance(candidate, expected);
      if diff < bestDiff {
        best, bestDiff := candidate, diff;
      }
      k := k + 2;
    }
    if bestDiff >= HALF_SEQUENCE_PERIOD || best < expected {
      return Max(expected - 1, 0);
    }
    return best;
  }

  /** Extension recovers every true number within half a period of the expected one, and makes the late
      ones fall just below it. */
  lemma ExtendRecoversTruth(expected: nat, truth: int, raw: u16)
    requires -HALF_SEQUENCE_PERIOD < truth - expected < HALF_SEQUENCE_PERIOD && truth % SEQUENCE_PERIOD == raw
    requires expected > 0
    ensures truth >= expected ==> Extend(expected, raw) == truth
    ensures truth < expected ==> Extend(expected, raw) == expected - 1
  {
    assert (raw - expected) % SEQUENCE_PERIOD == (truth - expected) % SEQUENCE_PERIOD;
  }

  // ---------- Specification of one push ----------

  datatype Step<T> = Step(state: State<T>, out: seq<Entry<T>>)

  function Fresh<T>(): State<T> {
    State(None, [])
  }

  /** The first place where number `n` waits, or the length when it does not. */
  function IndexOf<T>(pending: seq<Entry<T>>, n: nat): (i: nat)
    ensures i <= |pending|
    ensures i < |pending| ==> pending[i].sequenceNumber == n
    ensures forall j :: 0 <= j < i ==> pending[j].sequenceNumber != n
  {
    if pending == [] || pending[0].sequenceNumber == n then 0 else 1 + IndexOf(pending[1..], n)
  }

  function Without<T>(pending: seq<T>, i: nat): seq<T>
    requires i < |pending|
  {
    pending[..i] + pending[i + 1..]
  }

  /** Everything waiting that continues the order at `expected`, one number after the other. */
  function Drain<T>(expected: nat, pending: seq<Entry<T>>): Step<T>
    decreases |pending|
  {
    var i := IndexOf(pending, expected);
    if i == |pending| then Step(State(Some(expected), pending), [])
    else
      var rest := Drain(expected + 1, Without(pending, i));
      Step(rest.state, [pending[i]] + rest.out)
  }

  /** The first place of the smallest waiting number. */
  function Closest<T>(pending: seq<Entry<T>>): (i: nat)
    requires pending != []
    ensures i < |pending|
    ensures forall j :: 0 <= j < |pending| ==> pending[i].sequenceNumber <= pending[j].sequenceNumber
    ensures forall j :: 0 <= j < i ==> pending[i].sequenceNumber < pending[j].sequenceNumber
  {
    if |pending| == 1 then 0
    else
      var i := Closest(pending[1..]);
      if pending[0].sequenceNumber <= pending[1..][i].sequenceNumber then 0 else i + 1
  }

  function Release<T>(pending: seq<Entry<T>>): Step<T>
    requires pending != []
  {
    var i := Closest(pending);
    var rest := Drain(pending[i].sequenceNumber + 1, Without(pending, i));
    Step(rest.state, [pending[i]] + rest.out)
  }

  ghost predicate Waited<T>(settings: Settings, pending: seq<Entry<T>>, nowMs: nat) {
    settings.maxDelayMs > 0 &&
    exists i :: 0 <= i < |pending| && Max(nowMs - pending[i].arrivalMs, 0) >= settings.maxDelayMs
  }

  /** The three rules that force a release: too many packets, too long a wait, the absolute cap. */
  ghost predicate MustRelease<T>(settings: Settings, pending: seq<Entry<T>>, nowMs: nat) {
    || (settings.maxPackets > 0 && |pending| > settings.maxPackets)
    || Waited(settings, pending, nowMs)
    || |pending| > ABSOLUTE_PENDING_CAP
  }

  function Enlist<T>(pending: seq<Entry<T>>, e: Entry<T>): seq<Entry<T>> {
    if IndexOf(pending, e.sequenceNumber) < |pending| then pending else pending + [e]
  }

  ghost function PushStep<T>(settings: Settings, s: State<T>, a: Arrival<T>): Step<T> {
    match s.expected
    case None => Step(State(Some(a.raw + 1), s.pending), [Entry(a.raw, a.arrivalMs, a.packet)])
    case Some(expected) =>
      var e := Entry(Extend(expected, a.raw), a.arrivalMs, a.packet);
      if e.sequenceNumber < expected then Step(s, [])
      else if e.sequenceNumber == expected then
        var rest := Drain(expected + 1, s.pending);
        Step(rest.state, [e] + rest.out)
      else
        var pending := Enlist(s.pending, e);
        if MustRelease(settings, pending, a.arrivalMs) then Release(pending)
        else Step(State(s.expected, pending), [])
  }

  /** A whole run from a fresh buffer: the final state and everything delivered, in order. */
  ghost function Run<T>(settings: Settings, arrivals: seq<Arrival<T>>): Step<T> {
    if arrivals == [] then Step(Fresh(), [])
    else
      var n := |arrivals| - 1;
      var before := Run(settings, arrivals[..n]);
      var last := PushStep(settings, before.state, arrivals[n]);
      Step(last.state, before.out + last.out)
  }

  function Packets<T>(out: seq<Entry<T>>): (p: seq<T>)
    ensures |p| == |out|
    ensures forall i :: 0 <= i < |out| ==> p[i] == out[i].packet
  {
    seq(|out|, i requires 0 <= i < |out| => out[i].packet)
  }

  lemma DrainTakes<T>(expected: nat, pending: seq<Entry<T>>)
    requires IndexOf(pending, expected) < |pending|
    ensures var i := IndexOf(pending, expected);
            var rest := Drain(expected + 1, Without(pending, i));
            Drain(expected, pending) == Step(rest.state, [pending[i]] + rest.out)
  {
  }

  lemma DrainStops<T>(expected: nat, pending: seq<Entry<T>>)
    requires IndexOf(pending, expected) == |pending|
    ensures Drain(expected, pending) == Step(State(Some(expected), pending), [])
  {
  }

  lemma PacketsCons<T>(e: Entry<T>, out: seq<Entry<T>>)
    ensures Packets([e] + out) == [e.packet] + Packets(out)
  {
  }

  // ---------- The buffer itself ----------

  class RtpReorderBuffer<T> {
    const settings: Settings
    var expectedSeq: Option<nat>
    var pending: seq<Entry<T>>

    constructor (settings: Settings)
      ensures this.settings == settings && Now() == Fresh()
    {
      this.settings := settings;
      expectedSeq, pending := None, [];
    }

    ghost function Now(): State<T>
      reads this
    {
      State(expectedSeq, pending)
    }

    method Push(sequenceNumber: u16, arrivalMs: nat, packet: T) returns (out: seq<T>)
      modifies this
      ensures var step := PushStep(settings, old(Now()), Arrival(sequenceNumber, arrivalMs, packet));
              Now() == step.state && out == Packets(step.out)
    {
      if expectedSeq.None? {
        expectedSeq := Some(sequenceNumber + 1);
        return [packet];
      }
      var expected := expectedSeq.value;
      var seqNo := NearestCycle(expected, sequenceNumber);
      if seqNo < expected {
        return [];
      }
      if seqNo == expected {
        expectedSeq := Some(expected + 1);
        var rest := DrainContiguous();
        return [packet] + rest;
      }
      if IndexOf(pending, seqNo) == |pending| {
        pending := pending + [Entry(seqNo, arrivalMs, packet)];
      }
      if settings.maxPackets > 0 && |pending| > settings.maxPackets {
        out := ForceReleaseClosest();
        return;
      }
      var late := AnyWaited(arrivalMs);
      if late {
        out := ForceReleaseClosest();
        return;
      }
      if |pending| > ABSOLUTE_PENDING_CAP {
        out := ForceReleaseClosest();
        return;
      }
      return [];
    }

    method Reset()
      modifies this
      ensures Now() == Fresh()
    {
      expectedSeq, pending := None, [];
    }

    method AnyWaited(nowMs: nat) returns (late: bool)
      ensures late == Waited(settings, pending, nowMs)
    {
      late := false;
      if settings.maxDelayMs == 0 {
        return;
      }
      for i := 0 to |pending|
        invariant !late
        invariant forall j :: 0 <= j < i ==> Max(nowMs - pending[j].arrivalMs, 0) < settings.maxDelayMs
      {
        if Max(nowMs - pending[i].arrivalMs, 0) >= settings.maxDelayMs {
          return true;
        }
      }
    }

    method RemovePending(n: nat) returns (found: Option<T>)
      modifies this`pending
      ensures var i := IndexOf(old(pending), n);
              if i < |old(pending)|
              then found == Some(old(pending)[i].packet) && pending == Without(old(pending), i)
              else found == None && pending == old(pending)
    {
      var i := IndexOf(pending, n);
      if i == |pending| {
        return None;
      }
      found := Some(pending[i].packet);
      pending := pending[..i] + pending[i + 1..];
    }

    method DrainContiguous() returns (out: seq<T>)
      requires expectedSeq.Some?
      modifies this
      ensures var step := Drain(old(expectedSeq).value, old(pending));
              Now() == step.state && out == Packets(step.out)
    {
      var expected := expectedSeq.value;
      ghost var whole := Drain(expected, pending);
      ghost var drained: seq<Entry<T>> := [];
      out := [];
      hide Drain, Packets;
      while true
        invariant out == Packets(drained)
        invariant whole.state == Drain(expected, pending).state
        invariant whole.out == drained + Drain(expected, pending).out
        decreases |pending|
      {
        ghost var before := pending;
        var packet := RemovePending(expected);
        if packet.None? {
          DrainStops(expected, pending);
          break;
        }
        ghost var entry := before[IndexOf(before, expected)];
        DrainTakes(expected, before);
        ghost var later := Drain(expected + 1, pending).out;
        assert drained + ([entry] + later) == drained + [entry] + later;
        out := out + [packet.value];
        drained := drained + [entry];
        expected := expected + 1;
      }
      expectedSeq := Some(expected);
    }

    method ClosestIndex() returns (index: nat)
      requires pending != []
      ensures index == Closest(pending)
    {
      index := 0;
      for i := 1 to |pending|
        invariant 0 <= index < |pending|
        invariant forall j :: 0 <= j < i ==> pending[index].sequenceNumber <= pending[j].sequenceNumber
        invariant forall j :: 0 <= j < index ==> pending[index].sequenceNumber < pending[j].sequenceNumber
      {
        if pending[i].sequenceNumber < pending[index].sequenceNumber {
          index := i;
        }
      }
    }

    method ForceReleaseClosest() returns (out: seq<T>)
      modifies this
      ensures old(pending) == [] ==> out == [] && Now() == old(Now())
      ensures old(pending) != [] ==>
                var step := Release(old(pending));
                Now() == step.state && out == Packets(step.out)
    {
      if pending == [] {
        return [];
      }
      ghost var step := Release(pending);
      var index := ClosestIndex();
      var first := pending[index];
      pending := pending[..index] + pending[index + 1..];
      expectedSeq := Some(first.sequenceNumber + 1);
      ghost var drained := Drain(first.sequenceNumber + 1, pending);
      var rest := DrainContiguous();
      assert step == Step(drained.state, [first] + drained.out);
      PacketsCons(first, drained.out);
      out := [first.packet] + rest;
    }
  }

  // ---------- What every run keeps ----------

  ghost predicate Distinct<T>(es: seq<Entry<T>>) {
    forall i, j :: 0 <= i < j < |es| ==> es[i].sequenceNumber != es[j].sequenceNumber
  }

  ghost predicate Increasing<T>(es: seq<Entry<T>>) {
    forall i, j :: 0 <= i < j < |es| ==> es[i].sequenceNumber < es[j].sequenceNumber
  }

  ghost predicate Consecutive<T>(es: seq<Entry<T>>) {
    forall i :: 0 <= i < |es| ==> es[i].sequenceNumber == es[0].sequenceNumber + i
  }

  ghost predicate AllAbove<T>(es: seq<Entry<T>>, n: int) {
    forall i :: 0 <= i < |es| ==> es[i].sequenceNumber > n
  }

  /** Pending numbers are distinct and lie beyond the next expected one. */
  ghost predicate Sound<T>(s: State<T>) {
    match s.expected
    case None => s.pending == []
    case Some(expected) => Distinct(s.pending) && AllAbove(s.pending, expected)
  }

  ghost predicate Bounded<T>(settings: Settings, s: State<T>) {
    |s.pending| <= ABSOLUTE_PENDING_CAP && (settings.maxPackets > 0 ==> |s.pending| <= settings.maxPackets)
  }

  /** Draining splits the waiting entries into a consecutive delivered run and a rest beyond the new gap. */
  ghost predicate Drained<T>(first: nat, pending: seq<Entry<T>>, step: Step<T>) {
    && step.state.expected == Some(first + |step.out|)
    && (forall k :: 0 <= k < |step.out| ==> step.out[k].sequenceNumber == first + k)
    && Distinct(step.state.pending)
    && AllAbove(step.state.pending, first + |step.out|)
    && multiset(step.out) + multiset(step.state.pending) == multiset(pending)
    && |step.out| + |step.state.pending| == |pending|
  }

  lemma WithoutKeeps<T>(pending: seq<Entry<T>>, i: nat)
    requires i < |pending|
    ensures multiset(Without(pending, i)) + multiset{pending[i]} == multiset(pending)
    ensures Distinct(pending) ==> Distinct(Without(pending, i))
    ensures forall k :: 0 <= k < |pending| - 1 ==>
              Without(pending, i)[k] == (if k < i then pending[k] else pending[k + 1])
  {
    WithoutKeepsAll(pending, i);
    WithoutKeepsPlaces(pending, i);
  }

  lemma WithoutKeepsAll<T>(pending: seq<Entry<T>>, i: nat)
    requires i < |pending|
    ensures multiset(Without(pending, i)) + multiset{pending[i]} == multiset(pending)
  {
    assert pending == pending[..i] + [pending[i]] + pending[i + 1..];
  }

  lemma WithoutKeepsPlaces<T>(pending: seq<Entry<T>>, i: nat)
    requires i < |pending|
    ensures Distinct(pending) ==> Distinct(Without(pending, i))
    ensures forall k :: 0 <= k < |pending| - 1 ==>
              Without(pending, i)[k] == (if k < i then pending[k] else pending[k + 1])
  {
    var fewer := Without(pending, i);
    assert forall k :: 0 <= k < |pending| - 1 ==> fewer[k] == if k < i then pending[k] else pending[k + 1];
  }

  lemma DrainedCons<T>(e: Entry<T>, fewer: seq<Entry<T>>, pending: seq<Entry<T>>, rest: Step<T>)
    requires Drained(e.sequenceNumber + 1, fewer, rest)
    requires multiset(fewer) + multiset{e} == multiset(pending) && |fewer| + 1 == |pending|
    ensures Drained(e.sequenceNumber, pending, Step(rest.state, [e] + rest.out))
  {
    var out := [e] + rest.out;
    assert multiset(out) == multiset{e} + multiset(rest.out);
    forall k | 0 <= k < |out|
      ensures out[k].sequenceNumber == e.sequenceNumber + k
    {
      if k > 0 {
        assert out[k] == rest.out[k - 1];
      }
    }
  }

  lemma {:induction false} DrainSplits<T>(expected: nat, pending: seq<Entry<T>>)
    requires Distinct(pending) && AllAbove(pending, expected - 1)
    ensures Drained(expected, pending, Drain(expected, pending))
    decreases |pending|
  {
    var i := IndexOf(pending, expected);
    if i < |pending| {
      var fewer := Without(pending, i);
      WithoutKeeps(pending, i);
      DrainSplits(expected + 1, fewer);
      DrainedCons(pending[i], fewer, pending, Drain(expected + 1, fewer));
    }
  }

  lemma ReleaseSplits<T>(pending: seq<Entry<T>>)
    requires pending != [] && Distinct(pending)
    ensures var step := Release(pending);
            step.out != [] && Drained(step.out[0].sequenceNumber, pending, step)
            && step.out[0] in pending
  {
    hide Drain, Drained;
    var i := Closest(pending);
    var fewer := Without(pending, i);
    WithoutKeeps(pending, i);
    assert AllAbove(fewer, pending[i].sequenceNumber) by {
      forall k | 0 <= k < |fewer| ensures fewer[k].sequenceNumber > pending[i].sequenceNumber {
        var j := if k < i then k else k + 1;
        assert fewer[k] == pending[j] && pending[j].sequenceNumber != pending[i].sequenceNumber;
      }
    }
    DrainSplits(pending[i].sequenceNumber + 1, fewer);
    DrainedCons(pending[i], fewer, pending, Drain(pending[i].sequenceNumber + 1, fewer));
  }

  /** What an arrival adds to the buffer: nothing when it is late or already waiting. */
  ghost function Accepted<T>(s: State<T>, a: Arrival<T>): seq<Entry<T>> {
    match s.expected
    case None => [Entry(a.raw, a.arrivalMs, a.packet)]
    case Some(expected) =>
      var e := Entry(Extend(expected, a.raw), a.arrivalMs, a.packet);
      if e.sequenceNumber < expected || IndexOf(s.pending, e.sequenceNumber) < |s.pending| then [] else [e]
  }

  ghost function NextNumber<T>(s: State<T>): nat {
    if s.expected.Some? then s.expected.value else 0
  }

  /** One push: deliveries are consecutive, at or beyond the expected number and before the new one;
      nothing is lost or invented; the bounds hold again. */
  ghost predicate PushKept<T>(settings: Settings, s: State<T>, a: Arrival<T>, step: Step<T>) {
    && Sound(step.state)
    && Bounded(settings, step.state)
    && step.state.expected.Some?
    && Consecutive(step.out)
    && NextNumber(s) <= NextNumber(step.state)
    && (step.out != [] ==>
          NextNumber(s) <= step.out[0].sequenceNumber
          && step.out[0].sequenceNumber + |step.out| == NextNumber(step.state))
    && multiset(step.out) + multiset(step.state.pending) == multiset(s.pending) + multiset(Accepted(s, a))
  }

  lemma PushKeeps<T>(settings: Settings, s: State<T>, a: Arrival<T>)
    requires Sound(s) && Bounded(settings, s)
    ensures PushKept(settings, s, a, PushStep(settings, s, a))
  {
    if s.expected.Some? {
      var expected := s.expected.value;
      var e := Entry(Extend(expected, a.raw), a.arrivalMs, a.packet);
      if e.sequenceNumber == expected {
        PushInOrderKeeps(settings, s, a, e);
      } else if e.sequenceNumber > expected {
        PushEarlyKeeps(settings, s, a, e);
      }
    }
  }

  lemma PushInOrderKeeps<T>(settings: Settings, s: State<T>, a: Arrival<T>, e: Entry<T>)
    requires Sound(s) && Bounded(settings, s) && s.expected.Some?
    requires e == Entry(Extend(s.expected.value, a.raw), a.arrivalMs, a.packet)
    requires e.sequenceNumber == s.expected.value
    ensures PushKept(settings, s, a, PushStep(settings, s, a))
  {
    hide Drain;
    var rest := Drain(e.sequenceNumber + 1, s.pending);
    DrainSplits(e.sequenceNumber + 1, s.pending);
    assert Accepted(s, a) == [e];
    assert multiset([e] + rest.out) == multiset{e} + multiset(rest.out);
    forall k | 0 < k <= |rest.out| ensures ([e] + rest.out)[k].sequenceNumber == e.sequenceNumber + k {
      assert ([e] + rest.out)[k] == rest.out[k - 1];
    }
  }

  lemma PushEarlyKeeps<T>(settings: Settings, s: State<T>, a: Arrival<T>, e: Entry<T>)
    requires Sound(s) && Bounded(settings, s) && s.expected.Some?
    requires e == Entry(Extend(s.expected.value, a.raw), a.arrivalMs, a.packet)
    requires e.sequenceNumber > s.expected.value
    ensures PushKept(settings, s, a, PushStep(settings, s, a))
  {
    EnlistKeeps(s, a, e);
    var pending := Enlist(s.pending, e);
    if MustRelease(settings, pending, a.arrivalMs) {
      ReleaseSplits(pending);
      ReleaseIsKept(settings, s, a, pending, Release(pending));
    }
  }

  lemma EnlistKeeps<T>(s: State<T>, a: Arrival<T>, e: Entry<T>)
    requires Sound(s) && s.expected.Some?
    requires e == Entry(Extend(s.expected.value, a.raw), a.arrivalMs, a.packet)
    requires e.sequenceNumber > s.expected.value
    ensures var pending := Enlist(s.pending, e);
            && Distinct(pending)
            && AllAbove(pending, s.expected.value)
            && multiset(pending) == multiset(s.pending) + multiset(Accepted(s, a))
            && |s.pending| <= |pending| <= |s.pending| + 1
            && pending != []
  {
  }

  lemma ReleaseIsKept<T>(settings: Settings, s: State<T>, a: Arrival<T>, pending: seq<Entry<T>>, step: Step<T>)
    requires s.expected.Some? && Bounded(settings, s)
    requires Distinct(pending) && AllAbove(pending, s.expected.value) && |pending| <= |s.pending| + 1
    requires multiset(pending) == multiset(s.pending) + multiset(Accepted(s, a))
    requires step.out != [] && step.out[0] in pending && Drained(step.out[0].sequenceNumber, pending, step)
    ensures PushKept(settings, s, a, step)
  {
  }

  /** Every arrival of a run that was taken in, in order of arrival. */
  ghost function AllAccepted<T>(settings: Settings, arrivals: seq<Arrival<T>>): seq<Entry<T>> {
    if arrivals == [] then []
    else
      var n := |arrivals| - 1;
      AllAccepted(settings, arrivals[..n]) + Accepted(Run(settings, arrivals[..n]).state, arrivals[n])
  }

  ghost predicate RunSafe<T>(run: Step<T>) {
    && Sound(run.state)
    && Increasing(run.out)
    && (forall i :: 0 <= i < |run.out| ==> run.out[i].sequenceNumber < NextNumber(run.state))
  }

  lemma ExtendSafeRun<T>(settings: Settings, before: Step<T>, a: Arrival<T>, last: Step<T>)
    requires RunSafe(before) && PushKept(settings, before.state, a, last)
    ensures RunSafe(Step(last.state, before.out + last.out))
  {
    var out := before.out + last.out;
    forall i, j | 0 <= i < j < |out|
      ensures out[i].sequenceNumber < out[j].sequenceNumber
    {
      if j >= |before.out| {
        assert out[j] == last.out[j - |before.out|];
        if i >= |before.out| {
          assert out[i] == last.out[i - |before.out|];
        }
      }
    }
  }

  lemma {:induction false} RunStaysSafe<T>(settings: Settings, arrivals: seq<Arrival<T>>)
    ensures RunSafe(Run(settings, arrivals)) && Bounded(settings, Run(settings, arrivals).state)
  {
    if arrivals != [] {
      var n := |arrivals| - 1;
      RunStaysSafe(settings, arrivals[..n]);
      var before := Run(settings, arrivals[..n]);
      PushKeeps(settings, before.state, arrivals[n]);
      ExtendSafeRun(settings, before, arrivals[n], PushStep(settings, before.state, arrivals[n]));
    }
  }

  lemma ConserveStep<T>(out: seq<T>, pending: seq<T>, accepted: seq<T>, out': seq<T>, pending': seq<T>,
                        accepted': seq<T>)
    requires multiset(out) + multiset(pending) == multiset(accepted)
    requires multiset(out') + multiset(pending') == multiset(pending) + multiset(accepted')
    ensures multiset(out + out') + multiset(pending') == multiset(accepted + accepted')
  {
    calc {
      multiset(out + out') + multiset(pending');
      multiset(out) + (multiset(out') + multiset(pending'));
      multiset(out) + multiset(pending) + multiset(accepted');
    }
  }

  lemma {:induction false} RunConserves<T>(settings: Settings, arrivals: seq<Arrival<T>>)
    ensures var run := Run(settings, arrivals);
            multiset(run.out) + multiset(run.state.pending) == multiset(AllAccepted(settings, arrivals))
  {
    if arrivals != [] {
      var n := |arrivals| - 1;
      RunConserves(settings, arrivals[..n]);
      RunStaysSafe(settings, arrivals[..n]);
      var before := Run(settings, arrivals[..n]);
      var last := PushStep(settings, before.state, arrivals[n]);
      PushKeeps(settings, before.state, arrivals[n]);
      ConserveStep(before.out, before.state.pending, AllAccepted(settings, arrivals[..n]),
                   last.out, last.state.pending, Accepted(before.state, arrivals[n]));
    }
  }

  lemma DeliveredOrPending<T>(run: Step<T>)
    requires RunSafe(run)
    ensures Distinct(run.out + run.state.pending)
  {
    var all := run.out + run.state.pending;
    forall i, j | 0 <= i < j < |all|
      ensures all[i].sequenceNumber != all[j].sequenceNumber
    {
      if j >= |run.out| {
        assert all[j] == run.state.pending[j - |run.out|];
        if i >= |run.out| {
          assert all[i] == run.state.pending[i - |run.out|];
        }
      }
    }
  }

  /** Safety of every run under all settings: delivered numbers strictly increase and stay below the next
      expected one, every accepted packet is either delivered or pending and never both, and the number of
      pending packets is bounded. */
  lemma RunIsSafe<T>(settings: Settings, arrivals: seq<Arrival<T>>)
    ensures var run := Run(settings, arrivals);
            && RunSafe(run)
            && Bounded(settings, run.state)
            && multiset(run.out) + multiset(run.state.pending) == multiset(AllAccepted(settings, arrivals))
            && Distinct(run.out + run.state.pending)
  {
    RunStaysSafe(settings, arrivals);
    RunConserves(settings, arrivals);
    DeliveredOrPending(Run(settings, arrivals));
  }

  /** Each single push of a run returns consecutive numbers. */
  lemma EachPushIsConsecutive<T>(settings: Settings, arrivals: seq<Arrival<T>>, a: Arrival<T>)
    ensures var before := Run(settings, arrivals);
            var step := PushStep(settings, before.state, a);
            Consecutive(step.out) && Run(settings, arrivals + [a]) == Step(step.state, before.out + step.out)
  {
    RunIsSafe(settings, arrivals);
    PushKeeps(settings, Run(settings, arrivals).state, a);
    assert (arrivals + [a])[..|arrivals|] == arrivals;
  }

  // ---------- Completeness against the sorted stream ----------

  ghost predicate HasNumber<T>(es: seq<Entry<T>>, n: int) {
    exists i :: 0 <= i < |es| && es[i].sequenceNumber == n
  }

  /** The constant by which extended numbers differ from the true ones. */
  ghost function Shift(truths: seq<nat>): nat
    requires truths != []
  {
    truths[0] - truths[0] % SEQUENCE_PERIOD
  }

  /** Some arrival so far carries extended number `n`. */
  ghost predicate Got(truths: seq<nat>, n: int) {
    truths != [] && exists i :: 0 <= i < |truths| && truths[i] - Shift(truths) == n
  }

  /** Entry `e` is the first arrival that carries its number. */
  ghost predicate FirstCarrier<T>(truths: seq<nat>, arrivals: seq<Arrival<T>>, e: Entry<T>)
    requires |truths| == |arrivals|
  {
    exists i :: 0 <= i < |truths| && CarriedAt(truths, arrivals, e, i)
  }

  ghost predicate CarriedAt<T>(truths: seq<nat>, arrivals: seq<Arrival<T>>, e: Entry<T>, i: nat)
    requires |truths| == |arrivals| && i < |truths|
  {
    && truths[i] - Shift(truths) == e.sequenceNumber
    && arrivals[i].packet == e.packet
    && arrivals[i].arrivalMs == e.arrivalMs
    && forall j :: 0 <= j < i ==> truths[j] != truths[i]
  }

  /** No forced release fires on this arrival. */
  ghost predicate Unforced<T>(settings: Settings, s: State<T>, a: Arrival<T>) {
    s.expected.Some? ==>
      var e := Entry(Extend(s.expected.value, a.raw), a.arrivalMs, a.packet);
      e.sequenceNumber > s.expected.value ==> !MustRelease(settings, Enlist(s.pending, e), a.arrivalMs)
  }

  /** The arrivals carry the low 16 bits of `truths`, each within half a period of the number expected then,
      and no release is forced. */
  ghost predicate Orderly<T>(settings: Settings, truths: seq<nat>, arrivals: seq<Arrival<T>>) {
    && |truths| == |arrivals|
    && (truths != [] ==>
          var n := |truths| - 1;
          && arrivals[n].raw == truths[n] % SEQUENCE_PERIOD
          && (n > 0 ==>
                var before := Run(settings, arrivals[..n]).state;
                && Orderly(settings, truths[..n], arrivals[..n])
                && -HALF_SEQUENCE_PERIOD < truths[n] - Shift(truths) - NextNumber(before) < HALF_SEQUENCE_PERIOD
                && Unforced(settings, before, arrivals[n])))
  }

  /** The delivered numbers are the gap-free run from the first arrival up to the first number not received;
      what was received beyond that gap is exactly what is pending. */
  ghost predicate Complete<T>(truths: seq<nat>, arrivals: seq<Arrival<T>>, run: Step<T>)
    requires truths != [] && |truths| == |arrivals|
  {
    var first := truths[0] % SEQUENCE_PERIOD;
    && run.state.expected.Some?
    && NextNumber(run.state) == first + |run.out|
    && (forall k :: 0 <= k < |run.out| ==> run.out[k].sequenceNumber == first + k)
    && (forall n :: first <= n < NextNumber(run.state) ==> Got(truths, n))
    && !Got(truths, NextNumber(run.state))
    && (forall n :: n > NextNumber(run.state) ==> (Got(truths, n) <==> HasNumber(run.state.pending, n)))
    && (forall i :: 0 <= i < |run.out| ==> FirstCarrier(truths, arrivals, run.out[i]))
    && (forall i :: 0 <= i < |run.state.pending| ==> FirstCarrier(truths, arrivals, run.state.pending[i]))
  }

  lemma GotSnoc(truths: seq<nat>, t: nat, n: int)
    requires truths != []
    ensures Got(truths + [t], n) <==> Got(truths, n) || t - Shift(truths) == n
  {
    var longer := truths + [t];
    assert Shift(longer) == Shift(truths);
    assert longer[|truths|] == t;
    assert forall i :: 0 <= i < |truths| ==> longer[i] == truths[i];
  }

  lemma CarrierSnoc<T>(truths: seq<nat>, arrivals: seq<Arrival<T>>, t: nat, a: Arrival<T>, e: Entry<T>)
    requires truths != [] && |truths| == |arrivals|
    requires FirstCarrier(truths, arrivals, e)
             || (!Got(truths, e.sequenceNumber) && t - Shift(truths) == e.sequenceNumber
                 && a.packet == e.packet && a.arrivalMs == e.arrivalMs)
    ensures FirstCarrier(truths + [t], arrivals + [a], e)
  {
    var ts, as_ := truths + [t], arrivals + [a];
    assert Shift(ts) == Shift(truths);
    assert forall i :: 0 <= i < |truths| ==> ts[i] == truths[i];
    if FirstCarrier(truths, arrivals, e) {
      var i :| 0 <= i < |truths| && CarriedAt(truths, arrivals, e, i);
      assert CarriedAt(ts, as_, e, i);
    } else {
      assert CarriedAt(ts, as_, e, |truths|);
    }
  }

  lemma DrainedNumbers<T>(first: nat, pending: seq<Entry<T>>, step: Step<T>)
    requires Drained(first, pending, step)
    ensures forall n :: HasNumber(pending, n) <==> HasNumber(step.out, n) || HasNumber(step.state.pending, n)
    ensures forall e :: e in step.out || e in step.state.pending ==> e in pending
  {
    forall e ensures e in pending <==> e in step.out || e in step.state.pending {
      assert e in multiset(pending) <==> e in multiset(step.out) + multiset(step.state.pending);
    }
    forall n ensures HasNumber(pending, n) <==> HasNumber(step.out, n) || HasNumber(step.state.pending, n) {
      if HasNumber(pending, n) {
        var i :| 0 <= i < |pending| && pending[i].sequenceNumber == n;
        assert pending[i] in pending;
      }
      if HasNumber(step.out, n) {
        var i :| 0 <= i < |step.out| && step.out[i].sequenceNumber == n;
        assert step.out[i] in pending;
      }
      if HasNumber(step.state.pending, n) {
        var i :| 0 <= i < |step.state.pending| && step.state.pending[i].sequenceNumber == n;
        assert step.state.pending[i] in pending;
      }
    }
  }

  /** The new arrival is late: nothing changes. */
  lemma CompleteLate<T>(truths: seq<nat>, arrivals: seq<Arrival<T>>, run: Step<T>, t: nat, a: Arrival<T>)
    requires truths != [] && |truths| == |arrivals| && Complete(truths, arrivals, run)
    requires t - Shift(truths) < NextNumber(run.state)
    ensures Complete(truths + [t], arrivals + [a], run)
  {
    forall n ensures Got(truths + [t], n) <==> Got(truths, n) || t - Shift(truths) == n {
      GotSnoc(truths, t, n);
    }
    assert (truths + [t])[0] == truths[0];
    forall i | 0 <= i < |run.out| ensures FirstCarrier(truths + [t], arrivals + [a], run.out[i]) {
      CarrierSnoc(truths, arrivals, t, a, run.out[i]);
    }
    forall i | 0 <= i < |run.state.pending| ensures FirstCarrier(truths + [t], arrivals + [a], run.state.pending[i]) {
      CarrierSnoc(truths, arrivals, t, a, run.state.pending[i]);
    }
  }

  /** The new arrival is early: it waits, unless its number is already waiting. */
  lemma CompleteEarly<T>(truths: seq<nat>, arrivals: seq<Arrival<T>>, run: Step<T>, t: nat, a: Arrival<T>, e: Entry<T>)
    requires truths != [] && |truths| == |arrivals| && Complete(truths, arrivals, run)
    requires e.packet == a.packet && e.arrivalMs == a.arrivalMs
    requires t - Shift(truths) == e.sequenceNumber > NextNumber(run.state)
    ensures Complete(truths + [t], arrivals + [a],
                     Step(State(run.state.expected, Enlist(run.state.pending, e)), run.out))
  {
    var pending := Enlist(run.state.pending, e);
    forall n ensures Got(truths + [t], n) <==> Got(truths, n) || t - Shift(truths) == n {
      GotSnoc(truths, t, n);
    }
    assert (truths + [t])[0] == truths[0];
    assert IndexOf(run.state.pending, e.sequenceNumber) < |run.state.pending|
        <==> HasNumber(run.state.pending, e.sequenceNumber);
    forall n ensures HasNumber(pending, n) <==> HasNumber(run.state.pending, n) || n == e.sequenceNumber {
      if pending != run.state.pending {
        assert pending[|run.state.pending|] == e;
        assert forall i :: 0 <= i < |run.state.pending| ==> pending[i] == run.state.pending[i];
      }
    }
    forall i | 0 <= i < |run.out| ensures FirstCarrier(truths + [t], arrivals + [a], run.out[i]) {
      CarrierSnoc(truths, arrivals, t, a, run.out[i]);
    }
    forall i | 0 <= i < |pending| ensures FirstCarrier(truths + [t], arrivals + [a], pending[i]) {
      assert i == |run.state.pending| || pending[i] == run.state.pending[i];
      CarrierSnoc(truths, arrivals, t, a, pending[i]);
    }
  }

  /** The new arrival is the expected one: it is delivered with everything it was holding up. */
  lemma CompleteInOrder<T>(truths: seq<nat>, arrivals: seq<Arrival<T>>, run: Step<T>, t: nat, a: Arrival<T>,
                           e: Entry<T>, rest: Step<T>)
    requires truths != [] && |truths| == |arrivals| && Complete(truths, arrivals, run)
    requires e.packet == a.packet && e.arrivalMs == a.arrivalMs
    requires t - Shift(truths) == e.sequenceNumber == NextNumber(run.state)
    requires Drained(e.sequenceNumber + 1, run.state.pending, rest)
    ensures Complete(truths + [t], arrivals + [a], Step(rest.state, run.out + ([e] + rest.out)))
  {
    var last := Step(rest.state, run.out + ([e] + rest.out));
    var first := truths[0] % SEQUENCE_PERIOD;
    forall n ensures Got(truths + [t], n) <==> Got(truths, n) || t - Shift(truths) == n {
      GotSnoc(truths, t, n);
    }
    assert (truths + [t])[0] == truths[0];
    DrainedNumbers(e.sequenceNumber + 1, run.state.pending, rest);
    forall k | 0 <= k < |last.out|
      ensures last.out[k].sequenceNumber == first + k && FirstCarrier(truths + [t], arrivals + [a], last.out[k])
    {
      if k < |run.out| {
        CarrierSnoc(truths, arrivals, t, a, run.out[k]);
      } else if k == |run.out| {
        assert last.out[k] == e;
        CarrierSnoc(truths, arrivals, t, a, e);
      } else {
        assert last.out[k] == rest.out[k - |run.out| - 1];
        assert last.out[k] in run.state.pending;
        CarrierSnoc(truths, arrivals, t, a, last.out[k]);
      }
    }
    forall i | 0 <= i < |rest.state.pending|
      ensures FirstCarrier(truths + [t], arrivals + [a], rest.state.pending[i])
    {
      assert rest.state.pending[i] in run.state.pending;
      CarrierSnoc(truths, arrivals, t, a, rest.state.pending[i]);
    }
    var next := NextNumber(rest.state);
    forall n | e.sequenceNumber < n < next ensures Got(truths, n) {
      assert rest.out[n - e.sequenceNumber - 1].sequenceNumber == n;
      assert HasNumber(rest.out, n);
    }
    assert !HasNumber(rest.out, next) && !HasNumber(rest.state.pending, next);
    forall n | n > next ensures Got(truths, n) <==> HasNumber(rest.state.pending, n) {
      assert !HasNumber(rest.out, n);
    }
  }

  /** Completeness of every orderly run: in any order, with duplicates, across any number of 16-bit wraps. */
  lemma {:induction false} RunIsComplete<T>(settings: Settings, truths: seq<nat>, arrivals: seq<Arrival<T>>)
    requires truths != [] && Orderly(settings, truths, arrivals)
    ensures Complete(truths, arrivals, Run(settings, arrivals))
  {
    var n := |truths| - 1;
    assert truths == truths[..n] + [truths[n]] && arrivals == arrivals[..n] + [arrivals[n]];
    if n == 0 {
      FirstIsComplete(settings, truths, arrivals);
    } else {
      RunIsComplete(settings, truths[..n], arrivals[..n]);
      RunStaysSafe(settings, arrivals[..n]);
      CompleteStep(settings, truths[..n], arrivals[..n], Run(settings, arrivals[..n]), truths[n], arrivals[n]);
    }
  }

  lemma FirstIsComplete<T>(settings: Settings, truths: seq<nat>, arrivals: seq<Arrival<T>>)
    requires |truths| == 1 && Orderly(settings, truths, arrivals)
    ensures Complete(truths, arrivals, Run(settings, arrivals))
  {
    var e := Entry(arrivals[0].raw, arrivals[0].arrivalMs, arrivals[0].packet);
    assert Run(settings, arrivals[..0]) == Step(Fresh(), []);
    assert Run(settings, arrivals) == Step(State(Some(arrivals[0].raw + 1), []), [e]);
    assert CarriedAt(truths, arrivals, e, 0);
  }

  lemma CompleteStep<T>(settings: Settings, truths: seq<nat>, arrivals: seq<Arrival<T>>, run: Step<T>, t: nat,
                        a: Arrival<T>)
    requires truths != [] && |truths| == |arrivals| && Complete(truths, arrivals, run) && Sound(run.state)
    requires a.raw == t % SEQUENCE_PERIOD && Unforced(settings, run.state, a)
    requires -HALF_SEQUENCE_PERIOD < t - Shift(truths) - NextNumber(run.state) < HALF_SEQUENCE_PERIOD
    ensures var last := PushStep(settings, run.state, a);
            Complete(truths + [t], arrivals + [a], Step(last.state, run.out + last.out))
  {
    hide Extend, Drain, Enlist;
    var x := t - Shift(truths);
    var expected := NextNumber(run.state);
    ShiftKeepsLowBits(t, truths[0]);
    ExtendRecoversTruth(expected, x, a.raw);
    var e := Entry(Extend(expected, a.raw), a.arrivalMs, a.packet);
    var last := PushStep(settings, run.state, a);
    assert run.out + [] == run.out;
    if x < expected {
      CompleteLate(truths, arrivals, run, t, a);
    } else if x == expected {
      DrainSplits(expected + 1, run.state.pending);
      CompleteInOrder(truths, arrivals, run, t, a, e, Drain(expected + 1, run.state.pending));
    } else {
      hide Complete;
      CompleteEarly(truths, arrivals, run, t, a, e);
    }
  }

  // ---------- The statistics unwrapper ----------

  class RtpSequenceUnwrapper {
    var expected: Option<nat>
    var max: Option<nat>

    constructor ()
      ensures Fresh()
    {
      expected, max := None, None;
    }

    ghost predicate Fresh()
      reads this
    {
      expected == None && max == None
    }

    /** The highest number seen is always the one before the next expected. */
    ghost predicate Valid()
      reads this
    {
      if expected.None? then max == None else max.Some? && max.value + 1 == expected.value
    }

    method Extend(raw: u16) returns (seqNo: nat)
      requires Valid()
      modifies this
      ensures Valid()
      ensures seqNo == Unwrap(old(expected), raw).0 && expected == Some(Unwrap(old(expected), raw).1)
    {
      if expected.None? {
        expected, max := Some(raw + 1), Some(raw);
        return raw;
      }
      seqNo := NearestCycle(expected.value, raw);
      if seqNo < expected.value {
        return;
      }
      if max.None? || seqNo > max.value {
        max := Some(seqNo);
      }
      expected := Some(seqNo + 1);
    }
  }

  /** The extended number and the next expected one. */
  function Unwrap(expected: Option<nat>, raw: u16): (nat, nat) {
    match expected
    case None => (raw, raw + 1)
    case Some(e) =>
      var n := Extend(e, raw);
      (n, if n < e then e else n + 1)
  }

  /** The next expected number after a whole stream. */
  ghost function UnwrapRun(raws: seq<u16>): Option<nat> {
    if raws == [] then None
    else Some(Unwrap(UnwrapRun(raws[..|raws| - 1]), raws[|raws| - 1]).1)
  }

  ghost function Highest(truths: seq<nat>): nat
    requires truths != []
  {
    var n := |truths| - 1;
    if n == 0 then truths[0] else Max(Highest(truths[..n]), truths[n])
  }

  /** Each true number lies within half a period of one past the highest before it. */
  ghost predicate WithinWindow(truths: seq<nat>) {
    |truths| > 1 ==>
      var n := |truths| - 1;
      && WithinWindow(truths[..n])
      && -HALF_SEQUENCE_PERIOD < truths[n] - (Highest(truths[..n]) + 1) < HALF_SEQUENCE_PERIOD
  }

  function LowBits(truths: seq<nat>): (raws: seq<u16>)
    ensures |raws| == |truths|
    ensures forall i :: 0 <= i < |truths| ==> raws[i] == truths[i] % SEQUENCE_PERIOD
  {
    seq(|truths|, i requires 0 <= i < |truths| => truths[i] % SEQUENCE_PERIOD)
  }

  /** The unwrapper follows the true 64-bit stream up to the constant by which the first number was cut:
      its expected number is one past the highest true number, a new highest is returned as itself, and a late number
      as the highest before it. */
  lemma {:induction false} UnwrapperTracksTruth(truths: seq<nat>)
    requires truths != [] && WithinWindow(truths)
    ensures Highest(truths) >= truths[0]
    ensures UnwrapRun(LowBits(truths)) == Some(Highest(truths) + 1 - Shift(truths))
    ensures var n := |truths| - 1;
            n > 0 && truths[n] > Highest(truths[..n]) ==>
              Unwrap(UnwrapRun(LowBits(truths[..n])), truths[n] % SEQUENCE_PERIOD).0 == truths[n] - Shift(truths)
    ensures var n := |truths| - 1;
            n > 0 && truths[n] <= Highest(truths[..n]) ==>
              Unwrap(UnwrapRun(LowBits(truths[..n])), truths[n] % SEQUENCE_PERIOD).0
              == Highest(truths[..n]) - Shift(truths)
  {
    hide Extend;
    var n := |truths| - 1;
    var raws := LowBits(truths);
    if n == 0 {
      assert UnwrapRun(raws[..0]) == None;
    } else {
      var before := truths[..n];
      UnwrapperTracksTruth(before);
      assert LowBits(before) == raws[..n];
      var e := Highest(before) + 1 - Shift(truths);
      ShiftKeepsLowBits(truths[n], truths[0]);
      ExtendRecoversTruth(e, truths[n] - Shift(truths), raws[n]);
    }
  }

  lemma ShiftKeepsLowBits(t: nat, first: nat)
    ensures (t - (first - first % SEQUENCE_PERIOD)) % SEQUENCE_PERIOD == t % SEQUENCE_PERIOD
  {
  }

  // ---------- When a gap is given up ----------

  /** The packet with number `n` waits already. */
  ghost predicate Waits<T>(pending: seq<Entry<T>>, n: nat) {
    exists i :: 0 <= i < |pending| && pending[i].sequenceNumber == n
  }

  /** A packet of `wait` milliseconds or more. */
  ghost predicate SomeWaited<T>(pending: seq<Entry<T>>, nowMs: nat, wait: nat) {
    exists i :: 0 <= i < |pending| && nowMs - pending[i].arrivalMs >= wait
  }

  /** A packet `d` ahead of the expected one, by less than half a period: the gap before it is given up exactly when
      more packets wait than the settings allow, or more than 64, or one of them has waited as long as the settings
      allow. Then the least number that waits comes first; otherwise the packet waits, once, and nothing comes. */
  lemma GapIsGivenUpIff<T>(settings: Settings, s: State<T>, a: Arrival<T>, d: nat)
    requires s.expected.Some? && 0 < d < 0x8000 && d == (a.raw - s.expected.value) % 0x1_0000
    ensures var n, step := s.expected.value + d, PushStep(settings, s, a);
            var count := |s.pending| + if Waits(s.pending, n) then 0 else 1;
            var waiting := s.pending + if Waits(s.pending, n) then [] else [Entry(n, a.arrivalMs, a.packet)];
            && (step.out != [] <==>
                  || (settings.maxPackets > 0 && count > settings.maxPackets)
                  || count > 64
                  || (settings.maxDelayMs > 0 && SomeWaited(s.pending, a.arrivalMs, settings.maxDelayMs)))
            && (step.out == [] ==> step.state == State(s.expected, waiting))
            && (step.out != [] ==>
                  step.out[0] in waiting && forall e :: e in waiting ==> step.out[0].sequenceNumber <= e.sequenceNumber)
  {
    hide Drain, Closest;
    var n := s.expected.value + d;
    var e := Entry(n, a.arrivalMs, a.packet);
    assert Extend(s.expected.value, a.raw) == n;
    assert Waits(s.pending, n) <==> IndexOf(s.pending, n) < |s.pending|;
    var pending := Enlist(s.pending, e);
    WaitedIff(settings, s.pending, e, a.arrivalMs);
  }

  lemma WaitedIff<T>(settings: Settings, pending: seq<Entry<T>>, e: Entry<T>, nowMs: nat)
    requires e.arrivalMs == nowMs
    ensures Waited(settings, Enlist(pending, e), nowMs)
       <==> settings.maxDelayMs > 0 && SomeWaited(pending, nowMs, settings.maxDelayMs)
  {
    var all := Enlist(pending, e);
    assert forall i :: 0 <= i < |pending| ==> all[i] == pending[i];
    if Waited(settings, all, nowMs) {
      var i :| 0 <= i < |all| && Max(nowMs - all[i].arrivalMs, 0) >= settings.maxDelayMs;
      assert i < |pending|;
      assert nowMs - pending[i].arrivalMs >= settings.maxDelayMs;
    }
  }

  /** A packet half a period ahead or more counts as late: it is dropped and nothing changes. */
  lemma LatePacketIsDropped<T>(settings: Settings, s: State<T>, a: Arrival<T>)
    requires s.expected.Some? && s.expected.value > 0 && (a.raw - s.expected.value) % 0x1_0000 >= 0x8000
    ensures PushStep(settings, s, a) == Step(s, [])
  {
  }
}
