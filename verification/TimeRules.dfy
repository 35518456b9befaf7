/** The rules of the normalizer, stated without its helper functions: what the generator follows and smooths, when gaps
    and jumps are reported, and what samples without timestamps get. */
module TimeRules {
  import opened Bytes
  import opened Time
  import opened TimeScale

  // ---------- Rising presentation times ----------

  /** The generator over a run of presentation times. */
  function GeneratedRun(g: Generator, pts: seq<i64>, fallback: i64, duration: Option<i64>, maxGap: i64): seq<Generated>
    decreases |pts|
  {
    if pts == [] then []
    else
      var (g', out) := FromPtsOnly(g, pts[0], fallback, duration, maxGap);
      [out] + GeneratedRun(g', pts[1..], fallback, duration, maxGap)
  }

  /** Each time comes after the one before, and none before zero. */
  ghost predicate Rising(last: Option<i64>, pts: seq<i64>)
    decreases |pts|
  {
    pts != [] ==>
      && 0 <= pts[0] && (last.Some? ==> 0 <= last.value < pts[0])
      && Rising(Some(pts[0]), pts[1..])
  }

  /** So far decode times have been presentation times, and none has come back. */
  ghost predicate InStep(g: Generator) {
    !g.ptsReorderSeen && g.lastDts == g.lastSourcePts
  }

  lemma RisingStep(g: Generator, pts: i64, fallback: i64, maxGap: i64)
    requires InStep(g) && 0 <= pts && (g.lastSourcePts.Some? ==> 0 <= g.lastSourcePts.value < pts)
    ensures var (g', out) := FromPtsOnly(g, pts, fallback, None, maxGap);
            out.dts == pts && !out.reordered && InStep(g') && g'.lastSourcePts == Some(pts)
  {
    hide Blend, JumpThreshold;
  }

  /** As long as presentation times rise and no duration is given, they are the decode times, however far they
      jump. */
  lemma {:induction false} RisingTimesAreKept(g: Generator, pts: seq<i64>, fallback: i64, maxGap: i64, k: nat)
    requires InStep(g) && Rising(g.lastSourcePts, pts) && k < |pts|
    ensures |GeneratedRun(g, pts, fallback, None, maxGap)| == |pts|
    ensures GeneratedRun(g, pts, fallback, None, maxGap)[k].dts == pts[k]
    ensures !GeneratedRun(g, pts, fallback, None, maxGap)[k].reordered
    decreases |pts|
  {
    hide FromPtsOnly, InStep;
    RisingStep(g, pts[0], fallback, maxGap);
    var g' := FromPtsOnly(g, pts[0], fallback, None, maxGap).0;
    if |pts| == 1 {
      assert GeneratedRun(g', pts[1..], fallback, None, maxGap) == [];
    } else {
      RisingTimesAreKept(g', pts[1..], fallback, maxGap, if k == 0 then 0 else k - 1);
    }
  }

  /** So for a generator that is new. */
  lemma NewGeneratorIsInStep()
    ensures InStep(FRESH_GENERATOR) && FRESH_GENERATOR.lastSourcePts == None
  {
  }

  /** A frame duration is the step, wherever the presentation time moves. */
  lemma DurationIsStep(g: Generator, pts: i64, fallback: i64, duration: i64, maxGap: i64)
    requires duration >= 1
    ensures FromPtsOnly(g, pts, fallback, Some(duration), maxGap).1.dts
         == if g.lastDts.None? then pts
            else if g.lastDts.value + duration > I64_MAX then I64_MAX else g.lastDts.value + duration
  {
    hide Blend, JumpThreshold;
  }

  // ---------- Jumps and smoothing ----------

  /** The step the generator expects: the smoothed one, or the fallback before there is one. */
  ghost function Expected(g: Generator, fallback: int): int {
    if g.smoothedStep.Some? then g.smoothedStep.value else fallback
  }

  ghost predicate Moderate(g: Generator, pts: int, fallback: int) {
    && fallback >= 1 && (g.smoothedStep.Some? ==> g.smoothedStep.value >= 1)
    && 8 * fallback < TWO63 && 8 * Expected(g, fallback) < TWO63
    && (g.lastSourcePts.Some? ==> -TWO63 < pts - g.lastSourcePts.value < TWO63)
  }

  /** A jump is a move by more than eight steps, expected or fallback, and by more than the largest gap; a move back
      that is no jump is a reordering. */
  lemma JumpsAreReportedIff(g: Generator, pts: i64, fallback: i64, duration: Option<i64>, maxGap: i64)
    requires Moderate(g, pts, fallback)
    ensures var (g', out) := FromPtsOnly(g, pts, fallback, duration, maxGap);
            var jumped := g.lastSourcePts.Some?
                          && Distance(pts, g.lastSourcePts.value) > maxGap
                          && Distance(pts, g.lastSourcePts.value) > 8 * fallback
                          && Distance(pts, g.lastSourcePts.value) > 8 * Expected(g, fallback);
            var back := g.lastSourcePts.Some? && pts < g.lastSourcePts.value && !jumped;
            && (out.discontinuity <==> jumped) && (out.reordered <==> back)
            && (g'.ptsReorderSeen <==> g.ptsReorderSeen || back) && g'.lastSourcePts == Some(pts)
  {
    hide Blend, PaceOf;
    assert g.lastSourcePts.Some? ==> MoveTo(g, pts, fallback, maxGap) != First;
  }

  /** Three parts of the old step and one of the new, rounded down: between the two, and the same where they agree. */
  lemma BlendIsBetween(before: i64, seen: i64)
    requires before >= 1 && seen >= 1
    ensures var step := Blend(Some(before), seen);
            && 4 * step <= 3 * before + seen < 4 * step + 4
            && Min(before, seen) <= step <= Max(before, seen)
  {
  }

  /** What a move is smoothed with: a jump starts afresh and a move back starts from the fallback; then a forward move
      counts by its length, and any other by the step taken. Once a time has come back, forward moves without a
      duration count as the step that is held. */
  lemma SmoothingIs(g: Generator, pts: i64, fallback: i64, maxGap: i64, hint: i64)
    requires Moderate(g, pts, fallback) && g.lastSourcePts.Some? && g.lastDts.Some? && hint >= 0
    ensures var (g', out) := FromPtsOnly(g, pts, fallback, Some(hint), maxGap);
            var delta := pts as int - g.lastSourcePts.value as int;
            var start := if out.discontinuity then None else if out.reordered then Some(fallback) else g.smoothedStep;
            var held := if start.Some? then start.value as int else fallback as int;
            var forward := delta > 0 && !(hint == 0 && g.ptsReorderSeen && !out.discontinuity);
            var step := if hint > 0 then hint as int else if forward then delta else held;
            && out.dts == Clamp(g.lastDts.value + step)
            && g'.smoothedStep.Some?
            && (start.None? ==> g'.smoothedStep.value == if forward then delta else step)
            && (start.Some? ==>
                  var smoothed := g'.smoothedStep.value as int;
                  4 * smoothed <= 3 * held + (if forward then delta else step) < 4 * smoothed + 4)
  {
    MoveIs(g, pts, fallback, maxGap);
    hide MoveTo, Blend;
    var move := MoveTo(g, pts, fallback, maxGap);
    var pace := PaceOf(g, move, fallback, hint);
    if pace.smoothed.Some? {
      BlendIsBetween(pace.smoothed.value, Max(pace.observed, 1));
    } else {
      BlendOfNone(Max(pace.observed, 1));
    }
  }

  lemma BlendOfNone(seen: i64)
    requires seen >= 1
    ensures Blend(None, seen) == seen
  {
  }

  lemma MoveIs(g: Generator, pts: i64, fallback: i64, maxGap: i64)
    requires Moderate(g, pts, fallback) && g.lastSourcePts.Some?
    ensures var move, delta := MoveTo(g, pts, fallback, maxGap), pts as int - g.lastSourcePts.value as int;
            && !move.First? && move.delta == delta && (move.Back? ==> delta < 0) && (move.Forward? ==> delta >= 0)
  {
    hide JumpThreshold;
  }

  // ---------- Steps and limits in ticks ----------

  /** From 90 kHz to milliseconds: steps of 3000 and 3003 ticks, the default step, and a gap of two seconds. */
  lemma StepsInMilliseconds(i: Input)
    requires i.fallbackStep == Some(3000) && i.frameDuration == Some(3003)
    ensures NewConfig(Timebase(1, 90_000), Timebase(1, 1_000), None).Ok?
    ensures var c := NewConfig(Timebase(1, 90_000), Timebase(1, 1_000), None).value;
            && FallbackStep(c, i) == 33 && DurationHint(c, i) == Some(33) && MaxGapTicks(c) == 2_000
            && FallbackStep(c, i.(fallbackStep := None)) == 1
            && DurationHint(c, i.(frameDuration := Some(-5))) == Some(1)
            && MaxGapTicks(Adjusted(c, 0, 1, true)) == 1
  {
    var c := NewConfig(Timebase(1, 90_000), Timebase(1, 1_000), None).value;
    assert Rescale(c, 3000) == 33 by { assert ToMicros(Timebase(1, 90_000), 3000) == 33_333; }
    assert Rescale(c, 3003) == 33 by { assert ToMicros(Timebase(1, 90_000), 3003) == 33_366; }
    assert Rescale(c, 1) == 0 by { assert ToMicros(Timebase(1, 90_000), 1) == 11; }
    hide Rescale, ToMicros;
    assert FromMicros(Timebase(1, 1_000), 2_000_000) == 2_000;
    assert FromMicros(Timebase(1, 1_000), 0) == 0;
  }

  /** Unless set otherwise, gaps are those of more than two seconds, steps are one tick of the input, and negative
      composition is kept. */
  lemma DefaultsAre(input: Timebase, output: Timebase, wrapBits: Option<nat>)
    requires NewConfig(input, output, wrapBits).Ok?
    ensures NewConfig(input, output, wrapBits).value == Config(input, output, wrapBits, 2_000_000, 1, true)
  {
  }

  /** Steps and durations are rescaled from what the sample gives, or the default; none is ever less than a tick. */
  lemma StepsAreRescaled(c: Config, i: Input)
    ensures var given: int := if i.fallbackStep.Some? then i.fallbackStep.value else c.defaultFallbackStep;
            var ticks: int := if given >= 1 then Rescale(c, given) else Rescale(c, 1);
            FallbackStep(c, i) == if ticks >= 1 then ticks else 1
    ensures i.frameDuration.Some? ==>
              var given: int := i.frameDuration.value;
              var ticks: int := if given >= 1 then Rescale(c, given) else Rescale(c, 1);
              DurationHint(c, i) == Some(if ticks >= 1 then ticks else 1)
  {
    hide Rescale;
  }

  // ---------- Gaps ----------

  /** A step forward is a gap exactly when it lasts a whole microsecond longer than the limit; it is reported, and so
      is a jump, and both make the sample discontinuous, as a reset and the caller's demand do. */
  lemma GapsAreReportedIff(c: Config, s: State, input: Input, src: Sources)
    requires Positive(c.outputTimebase) && c.maxForwardGapUs >= 0
    requires s.lastDts.Some? ==>
               var step := Relative(c, s, input, src) as int - s.lastDts.value as int;
               step < TWO63 && step * c.outputTimebase.num * MICRO < TWO63 * c.outputTimebase.den
    ensures var (after, out) := Place(c, s, input, src);
            var jumped := Candidate(c, s, input, src).1.discontinuity;
            var relative: int := Relative(c, s, input, src);
            var gapped := s.lastDts.Some? && relative > s.lastDts.value
                          && (relative - s.lastDts.value) * c.outputTimebase.num * MICRO
                             >= (c.maxForwardGapUs + 1) * c.outputTimebase.den;
            && (TimelineDiscontinuityDetected in out.alerts <==> jumped || gapped)
            && (out.discontinuity <==> input.forceDiscontinuity || s.pendingReset || jumped || gapped)
            && !after.pendingReset && (ResetApplied in out.alerts <==> s.pendingReset)
            && (MissingDtsUsedFallback in out.alerts <==> src.dts.None?)
            && (MissingPtsDerivedFromDts in out.alerts <==> src.pts.None?)
  {
    hide FromPtsOnly, FallbackStep, DurationHint, MaxGapTicks, ToMicros, SatSub, SatAdd, EpochOf, Raised;
    var (generator, generated) := Candidate(c, s, input, src);
    var relative, last := Relative(c, s, input, src), s.lastDts;
    var repaired := last.Some? && relative <= last.value;
    var gapped := last.Some? && !repaired
      && ToMicros(c.outputTimebase, SatSub(relative, last.value)) > c.maxForwardGapUs;
    if last.Some? && !repaired {
      StepInMicros(c.outputTimebase, relative, last.value, c.maxForwardGapUs);
    }
    var dts := if repaired then SatAdd(last.value, 1) else relative;
    var clamped := input.isVideo && !c.allowNegativeComposition && WantedPts(s, src, generated, dts) < dts;
    RaisedForItsCause(s.pendingReset, src.dts.None?, generated.reordered, generated.discontinuity, repaired, gapped,
                      src.pts.None?, clamped);
    MissingAreRaised(s.pendingReset, src.dts.None?, generated.reordered, generated.discontinuity, repaired, gapped,
                     src.pts.None?, clamped);
  }

  /** Only samples with nothing but a presentation time go through the generator, and only they are reported as
      reordered, as it finds them. */
  lemma ReorderingIsReportedIff(c: Config, s: State, input: Input, src: Sources)
    ensures var (after, out) := Place(c, s, input, src);
            if src.dts.None? && src.pts.Some? then
              var (g, made) := FromPtsOnly(s.generator, src.pts.value, FallbackStep(c, input), DurationHint(c, input),
                                           MaxGapTicks(c));
              (PtsReorderObserved in out.alerts <==> made.reordered) && after.generator == g
            else PtsReorderObserved !in out.alerts && after.generator == s.generator
  {
    hide FromPtsOnly, FallbackStep, DurationHint, MaxGapTicks, ToMicros, SatSub, SatAdd, EpochOf, Raised;
    var (generator, generated) := Candidate(c, s, input, src);
    var relative, last := Relative(c, s, input, src), s.lastDts;
    var repaired := last.Some? && relative <= last.value;
    var gapped := last.Some? && !repaired
      && ToMicros(c.outputTimebase, SatSub(relative, last.value)) > c.maxForwardGapUs;
    var dts := if repaired then SatAdd(last.value, 1) else relative;
    var clamped := input.isVideo && !c.allowNegativeComposition && WantedPts(s, src, generated, dts) < dts;
    RaisedForItsCause(s.pendingReset, src.dts.None?, generated.reordered, generated.discontinuity, repaired, gapped,
                      src.pts.None?, clamped);
  }

  /** A sample with a decode time is no jump by itself: its source times alone decide. */
  lemma DecodeTimesNeverJump(c: Config, s: State, input: Input, src: Sources)
    requires src.dts.Some? || src.pts.None?
    ensures var made := Candidate(c, s, input, src).1;
            && !made.discontinuity
            && made.dts == if src.dts.Some? then src.dts.value
                           else if s.nextFallbackDts.Some? then s.nextFallbackDts.value else 0
  {
  }

  lemma MissingAreRaised(reset: bool, noDts: bool, reordered: bool, jumped: bool, repaired: bool, gapped: bool,
                         noPts: bool, clamped: bool)
    ensures var alerts := Raised(reset, noDts, reordered, jumped, repaired, gapped, noPts, clamped);
            && (MissingDtsUsedFallback in alerts <==> noDts) && (MissingPtsDerivedFromDts in alerts <==> noPts)
  {
  }

  lemma StepInMicros(tb: Timebase, relative: i64, last: i64, limit: i64)
    requires Positive(tb) && relative > last && limit >= 0
    requires relative - last < TWO63 && (relative - last) * tb.num * MICRO < TWO63 * tb.den
    ensures ToMicros(tb, SatSub(relative, last)) > limit
       <==> (relative - last) * tb.num * MICRO >= (limit + 1) * tb.den
  {
    var step: int := relative - last;
    MicrosOf(tb, step);
    hide ToMicros;
    var us: int := ToMicros(tb, step);
    if us > limit {
      MulMono(limit + 1, us, tb.den);
    } else {
      MulMono(us + 1, limit + 1, tb.den);
    }
  }

  // ---------- Composition offsets, and no timestamps ----------

  lemma OffsetIsPlaced(c: Config, s: State, input: Input, src: Sources)
    requires src.pts.None?
    ensures var out := Place(c, s, input, src).1;
            var offset: int := if src.offset.Some? then src.offset.value else 0;
            && (-TWO63 <= out.dts + offset < TWO63 && NegativeCompositionClamped !in out.alerts ==>
                  out.pts == out.dts + offset)
            && (NegativeCompositionClamped in out.alerts ==> offset < 0 && out.pts == out.dts)
  {
    hide FromPtsOnly, FallbackStep, DurationHint, MaxGapTicks, ToMicros;
    var (generator, generated) := Candidate(c, s, input, src);
    AlertsOf(c, s.(generator := generator), input, src, generated);
  }

  /** With a decode time and a composition offset, the presentation time is the decode time put out and the offset in
      ticks of the output; or the decode time alone, where a negative offset is clamped. */
  lemma OffsetIsAdded(c: Config, s: State, input: Input)
    requires c.Valid() && input.mode.DtsWithCompositionOffset? && Normalized(c, s, input).1.Ok?
    ensures var out := Normalized(c, s, input).1.value;
            var offset: int := if input.mode.offset.Some? then Rescale(c, input.mode.offset.value) else 0;
            && (-TWO63 <= out.dts + offset < TWO63 && NegativeCompositionClamped !in out.alerts ==>
                  out.pts == out.dts + offset)
            && (NegativeCompositionClamped in out.alerts ==> offset < 0 && out.pts == out.dts)
  {
    hide Place, Rescale, Resolve;
    var (s', src) := ResolveMode(c, s, input.mode);
    OffsetIsPlaced(c, s', input, src.value);
  }

  /** `n` samples without timestamps, all with the same fallback step. */
  ghost predicate Untimed(inputs: seq<Input>, step: Option<i64>) {
    forall i :: 0 <= i < |inputs| ==> inputs[i].mode.NoTimestamp? && inputs[i].fallbackStep == step
  }

  lemma UntimedStep(c: Config, s: State, input: Input, f: int, at: int)
    requires c.Valid() && input.mode.NoTimestamp? && FallbackStep(c, input) == f >= 1 && 0 <= at < I64_MAX - f
    requires (s.lastDts.None? && s.nextFallbackDts.None? && at == 0)
             || (s.lastDts == Some(at - f) && s.nextFallbackDts == Some(at))
    ensures var (after, r) := Normalized(c, s, input);
            r.Ok? && r.value.dts == r.value.pts == at && after.lastDts == Some(at)
            && after.nextFallbackDts == Some(at + f)
            && MissingDtsUsedFallback in r.value.alerts && MissingPtsDerivedFromDts in r.value.alerts
  {
    hide FallbackStep, ToMicros, Raised;
    var src := Sources(None, None, None);
    var out := Place(c, s, input, src).1;
    var gapped := s.lastDts.Some? && ToMicros(c.outputTimebase, f) > c.maxForwardGapUs;
    MissingAreRaised(s.pendingReset, true, false, false, false, gapped, true, false);
  }

  /** After any sample, one without timestamps follows its decode time by its fallback step. */
  lemma UntimedFollows(c: Config, s: State, input: Input, src: Sources, next: Input)
    ensures var (after, out) := Place(c, s, input, src);
            var step := FallbackStep(c, input);
            out.dts + step < TWO63 ==> Place(c, after, next, Sources(None, None, None)).1.dts == out.dts + step
  {
    hide FromPtsOnly, FallbackStep, DurationHint, MaxGapTicks, ToMicros, Raised;
  }

  /** Samples without timestamps start at zero and follow each other by the fallback step. */
  lemma {:induction false} UntimedRunSteps(c: Config, s: State, inputs: seq<Input>, step: Option<i64>, f: int, at: int,
                                           k: nat)
    requires c.Valid() && Untimed(inputs, step) && k < |inputs|
    requires f == FallbackStep(c, inputs[0]) && 0 <= at && at + |inputs| * f < I64_MAX
    requires (s.lastDts.None? && s.nextFallbackDts.None? && at == 0)
             || (s.lastDts == Some(at - f) && s.nextFallbackDts == Some(at))
    ensures var r := RunFrom(c, s, inputs).results[k];
            r.Ok? && r.value.dts == r.value.pts == at + k * f
    decreases |inputs|
  {
    hide Normalized;
    assert at + f <= at + |inputs| * f by { MulMono(1, |inputs|, f); }
    UntimedStep(c, s, inputs[0], f, at);
    var s' := Normalized(c, s, inputs[0]).0;
    if k > 0 {
      var rest := inputs[1..];
      SameFallback(c, inputs[0], rest[0]);
      assert |inputs| * f == f + |rest| * f;
      hide FallbackStep;
      UntimedRunSteps(c, s', rest, step, f, at + f, k - 1);
      assert k * f == f + (k - 1) * f;
    }
  }

  lemma SameFallback(c: Config, a: Input, b: Input)
    requires a.fallbackStep == b.fallbackStep
    ensures FallbackStep(c, a) == FallbackStep(c, b)
  {
    hide Rescale;
  }

  // ---------- Refused samples ----------

  /** Why a time is refused: it is wrapped but no width is configured, or it unwraps beyond 63 bits. */
  ghost function Refusal(c: Config, u: Unwrapping, v: TimestampValue): Option<NormalizeError>
    requires c.Valid()
  {
    if v.Plain? then None
    else if c.wrapBits.None? then Some(WrappedTimestampWithoutConfig)
    else
      PeriodDivides(c.wrapBits.value);
      var value := Unwrapped(Pow2(c.wrapBits.value), u, v.raw).1;
      if value >= TWO63 then Some(UnwrappedTimestampOverflow(value)) else None
  }

  /** A sample is refused exactly when one of its times is, the decode time before the presentation time; then nothing
      of the timeline changes. */
  lemma RefusedIff(c: Config, s: State, input: Input)
    requires c.Valid()
    ensures var (after, r) := Normalized(c, s, input);
            var dts := match input.mode
                       case DtsPts(d, _) => Refusal(c, s.dtsUnwrapping, d)
                       case DtsWithCompositionOffset(d, _) => Refusal(c, s.dtsUnwrapping, d)
                       case _ => None;
            var pts := match input.mode
                       case DtsPts(_, p) => Refusal(c, s.ptsUnwrapping, p)
                       case PtsOnly(p) => Refusal(c, s.ptsUnwrapping, p)
                       case _ => None;
            && (r.Err? <==> dts.Some? || pts.Some?)
            && (r.Err? ==> r.error == if dts.Some? then dts.value else pts.value)
            && (r.Err? ==>
                  after == s.(dtsUnwrapping := after.dtsUnwrapping, ptsUnwrapping := after.ptsUnwrapping))
  {
  }
}
