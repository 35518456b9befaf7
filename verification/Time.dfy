/**
 Timestamps: rational timebases, unwrapping of fixed-width counters, synthesis of decode times from
 presentation times, and the normalizer that puts them together.
 */
module Time {
  import opened Bytes

  // ---------- Timebases ----------

  datatype Timebase = Timebase(num: u32, den: u32)

  function ToMicros(tb: Timebase, value: i64): i64 {
    Wrap64(TruncDiv(value * tb.num * 1_000_000, Max(tb.den, 1)))
  }

  function FromMicros(tb: Timebase, micros: i64): i64 {
    Wrap64(TruncDiv(micros * tb.den, Max(tb.num, 1) * 1_000_000))
  }

  function Convert(value: i64, src: Timebase, dst: Timebase): i64 {
    FromMicros(dst, ToMicros(src, value))
  }

  // ---------- Unwrapping ----------

  function Pow2(n: nat): (p: nat)
    ensures p > 0
  {
    if n == 0 then 1 else 2 * Pow2(n - 1)
  }

  lemma {:induction false} Pow2Sum(a: nat, b: nat)
    ensures Pow2(a + b) == Pow2(a) * Pow2(b)
  {
    if a > 0 {
      Pow2Sum(a - 1, b);
      assert Pow2(a + b) == 2 * (Pow2(a - 1) * Pow2(b)) == Pow2(a) * Pow2(b);
    }
  }

  lemma Pow2At64()
    ensures Pow2(64) == TWO64
  {
    assert Pow2(8) == 0x100;
    Pow2Sum(8, 8);
    Pow2Sum(16, 16);
    Pow2Sum(32, 32);
  }

  datatype Unwrapping = Unwrapping(high: u64, lastRaw: Option<u64>)

  const FRESH_UNWRAPPING := Unwrapping(0, None)

  function WrappingAdd(a: u64, b: u64): u64 {
    if a + b >= TWO64 then a + b - TWO64 else a + b
  }

  function WrappingSub(a: u64, b: u64): u64 {
    if a < b then a - b + TWO64 else a - b
  }

  /** The period counter after `raw` (already reduced below the period): one period up when the value falls by
      more than half a period, one down when it rises by more than half. */
  function NextHigh(period: nat, u: Unwrapping, raw: u64): u64
    requires period <= TWO63
  {
    match u.lastRaw
    case None => u.high
    case Some(last) =>
      if raw < last && 2 * (last - raw) > period then WrappingAdd(u.high, period)
      else if raw > last && 2 * (raw - last) > period then WrappingSub(u.high, period)
      else u.high
  }

  predicate ValidWidth(bits: nat) {
    1 <= bits <= 63
  }

  ghost predicate IsMultiple(high: u64, k: nat, period: nat) {
    high == k * period
  }

  /** The period counter is a whole number of periods, and the last value lies within one. */
  ghost predicate ValidUnwrapping(bits: nat, u: Unwrapping) {
    && ValidWidth(bits)
    && (exists k: nat :: IsMultiple(u.high, k, Pow2(bits)))
    && (u.lastRaw.Some? ==> u.lastRaw.value < Pow2(bits))
  }

  function Reduce(raw: u64, period: nat): (r: u64)
    requires period > 0
    ensures r < period
  {
    raw % period
  }

  /** The state after `raw` and the unwrapped value. */
  function Unwrapped(period: nat, u: Unwrapping, raw: u64): (Unwrapping, nat)
    requires 0 < period <= TWO63
  {
    var r := Reduce(raw, period);
    var high := NextHigh(period, u, r);
    (Unwrapping(high, Some(r)), high + r)
  }

  lemma MulStep(k: int, period: int)
    ensures (k + 1) * period == k * period + period
  {
  }

  lemma {:induction false} MulLess(a: int, b: int, period: nat)
    requires a < b
    ensures a * period + period <= b * period
    decreases b - a
  {
    if b == a + 1 {
      MulStep(a, period);
    } else {
      MulLess(a, b - 1, period);
      MulStep(b - 1, period);
    }
  }

  lemma NeighbouringPeriods(high: u64, k: nat, period: nat, q: nat)
    requires 0 < period <= TWO63 && q * period == TWO64 && IsMultiple(high, k, period)
    ensures high + period <= TWO64 && k < q
    ensures WrappingAdd(high, period) == if k + 1 == q then 0 else (k + 1) * period
    ensures WrappingSub(high, period) == if k == 0 then (q - 1) * period else (k - 1) * period
  {
    if q < k {
      MulLess(q, k, period);
    }
    assert k < q;
    MulLess(k, q, period);
    MulStep(k, period);
    MulStep(k - 1, period);
    MulStep(q - 1, period);
    if k + 1 < q {
      MulLess(k + 1, q, period);
    }
  }

  lemma PeriodDivides(bits: nat)
    requires ValidWidth(bits)
    ensures Pow2(bits) == 2 * Pow2(bits - 1) <= TWO63
    ensures Pow2(64 - bits) * Pow2(bits) == TWO64
  {
    Pow2Sum(64 - bits, bits);
    Pow2At64();
    var q, period := Pow2(63 - bits), Pow2(bits);
    assert Pow2(64 - bits) == 2 * q;
    HalfOfPeriods(q, period);
  }

  lemma HalfOfPeriods(q: nat, period: nat)
    requires q > 0 && (2 * q) * period == TWO64
    ensures period <= TWO63
  {
    if q > 1 {
      MulLess(1, q, period);
    }
  }

  lemma NextHighIsMultiple(bits: nat, u: Unwrapping, raw: u64) returns (k: nat)
    requires ValidUnwrapping(bits, u)
    ensures Pow2(bits) <= TWO63 && IsMultiple(NextHigh(Pow2(bits), u, raw), k, Pow2(bits))
  {
    var period, q := Pow2(bits), Pow2(64 - bits);
    PeriodDivides(bits);
    var j: nat :| IsMultiple(u.high, j, period);
    NeighbouringPeriods(u.high, j, period, q);
    var high := NextHigh(period, u, raw);
    k := if high == u.high then j
    else if high == WrappingAdd(u.high, period) then (if j + 1 == q then 0 else j + 1)
    else if j == 0 then q - 1 else j - 1;
  }

  /** The counter stays a multiple of the period, so adding the raw value never overflows 64 bits. */
  lemma UnwrapNeverOverflows(bits: nat, u: Unwrapping, raw: u64)
    requires ValidUnwrapping(bits, u)
    ensures 0 < Pow2(bits) <= TWO63 && ValidUnwrapping(bits, Unwrapped(Pow2(bits), u, raw).0)
    ensures 0 <= Unwrapped(Pow2(bits), u, raw).1 < TWO64
  {
    var period := Pow2(bits);
    PeriodDivides(bits);
    var r := Reduce(raw, period);
    var k := NextHighIsMultiple(bits, u, r);
    hide Pow2, Reduce, NextHigh;
    NeighbouringPeriods(NextHigh(period, u, r), k, period, Pow2(64 - bits));
  }

  /** The value falls by more than half a period while the counter is in the last period of 64 bits. */
  predicate TurnsUp(period: nat, u: Unwrapping, raw: u64)
    requires u.lastRaw.Some?
  {
    raw < u.lastRaw.value && 2 * (u.lastRaw.value - raw) > period && u.high + period >= TWO64
  }

  /** The value rises by more than half a period while the counter is in the first. */
  predicate TurnsDown(period: nat, u: Unwrapping, raw: u64)
    requires u.lastRaw.Some?
  {
    raw > u.lastRaw.value && 2 * (raw - u.lastRaw.value) > period && u.high < period
  }

  /** Consecutive unwrapped values differ by a step `d` of at most half a period, up to a turn of 2^64 that happens
      exactly when the counter leaves the 64-bit range. */
  lemma UnwrapStepsAreSmall(bits: nat, u: Unwrapping, raw: u64) returns (d: int, turn: int)
    requires ValidUnwrapping(bits, u) && u.lastRaw.Some?
    ensures -1 * Pow2(bits) <= 2 * d <= Pow2(bits) <= TWO63
    ensures u.high + u.lastRaw.value + d == Unwrapped(Pow2(bits), u, raw).1 + turn * TWO64
    ensures turn == if TurnsUp(Pow2(bits), u, Reduce(raw, Pow2(bits))) then 1
                    else if TurnsDown(Pow2(bits), u, Reduce(raw, Pow2(bits))) then -1 else 0
  {
    PeriodDivides(bits);
    d, turn := HighStep(Pow2(bits), u, Reduce(raw, Pow2(bits)));
  }

  lemma HighStep(period: nat, u: Unwrapping, raw: u64) returns (d: int, turn: int)
    requires u.lastRaw.Some? && u.lastRaw.value < period && raw < period <= TWO63
    ensures -1 * period <= 2 * d <= period
    ensures u.high + u.lastRaw.value + d == NextHigh(period, u, raw) + raw + turn * TWO64
    ensures turn == if TurnsUp(period, u, raw) then 1 else if TurnsDown(period, u, raw) then -1 else 0
  {
    var last: int, r: int := u.lastRaw.value, raw;
    if r < last && 2 * (last - r) > period {
      d, turn := r - last + period, if u.high + period >= TWO64 then 1 else 0;
    } else if r > last && 2 * (r - last) > period {
      d, turn := r - last - period, if u.high < period then -1 else 0;
    } else {
      d, turn := r - last, 0;
    }
  }

  /** Hence consecutive values lie within half a period of each other exactly when there is no such turn. */
  lemma UnwrapStepIsSmallIff(bits: nat, u: Unwrapping, raw: u64)
    requires ValidUnwrapping(bits, u) && u.lastRaw.Some?
    ensures 0 < Pow2(bits) <= TWO63
    ensures var period := Pow2(bits);
            var r := Reduce(raw, period);
            2 * Distance(Unwrapped(period, u, raw).1, u.high + u.lastRaw.value) <= period
            <==> !TurnsUp(period, u, r) && !TurnsDown(period, u, r)
  {
    hide Pow2, Reduce, Unwrapped, TurnsUp, TurnsDown;
    var d, turn := UnwrapStepsAreSmall(bits, u, raw);
  }

  /** A step at which it fails: from 0 to 3 on a two-bit counter that starts at zero gives the largest value. */
  lemma FirstStepBackTurns()
    ensures Unwrapped(4, Unwrapping(0, Some(0)), 3).1 == TWO64 - 1
  {
  }

  class WrapUnwrapper {
    const bits: nat
    const mask: u64
    const half: u64
    var high: u64
    var lastRaw: Option<u64>

    ghost predicate Valid()
      reads this
    {
      && ValidUnwrapping(bits, Now())
      && mask + 1 == Pow2(bits) == 2 * half
    }

    ghost function Now(): Unwrapping
      reads this
    {
      Unwrapping(high, lastRaw)
    }

    constructor (bits: nat)
      requires ValidWidth(bits)
      ensures Valid() && this.bits == bits && Now() == FRESH_UNWRAPPING
    {
      PeriodDivides(bits);
      this.bits := bits;
      mask, half := Pow2(bits) - 1, Pow2(bits - 1);
      high, lastRaw := 0, None;
      assert IsMultiple(0, 0, Pow2(bits));
    }

    method Unwrap(raw: u64) returns (value: u64)
      requires Valid()
      modifies this
      ensures Valid()
      ensures Pow2(bits) <= TWO63 && (Now(), value) == Unwrapped(Pow2(bits), old(Now()), raw)
    {
      UnwrapNeverOverflows(bits, Now(), raw);
      var r := raw % (mask + 1);
      if lastRaw.Some? {
        var last := lastRaw.value;
        if r < last && last - r > half {
          high := WrappingAdd(high, mask + 1);
        } else if r > last && r - last > half {
          high := WrappingSub(high, mask + 1);
        }
      }
      lastRaw := Some(r);
      value := high + r;
    }

    method Reset()
      requires Valid()
      modifies this
      ensures Valid() && Now() == FRESH_UNWRAPPING
    {
      high, lastRaw := 0, None;
      assert IsMultiple(0, 0, Pow2(bits));
    }
  }

  // ---------- Decode times from presentation times ----------

  datatype Generator = Generator(
    lastDts: Option<i64>, lastSourcePts: Option<i64>, smoothedStep: Option<i64>, ptsReorderSeen: bool)

  const FRESH_GENERATOR := Generator(None, None, None, false)

  datatype Generated = Generated(dts: i64, reordered: bool, discontinuity: bool)

  function StepOr(step: Option<i64>, fallback: i64): i64 {
    Max(if step.Some? then step.value else fallback, 1)
  }

  /** The largest jump that still counts as continuous. */
  function JumpThreshold(g: Generator, fallback: i64, maxGap: i64): i64 {
    Max(Max(Max(maxGap, SatMul(StepOr(g.smoothedStep, fallback), 8)), SatMul(fallback, 8)), 1)
  }

  /** How a presentation time relates to the one before. */
  datatype Move = First | Jump(delta: i64) | Back(delta: i64) | Forward(delta: i64)

  function MoveTo(g: Generator, pts: i64, fallback: i64, maxGap: i64): Move {
    match g.lastSourcePts
    case None => First
    case Some(last) =>
      var delta := SatSub(pts, last);
      if SatAbs(delta) > JumpThreshold(g, fallback, maxGap) then Jump(delta)
      else if delta < 0 then Back(delta) else Forward(delta)
  }

  /** The step taken, and the step observed for smoothing. */
  datatype Pace = Pace(step: i64, observed: i64, smoothed: Option<i64>)

  function PaceOf(g: Generator, move: Move, fallback: i64, hint: i64): Pace
    requires fallback >= 1 && hint >= 0
  {
    var smoothed := if move.Jump? then None else if move.Back? then Some(fallback) else g.smoothedStep;
    var held := StepOr(smoothed, fallback);
    match move
    case First =>
      var step := if hint == 0 then held else hint;
      Pace(step, step, smoothed)
    case Back(_) =>
      var step := if hint == 0 then held else hint;
      Pace(step, step, smoothed)
    case Jump(delta) =>
      if delta > 0 then Pace(if hint == 0 then delta else hint, delta, smoothed)
      else
        var step := if hint == 0 then held else hint;
        Pace(step, step, smoothed)
    case Forward(delta) =>
      if delta > 0 && hint == 0 && g.ptsReorderSeen then Pace(held, held, smoothed)
      else if delta > 0 then Pace(if hint == 0 then delta else hint, delta, smoothed)
      else
        var step := if hint == 0 then held else hint;
        Pace(step, step, smoothed)
  }

  /** Three parts of the step kept so far, one part of the step observed. */
  function Blend(smoothed: Option<i64>, observed: i64): i64
    requires observed >= 1
  {
    match smoothed
    case Some(previous) => Max(Min(TruncDiv(previous * 3 + observed, 4), I64_MAX), 1)
    case None => observed
  }

  /** The generator after one presentation time; `hint` is the frame duration, or 0. */
  function FromPtsOnly(g: Generator, pts: i64, fallbackStep: i64, duration: Option<i64>, maxGap: i64)
    : (Generator, Generated)
  {
    var fallback := Max(fallbackStep, 1);
    var hint := Max(if duration.Some? then duration.value else 0, 0);
    var move := MoveTo(g, pts, fallback, maxGap);
    var pace := PaceOf(g, move, fallback, hint);
    var dts := if g.lastDts.Some? then SatAdd(g.lastDts.value, pace.step) else pts;
    (Generator(Some(dts), Some(pts), Some(Blend(pace.smoothed, Max(pace.observed, 1))), g.ptsReorderSeen || move.Back?),
     Generated(dts, move.Back?, move.Jump?))
  }

  class DtsGenerator {
    var lastDts: Option<i64>
    var lastSourcePts: Option<i64>
    var smoothedStep: Option<i64>
    var ptsReorderSeen: bool

    constructor ()
      ensures Now() == FRESH_GENERATOR
    {
      lastDts, lastSourcePts, smoothedStep, ptsReorderSeen := None, None, None, false;
    }

    ghost function Now(): Generator
      reads this
    {
      Generator(lastDts, lastSourcePts, smoothedStep, ptsReorderSeen)
    }

    method GenerateFromPtsOnly(pts: i64, fallback: i64, frameDuration: Option<i64>, maxGapTicks: i64)
      returns (generated: Generated)
      modifies this
      ensures (Now(), generated) == FromPtsOnly(old(Now()), pts, fallback, frameDuration, maxGapTicks)
    {
      hide SatAdd, SatSub, SatAbs, SatMul, Blend;
      var fallbackStep := Max(fallback, 1);
      var expectedStep := StepOr(smoothedStep, fallbackStep);
      var jumpThreshold := Max(Max(Max(maxGapTicks, SatMul(expectedStep, 8)), SatMul(fallbackStep, 8)), 1);

      var discontinuity, reordered := false, false;
      var step := Max(if frameDuration.Some? then frameDuration.value else 0, 0);
      var observedForSmoothing: Option<i64> := None;

      if lastSourcePts.Some? {
        var delta := SatSub(pts, lastSourcePts.value);
        if SatAbs(delta) > jumpThreshold {
          discontinuity := true;
          smoothedStep := None;
          if delta > 0 && step == 0 {
            step := delta;
            observedForSmoothing := Some(delta);
          }
        } else if delta < 0 {
          reordered := true;
          ptsReorderSeen := true;
          smoothedStep := Some(fallbackStep);
        } else if delta > 0 && step == 0 {
          step := if ptsReorderSeen then expectedStep else delta;
          observedForSmoothing := Some(step);
        }
      }

      if step == 0 {
        step := StepOr(smoothedStep, fallbackStep);
      }

      var dts := if lastDts.Some? then SatAdd(lastDts.value, step) else pts;

      var observed := step;
      if lastSourcePts.Some? {
        var delta := SatSub(pts, lastSourcePts.value);
        if observedForSmoothing.Some? {
          observed := observedForSmoothing.value;
        } else if delta > 0 {
          observed := delta;
        }
      }
      observed := Max(observed, 1);

      smoothedStep := Some(Blend(smoothedStep, observed));
      lastSourcePts := Some(pts);
      lastDts := Some(dts);
      generated := Generated(dts, reordered, discontinuity);
    }

    method Reset()
      modifies this
      ensures Now() == FRESH_GENERATOR
    {
      lastDts, lastSourcePts, smoothedStep, ptsReorderSeen := None, None, None, false;
    }
  }

  // ---------- The normalizer ----------

  datatype Result<+T, +E> = Ok(value: T) | Err(error: E)

  datatype ConfigError =
    | InvalidInputTimebase(num: u32, den: u32)
    | InvalidOutputTimebase(num: u32, den: u32)
    | InvalidWrapWidth(bits: nat)

  datatype Config = Config(
    inputTimebase: Timebase, outputTimebase: Timebase, wrapBits: Option<nat>,
    maxForwardGapUs: i64, defaultFallbackStep: i64, allowNegativeComposition: bool)
  {
    predicate Valid() {
      wrapBits.Some? ==> ValidWidth(wrapBits.value)
    }
  }

  function NewConfig(input: Timebase, output: Timebase, wrapBits: Option<nat>): (r: Result<Config, ConfigError>)
    ensures r.Ok? ==> r.value.Valid()
  {
    if input.num == 0 || input.den == 0 then Err(InvalidInputTimebase(input.num, input.den))
    else if output.num == 0 || output.den == 0 then Err(InvalidOutputTimebase(output.num, output.den))
    else if wrapBits.Some? && (wrapBits.value == 0 || wrapBits.value > 63) then Err(InvalidWrapWidth(wrapBits.value))
    else Ok(Config(input, output, wrapBits, 2_000_000, 1, true))
  }

  /** The configuration after its setters. */
  function Adjusted(c: Config, gap: i64, step: i64, allow: bool): Config {
    c.(maxForwardGapUs := Max(gap, 0), defaultFallbackStep := Max(step, 1), allowNegativeComposition := allow)
  }

  datatype TimestampValue = Plain(value: i64) | Wrapped(raw: u64)

  datatype Mode =
    | NoTimestamp
    | DtsPts(dts: TimestampValue, pts: TimestampValue)
    | DtsWithCompositionOffset(dts: TimestampValue, offset: Option<i64>)
    | PtsOnly(pts: TimestampValue)

  datatype Input = Input(
    mode: Mode, frameDuration: Option<i64>, fallbackStep: Option<i64>, isVideo: bool, forceDiscontinuity: bool)

  datatype Alert =
    | MissingDtsUsedFallback
    | MissingPtsDerivedFromDts
    | NonMonotonicDtsRepaired
    | PtsReorderObserved
    | TimelineDiscontinuityDetected
    | NegativeCompositionClamped
    | ResetApplied

  datatype Output = Output(pts: i64, dts: i64, ptsUs: i64, dtsUs: i64, discontinuity: bool, alerts: seq<Alert>)

  datatype NormalizeError =
    | WrappedTimestampWithoutConfig
    | UnwrappedTimestampOverflow(value: nat)

  datatype State = State(
    dtsUnwrapping: Unwrapping, ptsUnwrapping: Unwrapping, epochOffset: Option<i64>, lastDts: Option<i64>,
    nextFallbackDts: Option<i64>, generator: Generator, pendingReset: bool)

  const FRESH_STATE := State(FRESH_UNWRAPPING, FRESH_UNWRAPPING, None, None, None, FRESH_GENERATOR, false)

  function Rescale(c: Config, value: i64): i64 {
    Convert(value, c.inputTimebase, c.outputTimebase)
  }

  function Resolve(c: Config, u: Unwrapping, v: TimestampValue): (Unwrapping, Result<i64, NormalizeError>)
    requires c.Valid()
  {
    match v
    case Plain(x) => (u, Ok(Rescale(c, x)))
    case Wrapped(raw) =>
      if c.wrapBits.None? then (u, Err(WrappedTimestampWithoutConfig))
      else
        PeriodDivides(c.wrapBits.value);
        var (u', value) := Unwrapped(Pow2(c.wrapBits.value), u, raw);
        (u', if value >= TWO63 then Err(UnwrappedTimestampOverflow(value)) else Ok(Rescale(c, value)))
  }

  /** The source times of one sample on the output timebase. */
  datatype Sources = Sources(dts: Option<i64>, pts: Option<i64>, offset: Option<i64>)

  function ResolveMode(c: Config, s: State, mode: Mode): (State, Result<Sources, NormalizeError>)
    requires c.Valid()
  {
    match mode
    case NoTimestamp => (s, Ok(Sources(None, None, None)))
    case DtsPts(dts, pts) =>
      var (du, d) := Resolve(c, s.dtsUnwrapping, dts);
      if d.Err? then (s.(dtsUnwrapping := du), Err(d.error))
      else
        var (pu, p) := Resolve(c, s.ptsUnwrapping, pts);
        (s.(dtsUnwrapping := du, ptsUnwrapping := pu),
         if p.Err? then Err(p.error) else Ok(Sources(Some(d.value), Some(p.value), None)))
    case DtsWithCompositionOffset(dts, offset) =>
      var (du, d) := Resolve(c, s.dtsUnwrapping, dts);
      (s.(dtsUnwrapping := du),
       if d.Err? then Err(d.error)
       else Ok(Sources(Some(d.value), None, if offset.Some? then Some(Rescale(c, offset.value)) else None)))
    case PtsOnly(pts) =>
      var (pu, p) := Resolve(c, s.ptsUnwrapping, pts);
      (s.(ptsUnwrapping := pu), if p.Err? then Err(p.error) else Ok(Sources(None, Some(p.value), None)))
  }

  function FallbackStep(c: Config, input: Input): (f: i64)
    ensures f >= 1
  {
    Max(Rescale(c, Max(if input.fallbackStep.Some? then input.fallbackStep.value else c.defaultFallbackStep, 1)), 1)
  }

  function DurationHint(c: Config, input: Input): (d: Option<i64>)
    ensures d.Some? <==> input.frameDuration.Some?
  {
    if input.frameDuration.None? then None else Some(Max(Rescale(c, Max(input.frameDuration.value, 1)), 1))
  }

  function MaxGapTicks(c: Config): i64 {
    Max(FromMicros(c.outputTimebase, c.maxForwardGapUs), 1)
  }

  /** The decode time before the epoch is taken off, with what the generator observed. */
  function Candidate(c: Config, s: State, input: Input, src: Sources): (Generator, Generated) {
    if src.dts.Some? then (s.generator, Generated(src.dts.value, false, false))
    else if src.pts.Some? then
      FromPtsOnly(s.generator, src.pts.value, FallbackStep(c, input), DurationHint(c, input), MaxGapTicks(c))
    else (s.generator, Generated(if s.nextFallbackDts.Some? then s.nextFallbackDts.value else 0, false, false))
  }

  function EpochOf(epochOffset: Option<i64>, src: Sources, candidate: i64): i64 {
    if src.dts.None? && src.pts.None? then 0
    else if epochOffset.Some? then epochOffset.value else candidate
  }

  /** The candidate on the normalized timeline, before repair. */
  function Relative(c: Config, s: State, input: Input, src: Sources): i64 {
    var candidate := Candidate(c, s, input, src).1.dts;
    SatSub(candidate, EpochOf(s.epochOffset, src, candidate))
  }

  /** Alerts are raised in order and never twice. */
  function PushAlert(alerts: seq<Alert>, alert: Alert): seq<Alert> {
    if alert in alerts then alerts else alerts + [alert]
  }

  function PushIf(alerts: seq<Alert>, condition: bool, alert: Alert): seq<Alert> {
    if condition then PushAlert(alerts, alert) else alerts
  }

  /** Everything after the candidate decode time is known. */
  function Settle(c: Config, s: State, input: Input, src: Sources, generated: Generated): (State, Output) {
    var epoch := EpochOf(s.epochOffset, src, generated.dts);
    var out := OutputOf(c, s.lastDts, s.pendingReset, input, src, generated, epoch);
    (State(s.dtsUnwrapping, s.ptsUnwrapping,
           if src.dts.None? && src.pts.None? then s.epochOffset else Some(epoch),
           Some(out.dts), Some(SatAdd(out.dts, FallbackStep(c, input))), s.generator, false), out)
  }

  /** The alerts of a sample, in the order of their causes and each of them once. */
  function Raised(reset: bool, noDts: bool, reordered: bool, jumped: bool, repaired: bool, gapped: bool, noPts: bool,
                  clamped: bool): seq<Alert>
  {
    var alerts := PushIf([], reset, ResetApplied);
    var alerts := PushIf(alerts, noDts, MissingDtsUsedFallback);
    var alerts := PushIf(alerts, reordered, PtsReorderObserved);
    var alerts := PushIf(alerts, jumped, TimelineDiscontinuityDetected);
    var alerts := PushIf(alerts, repaired, NonMonotonicDtsRepaired);
    var alerts := PushIf(alerts, gapped, TimelineDiscontinuityDetected);
    var alerts := PushIf(alerts, noPts, MissingPtsDerivedFromDts);
    PushIf(alerts, clamped, NegativeCompositionClamped)
  }

  /** An alert with one cause is raised exactly for that cause. */
  lemma RaisedForItsCause(reset: bool, noDts: bool, reordered: bool, jumped: bool, repaired: bool, gapped: bool,
                          noPts: bool, clamped: bool)
    ensures var alerts := Raised(reset, noDts, reordered, jumped, repaired, gapped, noPts, clamped);
            && (NonMonotonicDtsRepaired in alerts <==> repaired)
            && (NegativeCompositionClamped in alerts <==> clamped)
            && (PtsReorderObserved in alerts <==> reordered)
            && (ResetApplied in alerts <==> reset)
            && (TimelineDiscontinuityDetected in alerts <==> jumped || gapped)
  {
    hide PushIf;
    PushIfContains([], reset, ResetApplied);
    var a1 := PushIf([], reset, ResetApplied);
    PushIfContains(a1, noDts, MissingDtsUsedFallback);
    var a2 := PushIf(a1, noDts, MissingDtsUsedFallback);
    PushIfContains(a2, reordered, PtsReorderObserved);
    var a3 := PushIf(a2, reordered, PtsReorderObserved);
    PushIfContains(a3, jumped, TimelineDiscontinuityDetected);
    var a4 := PushIf(a3, jumped, TimelineDiscontinuityDetected);
    PushIfContains(a4, repaired, NonMonotonicDtsRepaired);
    var a5 := PushIf(a4, repaired, NonMonotonicDtsRepaired);
    PushIfContains(a5, gapped, TimelineDiscontinuityDetected);
    var a6 := PushIf(a5, gapped, TimelineDiscontinuityDetected);
    PushIfContains(a6, noPts, MissingPtsDerivedFromDts);
    PushIfContains(PushIf(a6, noPts, MissingPtsDerivedFromDts), clamped, NegativeCompositionClamped);
  }

  lemma PushIfContains(alerts: seq<Alert>, condition: bool, alert: Alert)
    ensures forall a :: a in PushIf(alerts, condition, alert) <==> a in alerts || (condition && a == alert)
  {
  }

  /** The output for a sample once the epoch is known. */
  function OutputOf(c: Config, last: Option<i64>, reset: bool, input: Input, src: Sources, generated: Generated,
                    epoch: i64): Output
  {
    var relative := SatSub(generated.dts, epoch);
    var repaired := last.Some? && relative <= last.value;
    var dts := if repaired then SatAdd(last.value, 1) else relative;
    var gapped := last.Some? && !repaired
      && ToMicros(c.outputTimebase, SatSub(relative, last.value)) > c.maxForwardGapUs;
    var wanted := if src.pts.Some? then SatSub(src.pts.value, epoch)
      else SatAdd(dts, if src.offset.Some? then src.offset.value else 0);
    var clamped := input.isVideo && !c.allowNegativeComposition && wanted < dts;
    var pts := if clamped then dts else wanted;
    var alerts := Raised(reset, src.dts.None?, generated.reordered, generated.discontinuity, repaired, gapped,
                         src.pts.None?, clamped);
    Output(pts, dts, ToMicros(c.outputTimebase, pts), ToMicros(c.outputTimebase, dts),
           input.forceDiscontinuity || reset || generated.discontinuity || gapped, alerts)
  }

  /** Everything after the source times are known. */
  function Place(c: Config, s: State, input: Input, src: Sources): (State, Output) {
    var (generator, generated) := Candidate(c, s, input, src);
    Settle(c, s.(generator := generator), input, src, generated)
  }

  function Normalized(c: Config, s: State, input: Input): (State, Result<Output, NormalizeError>)
    requires c.Valid()
  {
    var (s', src) := ResolveMode(c, s, input.mode);
    if src.Err? then (s', Err(src.error))
    else
      var (s'', out) := Place(c, s', input, src.value);
      (s'', Ok(out))
  }

  class TimestampNormalizer {
    const config: Config
    const dtsUnwrapper: WrapUnwrapper?
    const ptsUnwrapper: WrapUnwrapper?
    const dtsGenerator: DtsGenerator
    var epochOffset: Option<i64>
    var lastDts: Option<i64>
    var nextFallbackDts: Option<i64>
    var pendingReset: bool

    ghost function Repr(): set<object>
    {
      {this, dtsGenerator}
      + (if dtsUnwrapper != null then {dtsUnwrapper} else {})
      + (if ptsUnwrapper != null then {ptsUnwrapper} else {})
    }

    ghost predicate Valid()
      reads this, Repr()
    {
      && config.Valid()
      && (dtsUnwrapper != null <==> config.wrapBits.Some?)
      && (ptsUnwrapper != null <==> config.wrapBits.Some?)
      && (dtsUnwrapper != null ==>
            dtsUnwrapper != ptsUnwrapper && dtsUnwrapper.Valid() && dtsUnwrapper.bits == config.wrapBits.value)
      && (ptsUnwrapper != null ==> ptsUnwrapper.Valid() && ptsUnwrapper.bits == config.wrapBits.value)
    }

    ghost function Now(): State
      reads this, Repr()
    {
      State(if dtsUnwrapper != null then dtsUnwrapper.Now() else FRESH_UNWRAPPING,
            if ptsUnwrapper != null then ptsUnwrapper.Now() else FRESH_UNWRAPPING,
            epochOffset, lastDts, nextFallbackDts, dtsGenerator.Now(), pendingReset)
    }

    constructor (config: Config)
      requires config.Valid()
      ensures Valid() && fresh(Repr()) && this.config == config && Now() == FRESH_STATE
    {
      this.config := config;
      dtsGenerator := new DtsGenerator();
      epochOffset, lastDts, nextFallbackDts, pendingReset := None, None, None, false;
      if config.wrapBits.Some? {
        dtsUnwrapper := new WrapUnwrapper(config.wrapBits.value);
        ptsUnwrapper := new WrapUnwrapper(config.wrapBits.value);
      } else {
        dtsUnwrapper, ptsUnwrapper := null, null;
      }
    }

    method Reset()
      requires Valid()
      modifies Repr()
      ensures Valid() && Now() == FRESH_STATE.(pendingReset := true)
    {
      epochOffset, lastDts, nextFallbackDts, pendingReset := None, None, None, true;
      dtsGenerator.Reset();
      if dtsUnwrapper != null {
        dtsUnwrapper.Reset();
      }
      if ptsUnwrapper != null {
        ptsUnwrapper.Reset();
      }
    }

    method ResolveTicks(value: TimestampValue, isDts: bool) returns (ticks: Result<i64, NormalizeError>)
      requires Valid()
      modifies (if isDts then dtsUnwrapper else ptsUnwrapper)
      ensures Valid()
      ensures var u := if isDts then old(Now()).dtsUnwrapping else old(Now()).ptsUnwrapping;
              var r := Resolve(config, u, value);
              ticks == r.1
              && Now() == if isDts then old(Now()).(dtsUnwrapping := r.0) else old(Now()).(ptsUnwrapping := r.0)
    {
      match value
      case Plain(x) =>
        return Ok(Rescale(config, x));
      case Wrapped(raw) =>
        var unwrapper := if isDts then dtsUnwrapper else ptsUnwrapper;
        if unwrapper == null {
          return Err(WrappedTimestampWithoutConfig);
        }
        var unwrapped := unwrapper.Unwrap(raw);
        if unwrapped >= TWO63 {
          return Err(UnwrappedTimestampOverflow(unwrapped));
        }
        return Ok(Rescale(config, unwrapped));
    }

    method ResolveSources(mode: Mode) returns (src: Result<Sources, NormalizeError>)
      requires Valid()
      modifies Repr()
      ensures Valid()
      ensures (Now(), src) == ResolveMode(config, old(Now()), mode)
    {
      match mode
      case NoTimestamp =>
        return Ok(Sources(None, None, None));
      case DtsPts(dts, pts) =>
        var d := ResolveTicks(dts, true);
        if d.Err? {
          return Err(d.error);
        }
        var p := ResolveTicks(pts, false);
        if p.Err? {
          return Err(p.error);
        }
        return Ok(Sources(Some(d.value), Some(p.value), None));
      case DtsWithCompositionOffset(dts, offset) =>
        var d := ResolveTicks(dts, true);
        if d.Err? {
          return Err(d.error);
        }
        return Ok(Sources(Some(d.value), None, if offset.Some? then Some(Rescale(config, offset.value)) else None));
      case PtsOnly(pts) =>
        var p := ResolveTicks(pts, false);
        if p.Err? {
          return Err(p.error);
        }
        return Ok(Sources(None, Some(p.value), None));
    }

    method Normalize(input: Input) returns (result: Result<Output, NormalizeError>)
      requires Valid()
      modifies Repr()
      ensures Valid()
      ensures (Now(), result) == Normalized(config, old(Now()), input)
    {
      var src := ResolveSources(input.mode);
      if src.Err? {
        return Err(src.error);
      }
      var out := PlaceSample(input, src.value);
      return Ok(out);
    }

    method PlaceSample(input: Input, src: Sources) returns (out: Output)
      requires Valid()
      modifies Repr()
      ensures Valid()
      ensures (Now(), out) == Place(config, old(Now()), input, src)
    {
      hide FallbackStep, DurationHint, MaxGapTicks, ToMicros, FromPtsOnly, Settle;
      var generated := GenerateDts(input, src);
      out := SettleSample(input, src, generated);
    }

    method GenerateDts(input: Input, src: Sources) returns (generated: Generated)
      requires Valid()
      modifies dtsGenerator
      ensures Valid()
      ensures var (g, made) := Candidate(config, old(Now()), input, src);
              generated == made && Now() == old(Now()).(generator := g)
    {
      hide FallbackStep, DurationHint, MaxGapTicks, FromPtsOnly;
      if src.dts.Some? {
        return Generated(src.dts.value, false, false);
      }
      if src.pts.Some? {
        generated := dtsGenerator.GenerateFromPtsOnly(
          src.pts.value, FallbackStep(config, input), DurationHint(config, input), MaxGapTicks(config));
        return;
      }
      return Generated(if nextFallbackDts.Some? then nextFallbackDts.value else 0, false, false);
    }

    /** Keeps decode times strictly increasing and watches for forward gaps. */
    method CheckOrder(relative: i64, raised: seq<Alert>) returns (dts: i64, gapped: bool, alerts: seq<Alert>)
      ensures var repaired := lastDts.Some? && relative <= lastDts.value;
              && dts == (if repaired then SatAdd(lastDts.value, 1) else relative)
              && gapped == (lastDts.Some? && !repaired
                            && ToMicros(config.outputTimebase, SatSub(relative, lastDts.value))
                               > config.maxForwardGapUs)
              && alerts == PushIf(PushIf(raised, repaired, NonMonotonicDtsRepaired), gapped,
                                TimelineDiscontinuityDetected)
    {
      dts, gapped, alerts := relative, false, raised;
      if lastDts.Some? {
        var last := lastDts.value;
        if dts <= last {
          dts := SatAdd(last, 1);
          alerts := PushAlert(alerts, NonMonotonicDtsRepaired);
        } else if ToMicros(config.outputTimebase, SatSub(dts, last)) > config.maxForwardGapUs {
          gapped := true;
          alerts := PushAlert(alerts, TimelineDiscontinuityDetected);
        }
      }
    }

    method TakeEpoch(src: Sources, candidate: i64) returns (epoch: i64)
      requires Valid()
      modifies this`epochOffset
      ensures Valid()
      ensures epoch == EpochOf(old(epochOffset), src, candidate)
      ensures epochOffset == if src.dts.None? && src.pts.None? then old(epochOffset) else Some(epoch)
    {
      epoch := 0;
      if src.dts.Some? || src.pts.Some? {
        if epochOffset.None? {
          epochOffset := Some(candidate);
        }
        epoch := epochOffset.value;
      }
    }

    /** Order, composition and alerts, once the epoch is known. */
    method ComposeOutput(input: Input, src: Sources, generated: Generated, epoch: i64) returns (out: Output)
      ensures out == OutputOf(config, lastDts, pendingReset, input, src, generated, epoch)
    {
      hide ToMicros, SatAdd, SatSub, PushIf;
      var alerts := PushIf([], pendingReset, ResetApplied);
      var discontinuity := input.forceDiscontinuity || pendingReset || generated.discontinuity;
      alerts := PushIf(alerts, src.dts.None?, MissingDtsUsedFallback);
      alerts := PushIf(alerts, generated.reordered, PtsReorderObserved);
      alerts := PushIf(alerts, generated.discontinuity, TimelineDiscontinuityDetected);

      var dts, gapped;
      dts, gapped, alerts := CheckOrder(SatSub(generated.dts, epoch), alerts);

      var pts := if src.pts.Some? then SatSub(src.pts.value, epoch)
      else SatAdd(dts, if src.offset.Some? then src.offset.value else 0);
      alerts := PushIf(alerts, src.pts.None?, MissingPtsDerivedFromDts);
      var clamped := input.isVideo && !config.allowNegativeComposition && pts < dts;
      pts := if clamped then dts else pts;
      alerts := PushIf(alerts, clamped, NegativeCompositionClamped);
      ghost var repaired := lastDts.Some? && SatSub(generated.dts, epoch) <= lastDts.value;
      assert alerts == Raised(pendingReset, src.dts.None?, generated.reordered, generated.discontinuity, repaired,
                              gapped, src.pts.None?, clamped);
      hide Raised;
      out := Output(pts, dts, ToMicros(config.outputTimebase, pts), ToMicros(config.outputTimebase, dts),
                    discontinuity || gapped, alerts);
    }

    method SettleSample(input: Input, src: Sources, generated: Generated) returns (out: Output)
      requires Valid()
      modifies this
      ensures Valid()
      ensures (Now(), out) == Settle(config, old(Now()), input, src, generated)
    {
      hide FallbackStep, SatAdd, EpochOf, OutputOf;
      var epoch := TakeEpoch(src, generated.dts);
      out := ComposeOutput(input, src, generated, epoch);
      pendingReset := false;
      lastDts := Some(out.dts);
      nextFallbackDts := Some(SatAdd(out.dts, FallbackStep(config, input)));
    }
  }

  // ---------- What one sample keeps ----------

  /** The repair alert is raised exactly when the candidate does not exceed the last decode time, and then the
      decode time is one tick past the last; otherwise it is the candidate. Hence decode times strictly increase
      until the end of the 64-bit range is reached. */
  lemma RepairKeepsOrder(c: Config, s: State, input: Input, src: Sources)
    ensures var (after, out) := Place(c, s, input, src);
            var relative := Relative(c, s, input, src);
            && after.lastDts == Some(out.dts)
            && (NonMonotonicDtsRepaired in out.alerts <==> s.lastDts.Some? && relative <= s.lastDts.value)
            && out.dts == (if NonMonotonicDtsRepaired in out.alerts then SatAdd(s.lastDts.value, 1) else relative)
            && (s.lastDts.Some? ==> (out.dts > s.lastDts.value <==> s.lastDts.value < I64_MAX))
  {
    hide FromPtsOnly, FallbackStep, DurationHint, MaxGapTicks, ToMicros;
    var (generator, generated) := Candidate(c, s, input, src);
    AlertsOf(c, s.(generator := generator), input, src, generated);
  }

  lemma AlertsOf(c: Config, s: State, input: Input, src: Sources, generated: Generated)
    ensures var out := Settle(c, s, input, src, generated).1;
            var relative := SatSub(generated.dts, EpochOf(s.epochOffset, src, generated.dts));
            var wanted := WantedPts(s, src, generated, out.dts);
            && (NonMonotonicDtsRepaired in out.alerts <==> s.lastDts.Some? && relative <= s.lastDts.value)
            && (NegativeCompositionClamped in out.alerts <==>
                  input.isVideo && !c.allowNegativeComposition && wanted < out.dts)
            && out.pts == (if NegativeCompositionClamped in out.alerts then out.dts else wanted)
  {
    hide FallbackStep, ToMicros, SatAdd, SatSub, EpochOf, Raised;
    var relative, last := SatSub(generated.dts, EpochOf(s.epochOffset, src, generated.dts)), s.lastDts;
    var repaired := last.Some? && relative <= last.value;
    var gapped := last.Some? && !repaired
      && ToMicros(c.outputTimebase, SatSub(relative, last.value)) > c.maxForwardGapUs;
    var dts := if repaired then SatAdd(last.value, 1) else relative;
    var clamped := input.isVideo && !c.allowNegativeComposition && WantedPts(s, src, generated, dts) < dts;
    RaisedForItsCause(s.pendingReset, src.dts.None?, generated.reordered, generated.discontinuity, repaired, gapped,
                      src.pts.None?, clamped);
  }

  /** The presentation time before clamping. */
  function WantedPts(s: State, src: Sources, generated: Generated, dts: i64): i64 {
    if src.pts.Some? then SatSub(src.pts.value, EpochOf(s.epochOffset, src, generated.dts))
    else SatAdd(dts, if src.offset.Some? then src.offset.value else 0)
  }

  /** A sample with both times that is neither repaired nor clamped keeps its composition time, as long as taking
      off the epoch stays within 64 bits. */
  lemma CompositionIsKept(c: Config, s: State, input: Input, src: Sources)
    requires src.dts.Some? && src.pts.Some?
    requires var epoch := EpochOf(s.epochOffset, src, src.dts.value);
             -TWO63 <= src.pts.value - epoch < TWO63 && -TWO63 <= src.dts.value - epoch < TWO63
    ensures var out := Place(c, s, input, src).1;
            NonMonotonicDtsRepaired !in out.alerts && NegativeCompositionClamped !in out.alerts ==>
              out.pts - out.dts == src.pts.value - src.dts.value
  {
    hide FallbackStep, ToMicros, FromPtsOnly;
    RepairKeepsOrder(c, s, input, src);
    AlertsOf(c, s, input, src, Generated(src.dts.value, false, false));
  }

  // ---------- Whole runs ----------

  datatype Run = Run(state: State, results: seq<Result<Output, NormalizeError>>)

  function RunFrom(c: Config, s: State, inputs: seq<Input>): (run: Run)
    requires c.Valid()
    ensures |run.results| == |inputs|
    decreases |inputs|
  {
    if inputs == [] then Run(s, [])
    else
      var (s', r) := Normalized(c, s, inputs[0]);
      var rest := RunFrom(c, s', inputs[1..]);
      Run(rest.state, [r] + rest.results)
  }

  /** The decode times of the samples that were not rejected. */
  function DtsOf(results: seq<Result<Output, NormalizeError>>): seq<i64> {
    if results == [] then []
    else (if results[0].Ok? then [results[0].value.dts] else []) + DtsOf(results[1..])
  }

  /** Strictly increasing, until the end of the 64-bit range pins the value. */
  ghost predicate Ascends(from: Option<i64>, dts: seq<i64>)
    decreases |dts|
  {
    dts != [] ==>
      && (from.Some? ==> if from.value < I64_MAX then from.value < dts[0] else dts[0] == I64_MAX)
      && Ascends(Some(dts[0]), dts[1..])
  }

  lemma ResolveKeepsOrderState(c: Config, s: State, mode: Mode)
    requires c.Valid()
    ensures var s' := ResolveMode(c, s, mode).0;
            s' == s.(dtsUnwrapping := s'.dtsUnwrapping, ptsUnwrapping := s'.ptsUnwrapping)
  {
    hide Resolve;
  }

  /** Over every run, for any mix of input modes, accepted samples have strictly increasing decode times. */
  lemma {:induction false} RunAscends(c: Config, s: State, inputs: seq<Input>)
    requires c.Valid()
    ensures Ascends(s.lastDts, DtsOf(RunFrom(c, s, inputs).results))
    decreases |inputs|
  {
    hide ResolveMode, Place;
    if inputs != [] {
      var (s', r) := Normalized(c, s, inputs[0]);
      ResolveKeepsOrderState(c, s, inputs[0].mode);
      var (resolved, src) := ResolveMode(c, s, inputs[0].mode);
      var rest := RunFrom(c, s', inputs[1..]);
      RunAscends(c, s', inputs[1..]);
      assert ([r] + rest.results)[1..] == rest.results;
      if src.Ok? {
        RepairKeepsOrder(c, resolved, inputs[0], src.value);
        if s.lastDts == Some(I64_MAX) {
          RepairStaysAtMax(c, resolved, inputs[0], src.value);
        }
        var dts, all := DtsOf(rest.results), DtsOf([r] + rest.results);
        assert s'.lastDts == Some(r.value.dts);
        assert all == [r.value.dts] + dts;
        assert all[1..] == dts;
        assert Ascends(s.lastDts, all);
      } else {
        assert DtsOf([r] + rest.results) == DtsOf(rest.results);
      }
    }
  }

  lemma RepairStaysAtMax(c: Config, s: State, input: Input, src: Sources)
    requires s.lastDts == Some(I64_MAX)
    ensures Place(c, s, input, src).1.dts == I64_MAX
  {
    hide FromPtsOnly, FallbackStep, DurationHint, MaxGapTicks, ToMicros;
  }

  /** Read off by index: in a run from a fresh or reset state, a later decode time exceeds an earlier one unless
      the earlier one is already the largest 64-bit value. */
  lemma {:induction false} AscendsByIndex(from: Option<i64>, dts: seq<i64>, i: nat, j: nat)
    requires Ascends(from, dts) && i < j < |dts|
    ensures dts[i] < dts[j] || dts[i] == dts[j] == I64_MAX
    decreases |dts|
  {
    if i > 0 {
      AscendsByIndex(Some(dts[0]), dts[1..], i - 1, j - 1);
    } else if j > 1 {
      AscendsByIndex(Some(dts[0]), dts[1..], 0, j - 1);
    }
  }

  lemma DecodeTimesIncrease(c: Config, s: State, inputs: seq<Input>, i: nat, j: nat)
    requires c.Valid()
    requires i < j < |DtsOf(RunFrom(c, s, inputs).results)|
    ensures var dts := DtsOf(RunFrom(c, s, inputs).results);
            dts[i] < dts[j] || dts[i] == dts[j] == I64_MAX
  {
    RunAscends(c, s, inputs);
    AscendsByIndex(s.lastDts, DtsOf(RunFrom(c, s, inputs).results), i, j);
  }

  // ---------- Presentation times only ----------

  /** The generated decode time before saturation, at the source rate. */
  ghost predicate InRange(c: Config, s: State, input: Input, src: Sources) {
    var generated := Candidate(c, s, input, src).1;
    var epoch := EpochOf(s.epochOffset, src, generated.dts);
    && generated.dts < I64_MAX
    && -TWO63 <= generated.dts - epoch < TWO63
  }

  /** Every step of the run stays clear of the ends of the 64-bit range. */
  ghost predicate RunInRange(c: Config, s: State, inputs: seq<Input>)
    requires c.Valid()
    decreases |inputs|
  {
    inputs != [] ==>
      var (s', src) := ResolveMode(c, s, inputs[0].mode);
      src.Ok? && InRange(c, s', inputs[0], src.value) && RunInRange(c, Normalized(c, s, inputs[0]).0, inputs[1..])
  }

  lemma PaceIsPositive(g: Generator, move: Move, fallback: i64, hint: i64)
    requires fallback >= 1 && hint >= 0
    ensures PaceOf(g, move, fallback, hint).step >= 1
  {
  }

  /** The generator's decode times strictly increase while they stay below the largest value. */
  lemma GeneratedTimesIncrease(g: Generator, pts: i64, fallback: i64, duration: Option<i64>, maxGap: i64)
    requires g.lastDts.Some?
    ensures var (g', out) := FromPtsOnly(g, pts, fallback, duration, maxGap);
            g'.lastDts == Some(out.dts) && (out.dts < I64_MAX ==> out.dts > g.lastDts.value)
  {
    hide MoveTo, PaceOf, Blend;
    var f, hint := Max(fallback, 1), Max(if duration.Some? then duration.value else 0, 0);
    PaceIsPositive(g, MoveTo(g, pts, f, maxGap), f, hint);
  }

  /** Between samples that carry presentation times only, the last decode time is the generator's, less the epoch. */
  ghost predicate PtsOnlyState(s: State) {
    if s.lastDts.None? then s.epochOffset.None? && s.generator.lastDts.None?
    else s.epochOffset.Some? && s.generator.lastDts.Some?
         && s.lastDts.value == s.generator.lastDts.value - s.epochOffset.value
  }

  lemma PtsOnlyStep(c: Config, s: State, input: Input, pts: i64)
    requires PtsOnlyState(s)
    requires InRange(c, s, input, Sources(None, Some(pts), None))
    ensures var (after, out) := Place(c, s, input, Sources(None, Some(pts), None));
            && PtsOnlyState(after)
            && NonMonotonicDtsRepaired !in out.alerts
            && (s.lastDts.None? ==> out.dts == 0)
  {
    hide FallbackStep, DurationHint, MaxGapTicks, ToMicros, FromPtsOnly;
    var src := Sources(None, Some(pts), None);
    var fallback, hint, gap := FallbackStep(c, input), DurationHint(c, input), MaxGapTicks(c);
    if s.generator.lastDts.Some? {
      GeneratedTimesIncrease(s.generator, pts, fallback, hint, gap);
    } else {
      FirstIsPts(s.generator, pts, fallback, hint, gap);
    }
    RepairKeepsOrder(c, s, input, src);
  }

  lemma FirstIsPts(g: Generator, pts: i64, fallback: i64, duration: Option<i64>, maxGap: i64)
    requires g.lastDts.None?
    ensures var (g', out) := FromPtsOnly(g, pts, fallback, duration, maxGap); out.dts == pts && g'.lastDts == Some(pts)
  {
    hide MoveTo, PaceOf, Blend;
  }

  ghost predicate AllPtsOnly(inputs: seq<Input>) {
    forall i :: 0 <= i < |inputs| ==> inputs[i].mode.PtsOnly?
  }

  /** A run of samples with presentation times only starts at 0 and never needs repair. */
  lemma {:induction false} PtsOnlyRunNeedsNoRepair(c: Config, s: State, inputs: seq<Input>)
    requires c.Valid() && AllPtsOnly(inputs) && PtsOnlyState(s) && RunInRange(c, s, inputs)
    ensures forall i :: 0 <= i < |inputs| ==>
              var r := RunFrom(c, s, inputs).results[i];
              r.Ok? && NonMonotonicDtsRepaired !in r.value.alerts
    ensures inputs != [] && s.lastDts.None? ==> RunFrom(c, s, inputs).results[0].value.dts == 0
    decreases |inputs|
  {
    hide ResolveMode, Place, InRange;
    if inputs != [] {
      var (s', src) := ResolveMode(c, s, inputs[0].mode);
      ResolveKeepsOrderState(c, s, inputs[0].mode);
      ResolvePtsOnly(c, s, inputs[0].mode);
      PtsOnlyStep(c, s', inputs[0], src.value.pts.value);
      var next := Normalized(c, s, inputs[0]).0;
      PtsOnlyRunNeedsNoRepair(c, next, inputs[1..]);
      var run, rest := RunFrom(c, s, inputs), RunFrom(c, next, inputs[1..]);
      assert forall i :: 0 < i < |inputs| ==> run.results[i] == rest.results[i - 1];
    }
  }

  lemma ResolvePtsOnly(c: Config, s: State, mode: Mode)
    requires c.Valid() && mode.PtsOnly? && ResolveMode(c, s, mode).1.Ok?
    ensures var src := ResolveMode(c, s, mode).1.value; src.pts.Some? && src == Sources(None, Some(src.pts.value), None)
  {
    hide Resolve;
  }

  // ---------- Cadence lock ----------

  /** A backward presentation time has been seen and the smoothed step is `f`. */
  ghost predicate Locked(g: Generator, f: i64) {
    g.ptsReorderSeen && g.smoothedStep == Some(f) && g.lastDts.Some? && g.lastSourcePts.Some?
  }

  lemma BlendOfEqualSteps(f: i64)
    requires f >= 1
    ensures Blend(Some(f), f) == f
  {
  }

  /** A backward move within the threshold takes one step of `f` and locks the cadence to it. */
  lemma BackwardLocks(g: Generator, pts: i64, f: i64, maxGap: i64)
    requires f >= 1 && g.lastDts.Some? && MoveTo(g, pts, f, maxGap).Back?
    ensures var (g', out) := FromPtsOnly(g, pts, f, None, maxGap);
            Locked(g', f) && out == Generated(SatAdd(g.lastDts.value, f), true, false)
  {
    hide MoveTo, Blend;
    BlendOfEqualSteps(f);
  }

  /** While locked, any move within max(max gap, 8f), forward or backward, takes one step of `f` and keeps the lock. */
  lemma LockHolds(g: Generator, pts: i64, f: i64, maxGap: i64)
    requires f >= 1 && maxGap >= 1 && Locked(g, f)
    requires Distance(pts, g.lastSourcePts.value) <= Max(maxGap, 8 * f)
    ensures var (g', out) := FromPtsOnly(g, pts, f, None, maxGap);
            Locked(g', f) && out.dts == SatAdd(g.lastDts.value, f) && !out.discontinuity
  {
    assert !MoveTo(g, pts, f, maxGap).Jump?;
    hide MoveTo, Blend, JumpThreshold;
    BlendOfEqualSteps(f);
  }

  /** The samples carry presentation times only, no duration, the same fallback step `f`, and no jump above the
      threshold. */
  ghost predicate SteadyInputs(c: Config, s: State, inputs: seq<Input>, f: i64)
    requires c.Valid()
    decreases |inputs|
  {
    inputs != [] ==>
      var (s', src) := ResolveMode(c, s, inputs[0].mode);
      && inputs[0].mode.PtsOnly? && inputs[0].frameDuration.None? && FallbackStep(c, inputs[0]) == f
      && src.Ok? && src.value.pts.Some?
      && s.generator.lastSourcePts.Some?
      && Distance(src.value.pts.value, s.generator.lastSourcePts.value) <= Max(MaxGapTicks(c), 8 * f)
      && SteadyInputs(c, Normalized(c, s, inputs[0]).0, inputs[1..], f)
  }

  /** Each accepted sample's decode time is exactly `f` after the one before. */
  ghost predicate StepsBy(f: i64, from: i64, results: seq<Result<Output, NormalizeError>>)
    decreases |results|
  {
    results != [] ==>
      results[0].Ok? && results[0].value.dts == from + f && StepsBy(f, results[0].value.dts, results[1..])
  }

  lemma LockedStep(c: Config, s: State, input: Input, pts: i64, f: i64)
    requires PtsOnlyState(s) && s.lastDts.Some? && Locked(s.generator, f) && f >= 1
    requires input.frameDuration.None? && FallbackStep(c, input) == f
    requires InRange(c, s, input, Sources(None, Some(pts), None))
    requires Distance(pts, s.generator.lastSourcePts.value) <= Max(MaxGapTicks(c), 8 * f)
    ensures var (after, out) := Place(c, s, input, Sources(None, Some(pts), None));
            PtsOnlyState(after) && after.lastDts == Some(out.dts) && Locked(after.generator, f)
            && out.dts == s.lastDts.value + f
  {
    var src := Sources(None, Some(pts), None);
    LockHolds(s.generator, pts, f, MaxGapTicks(c));
    PtsOnlyStep(c, s, input, pts);
    hide FallbackStep, MaxGapTicks, ToMicros, FromPtsOnly;
    RepairKeepsOrder(c, s, input, src);
  }

  /** A backward sample itself steps by `f` and locks the cadence. */
  lemma BackwardSampleLocks(c: Config, s: State, input: Input, pts: i64, f: i64)
    requires PtsOnlyState(s) && s.lastDts.Some? && f >= 1
    requires input.frameDuration.None? && FallbackStep(c, input) == f
    requires InRange(c, s, input, Sources(None, Some(pts), None))
    requires MoveTo(s.generator, pts, f, MaxGapTicks(c)).Back?
    ensures var (after, out) := Place(c, s, input, Sources(None, Some(pts), None));
            PtsOnlyState(after) && Locked(after.generator, f)
            && out.dts == s.lastDts.value + f && PtsReorderObserved in out.alerts
  {
    var src := Sources(None, Some(pts), None);
    BackwardLocks(s.generator, pts, f, MaxGapTicks(c));
    PtsOnlyStep(c, s, input, pts);
    hide FallbackStep, MaxGapTicks, ToMicros, FromPtsOnly, MoveTo;
    RepairKeepsOrder(c, s, input, src);
  }

  /** Cadence lock: however the presentation times are reordered, every later decode time is exactly `f` after the
      one before, and the lock still holds at the end. */
  lemma {:induction false} CadenceIsLocked(c: Config, s: State, inputs: seq<Input>, f: i64)
    requires c.Valid() && f >= 1 && PtsOnlyState(s) && s.lastDts.Some? && Locked(s.generator, f)
    requires SteadyInputs(c, s, inputs, f) && RunInRange(c, s, inputs)
    ensures var run := RunFrom(c, s, inputs);
            StepsBy(f, s.lastDts.value, run.results) && Locked(run.state.generator, f)
    decreases |inputs|
  {
    hide ResolveMode, Place, InRange, FallbackStep, MaxGapTicks, Locked, PtsOnlyState;
    if inputs != [] {
      var (s', src) := ResolveMode(c, s, inputs[0].mode);
      ResolveKeepsOrderState(c, s, inputs[0].mode);
      ResolvePtsOnly(c, s, inputs[0].mode);
      StateOfOrderOnly(s, s');
      LockedStep(c, s', inputs[0], src.value.pts.value, f);
      var next := Normalized(c, s, inputs[0]).0;
      CadenceIsLocked(c, next, inputs[1..], f);
      var rest := RunFrom(c, next, inputs[1..]);
      assert RunFrom(c, s, inputs).results[1..] == rest.results;
    }
  }

  lemma StateOfOrderOnly(s: State, s': State)
    requires s' == s.(dtsUnwrapping := s'.dtsUnwrapping, ptsUnwrapping := s'.ptsUnwrapping)
    ensures PtsOnlyState(s) <==> PtsOnlyState(s')
    ensures s.generator == s'.generator && s.lastDts == s'.lastDts
  {
  }

  // ---------- Wrap transparency ----------

  /** The unwrapper that has last seen the true time `last`. */
  ghost function Tracking(period: nat, last: Option<nat>): Unwrapping
    requires 0 < period <= TWO63
    requires last.Some? ==> last.value < TWO63
  {
    match last
    case None => FRESH_UNWRAPPING
    case Some(t) => Unwrapping(t - Reduce(t, period), Some(Reduce(t, period)))
  }

  /** A true timeline: it starts in period 0, never goes below zero, and steps by less than half a period. */
  ghost predicate Admissible(period: nat, last: Option<nat>, t: int) {
    && 0 <= t < TWO63
    && (if last.None? then t < period else last.value < TWO63 && 2 * Distance(t, last.value) < period)
  }

  lemma PeriodsApart(period: nat, a: int, b: int, gap: int)
    requires period > 0 && b * period - a * period == gap
    requires -2 * period < gap < 2 * period
    ensures gap == 0 || gap == period || gap == -1 * period
  {
    MulStep(a, period);
    MulStep(a - 1, period);
    if b > a + 1 {
      MulLess(a + 1, b, period);
    } else if b == a {
    } else if b < a - 1 {
      MulLess(b, a - 1, period);
    }
  }

  lemma DivMod(t: int, period: nat)
    requires period > 0
    ensures t == t / period * period + t % period
  {
  }

  lemma WholePeriods(t: nat, period: nat)
    requires 0 < period <= TWO63 && t < TWO63
    ensures t - Reduce(t, period) == t / period * period && Reduce(t, period) <= t
    ensures t < period ==> Reduce(t, period) == t
  {
    DivMod(t, period);
    SmallRemainder(t, period);
  }

  lemma SmallRemainder(t: nat, period: nat)
    requires period > 0
    ensures t % period <= t && (t < period ==> t % period == t)
  {
  }

  lemma HighByGap(period: nat, u: Unwrapping, last: nat, t: nat, r': u64)
    requires u.lastRaw.Some? && u.high + u.lastRaw.value == last < TWO63 && u.lastRaw.value < period <= TWO63
    requires r' < period && r' <= t < TWO63 && 2 * Distance(t, last) < period
    requires t - r' - u.high == 0 || t - r' - u.high == period || t - r' - u.high == -1 * period
    ensures NextHigh(period, u, r') == t - r'
  {
  }

  lemma HighIsTruth(period: nat, last: nat, t: nat)
    requires 0 < period <= TWO63 && last < TWO63 && t < TWO63 && 2 * Distance(t, last) < period
    ensures NextHigh(period, Tracking(period, Some(last)), Reduce(t, period)) == t - Reduce(t, period)
  {
    WholePeriods(t, period);
    WholePeriods(last, period);
    hide Reduce, NextHigh;
    var r: int, r': int := Reduce(last, period), Reduce(t, period);
    PeriodsApart(period, last / period, t / period, (t - r') - (last - r));
    HighByGap(period, Tracking(period, Some(last)), last, t, r');
  }

  /** The unwrapper returns the true time of any raw value that carries its low bits. */
  lemma UnwrapRecoversTruth(period: nat, last: Option<nat>, t: nat, raw: u64)
    requires 0 < period <= TWO63 && Admissible(period, last, t) && Reduce(raw, period) == Reduce(t, period)
    ensures Unwrapped(period, Tracking(period, last), raw) == (Tracking(period, Some(t)), t)
  {
    WholePeriods(t, period);
    if last.Some? {
      HighIsTruth(period, last.value, t);
    }
    hide Reduce;
  }

  /** A step of less than half a period, or of exactly half within one period; the first time lies in period 0. */
  ghost predicate Recoverable(period: nat, last: Option<nat>, t: nat)
    requires period > 0
  {
    if last.None? then t < period
    else
      2 * Distance(t, last.value) < period
      || (2 * Distance(t, last.value) == period && t / period == last.value / period)
  }

  /** Where the counter goes, by how far apart the periods are. */
  lemma HighFollowsIff(period: nat, u: Unwrapping, r: u64, gap: int)
    requires u.lastRaw.Some? && u.lastRaw.value < period <= TWO63 && r < period && u.high < TWO63
    requires 0 <= u.high + gap && u.high + gap + r < TWO63
    requires -2 * period < gap < 2 * period ==> gap == 0 || gap == period || gap == -1 * period
    ensures var step := gap + r - u.lastRaw.value;
            NextHigh(period, u, r) == u.high + gap
            <==> -1 * period < 2 * step < period || ((2 * step == period || 2 * step == -1 * period) && gap == 0)
  {
  }

  lemma SamePeriodIff(period: nat, a: nat, b: nat)
    requires period > 0
    ensures a / period * period == b / period * period <==> a / period == b / period
  {
    if a / period < b / period {
      MulLess(a / period, b / period, period);
    } else if b / period < a / period {
      MulLess(b / period, a / period, period);
    }
  }

  /** The unwrapper returns the true time exactly when the step to it is recoverable. */
  lemma UnwrapRecoversTruthIff(period: nat, last: Option<nat>, t: nat, raw: u64)
    requires 0 < period <= TWO63 && t < TWO63 && (last.Some? ==> last.value < TWO63)
    requires Reduce(raw, period) == Reduce(t, period)
    ensures Unwrapped(period, Tracking(period, last), raw).1 == t <==> Recoverable(period, last, t)
  {
    WholePeriods(t, period);
    if last.Some? {
      WholePeriods(last.value, period);
      SamePeriodIff(period, t, last.value);
      var r: int, r': int := Reduce(last.value, period), Reduce(t, period);
      var gap := (t - r') - (last.value - r);
      hide Reduce, NextHigh;
      if -2 * period < gap < 2 * period {
        PeriodsApart(period, last.value / period, t / period, gap);
      }
      HighFollowsIff(period, Tracking(period, last), r', gap);
    } else {
      hide Reduce;
    }
  }

  /** The same time, given unwrapped and given with its low bits only. */
  ghost predicate SameTime(period: nat, last: Option<nat>, plain: TimestampValue, wrapped: TimestampValue)
    requires 0 < period <= TWO63
  {
    && plain.Plain? && wrapped.Wrapped?
    && Admissible(period, last, plain.value)
    && Reduce(wrapped.raw, period) == Reduce(plain.value, period)
  }

  lemma ResolveIsTransparent(c: Config, period: nat, u: Unwrapping, last: Option<nat>, plain: TimestampValue,
                             wrapped: TimestampValue)
    requires c.Valid() && c.wrapBits.Some? && period == Pow2(c.wrapBits.value)
    requires 0 < period <= TWO63 && SameTime(period, last, plain, wrapped)
    ensures Resolve(c, Tracking(period, last), wrapped) == (Tracking(period, Some(plain.value)), Resolve(c, u, plain).1)
    ensures Resolve(c, u, plain).0 == u && Resolve(c, u, plain).1.Ok?
  {
    hide Rescale, Pow2, Unwrapped;
    UnwrapRecoversTruth(period, last, plain.value, wrapped.raw);
  }

  /** The true times last seen by the two unwrappers. */
  datatype Seen = Seen(dts: Option<nat>, pts: Option<nat>)

  ghost predicate SameMode(period: nat, seen: Seen, plain: Mode, wrapped: Mode)
    requires 0 < period <= TWO63
  {
    match (plain, wrapped)
    case (NoTimestamp, NoTimestamp) => true
    case (DtsPts(d, p), DtsPts(d', p')) => SameTime(period, seen.dts, d, d') && SameTime(period, seen.pts, p, p')
    case (DtsWithCompositionOffset(d, o), DtsWithCompositionOffset(d', o')) =>
      SameTime(period, seen.dts, d, d') && o == o'
    case (PtsOnly(p), PtsOnly(p')) => SameTime(period, seen.pts, p, p')
    case _ => false
  }

  ghost function SeenAfter(seen: Seen, plain: Mode): Seen {
    match plain
    case NoTimestamp => seen
    case DtsPts(d, p) => Seen(SomeTime(d), SomeTime(p))
    case DtsWithCompositionOffset(d, _) => seen.(dts := SomeTime(d))
    case PtsOnly(p) => seen.(pts := SomeTime(p))
  }

  ghost function SomeTime(v: TimestampValue): Option<nat> {
    if v.Plain? && v.value >= 0 then Some(v.value) else None
  }

  ghost predicate SeenValid(seen: Seen) {
    (seen.dts.Some? ==> seen.dts.value < TWO63) && (seen.pts.Some? ==> seen.pts.value < TWO63)
  }

  /** The inputs differ only in that one run gives true times and the other their low bits. */
  ghost predicate SameTimeline(period: nat, seen: Seen, plain: seq<Input>, wrapped: seq<Input>)
    requires 0 < period <= TWO63
    decreases |plain|
  {
    && |plain| == |wrapped|
    && (plain != [] ==>
          && wrapped[0] == plain[0].(mode := wrapped[0].mode)
          && SameMode(period, seen, plain[0].mode, wrapped[0].mode)
          && SameTimeline(period, SeenAfter(seen, plain[0].mode), plain[1..], wrapped[1..]))
  }

  ghost function Wrapping(s: State, period: nat, seen: Seen): State
    requires 0 < period <= TWO63 && SeenValid(seen)
  {
    s.(dtsUnwrapping := Tracking(period, seen.dts), ptsUnwrapping := Tracking(period, seen.pts))
  }

  lemma ModeIsTransparent(c: Config, period: nat, s: State, seen: Seen, plain: Mode, wrapped: Mode)
    requires c.Valid() && c.wrapBits.Some? && period == Pow2(c.wrapBits.value) && 0 < period <= TWO63
    requires SeenValid(seen) && SameMode(period, seen, plain, wrapped)
    ensures SeenValid(SeenAfter(seen, plain))
    ensures ResolveMode(c, Wrapping(s, period, seen), wrapped)
         == (Wrapping(s, period, SeenAfter(seen, plain)), ResolveMode(c, s, plain).1)
    ensures ResolveMode(c, s, plain).0 == s
  {
    hide Resolve, Pow2, Tracking, Rescale;
    if plain.DtsPts? {
      ResolveIsTransparent(c, period, s.dtsUnwrapping, seen.dts, plain.dts, wrapped.dts);
      ResolveIsTransparent(c, period, s.ptsUnwrapping, seen.pts, plain.pts, wrapped.pts);
    } else if plain.DtsWithCompositionOffset? {
      ResolveIsTransparent(c, period, s.dtsUnwrapping, seen.dts, plain.dts, wrapped.dts);
    } else if plain.PtsOnly? {
      ResolveIsTransparent(c, period, s.ptsUnwrapping, seen.pts, plain.pts, wrapped.pts);
    }
  }

  lemma PlaceIgnoresUnwrapping(c: Config, s: State, d: Unwrapping, p: Unwrapping, input: Input, input': Input,
                               src: Sources)
    requires input' == input.(mode := input'.mode)
    ensures var (after, out) := Place(c, s, input, src);
            Place(c, s.(dtsUnwrapping := d, ptsUnwrapping := p), input', src)
            == (after.(dtsUnwrapping := d, ptsUnwrapping := p), out)
  {
    hide FromPtsOnly, ToMicros, PushIf, Rescale, MaxGapTicks;
  }

  /** Wrap transparency: a run fed with the low bits of a true timeline gives the same outputs and alerts as the
      run fed with the true times. */
  lemma {:induction false} WrappingIsTransparent(c: Config, period: nat, s: State, seen: Seen, plain: seq<Input>,
                                                 wrapped: seq<Input>)
    requires c.Valid() && c.wrapBits.Some? && period == Pow2(c.wrapBits.value) && 0 < period <= TWO63
    requires SeenValid(seen) && SameTimeline(period, seen, plain, wrapped)
    ensures RunFrom(c, Wrapping(s, period, seen), wrapped).results == RunFrom(c, s, plain).results
    decreases |plain|
  {
    hide ResolveMode, Place, Pow2, SameMode, SeenAfter, Tracking;
    if plain != [] {
      var seen' := SeenAfter(seen, plain[0].mode);
      ModeIsTransparent(c, period, s, seen, plain[0].mode, wrapped[0].mode);
      var src := ResolveMode(c, s, plain[0].mode).1;
      if src.Ok? {
        var d, p := Tracking(period, seen'.dts), Tracking(period, seen'.pts);
        PlaceIgnoresUnwrapping(c, s, d, p, plain[0], wrapped[0], src.value);
      }
      var next := Normalized(c, s, plain[0]).0;
      assert Normalized(c, Wrapping(s, period, seen), wrapped[0])
          == (Wrapping(next, period, seen'), Normalized(c, s, plain[0]).1);
      WrappingIsTransparent(c, period, next, seen', plain[1..], wrapped[1..]);
    }
  }

  /** From a fresh normalizer, for timelines that start in period 0. */
  lemma FreshRunIsTransparent(c: Config, plain: seq<Input>, wrapped: seq<Input>)
    requires c.Valid() && c.wrapBits.Some?
    ensures 0 < Pow2(c.wrapBits.value) <= TWO63
    ensures SameTimeline(Pow2(c.wrapBits.value), Seen(None, None), plain, wrapped) ==>
              RunFrom(c, FRESH_STATE, wrapped).results == RunFrom(c, FRESH_STATE, plain).results
  {
    var period := Pow2(c.wrapBits.value);
    PeriodDivides(c.wrapBits.value);
    if SameTimeline(period, Seen(None, None), plain, wrapped) {
      WrappingIsTransparent(c, period, FRESH_STATE, Seen(None, None), plain, wrapped);
    }
  }

  // ---------- Constructed configurations ----------

  /** A configuration is made exactly when both timebases are non-zero and the width is one of 1 to 63; then
      normalizers built from it, however its setters are used, keep decode times rising and are transparent to
      wrapping. */
  lemma ConstructedConfigIsSafe(input: Timebase, output: Timebase, wrapBits: Option<nat>, gap: i64, step: i64,
                                allow: bool, plain: seq<Input>, wrapped: seq<Input>)
    ensures NewConfig(input, output, wrapBits).Ok? <==>
              input.num > 0 && input.den > 0 && output.num > 0 && output.den > 0
              && (wrapBits.Some? ==> ValidWidth(wrapBits.value))
    ensures NewConfig(input, output, wrapBits).Ok? ==>
              var c := Adjusted(NewConfig(input, output, wrapBits).value, gap, step, allow);
              c.Valid()
              && Ascends(None, DtsOf(RunFrom(c, FRESH_STATE, plain).results))
              && (wrapBits.Some? ==>
                    0 < Pow2(wrapBits.value) <= TWO63
                    && (SameTimeline(Pow2(wrapBits.value), Seen(None, None), plain, wrapped) ==>
                          RunFrom(c, FRESH_STATE, wrapped).results == RunFrom(c, FRESH_STATE, plain).results))
  {
    hide RunFrom, SameTimeline, Pow2, DtsOf, Ascends;
    if NewConfig(input, output, wrapBits).Ok? {
      var c := Adjusted(NewConfig(input, output, wrapBits).value, gap, step, allow);
      RunAscends(c, FRESH_STATE, plain);
      if wrapBits.Some? {
        FreshRunIsTransparent(c, plain, wrapped);
      }
    }
  }
}
