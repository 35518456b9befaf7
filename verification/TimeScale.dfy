/** What rescaled ticks mean: an independent bound on the conversion between timebases, and the output times of the
    normalizer against the source time elapsed since its first sample. */
module TimeScale {
  import opened Bytes
  import opened Time

  /** Microseconds in a second. */
  const MICRO := 1_000_000

  predicate Positive(tb: Timebase) {
    tb.num > 0 && tb.den > 0
  }

  /** `value` ticks of `src`, in whole microseconds and in whole ticks of `dst`, stay below 2^63. */
  predicate Fits(value: nat, src: Timebase, dst: Timebase) {
    && value * src.num * MICRO < TWO63 * src.den
    && value * src.num * dst.den < TWO63 * (dst.num * src.den)
  }

  // ---------- Arithmetic ----------

  lemma MulMono(a: int, b: int, k: nat)
    requires a <= b
    ensures a * k <= b * k
  {
  }

  lemma Quotient(a: nat, d: nat)
    requires d > 0
    ensures d * (a / d) <= a < d * (a / d) + d
  {
  }

  lemma QuotientBelow(a: nat, d: nat, n: nat)
    requires d > 0 && a < n * d
    ensures a / d < n
  {
    Quotient(a, d);
    if n <= a / d {
      MulMono(n, a / d, d);
    }
  }

  lemma Commute(a: int, b: int, c: int)
    ensures a * b * c == a * c * b == b * a * c
  {
    assert a * b * c == a * (b * c) == a * (c * b) == a * c * b;
  }

  /** Flooring to microseconds and then to ticks loses less than a microsecond and a tick. */
  lemma TwoFloors(a: nat, s: nat, d: nat, n: nat, us: nat, out: nat)
    requires s > 0 && d > 0 && n > 0
    requires us * s <= a * MICRO < us * s + s
    requires out * n * MICRO <= us * d < out * n * MICRO + n * MICRO
    ensures out * n * s <= a * d
    ensures a * d * MICRO - out * n * s * MICRO < s * d + n * s * MICRO
  {
    FirstFloor(a, s, d, us);
    SecondFloor(s, d, n, us, out);
    Commute(us, s, d);
  }

  lemma FirstFloor(a: nat, s: nat, d: nat, us: nat)
    requires d > 0 && us * s <= a * MICRO < us * s + s
    ensures us * s * d <= a * d * MICRO < us * s * d + s * d
  {
    MulMono(us * s, a * MICRO, d);
    MulMono(a * MICRO + 1, us * s + s, d);
    Commute(a, MICRO, d);
    assert (us * s + s) * d == us * s * d + s * d;
    assert (a * MICRO + 1) * d == a * MICRO * d + d;
  }

  lemma SecondFloor(s: nat, d: nat, n: nat, us: nat, out: nat)
    requires s > 0 && out * n * MICRO <= us * d < out * n * MICRO + n * MICRO
    ensures out * n * s * MICRO <= us * d * s < out * n * s * MICRO + n * s * MICRO
  {
    MulMono(out * n * MICRO, us * d, s);
    MulMono(us * d + 1, out * n * MICRO + n * MICRO, s);
    Commute(out * n, MICRO, s);
    Commute(n, MICRO, s);
    assert (out * n * MICRO + n * MICRO) * s == out * n * MICRO * s + n * MICRO * s;
    assert (us * d + 1) * s == us * d * s + s;
  }

  /** The quotient of the second floor stays below any bound the unfloored time keeps. */
  lemma TicksBelow(a: nat, s: nat, d: nat, n: nat, us: nat, limit: nat)
    requires s > 0 && d > 0 && us * s <= a * MICRO < us * s + s
    requires a * d < limit * (n * s)
    ensures us * d < limit * (n * MICRO)
  {
    FirstFloor(a, s, d, us);
    Commute(us, s, d);
    Commute(limit * n, MICRO, s);
    assert limit * (n * MICRO) * s == limit * n * s * MICRO == limit * (n * s) * MICRO;
    if limit * (n * MICRO) <= us * d {
      MulMono(limit * (n * MICRO), us * d, s);
      assert false;
    }
  }

  // ---------- Rescaling ----------

  lemma FloorAt(total: nat, unit: nat)
    requires unit > 0 && total < TWO63 * unit
    ensures 0 <= total / unit < TWO63 && Wrap64(TruncDiv(total, unit)) == total / unit
    ensures unit * (total / unit) <= total < unit * (total / unit) + unit
  {
    Quotient(total, unit);
    QuotientBelow(total, unit, TWO63);
  }

  lemma MicrosOf(tb: Timebase, value: nat)
    requires value < TWO63 && Positive(tb) && value * tb.num * MICRO < TWO63 * tb.den
    ensures 0 <= ToMicros(tb, value)
    ensures ToMicros(tb, value) * tb.den <= value * tb.num * MICRO < ToMicros(tb, value) * tb.den + tb.den
  {
    var total: int, d: int := value * tb.num * MICRO, tb.den;
    FloorAt(total, d);
    assert ToMicros(tb, value) == total / d;
    hide ToMicros;
  }

  lemma TicksOf(tb: Timebase, us: nat)
    requires us < TWO63 && Positive(tb) && us * tb.den < TWO63 * (tb.num * MICRO)
    ensures 0 <= FromMicros(tb, us)
    ensures var out := FromMicros(tb, us);
            out * tb.num * MICRO <= us * tb.den < out * tb.num * MICRO + tb.num * MICRO
  {
    var total: int, unit: int := us * tb.den, tb.num * MICRO;
    FloorAt(total, unit);
    Commute(tb.num, total / unit, MICRO);
  }

  /** A time is never converted late, and early by less than a microsecond and a tick of the output: with `value`
      ticks of `src.num / src.den` seconds each, and the result in ticks of `dst.num / dst.den` seconds. */
  lemma ConvertFollowsTime(value: nat, src: Timebase, dst: Timebase)
    requires value < TWO63 && Positive(src) && Positive(dst) && Fits(value, src, dst)
    ensures var out := Convert(value, src, dst);
            && 0 <= out
            && out * dst.num * src.den <= value * src.num * dst.den
            && value * src.num * dst.den * MICRO - out * dst.num * src.den * MICRO
               < src.den * dst.den + dst.num * src.den * MICRO
  {
    MicrosOf(src, value);
    hide ToMicros, FromMicros;
    var us := ToMicros(src, value);
    TicksBelow(value * src.num, src.den, dst.den, dst.num, us, TWO63);
    TicksOf(dst, us);
    TwoFloors(value * src.num, src.den, dst.den, dst.num, us, FromMicros(dst, us));
  }

  /** One second at 90 kHz in microseconds and, before zero, in milliseconds. */
  lemma NinetyKilohertzSecond()
    ensures Convert(90_000, Timebase(1, 90_000), Timebase(1, 1_000_000)) == 1_000_000
    ensures Convert(-90_000, Timebase(1, 90_000), Timebase(1, 1_000)) == -1_000
  {
    assert ToMicros(Timebase(1, 90_000), 90_000) == 1_000_000;
    assert ToMicros(Timebase(1, 90_000), -90_000) == -1_000_000;
    hide ToMicros;
    assert FromMicros(Timebase(1, 1_000_000), 1_000_000) == 1_000_000;
    assert FromMicros(Timebase(1, 1_000), -1_000_000) == -1_000;
    hide FromMicros;
  }

  /** Times before zero are converted like times after it: rounding is toward zero. */
  lemma ConvertIsOdd(value: nat, src: Timebase, dst: Timebase)
    requires value < TWO63 && Positive(src) && Positive(dst) && Fits(value, src, dst)
    ensures Convert(-(value as int), src, dst) == -(Convert(value, src, dst) as int)
  {
    MicrosOf(src, value);
    ToMicrosIsOdd(src, value);
    var us: i64 := ToMicros(src, value);
    TicksBelow(value * src.num, src.den, dst.den, dst.num, us, TWO63);
    FromMicrosIsOdd(dst, us);
  }

  lemma ToMicrosIsOdd(tb: Timebase, value: nat)
    requires value < TWO63 && Positive(tb) && value * tb.num * MICRO < TWO63 * tb.den
    ensures ToMicros(tb, -(value as int)) == -(ToMicros(tb, value) as int)
  {
    var total: int := value * tb.num * MICRO;
    assert -(value as int) * tb.num * MICRO == -total;
    FloorAt(total, tb.den);
    MirroredFloor(total, tb.den);
  }

  lemma MirroredFloor(total: nat, unit: nat)
    requires unit > 0 && total < TWO63 * unit
    ensures Wrap64(TruncDiv(-(total as int), unit)) == -(Wrap64(TruncDiv(total, unit)) as int)
  {
    FloorAt(total, unit);
  }

  lemma FromMicrosIsOdd(tb: Timebase, us: nat)
    requires us < TWO63 && Positive(tb) && us * tb.den < TWO63 * (tb.num * MICRO)
    ensures FromMicros(tb, -(us as int)) == -(FromMicros(tb, us) as int)
  {
    var total: int, unit: int := us * tb.den, tb.num * MICRO;
    assert -(us as int) * tb.den == -total;
    FloorAt(total, unit);
    MirroredFloor(total, unit);
  }

  // ---------- The normalizer ----------

  /** `ticks` of the output stand for `elapsed` ticks of the input, to within a microsecond and an output tick. */
  predicate Follows(c: Config, ticks: int, elapsed: int) {
    var input, output := c.inputTimebase, c.outputTimebase;
    Distance(ticks * (output.num * input.den) * MICRO, elapsed * (input.num * output.den) * MICRO)
    < input.den * output.den + output.num * input.den * MICRO
  }

  /** The same for microseconds: to within two microseconds and an output tick. */
  predicate FollowsInMicros(c: Config, us: int, elapsed: int) {
    var input, output := c.inputTimebase, c.outputTimebase;
    Distance(us * (output.den * input.den), elapsed * (input.num * output.den) * MICRO)
    < 2 * (input.den * output.den) + output.num * input.den * MICRO
  }

  predicate Rescalable(c: Config, value: int) {
    && Positive(c.inputTimebase) && Positive(c.outputTimebase)
    && 0 <= value < TWO63 && Fits(value, c.inputTimebase, c.outputTimebase)
  }

  lemma RescaleLags(c: Config, value: int)
    requires Rescalable(c, value)
    ensures var input, output := c.inputTimebase, c.outputTimebase;
            && 0 <= Rescale(c, value)
            && Lags(Rescale(c, value), output.num * input.den, value, input.num * output.den,
                    input.den * output.den + output.num * input.den * MICRO)
  {
    var input, output := c.inputTimebase, c.outputTimebase;
    ConvertFollowsTime(value, input, output);
    hide Convert, Fits;
    Gather(Rescale(c, value), output.num, input.den);
    Gather(value, input.num, output.den);
  }

  predicate Lags(ticks: int, tick: int, value: int, step: int, error: int) {
    0 <= value * step * MICRO - ticks * tick * MICRO < error
  }

  lemma LagsDiffer(r: int, e: int, tick: int, value: int, origin: int, step: int, error: int)
    requires Lags(r, tick, value, step, error) && Lags(e, tick, origin, step, error)
    ensures Distance((r - e) * tick * MICRO, (value - origin) * step * MICRO) < error
  {
    assert (r - e) * tick == r * tick - e * tick;
    assert (value - origin) * step == value * step - origin * step;
  }

  lemma DifferenceFollows(c: Config, value: int, origin: int)
    requires Rescalable(c, value) && Rescalable(c, origin)
    ensures 0 <= Rescale(c, value) && 0 <= Rescale(c, origin)
    ensures Follows(c, Rescale(c, value) - Rescale(c, origin), value - origin)
  {
    RescaleLags(c, value);
    RescaleLags(c, origin);
    hide Rescalable, Rescale, Lags;
    var input, output := c.inputTimebase, c.outputTimebase;
    LagsDiffer(Rescale(c, value), Rescale(c, origin), output.num * input.den, value, origin, input.num * output.den,
               input.den * output.den + output.num * input.den * MICRO);
  }

  lemma Gather(a: int, b: int, c: int)
    ensures a * (b * c) == a * b * c
  {
  }

  lemma MicrosFollow(c: Config, ticks: int, elapsed: int)
    requires Positive(c.inputTimebase) && Positive(c.outputTimebase) && Follows(c, ticks, elapsed)
    requires -TWO63 < ticks < TWO63
    requires Distance(ticks, 0) * c.outputTimebase.num * MICRO < TWO63 * c.outputTimebase.den
    ensures FollowsInMicros(c, ToMicros(c.outputTimebase, ticks), elapsed)
  {
    var input, output := c.inputTimebase, c.outputTimebase;
    MicrosNear(output, ticks);
    var us: int, total: int := ToMicros(output, ticks), ticks * output.num * MICRO;
    hide ToMicros, Distance;
    WidenError(us * output.den, total, output.den, input.den);
    Commute(ticks * output.num, MICRO, input.den);
    Gather(ticks, output.num, input.den);
    Gather(us, output.den, input.den);
    Commute(1, output.den, input.den);
    NearIsTransitive(us * (output.den * input.den), total * input.den, elapsed * (input.num * output.den) * MICRO,
                     input.den * output.den, input.den * output.den + output.num * input.den * MICRO);
  }

  lemma NearIsTransitive(a: int, b: int, c: int, d: int, e: int)
    requires Distance(a, b) < d && Distance(b, c) < e
    ensures Distance(a, c) < d + e
  {
  }

  lemma MicrosNear(tb: Timebase, ticks: int)
    requires Positive(tb) && -TWO63 < ticks < TWO63
    requires Distance(ticks, 0) * tb.num * MICRO < TWO63 * tb.den
    ensures Distance(ToMicros(tb, ticks) * tb.den, ticks * tb.num * MICRO) < tb.den
  {
    hide ToMicros;
    var size: int := Distance(ticks, 0);
    MicrosOf(tb, size);
    if ticks < 0 {
      ToMicrosIsOdd(tb, size);
      var us: int := ToMicros(tb, size);
      assert ToMicros(tb, ticks) == -us;
      assert -us * tb.den == -(us * tb.den);
      assert ticks * tb.num * MICRO == -(size * tb.num * MICRO);
    }
  }

  lemma WidenError(a: int, b: int, d: nat, k: nat)
    requires k > 0 && Distance(a, b) < d
    ensures Distance(a * k, b * k) < d * k
  {
    MulMono(Distance(a, b) + 1, d, k);
    assert (Distance(a, b) + 1) * k == Distance(a, b) * k + k;
    assert (a - b) * k == a * k - b * k;
    assert (b - a) * k == b * k - a * k;
  }

  /** A difference of two rescaled times is small enough to be turned into microseconds. */
  lemma DifferenceFits(c: Config, value: int, origin: int)
    requires Rescalable(c, value) && Rescalable(c, origin)
    ensures 0 <= Rescale(c, value) && 0 <= Rescale(c, origin)
    ensures Distance(Rescale(c, value) - Rescale(c, origin), 0) * c.outputTimebase.num * MICRO
            < TWO63 * c.outputTimebase.den
  {
    RescaledFits(c, value);
    RescaledFits(c, origin);
    var r: int, e: int := Rescale(c, value), Rescale(c, origin);
    hide Rescale, Rescalable;
    var n: int := c.outputTimebase.num;
    MulMono(Distance(r - e, 0), Max(r, e), n);
  }

  lemma RescaledFits(c: Config, value: int)
    requires Rescalable(c, value)
    ensures 0 <= Rescale(c, value)
    ensures Rescale(c, value) * c.outputTimebase.num * MICRO < TWO63 * c.outputTimebase.den
  {
    hide Convert, Fits, Positive;
    ConvertFits(value, c.inputTimebase, c.outputTimebase);
  }

  lemma ConvertFits(value: nat, src: Timebase, dst: Timebase)
    requires value < TWO63 && Positive(src) && Positive(dst) && Fits(value, src, dst)
    ensures 0 <= Convert(value, src, dst)
    ensures Convert(value, src, dst) * dst.num * MICRO < TWO63 * dst.den
  {
    hide Convert;
    ConvertFollowsTime(value, src, dst);
    assert src.den > 0;
    assert dst.den > 0;
    assert value * src.num * MICRO < TWO63 * src.den;
    assert Convert(value, src, dst) * dst.num * src.den <= value * src.num * dst.den;
    hide Fits, Positive;
    BoundedBySource(Convert(value, src, dst), dst.num, src.den, value * src.num, dst.den);
  }

  lemma BoundedBySource(r: nat, n: nat, s: nat, a: nat, d: nat)
    requires s > 0 && d > 0 && r * n * s <= a * d && a * MICRO < TWO63 * s
    ensures r * n * MICRO < TWO63 * d
  {
    MulMono(a * MICRO + 1, TWO63 * s, d);
    assert (a * MICRO + 1) * d == a * MICRO * d + d;
    Commute(a, MICRO, d);
    Commute(TWO63, s, d);
    Commute(r * n, MICRO, s);
    assert r * n * MICRO * s < TWO63 * d * s;
    if TWO63 * d <= r * n * MICRO {
      MulMono(TWO63 * d, r * n * MICRO, s);
      assert false;
    }
  }

  /** The times a sample gives as they are, without wrapping. */
  function PlainDts(mode: Mode): Option<i64> {
    match mode
    case DtsPts(Plain(v), _) => Some(v)
    case DtsWithCompositionOffset(Plain(v), _) => Some(v)
    case _ => None
  }

  function PlainPts(mode: Mode): Option<i64> {
    match mode
    case DtsPts(_, Plain(v)) => Some(v)
    case PtsOnly(Plain(v)) => Some(v)
    case _ => None
  }

  /** The time that becomes zero when the sample is the first. */
  function Origin(mode: Mode): Option<i64> {
    if mode.PtsOnly? then PlainPts(mode) else PlainDts(mode)
  }

  /** Both output times stand for the time elapsed since `origin`, except where an alert says otherwise. */
  predicate OnTime(c: Config, mode: Mode, origin: int, out: Output) {
    && (PlainDts(mode).Some? && Rescalable(c, PlainDts(mode).value) && NonMonotonicDtsRepaired !in out.alerts ==>
          var elapsed := PlainDts(mode).value - origin;
          Follows(c, out.dts, elapsed) && FollowsInMicros(c, out.dtsUs, elapsed))
    && (PlainPts(mode).Some? && Rescalable(c, PlainPts(mode).value) && NegativeCompositionClamped !in out.alerts ==>
          var elapsed := PlainPts(mode).value - origin;
          Follows(c, out.pts, elapsed) && FollowsInMicros(c, out.ptsUs, elapsed))
  }

  lemma ElapsedFollows(c: Config, value: int, origin: int)
    requires Rescalable(c, value) && Rescalable(c, origin)
    ensures var ticks := SatSub(Rescale(c, value), Rescale(c, origin));
            Follows(c, ticks, value - origin)
            && FollowsInMicros(c, ToMicros(c.outputTimebase, ticks), value - origin)
  {
    DifferenceFollows(c, value, origin);
    DifferenceFits(c, value, origin);
    var ticks: int := Rescale(c, value) - Rescale(c, origin);
    assert SatSub(Rescale(c, value), Rescale(c, origin)) == ticks;
    hide Rescale, Follows, FollowsInMicros, ToMicros, Fits;
    MicrosFollow(c, ticks, value - origin);
  }

  /** The epoch is the rescaled origin: taken over, or set by this sample. */
  ghost predicate StartsAt(c: Config, s: State, mode: Mode, origin: i64) {
    || s.epochOffset == Some(Rescale(c, origin))
    || (s.epochOffset.None? && s.generator.lastDts.None? && Origin(mode) == Some(origin))
  }

  /** The source times are the rescaled plain times. */
  ghost predicate Reads(c: Config, mode: Mode, src: Sources) {
    && (PlainDts(mode).Some? ==> src.dts == Some(Rescale(c, PlainDts(mode).value)))
    && (PlainPts(mode).Some? ==> src.pts == Some(Rescale(c, PlainPts(mode).value)))
    && (src.dts.Some? <==> mode.DtsPts? || mode.DtsWithCompositionOffset?)
    && (src.pts.Some? <==> mode.DtsPts? || mode.PtsOnly?)
  }

  lemma SourcesOf(c: Config, s: State, mode: Mode)
    requires c.Valid() && ResolveMode(c, s, mode).1.Ok?
    ensures Reads(c, mode, ResolveMode(c, s, mode).1.value)
  {
    hide Rescale;
  }

  lemma EpochIsOrigin(c: Config, s: State, input: Input, src: Sources, origin: i64)
    requires StartsAt(c, s, input.mode, origin) && Reads(c, input.mode, src)
    ensures !input.mode.NoTimestamp? ==>
              EpochOf(s.epochOffset, src, Candidate(c, s, input, src).1.dts) == Rescale(c, origin)
    ensures Place(c, s, input, src).0.epochOffset == Some(Rescale(c, origin))
  {
    hide Rescale, FallbackStep, DurationHint, MaxGapTicks, PaceOf, MoveTo, OutputOf, Blend;
  }

  lemma TimesOf(c: Config, s: State, input: Input, src: Sources, origin: i64)
    requires StartsAt(c, s, input.mode, origin) && Reads(c, input.mode, src) && !input.mode.NoTimestamp?
    ensures var out := Place(c, s, input, src).1;
            && (src.dts.Some? && NonMonotonicDtsRepaired !in out.alerts ==>
                  out.dts == SatSub(src.dts.value, Rescale(c, origin)))
            && (src.pts.Some? && NegativeCompositionClamped !in out.alerts ==>
                  out.pts == SatSub(src.pts.value, Rescale(c, origin)))
            && out.dtsUs == ToMicros(c.outputTimebase, out.dts)
            && out.ptsUs == ToMicros(c.outputTimebase, out.pts)
  {
    RepairKeepsOrder(c, s, input, src);
    EpochIsOrigin(c, s, input, src, origin);
    var (generator, generated) := Candidate(c, s, input, src);
    AlertsOf(c, s.(generator := generator), input, src, generated);
    hide Rescale, FallbackStep, DurationHint, MaxGapTicks, ToMicros, FromPtsOnly, SatSub, SatAdd, Raised;
  }

  lemma PlaceFollows(c: Config, s: State, input: Input, src: Sources, origin: i64)
    requires Rescalable(c, origin) && StartsAt(c, s, input.mode, origin) && Reads(c, input.mode, src)
    ensures OnTime(c, input.mode, origin, Place(c, s, input, src).1)
    ensures Place(c, s, input, src).0.epochOffset == Some(Rescale(c, origin))
  {
    hide Rescale, Rescalable, Follows, FollowsInMicros, Place, ToMicros, SatSub;
    EpochIsOrigin(c, s, input, src, origin);
    if !input.mode.NoTimestamp? {
      TimesOf(c, s, input, src, origin);
      var dts, pts := PlainDts(input.mode), PlainPts(input.mode);
      if dts.Some? && Rescalable(c, dts.value) {
        ElapsedFollows(c, dts.value, origin);
      }
      if pts.Some? && Rescalable(c, pts.value) {
        ElapsedFollows(c, pts.value, origin);
      }
    }
  }

  /** Over a whole run, starting with a sample that gives its time plainly: every sample that is accepted and not
      repaired (its decode time) or clamped (its presentation time) comes out at the source time elapsed since the
      first sample, never further off than the rounding of its conversions. */
  lemma RunFollowsSourceTime(c: Config, inputs: seq<Input>, k: nat)
    requires c.Valid() && k < |inputs| && Origin(inputs[0].mode).Some?
    requires Rescalable(c, Origin(inputs[0].mode).value)
    ensures var results := RunFrom(c, FRESH_STATE, inputs).results;
            results[0].Ok? && results[k].Ok? ==>
              OnTime(c, inputs[k].mode, Origin(inputs[0].mode).value, results[k].value)
  {
    var results := RunFrom(c, FRESH_STATE, inputs).results;
    if results[0].Ok? && results[k].Ok? {
      ResolveKeepsOrderState(c, FRESH_STATE, inputs[0].mode);
      RunFollows(c, FRESH_STATE, inputs, Origin(inputs[0].mode).value, k);
    }
  }

  lemma {:induction false} RunFollows(c: Config, s: State, inputs: seq<Input>, origin: i64, k: nat)
    requires c.Valid() && k < |inputs| && Rescalable(c, origin) && StartsAt(c, s, inputs[0].mode, origin)
    requires s.epochOffset.None? ==> RunFrom(c, s, inputs).results[0].Ok?
    requires RunFrom(c, s, inputs).results[k].Ok?
    ensures OnTime(c, inputs[k].mode, origin, RunFrom(c, s, inputs).results[k].value)
    decreases |inputs|
  {
    hide ResolveMode, Place, Rescalable, Rescale, OnTime;
    ResolveKeepsOrderState(c, s, inputs[0].mode);
    var (s', src) := ResolveMode(c, s, inputs[0].mode);
    if src.Ok? {
      SourcesOf(c, s, inputs[0].mode);
      PlaceFollows(c, s', inputs[0], src.value, origin);
    }
    if k > 0 {
      RunFollows(c, Normalized(c, s, inputs[0]).0, inputs[1..], origin, k - 1);
    }
  }
}
