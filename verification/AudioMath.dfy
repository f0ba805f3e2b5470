/**
 * Overflow-free time conversion and the render queue estimate. All quantities
 * are unsigned machine integers; every wrap, truncation and saturation of the
 * program is written out.
 */
module AudioMath {
  const U32: nat := 0x1_0000_0000
  const U64: nat := 0x1_0000_0000_0000_0000
  const U64_MAX: nat := U64 - 1
  const I64_MAX: nat := 0x7fff_ffff_ffff_ffff
  const NS: nat := 1_000_000_000

  // ---------------------------------------------------------------- the ideal

  /** floor(x * 10^9 / rate) over unbounded integers. */
  function Exact(x: nat, rate: nat): nat
    requires rate > 0
  {
    x * NS / rate
  }

  function Saturated(x: nat): nat {
    if x > U64_MAX then U64_MAX else x
  }

  // ---------------------------------------------------------------- the program

  /** The tail both conversions share: guarded multiplication and addition of whole seconds and a fraction. */
  function WholeAndFraction(whole: nat, fraction: nat): nat {
    if whole > U64_MAX / NS then U64_MAX
    else
      var wholeNs := whole * NS % U64;
      if wholeNs > U64_MAX - fraction then U64_MAX else (wholeNs + fraction) % U64
  }

  function Quotient(x: nat, n: nat): nat
    requires n > 0
  {
    x / n
  }

  function Remainder(x: nat, n: nat): (r: nat)
    requires n > 0
    ensures r < n
  {
    x % n
  }

  /** The fraction of a second a remainder makes, its product in 64 bits. */
  function Fraction64(r: nat, rate: nat): nat
    requires rate > 0
  {
    r * NS % U64 / rate
  }

  /** The same with the product in 128 bits and the quotient cast down. */
  function Fraction128(r: nat, rate: nat): nat
    requires rate > 0
  {
    r * NS / rate % U64
  }

  /** frames_to_ns: the remainder product stays in 64 bits because the rate has 32. */
  function FramesToNs(frames: nat, rate: nat): (ns: nat)
    requires frames < U64 && rate < U32
    ensures rate == 0 ==> ns == 0
  {
    if rate == 0 then 0
    else WholeAndFraction(Quotient(frames, rate), Fraction64(Remainder(frames, rate), rate))
  }

  /** rate_units_to_ns: the remainder product is taken in 128 bits. */
  function RateUnitsToNs(value: nat, frequency: nat): (ns: nat)
    requires value < U64 && frequency < U64
    ensures frequency == 0 ==> ns == 0
  {
    if frequency == 0 then 0
    else WholeAndFraction(Quotient(value, frequency), Fraction128(Remainder(value, frequency), frequency))
  }

  function HundredNsToNs(value: nat): (ns: nat)
    ensures ns == Saturated(100 * value)
  {
    if value > U64_MAX / 100 then U64_MAX else value * 100
  }

  /** reference_time_to_ns: negative reference times count as none. */
  function ReferenceTimeToNs(value: int): (ns: nat)
    ensures ns == if value <= 0 then 0 else Saturated(100 * value)
  {
    if value <= 0 then 0 else HundredNsToNs(value)
  }

  // --------------------------------------------------------------------- proofs

  lemma MultiplyMonotone(a: nat, b: nat, c: nat)
    requires a <= b
    ensures a * c <= b * c
  {
    assert (b - a) * c >= 0;
  }

  lemma CancelFactor(n: nat, a: nat, b: nat)
    requires n * a < n * b
    ensures a < b
  {
    if b <= a {
      MultiplyMonotone(b, a, n);
    }
  }

  /** The quotient is pinned by its defining inequalities. */
  lemma QuotientIs(x: nat, n: nat, q: nat)
    requires n > 0 && n * q <= x < n * q + n
    ensures x / n == q
  {
    var d := x / n;
    assert n * d <= x < n * d + n;
    assert n * (d + 1) == n * d + n && n * (q + 1) == n * q + n;
    CancelFactor(n, q, d + 1);
    CancelFactor(n, d, q + 1);
  }

  lemma QuotientBounds(x: nat, n: nat)
    requires n > 0
    ensures n * (x / n) <= x < n * (x / n) + n
  {
  }

  lemma DivMod(x: nat, n: nat)
    requires n > 0
    ensures x == n * (x / n) + x % n && x % n < n
  {
  }

  /** Puts the scaled quotient and the converted remainder together. */
  lemma Assemble(x: nat, rate: nat, q: nat, r: nat, f: nat)
    requires x == rate * q + r && rate * f <= r * NS < rate * f + rate
    ensures rate * (q * NS + f) <= x * NS < rate * (q * NS + f) + rate
  {
    assert rate * (q * NS + f) == rate * q * NS + rate * f;
  }

  lemma FractionIsSmall(rate: nat, r: nat, f: nat)
    requires r < rate && rate * f <= r * NS
    ensures f < NS
  {
    if f >= NS {
      MultiplyMonotone(NS, f, rate);
    }
  }

  /** Converting the quotient and the remainder separately loses nothing. */
  lemma SplitExact(x: nat, rate: nat, q: nat, r: nat, f: nat)
    requires rate > 0 && q == x / rate && r == x % rate && f == r * NS / rate
    ensures Exact(x, rate) == q * NS + f && f < NS
  {
    DivMod(x, rate);
    QuotientBounds(r * NS, rate);
    Assemble(x, rate, q, r, f);
    FractionIsSmall(rate, r, f);
    QuotientIs(x * NS, rate, q * NS + f);
  }

  lemma GuardsSaturate(whole: nat, fraction: nat)
    requires fraction < NS
    ensures WholeAndFraction(whole, fraction) == Saturated(whole * NS + fraction)
  {
  }

  lemma RemainderFits(r: nat, rate: nat)
    requires r < rate < U32
    ensures r * NS % U64 == r * NS
  {
    MultiplyMonotone(r, U32, NS);
  }

  lemma Fraction64IsExact(r: nat, rate: nat)
    requires r < rate < U32
    ensures Fraction64(r, rate) == r * NS / rate
  {
    RemainderFits(r, rate);
  }

  lemma Fraction128IsExact(r: nat, rate: nat)
    requires r < rate
    ensures Fraction128(r, rate) == r * NS / rate
  {
    QuotientBounds(r * NS, rate);
    FractionIsSmall(rate, r, r * NS / rate);
  }

  lemma ConvertedParts(x: nat, rate: nat, q: nat, r: nat, f: nat)
    requires rate > 0 && q == x / rate && r == x % rate && f == r * NS / rate
    ensures WholeAndFraction(q, f) == Saturated(Exact(x, rate))
  {
    SplitExact(x, rate, q, r, f);
    GuardsSaturate(q, f);
  }

  /** frames_to_ns is the exact floor, saturated to 64 bits, for every frame count and nonzero rate. */
  lemma FramesToNsIsExact(frames: nat, rate: nat)
    requires frames < U64 && 0 < rate < U32
    ensures FramesToNs(frames, rate) == Saturated(Exact(frames, rate))
  {
    var q, r := Quotient(frames, rate), Remainder(frames, rate);
    Fraction64IsExact(r, rate);
    ConvertedParts(frames, rate, q, r, Fraction64(r, rate));
  }

  /** And so is rate_units_to_ns, for every nonzero 64-bit frequency. */
  lemma RateUnitsToNsIsExact(value: nat, frequency: nat)
    requires value < U64 && 0 < frequency < U64
    ensures RateUnitsToNs(value, frequency) == Saturated(Exact(value, frequency))
  {
    var q, r := Quotient(value, frequency), Remainder(value, frequency);
    Fraction128IsExact(r, frequency);
    ConvertedParts(value, frequency, q, r, Fraction128(r, frequency));
  }

  lemma ExactIsMonotone(x: nat, y: nat, rate: nat)
    requires x <= y && rate > 0
    ensures Exact(x, rate) <= Exact(y, rate)
  {
    MultiplyMonotone(x, y, NS);
    QuotientBounds(x * NS, rate);
    QuotientBounds(y * NS, rate);
    var a, b := Exact(x, rate), Exact(y, rate);
    if b < a {
      MultiplyMonotone(b + 1, a, rate);
    }
  }

  /** Both conversions are monotone in what they convert, saturation included. */
  lemma ConversionsAreMonotone(x: nat, y: nat, rate: nat)
    requires x <= y < U64 && rate < U64
    ensures RateUnitsToNs(x, rate) <= RateUnitsToNs(y, rate)
    ensures rate < U32 ==> FramesToNs(x, rate) <= FramesToNs(y, rate)
  {
    if rate > 0 {
      ExactIsMonotone(x, y, rate);
      RateUnitsToNsIsExact(x, rate);
      RateUnitsToNsIsExact(y, rate);
      if rate < U32 {
        FramesToNsIsExact(x, rate);
        FramesToNsIsExact(y, rate);
      }
    }
  }

  /** Three quotients by the same divisor, of two numbers and of their sum. */
  lemma SumOfQuotients(x: nat, y: nat, n: nat, a: nat, b: nat, c: nat)
    requires n * a <= x < n * a + n && n * b <= y < n * b + n && n * c <= x + y < n * c + n
    ensures a + b <= c <= a + b + 1
  {
    assert n * (c + 1) == n * c + n;
    assert n * (a + b) == n * a + n * b && n * (a + b + 2) == n * (a + b) + 2 * n;
    CancelFactor(n, a + b, c + 1);
    CancelFactor(n, c, a + b + 2);
  }

  /** Splitting a span in two loses at most one nanosecond to rounding. */
  lemma SplitSpan(x: nat, y: nat, rate: nat)
    requires rate > 0
    ensures Exact(x, rate) + Exact(y, rate) <= Exact(x + y, rate) <= Exact(x, rate) + Exact(y, rate) + 1
  {
    QuotientBounds(x * NS, rate);
    QuotientBounds(y * NS, rate);
    QuotientBounds((x + y) * NS, rate);
    SumOfQuotients(x * NS, y * NS, rate, Exact(x, rate), Exact(y, rate), Exact(x + y, rate));
  }

  /** 32-bit frame counts never saturate. */
  lemma FrameCountsFit(frames: nat, rate: nat)
    requires frames < U32 && 0 < rate < U32
    ensures FramesToNs(frames, rate) == Exact(frames, rate)
  {
    FramesToNsIsExact(frames, rate);
    var q := Exact(frames, rate);
    QuotientBounds(frames * NS, rate);
    MultiplyMonotone(1, rate, q);
    MultiplyMonotone(frames, U32, NS);
  }

  // ------------------------------------------------------------ the queue estimate

  datatype Confidence = NoConfidence | Padding | Buffered | ClockCorrelated

  datatype Input = Input(
    render: bool, shared: bool, initialized: bool, sampleRate: nat, bufferFrames: nat, paddingFrames: nat,
    currentPeriodFrames: nat, engineSampleRate: nat, defaultPeriodFrames: nat,
    deviceDefaultPeriod: int, streamLatency: int, paddingObserved: nat,
    clockFrequency: nat, clockPosition: nat, clockQpc: nat, clockObserved: nat)

  datatype Estimate = Estimate(
    valid: bool, paddingFresh: bool, periodKnown: bool, clockCorrelated: bool, confidence: Confidence,
    periodFrames: nat, fillPermille: nat, queuedNs: nat, capacityNs: nat, availableNs: nat,
    enginePeriodNs: nat, streamLatencyNs: nat, paddingAgeNs: nat, clockAgeNs: nat, clockPositionNs: nat)

  const NO_ESTIMATE := Estimate(false, false, false, false, NoConfidence, 0, 0, 0, 0, 0, 0, 0, 0, 0, 0)

  predicate Widths(i: Input) {
    && i.sampleRate < U32 && i.bufferFrames < U32 && i.paddingFrames < U32 && i.currentPeriodFrames < U32
    && i.engineSampleRate < U32 && i.defaultPeriodFrames < U32 && i.deviceDefaultPeriod <= I64_MAX
    && i.streamLatency <= I64_MAX && i.paddingObserved < U64 && i.clockFrequency < U64 && i.clockPosition < U64
    && i.clockQpc < U64 && i.clockObserved < U64
  }

  predicate Usable(i: Input) {
    i.initialized && i.render && i.shared && i.sampleRate != 0 && i.paddingObserved != 0
  }

  /** The part of the estimate about padding and buffer. */
  function PaddingEstimate(i: Input, now: nat, staleAfter: nat): Estimate
    requires Widths(i) && Usable(i)
  {
    var available := if i.bufferFrames > i.paddingFrames then i.bufferFrames - i.paddingFrames else 0;
    var age := if now >= i.paddingObserved then now - i.paddingObserved else 0;
    var clamped := if i.paddingFrames < i.bufferFrames then i.paddingFrames else i.bufferFrames;
    NO_ESTIMATE.(valid := true,
      queuedNs := FramesToNs(i.paddingFrames, i.sampleRate),
      capacityNs := FramesToNs(i.bufferFrames, i.sampleRate),
      availableNs := FramesToNs(available, i.sampleRate),
      streamLatencyNs := ReferenceTimeToNs(i.streamLatency),
      paddingAgeNs := age, paddingFresh := age <= staleAfter,
      fillPermille := if i.bufferFrames != 0 then clamped * 1000 / i.bufferFrames % 0x1_0000 else 0,
      confidence := if i.bufferFrames != 0 then Buffered else Padding)
  }

  /** The engine's own rate, or the stream's if it is not known. */
  function EngineRate(i: Input): nat {
    if i.engineSampleRate != 0 then i.engineSampleRate else i.sampleRate
  }

  function WithPeriod(i: Input, e: Estimate): Estimate
    requires Widths(i)
  {
    if i.currentPeriodFrames != 0 then
      e.(periodFrames := i.currentPeriodFrames, enginePeriodNs := FramesToNs(i.currentPeriodFrames, EngineRate(i)),
         periodKnown := true)
    else if i.defaultPeriodFrames != 0 then
      e.(periodFrames := i.defaultPeriodFrames,
         enginePeriodNs := FramesToNs(i.defaultPeriodFrames, i.sampleRate), periodKnown := true)
    else if i.deviceDefaultPeriod > 0 then
      e.(enginePeriodNs := ReferenceTimeToNs(i.deviceDefaultPeriod), periodKnown := true)
    else e
  }

  function WithClock(i: Input, e: Estimate, now: nat, staleAfter: nat): Estimate
    requires Widths(i)
  {
    if i.clockFrequency == 0 || i.clockObserved == 0 then e
    else
      var age := if now >= i.clockObserved then now - i.clockObserved else 0;
      var correlated := now >= i.clockObserved && age <= staleAfter && i.clockQpc != 0;
      e.(clockPositionNs := RateUnitsToNs(i.clockPosition, i.clockFrequency), clockAgeNs := age,
         clockCorrelated := correlated,
         confidence := if correlated && e.confidence == Buffered then ClockCorrelated else e.confidence)
  }

  /**
   * build_queue_estimate. Padding counts as fresh until it is older than the
   * stale limit, and when it is from the future. Clock-correlated confidence
   * takes a usable stream with a buffer and a clock sample with a
   * performance-counter pair that is neither stale nor from the future.
   */
  function BuildQueueEstimate(i: Input, now: nat, staleAfter: nat): (e: Estimate)
    requires Widths(i)
    ensures e.paddingFresh <==> Usable(i) && now <= i.paddingObserved + staleAfter
    ensures e.confidence == ClockCorrelated <==>
      && Usable(i) && i.bufferFrames != 0 && i.clockFrequency != 0 && i.clockQpc != 0
      && 0 < i.clockObserved <= now <= i.clockObserved + staleAfter
  {
    if !Usable(i) then NO_ESTIMATE
    else WithClock(i, WithPeriod(i, PaddingEstimate(i, now, staleAfter)), now, staleAfter)
  }

  /**
   * What an estimate says of its own age and worth. It is valid exactly for an
   * initialized shared render stream of known rate whose padding was observed,
   * and empty otherwise. Ages are the time since the observation, 0 for one from
   * the future; the clock says nothing until its frequency is known and it was
   * observed. Confidence is padding alone without a buffer, buffered with one,
   * and clock-correlated with a buffer and a recent, counter-paired clock sample.
   */
  lemma EstimateKnowsItsAge(i: Input, now: nat, staleAfter: nat)
    requires Widths(i)
    ensures var e := BuildQueueEstimate(i, now, staleAfter);
      var clocked := i.clockFrequency != 0 && i.clockObserved != 0;
      var recent := clocked && i.clockQpc != 0 && i.clockObserved <= now <= i.clockObserved + staleAfter;
      && (e.valid <==> i.initialized && i.render && i.shared && i.sampleRate > 0 && i.paddingObserved > 0)
      && (!e.valid ==> e == NO_ESTIMATE)
      && (e.valid ==>
        && e.paddingAgeNs == Later(now, i.paddingObserved)
        && (e.paddingFresh <==> now <= i.paddingObserved + staleAfter)
        && e.clockAgeNs == (if clocked then Later(now, i.clockObserved) else 0)
        && (e.clockCorrelated <==> recent)
        && e.clockPositionNs == (if clocked then Saturated(Exact(i.clockPosition, i.clockFrequency)) else 0)
        && e.streamLatencyNs == (if i.streamLatency > 0 then Saturated(100 * i.streamLatency) else 0)
        && e.confidence == (
          if i.bufferFrames == 0 then Padding else if recent then ClockCorrelated else Buffered))
  {
    hide FramesToNs, RateUnitsToNs, HundredNsToNs, Exact;
    if i.clockFrequency != 0 {
      RateUnitsToNsIsExact(i.clockPosition, i.clockFrequency);
    }
  }

  /** The time from an earlier instant to a later one, 0 the other way round. */
  function Later(now: nat, then': nat): nat {
    if now < then' then 0 else now - then'
  }

  /** Frame counts a and b of one rate, converted separately and together. */
  lemma SplitFrames(a: nat, b: nat, rate: nat)
    requires a + b < U32 && 0 < rate < U32
    ensures FramesToNs(a, rate) + FramesToNs(b, rate) <= FramesToNs(a + b, rate)
    ensures FramesToNs(a + b, rate) <= FramesToNs(a, rate) + FramesToNs(b, rate) + 1
  {
    FrameCountsFit(a, rate);
    FrameCountsFit(b, rate);
    FrameCountsFit(a + b, rate);
    SplitSpan(a, b, rate);
  }

  lemma MoreFramesTakeLonger(a: nat, b: nat, rate: nat)
    requires a <= b < U32 && 0 < rate < U32
    ensures FramesToNs(a, rate) <= FramesToNs(b, rate) && FramesToNs(0, rate) == 0
  {
    FrameCountsFit(0, rate);
    ConversionsAreMonotone(a, b, rate);
  }

  /** The three durations of a valid estimate are conversions at the sample rate. */
  lemma EstimateParts(i: Input, now: nat, staleAfter: nat)
    requires Widths(i) && Usable(i)
    ensures var e := BuildQueueEstimate(i, now, staleAfter);
      && e.queuedNs == FramesToNs(i.paddingFrames, i.sampleRate)
      && e.capacityNs == FramesToNs(i.bufferFrames, i.sampleRate)
      && e.availableNs == FramesToNs(
           if i.bufferFrames > i.paddingFrames then i.bufferFrames - i.paddingFrames else 0, i.sampleRate)
  {
  }

  /** A valid estimate is exact: padding, buffer and what is left of it, each as an exact duration. */
  lemma DurationsAreExact(i: Input, now: nat, staleAfter: nat)
    requires Widths(i) && Usable(i)
    ensures var e := BuildQueueEstimate(i, now, staleAfter);
      && e.valid && e.queuedNs == Exact(i.paddingFrames, i.sampleRate)
      && e.capacityNs == Exact(i.bufferFrames, i.sampleRate)
      && (i.paddingFrames <= i.bufferFrames ==>
          e.availableNs == Exact(i.bufferFrames - i.paddingFrames, i.sampleRate))
  {
    EstimateParts(i, now, staleAfter);
    FrameCountsFit(i.paddingFrames, i.sampleRate);
    FrameCountsFit(i.bufferFrames, i.sampleRate);
    if i.paddingFrames <= i.bufferFrames {
      FrameCountsFit(i.bufferFrames - i.paddingFrames, i.sampleRate);
    }
  }

  /** The period of the estimate is a conversion of the first source that is known. */
  lemma PeriodParts(i: Input, now: nat, staleAfter: nat)
    requires Widths(i) && Usable(i)
    ensures var e := BuildQueueEstimate(i, now, staleAfter);
      && (i.currentPeriodFrames != 0 ==> e.enginePeriodNs == FramesToNs(i.currentPeriodFrames, EngineRate(i)))
      && (i.currentPeriodFrames == 0 && i.defaultPeriodFrames != 0 ==>
            e.enginePeriodNs == FramesToNs(i.defaultPeriodFrames, i.sampleRate))
      && (i.currentPeriodFrames == 0 && i.defaultPeriodFrames == 0 ==>
            e.enginePeriodNs == ReferenceTimeToNs(i.deviceDefaultPeriod))
  {
  }

  /**
   * The period is known exactly if some source gives one. The stream's current
   * period at the engine's own rate comes first, then its default period, then
   * the device's; each is an exact duration.
   */
  lemma PeriodIsExact(i: Input, now: nat, staleAfter: nat)
    requires Widths(i) && Usable(i)
    ensures var e := BuildQueueEstimate(i, now, staleAfter);
      && (e.periodKnown <==> i.currentPeriodFrames != 0 || i.defaultPeriodFrames != 0 || i.deviceDefaultPeriod > 0)
      && (i.currentPeriodFrames != 0 ==> e.enginePeriodNs == Exact(i.currentPeriodFrames, EngineRate(i)))
      && (i.currentPeriodFrames == 0 && i.defaultPeriodFrames != 0 ==>
            e.enginePeriodNs == Exact(i.defaultPeriodFrames, i.sampleRate))
      && (i.currentPeriodFrames == 0 && i.defaultPeriodFrames == 0 && i.deviceDefaultPeriod > 0 ==>
            e.enginePeriodNs == Saturated(100 * i.deviceDefaultPeriod))
  {
    PeriodParts(i, now, staleAfter);
    FrameCountsFit(i.currentPeriodFrames, EngineRate(i));
    FrameCountsFit(i.defaultPeriodFrames, i.sampleRate);
  }

  /**
   * A valid estimate conserves the buffer: with no more padding than buffer,
   * what is queued and what is available make up the capacity to within one
   * nanosecond; with more, nothing is available and the queue covers it.
   */
  lemma QueueIsConserved(i: Input, now: nat, staleAfter: nat)
    requires Widths(i) && BuildQueueEstimate(i, now, staleAfter).valid
    ensures Conserved(i.paddingFrames <= i.bufferFrames, BuildQueueEstimate(i, now, staleAfter))
  {
    EstimateParts(i, now, staleAfter);
    if i.paddingFrames < i.bufferFrames {
      SplitFrames(i.paddingFrames, i.bufferFrames - i.paddingFrames, i.sampleRate);
    } else {
      MoreFramesTakeLonger(i.bufferFrames, i.paddingFrames, i.sampleRate);
    }
  }

  predicate Conserved(fits: bool, e: Estimate) {
    if fits then e.queuedNs + e.availableNs <= e.capacityNs <= e.queuedNs + e.availableNs + 1
    else e.availableNs == 0 && e.queuedNs >= e.capacityNs
  }

  lemma PermilleIs(clamped: nat, buffer: nat)
    requires clamped <= buffer && 0 < buffer
    ensures clamped * 1000 / buffer <= 1000
    ensures clamped * 1000 / buffer == 1000 <==> clamped == buffer
    ensures clamped * 1000 / buffer % 0x1_0000 == clamped * 1000 / buffer
  {
    var q := clamped * 1000 / buffer;
    QuotientBounds(clamped * 1000, buffer);
    PermilleBounds(clamped, buffer, q);
  }

  lemma PermilleBounds(clamped: nat, buffer: nat, q: nat)
    requires clamped <= buffer && 0 < buffer && buffer * q <= clamped * 1000 < buffer * q + buffer
    ensures q <= 1000 && (q == 1000 <==> clamped == buffer)
  {
    if q > 1000 {
      MultiplyMonotone(1001, q, buffer);
    } else if q < 1000 {
      MultiplyMonotone(q + 1, 1000, buffer);
    }
  }

  function Smaller(a: nat, b: nat): nat {
    if a < b then a else b
  }

  /**
   * The fill level is the padding, capped by the buffer, in permille of the
   * buffer, rounded down and not truncated to 16 bits; it is full exactly when
   * the padding covers the buffer.
   */
  lemma FillIsAPermille(i: Input, now: nat, staleAfter: nat)
    requires Widths(i) && BuildQueueEstimate(i, now, staleAfter).valid
    ensures var e := BuildQueueEstimate(i, now, staleAfter);
      && e.fillPermille <= 1000
      && (i.bufferFrames == 0 ==> e.fillPermille == 0)
      && (i.bufferFrames != 0 ==> e.fillPermille == Smaller(i.paddingFrames, i.bufferFrames) * 1000 / i.bufferFrames)
      && (e.fillPermille == 1000 <==> 0 < i.bufferFrames <= i.paddingFrames)
  {
    var e := PaddingEstimate(i, now, staleAfter);
    assert BuildQueueEstimate(i, now, staleAfter).fillPermille == e.fillPermille;
    if i.bufferFrames != 0 {
      PermilleIs(Smaller(i.paddingFrames, i.bufferFrames), i.bufferFrames);
    }
  }
}
