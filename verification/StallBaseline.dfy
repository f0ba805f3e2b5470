/**
 * The structural-stall baseline, a winsorized integer moving average, and the
 * classification of completion gaps against it. Durations and timestamps are
 * unsigned 64-bit.
 */
module StallBaseline {
  const U64_MAX: nat := 0xffff_ffff_ffff_ffff
  const MIN_PLAUSIBLE: nat := 500_000
  const MAX_PLAUSIBLE: nat := 100_000_000
  const OUTLIER_FLOOR: nat := 4_000_000

  function Min(a: nat, b: nat): nat {
    if a <= b then a else b
  }

  function Max(a: nat, b: nat): nat {
    if a >= b then a else b
  }

  function Gap(a: nat, b: nat): nat {
    if a >= b then a - b else b - a
  }

  /** saturating_double: min(2v, 2^64 - 1), so doubling never wraps. */
  function SaturatingDouble(v: nat): (d: nat)
    requires v <= U64_MAX
    ensures d == Min(2 * v, U64_MAX)
  {
    if v > U64_MAX / 2 then U64_MAX else v * 2
  }

  predicate Plausible(ns: nat) {
    MIN_PLAUSIBLE <= ns <= MAX_PLAUSIBLE
  }

  /** A sample limited to half and double the baseline, within the plausible range. */
  function Winsorized(baseline: nat, sample: nat): nat
    requires baseline <= U64_MAX
  {
    var lower := Max(MIN_PLAUSIBLE, baseline / 2);
    var upper := Min(MAX_PLAUSIBLE, SaturatingDouble(baseline));
    if sample < lower then lower else if sample > upper then upper else sample
  }

  /** update_structural_baseline_ns */
  function Updated(baseline: nat, sample: nat): (b: nat)
    requires baseline <= U64_MAX
    ensures baseline <= MAX_PLAUSIBLE ==> b <= MAX_PLAUSIBLE
  {
    if !Plausible(sample) then baseline
    else if baseline == 0 then sample
    else
      var clean := Winsorized(baseline, sample);
      if clean >= baseline then baseline + (clean - baseline) / 8 else baseline - (baseline - clean) / 8
  }

  // -------------------------------------------------------------------- baseline

  lemma UpdateStaysPlausible(baseline: nat, sample: nat)
    requires 500_000 <= baseline <= 100_000_000
    ensures 500_000 <= Updated(baseline, sample) <= 100_000_000
    ensures sample < 500_000 || sample > 100_000_000 ==> Updated(baseline, sample) == baseline
  {
  }

  function Run(baseline: nat, samples: seq<nat>): (r: nat)
    requires Plausible(baseline)
    ensures Plausible(r)
  {
    if samples == [] then baseline
    else
      var before := Run(baseline, samples[..|samples| - 1]);
      UpdateStaysPlausible(before, samples[|samples| - 1]);
      Updated(before, samples[|samples| - 1])
  }

  /**
   * From no baseline at all: it stays 0 until the first plausible sample, is
   * exactly that sample then, and lies in the plausible range ever after.
   */
  lemma {:induction false} ColdStartBecomesPlausible(samples: seq<nat>)
    ensures var b := RunFromCold(samples);
      if forall i | 0 <= i < |samples| :: samples[i] < 500_000 || samples[i] > 100_000_000 then b == 0
      else 500_000 <= b <= 100_000_000
  {
    if samples != [] {
      var init := samples[..|samples| - 1];
      ColdStartBecomesPlausible(init);
      if RunFromCold(init) != 0 {
        UpdateStaysPlausible(RunFromCold(init), samples[|samples| - 1]);
      }
      assert forall i | 0 <= i < |init| :: init[i] == samples[i];
    }
  }

  function RunFromCold(samples: seq<nat>): (b: nat)
    ensures b <= MAX_PLAUSIBLE
  {
    if samples == [] then 0
    else Updated(RunFromCold(samples[..|samples| - 1]), samples[|samples| - 1])
  }

  /**
   * A plausible sample pulls the baseline toward itself and never past itself:
   * strictly while the gap is at least 8, and not at all below that.
   */
  lemma UpdateApproaches(baseline: nat, sample: nat)
    requires 500_000 <= baseline <= 100_000_000 && 500_000 <= sample <= 100_000_000
    ensures baseline <= sample ==> baseline <= Updated(baseline, sample) <= sample
    ensures sample <= baseline ==> sample <= Updated(baseline, sample) <= baseline
    ensures Updated(baseline, sample) == baseline <==> Gap(baseline, sample) < 8
  {
  }

  /** One outlier moves the baseline by at most an eighth of itself up and a sixteenth, rounded, down. */
  lemma OneSampleMovesLittle(baseline: nat, sample: nat)
    requires Plausible(baseline)
    ensures Updated(baseline, sample) <= baseline + baseline / 8
    ensures Updated(baseline, sample) >= baseline - (baseline + 1) / 16
  {
  }

  /** The update by one fixed sample, as a function of the baseline. */
  function UpdateBy(sample: nat): nat -> nat {
    (baseline: nat) => if baseline <= U64_MAX then Updated(baseline, sample) else baseline
  }

  function Repeated(update: nat -> nat, baseline: nat, n: nat): nat {
    if n == 0 then baseline else update(Repeated(update, baseline, n - 1))
  }

  /** From any plausible baseline the update moves closer, except within 7 ns, where it rests. */
  ghost predicate Attracts(update: nat -> nat, sample: nat) {
    forall b: nat | Plausible(b) ::
      && Plausible(update(b))
      && (Gap(b, sample) >= 8 ==> Gap(update(b), sample) < Gap(b, sample))
      && (Gap(b, sample) < 8 ==> update(b) == b)
  }

  lemma UpdatesAttract(sample: nat)
    requires Plausible(sample)
    ensures Attracts(UpdateBy(sample), sample)
  {
    forall b: nat | Plausible(b)
      ensures Plausible(Updated(b, sample))
      ensures Gap(b, sample) >= 8 ==> Gap(Updated(b, sample), sample) < Gap(b, sample)
      ensures Gap(b, sample) < 8 ==> Updated(b, sample) == b
    {
      UpdateStaysPlausible(b, sample);
      UpdateApproaches(b, sample);
    }
  }

  lemma {:induction false} RepeatFromNext(update: nat -> nat, baseline: nat, n: nat)
    ensures Repeated(update, baseline, n + 1) == Repeated(update, update(baseline), n)
  {
    if n > 0 {
      RepeatFromNext(update, baseline, n - 1);
    }
  }

  lemma {:induction false} AttractionConverges(update: nat -> nat, baseline: nat, sample: nat) returns (n: nat)
    requires Attracts(update, sample) && Plausible(baseline)
    ensures n <= Gap(baseline, sample)
    ensures Plausible(Repeated(update, baseline, n)) && Gap(Repeated(update, baseline, n), sample) <= 7
    decreases Gap(baseline, sample)
  {
    if Gap(baseline, sample) <= 7 {
      n := 0;
    } else {
      var rest := AttractionConverges(update, update(baseline), sample);
      n := rest + 1;
      RepeatFromNext(update, baseline, rest);
    }
  }

  lemma {:induction false} AttractionRests(update: nat -> nat, baseline: nat, sample: nat, m: nat)
    requires Attracts(update, sample) && Plausible(baseline) && Gap(baseline, sample) <= 7
    ensures Repeated(update, baseline, m) == baseline
  {
    if m > 0 {
      AttractionRests(update, baseline, sample, m - 1);
    }
  }

  /**
   * Repeating one plausible sample brings any plausible baseline within 7 ns of
   * it in finitely many updates, at most one per nanosecond of the initial gap.
   */
  lemma RepetitionConverges(baseline: nat, sample: nat) returns (n: nat)
    requires Plausible(baseline) && Plausible(sample)
    ensures n <= Gap(baseline, sample)
    ensures Plausible(Repeated(UpdateBy(sample), baseline, n))
    ensures Gap(Repeated(UpdateBy(sample), baseline, n), sample) <= 7
  {
    UpdatesAttract(sample);
    n := AttractionConverges(UpdateBy(sample), baseline, sample);
  }

  /** Within 7 ns of the sample, no number of repetitions moves the baseline any more. */
  lemma ConvergedRests(baseline: nat, sample: nat, m: nat)
    requires Plausible(baseline) && Plausible(sample) && Gap(baseline, sample) <= 7
    ensures Repeated(UpdateBy(sample), baseline, m) == baseline
  {
    UpdatesAttract(sample);
    AttractionRests(UpdateBy(sample), baseline, sample, m);
  }

  // --------------------------------------------------------------- classification

  datatype Mode = Disabled | Auto | Enabled

  datatype Config = Config(
    mode: Mode, pipelineThreshold: nat, recentWindow: nat, maxCompensation: nat, warmupSamples: nat)

  datatype Sample = Sample(
    completion: nat, previous: nat, expectedGap: nat, baselineSamples: nat, pipelineDuration: nat, pipelineEnd: nat)

  datatype Verdict = Verdict(trusted: bool, structural: bool, rawGap: nat, compensation: nat)

  const NO_VERDICT := Verdict(false, false, 0, 0)

  predicate Measurable(c: Config, s: Sample) {
    && c.mode != Disabled && c.pipelineThreshold != 0 && s.completion != 0 && s.previous != 0
    && s.completion > s.previous && s.expectedGap != 0
  }

  predicate Trusted(c: Config, s: Sample) {
    if c.mode == Enabled then s.baselineSamples != 0 else s.baselineSamples >= c.warmupSamples
  }

  predicate PipelineIsRecent(c: Config, s: Sample) {
    && s.pipelineDuration >= c.pipelineThreshold && s.pipelineEnd != 0 && s.pipelineEnd <= s.completion
    && s.completion - s.pipelineEnd <= c.recentWindow
  }

  /** The larger of double the expected gap and 4 ms more than it, saturated. */
  function OutlierThreshold(expected: nat): nat
    requires expected <= U64_MAX
  {
    Max(SaturatingDouble(expected),
        if expected > U64_MAX - OUTLIER_FLOOR then U64_MAX else expected + OUTLIER_FLOOR)
  }

  /** classify_structural_stall */
  function Classify(c: Config, s: Sample): Verdict
    requires s.expectedGap <= U64_MAX
  {
    if !Measurable(c, s) then NO_VERDICT
    else
      var raw := s.completion - s.previous;
      if !Trusted(c, s) then Verdict(false, false, raw, 0)
      else if !PipelineIsRecent(c, s) || raw < OutlierThreshold(s.expectedGap) then Verdict(true, false, raw, 0)
      else
        var excess := if raw > s.expectedGap then raw - s.expectedGap else 0;
        var compensation := Min(Min(s.pipelineDuration, excess), c.maxCompensation);
        if compensation >= c.pipelineThreshold then Verdict(true, true, raw, compensation)
        else Verdict(true, false, raw, 0)
  }

  /**
   * A gap is compensated exactly when it is called structural, and then by as
   * much as the pipeline took, the excess over the expected gap and the
   * configured maximum all allow: the compensated gap is never shorter than
   * expected, and nothing less than the largest such amount is taken off.
   */
  lemma CompensationIsLargestAllowed(c: Config, s: Sample)
    requires s.completion <= U64_MAX && s.expectedGap <= U64_MAX
    ensures var v := Classify(c, s);
      && (v.structural <==> v.compensation != 0)
      && (v.trusted <==> Measurable(c, s) && Trusted(c, s))
      && v.rawGap == (if Measurable(c, s) then s.completion - s.previous else 0)
      && (v.structural ==>
          && v.rawGap == s.completion - s.previous
          && c.pipelineThreshold <= v.compensation
          && forall x: nat :: x <= v.compensation <==> IsAllowed(c, s, x))
  {
  }

  /** Taking x off the gap stays within the pipeline's duration, the excess and the maximum. */
  predicate IsAllowed(c: Config, s: Sample, x: nat) {
    x <= s.pipelineDuration && x <= c.maxCompensation && s.completion - s.previous - x >= s.expectedGap
  }

  /**
   * A structural stall is exactly a trusted, measurable gap of at least twice
   * and 4 ms more than expected, explained by a recent pipeline creation, with
   * room for the threshold both in the excess and in the configured maximum.
   */
  lemma StructuralMeans(c: Config, s: Sample)
    requires s.completion <= U64_MAX && s.expectedGap <= U64_MAX
    ensures Classify(c, s).trusted <==>
      && c.mode != Disabled && c.pipelineThreshold > 0 && 0 < s.previous < s.completion && s.expectedGap > 0
      && (if c.mode == Auto then s.baselineSamples >= c.warmupSamples else s.baselineSamples > 0)
    ensures Classify(c, s).structural <==>
      && Classify(c, s).trusted
      && s.pipelineDuration >= c.pipelineThreshold
      && 0 < s.pipelineEnd <= s.completion <= s.pipelineEnd + c.recentWindow
      && s.completion - s.previous >= 2 * s.expectedGap
      && s.completion - s.previous >= s.expectedGap + 4_000_000
      && s.completion - s.previous >= s.expectedGap + c.pipelineThreshold
      && c.maxCompensation >= c.pipelineThreshold
  {
  }
}
