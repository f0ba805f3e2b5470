/**
 * The one-time startup freeze of HybridFusion: which frontend owns which
 * semantic aspect, and the packed word the hot paths read it from.
 */
module HybridOwners {
  import opened Frontends
  import opened Options

  /** The 8-bit mask of control fields a packet carries: four named bits and the value of the upper four. */
  datatype Fields = Fields(enabled: bool, boost: bool, interval: bool, markers: bool, upper: FourBits)

  type FourBits = n: nat | n < 16

  datatype Packet = Packet(enabled: bool, boost: bool, intervalUs: nat, useMarkers: bool, valid: Fields)

  /** What the arbiter and the published controls say about one frontend. */
  datatype Evidence = Evidence(
    healthy: bool, quality: nat, markers: set<Marker>, control: Packet, pacingSeen: bool, fgSeen: bool)

  datatype Policy = Policy(
    priority: seq<Frontend>, minimumQuality: nat, startupLocked: bool, startupObservations: nat)

  datatype View = View(evidence: seq<Evidence>, mask: set<Frontend>)

  predicate Complete(v: View) {
    |v.evidence| == FRONTENDS
  }

  // ------------------------------------------------------------------- tables

  const ASPECTS: seq<Aspect> := [
    Pacing, Enabled, Boost, MinimumInterval, MarkerOptimization, SimulationLifecycle, RenderLifecycle,
    PresentLifecycle, InputSampling, TriggerFlashAspect, PcLatencyPingAspect, OutOfBandLifecycle, FrameGeneration]

  function AspectIndex(a: Aspect): (i: nat)
    ensures i < |ASPECTS| && ASPECTS[i] == a
  {
    match a
    case Pacing => 0
    case Enabled => 1
    case Boost => 2
    case MinimumInterval => 3
    case MarkerOptimization => 4
    case SimulationLifecycle => 5
    case RenderLifecycle => 6
    case PresentLifecycle => 7
    case InputSampling => 8
    case TriggerFlashAspect => 9
    case PcLatencyPingAspect => 10
    case OutOfBandLifecycle => 11
    case FrameGeneration => 12
  }

  /** How strongly a frontend is preferred for an aspect; 0 rules it out. */
  function SemanticBias(f: Frontend, a: Aspect): nat {
    match f
    case Auto => 0
    case Reflex =>
      (match a
       case Pacing => 10 case Enabled => 14 case Boost => 16 case MinimumInterval => 14
       case MarkerOptimization => 16 case SimulationLifecycle => 16 case RenderLifecycle => 16
       case PresentLifecycle => 14 case InputSampling => 10 case TriggerFlashAspect => 18
       case PcLatencyPingAspect => 18 case OutOfBandLifecycle => 16 case FrameGeneration => 6)
    case VkNvLowLatency2 =>
      (match a
       case Pacing => 10 case Enabled => 14 case Boost => 16 case MinimumInterval => 14
       case MarkerOptimization => 16 case SimulationLifecycle => 16 case RenderLifecycle => 16
       case PresentLifecycle => 14 case InputSampling => 10 case TriggerFlashAspect => 16
       case PcLatencyPingAspect => 16 case OutOfBandLifecycle => 16 case FrameGeneration => 6)
    case XeLL =>
      (match a
       case Pacing => 10 case Enabled => 13 case Boost => 14 case MinimumInterval => 16
       case MarkerOptimization => 0 case SimulationLifecycle => 14 case RenderLifecycle => 14
       case PresentLifecycle => 14 case InputSampling => 14 case TriggerFlashAspect => 0
       case PcLatencyPingAspect => 0 case OutOfBandLifecycle => 6 case FrameGeneration => 4)
    case AntiLag2 =>
      (match a
       case Pacing => 12 case Enabled => 11 case Boost => 0 case MinimumInterval => 8
       case MarkerOptimization => 0 case SimulationLifecycle => 8 case RenderLifecycle => 8
       case PresentLifecycle => 8 case InputSampling => 16 case TriggerFlashAspect => 0
       case PcLatencyPingAspect => 0 case OutOfBandLifecycle => 4 case FrameGeneration => 18)
  }

  function RequiredMarkers(a: Aspect): set<Marker> {
    match a
    case SimulationLifecycle => {SimulationStart, SimulationEnd}
    case RenderLifecycle => {RenderSubmitStart, RenderSubmitEnd}
    case PresentLifecycle => {PresentStart, PresentEnd}
    case InputSampling => {InputSample}
    case TriggerFlashAspect => {TriggerFlash}
    case PcLatencyPingAspect => {PcLatencyPing}
    case OutOfBandLifecycle =>
      {OutOfBandRenderSubmitStart, OutOfBandRenderSubmitEnd, OutOfBandPresentStart, OutOfBandPresentEnd}
    case _ => {}
  }

  /** Whether the packet carries the control field an aspect is about. */
  predicate CarriesControl(p: Packet, a: Aspect) {
    match a
    case Pacing => p.valid.enabled
    case Enabled => p.valid.enabled
    case Boost => p.valid.boost
    case MinimumInterval => p.valid.interval
    case MarkerOptimization => p.valid.markers
    case _ => true
  }

  /** candidate_eligible */
  predicate Eligible(f: Frontend, a: Aspect, policy: Policy, v: View, needStartup: bool)
    requires Complete(v)
  {
    && f != Auto && f in v.mask
    && var e := v.evidence[IndexOf(f).value];
       && e.healthy && e.quality >= policy.minimumQuality && SemanticBias(f, a) != 0 && CarriesControl(e.control, a)
       && (needStartup ==>
           && (a == Pacing ==> e.pacingSeen)
           && (a == FrameGeneration ==> e.fgSeen)
           && RequiredMarkers(a) <= e.markers)
  }

  function Score(f: Frontend, a: Aspect, v: View): nat
    requires Complete(v)
  {
    if f == Auto then 0 else v.evidence[IndexOf(f).value].quality + SemanticBias(f, a)
  }

  // --------------------------------------------------------------- the choice

  /** Position p of the priority list holds an eligible frontend none of the others beats. */
  ghost predicate Wins(p: nat, a: Aspect, policy: Policy, v: View, needStartup: bool)
    requires Complete(v) && p < |policy.priority|
  {
    && Eligible(policy.priority[p], a, policy, v, needStartup)
    && forall q | 0 <= q < |policy.priority| && Eligible(policy.priority[q], a, policy, v, needStartup) ::
         Score(policy.priority[q], a, v) < Score(policy.priority[p], a, v) ||
         (Score(policy.priority[q], a, v) == Score(policy.priority[p], a, v) && p <= q)
  }

  /** The choice: highest score, earliest priority on ties, nobody if nobody is eligible. */
  ghost predicate IsChoice(best: Option<Frontend>, a: Aspect, policy: Policy, v: View, needStartup: bool)
    requires Complete(v)
  {
    match best
    case None => forall q | 0 <= q < |policy.priority| :: !Eligible(policy.priority[q], a, policy, v, needStartup)
    case Some(f) => exists p :: 0 <= p < |policy.priority| && policy.priority[p] == f && Wins(p, a, policy, v, needStartup)
  }

  /** There is only ever one right choice. */
  lemma ChoiceIsUnique(b: Option<Frontend>, c: Option<Frontend>, a: Aspect, policy: Policy, v: View, needStartup: bool)
    requires Complete(v) && IsChoice(b, a, policy, v, needStartup) && IsChoice(c, a, policy, v, needStartup)
    ensures b == c
  {
    if b.Some? && c.Some? {
      var p :| 0 <= p < |policy.priority| && policy.priority[p] == b.value && Wins(p, a, policy, v, needStartup);
      var q :| 0 <= q < |policy.priority| && policy.priority[q] == c.value && Wins(q, a, policy, v, needStartup);
      assert p == q;
    }
  }

  method ChooseBestSource(a: Aspect, policy: Policy, v: View, needStartup: bool) returns (best: Option<Frontend>)
    requires Complete(v)
    ensures IsChoice(best, a, policy, v, needStartup)
  {
    best := None;
    var bestScore, bestPriority := 0, 0xff;
    for priority := 0 to |policy.priority|
      invariant best.None? ==>
        forall q | 0 <= q < priority :: !Eligible(policy.priority[q], a, policy, v, needStartup)
      invariant best.Some? ==>
        && 0 <= bestPriority < priority && policy.priority[bestPriority] == best.value
        && bestScore == Score(best.value, a, v) && Eligible(best.value, a, policy, v, needStartup)
        && forall q | 0 <= q < priority && Eligible(policy.priority[q], a, policy, v, needStartup) ::
             Score(policy.priority[q], a, v) < bestScore ||
             (Score(policy.priority[q], a, v) == bestScore && bestPriority <= q)
    {
      var candidate := policy.priority[priority];
      if Eligible(candidate, a, policy, v, needStartup) {
        var score := Score(candidate, a, v);
        if best.None? || score > bestScore || (score == bestScore && priority < bestPriority) {
          best := Some(candidate);
          bestScore := score;
          bestPriority := priority;
        }
      }
    }
    assert best.Some? ==> Wins(bestPriority, a, policy, v, needStartup);
  }

  // --------------------------------------------------------- packed owner word

  function Code(f: Frontend): (c: nat)
    ensures c < 5
  {
    match f
    case Auto => 0
    case Reflex => 1
    case VkNvLowLatency2 => 2
    case XeLL => 3
    case AntiLag2 => 4
  }

  /** The frontend of a stored code; no other code is ever stored. */
  function FromCode(c: nat): Frontend {
    if c == 1 then Reflex else if c == 2 then VkNvLowLatency2
    else if c == 3 then XeLL else if c == 4 then AntiLag2 else Auto
  }

  /** Four bits per aspect, the first aspect lowest. */
  function PackedOwners(owners: seq<nat>): nat {
    if owners == [] then 0 else owners[0] % 16 + 16 * PackedOwners(owners[1..])
  }

  /** Bits 4i to 4i + 3 of the word: shift right four places i times, then mask. */
  function Nibble(word: nat, i: nat): nat {
    if i == 0 then word % 16 else Nibble(word / 16, i - 1)
  }

  function OwnerFromWord(word: nat, a: Aspect): Frontend {
    FromCode(Nibble(word, AspectIndex(a)))
  }

  function Pow16(i: nat): nat {
    if i == 0 then 1 else 16 * Pow16(i - 1)
  }

  lemma {:induction false} PackedAppend(owners: seq<nat>, x: nat)
    ensures PackedOwners(owners + [x]) == PackedOwners(owners) + (x % 16) * Pow16(|owners|)
  {
    if owners == [] {
      assert ([] + [x])[1..] == [];
    } else {
      assert (owners + [x])[1..] == owners[1..] + [x];
      PackedAppend(owners[1..], x);
      assert 16 * ((x % 16) * Pow16(|owners| - 1)) == (x % 16) * Pow16(|owners|);
    }
  }

  /** Every nibble decodes to the owner stored there, and the word fits 4 bits per owner. */
  lemma {:induction false} PackedRoundTrip(owners: seq<nat>, i: nat)
    requires i < |owners|
    ensures Nibble(PackedOwners(owners), i) == owners[i] % 16
    ensures PackedOwners(owners) < Pow16(|owners|)
  {
    var rest := PackedOwners(owners[1..]);
    assert PackedOwners(owners) / 16 == rest && PackedOwners(owners) % 16 == owners[0] % 16;
    if i > 0 {
      PackedRoundTrip(owners[1..], i - 1);
    } else if |owners| > 1 {
      PackedRoundTrip(owners[1..], 0);
    }
  }

  method PackOwnerWord(owners: array<nat>) returns (word: nat)
    ensures word == PackedOwners(owners[..])
  {
    word := 0;
    var scale := 1;
    for i := 0 to owners.Length
      invariant word == PackedOwners(owners[..i]) && scale == Pow16(i)
    {
      PackedAppend(owners[..i], owners[i]);
      assert owners[..i] + [owners[i]] == owners[..i + 1];
      word := word + (owners[i] % 16) * scale;
      scale := 16 * scale;
    }
    assert owners[..owners.Length] == owners[..];
  }

  // ------------------------------------------------------------ startup freeze

  const U64: nat := 0x1_0000_0000_0000_0000

  /** 64-bit subtraction. */
  function Minus64(a: nat, b: nat): (d: nat)
    ensures a < U64 && b < U64 ==> d < U64 && (d + b == a || d + b == a + U64)
  {
    if a >= b then a - b else (a - b) % U64
  }

  /** Some masked-in frontend is fresh and good enough to start collecting. */
  ghost predicate AnyHealthy(policy: Policy, v: View)
    requires Complete(v)
  {
    exists f: Frontend :: Healthy(f, policy, v)
  }

  ghost predicate Healthy(f: Frontend, policy: Policy, v: View)
    requires Complete(v)
  {
    && f != Auto && f in v.mask
    && v.evidence[IndexOf(f).value].healthy && v.evidence[IndexOf(f).value].quality >= policy.minimumQuality
  }

  /** Every aspect of the word decodes to the owner chosen for it. */
  ghost predicate DecodesToChoice(word: nat, policy: Policy, v: View)
    requires Complete(v)
  {
    forall a: Aspect {:trigger OwnerChosen(OwnerFromWord(word, a), a, policy, v)} ::
      OwnerChosen(OwnerFromWord(word, a), a, policy, v)
  }

  lemma OwnerReadBack(owners: seq<nat>, a: Aspect)
    requires |owners| == |ASPECTS| && owners[AspectIndex(a)] < 5
    ensures OwnerFromWord(PackedOwners(owners), a) == FromCode(owners[AspectIndex(a)])
  {
    PackedRoundTrip(owners, AspectIndex(a));
  }

  lemma PackedOwnersDecode(owners: seq<nat>, policy: Policy, v: View)
    requires Complete(v) && |owners| == |ASPECTS|
    requires forall i | 0 <= i < |ASPECTS| :: owners[i] < 5 && OwnerChosen(FromCode(owners[i]), ASPECTS[i], policy, v)
    ensures DecodesToChoice(PackedOwners(owners), policy, v)
    ensures PackedOwners(owners) < Pow16(|ASPECTS|)
  {
    PackedRoundTrip(owners, 0);
    forall a: Aspect ensures OwnerChosen(OwnerFromWord(PackedOwners(owners), a), a, policy, v) {
      OwnerReadBack(owners, a);
      assert OwnerChosen(FromCode(owners[AspectIndex(a)]), ASPECTS[AspectIndex(a)], policy, v);
    }
  }

  /** The owner an aspect gets: the startup choice, and for Pacing a second pass without startup evidence. */
  ghost predicate OwnerChosen(f: Frontend, a: Aspect, policy: Policy, v: View)
    requires Complete(v)
  {
    exists first: Option<Frontend> :: IsChoice(first, a, policy, v, true)
      && if a == Pacing && first.None? then
           exists second: Option<Frontend> :: IsChoice(second, Pacing, policy, v, false) && f == OrAuto(second)
         else f == OrAuto(first)
  }

  function OrAuto(f: Option<Frontend>): Frontend {
    if f.Some? then f.value else Auto
  }

  /** Every frontend of the priority list that could pace was silent about pacing. */
  ghost predicate NoPacerWasSeen(policy: Policy, v: View)
    requires Complete(v)
  {
    forall g | g in policy.priority && Healthy(g, policy, v) && v.evidence[IndexOf(g).value].control.valid.enabled ::
      !v.evidence[IndexOf(g).value].pacingSeen
  }

  /** The control field an aspect is about was published. */
  ghost predicate ControlShown(a: Aspect, p: Packet) {
    && (a == Pacing || a == Enabled ==> p.valid.enabled)
    && (a == Boost ==> p.valid.boost)
    && (a == MinimumInterval ==> p.valid.interval)
    && (a == MarkerOptimization ==> p.valid.markers)
  }

  /** Boost is not for AntiLag2; flashes, pings and marker optimisation are for Reflex and its Vulkan twin alone. */
  ghost predicate Capable(f: Frontend, a: Aspect) {
    && (a == Boost ==> f != AntiLag2)
    && (a == MarkerOptimization || a == TriggerFlashAspect || a == PcLatencyPingAspect ==>
      f == Reflex || f == VkNvLowLatency2)
  }

  lemma OnlyTheCapable(f: Frontend, a: Aspect)
    ensures SemanticBias(f, a) != 0 <==> f != Auto && Capable(f, a)
  {
  }

  lemma ControlIsCarried(p: Packet, a: Aspect)
    ensures CarriesControl(p, a) <==> ControlShown(a, p)
  {
  }

  lemma RequiredIsRouted(m: Marker, a: Aspect)
    ensures m in RequiredMarkers(a) <==> AspectForMarker(m) == a
  {
  }

  /** Being eligible, in terms of the evidence: exactly who was healthy, capable and had shown all that is asked. */
  lemma EligibleMeans(f: Frontend, a: Aspect, policy: Policy, v: View, needStartup: bool)
    requires Complete(v)
    ensures Eligible(f, a, policy, v, needStartup) <==>
      && Healthy(f, policy, v) && Capable(f, a) && ControlShown(a, v.evidence[IndexOf(f).value].control)
      && (needStartup ==> StartupShown(a, v.evidence[IndexOf(f).value]))
  {
    hide SemanticBias, CarriesControl, RequiredMarkers, Capable, ControlShown, AspectForMarker;
    OnlyTheCapable(f, a);
    if f != Auto {
      var e := v.evidence[IndexOf(f).value];
      ControlIsCarried(e.control, a);
      forall m: Marker ensures m in RequiredMarkers(a) <==> AspectForMarker(m) == a {
        RequiredIsRouted(m, a);
      }
    }
  }

  /** Pacing for its owner, a presentation for frame generation, and every single marker an aspect routes. */
  ghost predicate StartupShown(a: Aspect, e: Evidence) {
    && (a == Pacing ==> e.pacingSeen)
    && (a == FrameGeneration ==> e.fgSeen)
    && forall m: Marker | AspectForMarker(m) == a :: m in e.markers
  }

  /**
   * Whoever owns an aspect was masked in, fresh and good enough, is capable of
   * it, had published the control field the aspect is about, and had shown
   * every single marker the aspect routes; the owner of FrameGeneration had
   * presented, and the owner of Pacing had paced unless nobody who could pace
   * had.
   */
  lemma OwnersShowedWhatTheyOwn(f: Frontend, a: Aspect, policy: Policy, v: View)
    requires Complete(v) && OwnerChosen(f, a, policy, v) && f != Auto
    ensures var e := v.evidence[IndexOf(f).value];
      && f in policy.priority && f in v.mask && e.healthy && e.quality >= policy.minimumQuality
      && Capable(f, a) && ControlShown(a, e.control)
      && (forall m: Marker | AspectForMarker(m) == a :: m in e.markers)
      && (a == FrameGeneration ==> e.fgSeen)
      && (a == Pacing ==> e.pacingSeen || NoPacerWasSeen(policy, v))
  {
    hide Eligible, Capable, ControlShown;
    var first: Option<Frontend> :| IsChoice(first, a, policy, v, true)
      && if a == Pacing && first.None? then
           exists second: Option<Frontend> :: IsChoice(second, Pacing, policy, v, false) && f == OrAuto(second)
         else f == OrAuto(first);
    EligibleMeans(f, a, policy, v, first.Some?);
    if first.None? {
      NobodyPaced(a, policy, v);
    }
  }

  /** The frontends an aspect prefers: at equal quality they beat all the others. */
  ghost function Favoured(a: Aspect): set<Frontend> {
    match a
    case Pacing => {AntiLag2}
    case InputSampling => {AntiLag2}
    case FrameGeneration => {AntiLag2}
    case MinimumInterval => {XeLL}
    case TriggerFlashAspect => {Reflex}
    case PcLatencyPingAspect => {Reflex}
    case PresentLifecycle => {Reflex, VkNvLowLatency2, XeLL}
    case _ => {Reflex, VkNvLowLatency2}
  }

  lemma FavouredScoreHighest(a: Aspect, f: Frontend, g: Frontend)
    requires g in Favoured(a)
    ensures SemanticBias(f, a) <= SemanticBias(g, a) && (SemanticBias(f, a) == SemanticBias(g, a) <==> f in Favoured(a))
  {
  }

  /**
   * A favoured frontend that was eligible loses its aspect only to a strictly
   * better quality, or to another favoured one.
   */
  lemma FavouredWinAtEqualQuality(f: Frontend, g: Frontend, a: Aspect, policy: Policy, v: View)
    requires Complete(v) && f != Auto && OwnerChosen(f, a, policy, v)
    requires g in Favoured(a) && g in policy.priority && Eligible(g, a, policy, v, true)
    ensures f in Favoured(a) || v.evidence[IndexOf(f).value].quality > v.evidence[IndexOf(g).value].quality
  {
    hide Eligible, Favoured, SemanticBias;
    var first: Option<Frontend> :| IsChoice(first, a, policy, v, true)
      && if a == Pacing && first.None? then
           exists second: Option<Frontend> :: IsChoice(second, Pacing, policy, v, false) && f == OrAuto(second)
         else f == OrAuto(first);
    var q :| 0 <= q < |policy.priority| && policy.priority[q] == g;
    assert first.Some? && Eligible(policy.priority[q], a, policy, v, true);
    FavouredScoreHighest(a, f, g);
    FavouredIsSomebody(a, g);
  }

  lemma FavouredIsSomebody(a: Aspect, g: Frontend)
    requires g in Favoured(a)
    ensures g != Auto
  {
  }

  lemma NobodyPaced(a: Aspect, policy: Policy, v: View)
    requires Complete(v) && a == Pacing && IsChoice(None, a, policy, v, true)
    ensures NoPacerWasSeen(policy, v)
  {
    hide Eligible;
    forall g | g in policy.priority && Healthy(g, policy, v) && v.evidence[IndexOf(g).value].control.valid.enabled
      ensures !v.evidence[IndexOf(g).value].pacingSeen
    {
      var q :| 0 <= q < |policy.priority| && policy.priority[q] == g;
      assert !Eligible(policy.priority[q], a, policy, v, true);
      EligibleMeans(g, a, policy, v, true);
    }
  }

  class StartupFreeze {
    var lockState: nat               // 0 collecting, 1 freezing, 2 locked
    var startupBegin: nat
    var frozenOwnerWord: nat
    const aspectOwner: array<nat>
    /** What the owners were frozen from. */
    ghost var frozenPolicy: Policy
    ghost var frozenView: View

    ghost predicate Valid()
      reads this, aspectOwner
    {
      && aspectOwner.Length == |ASPECTS|
      && (lockState == 0 || lockState == 2)
      && (forall i | 0 <= i < |ASPECTS| :: aspectOwner[i] < 5)
      && (lockState == 2 ==> frozenOwnerWord == PackedOwners(aspectOwner[..]))
    }

    /** From the freeze on, every aspect decodes from the word to the owner chosen from the evidence of the freeze. */
    ghost predicate Justified()
      reads this
    {
      lockState == 2 ==> Complete(frozenView) && DecodesToChoice(frozenOwnerWord, frozenPolicy, frozenView)
    }

    constructor ()
      ensures Valid() && Justified() && lockState == 0 && startupBegin == 0
      ensures fresh(aspectOwner)
    {
      aspectOwner := new nat[|ASPECTS|](_ => 0);
      lockState, startupBegin, frozenOwnerWord := 0, 0, 0;
    }

    method Reset()
      requires Valid()
      modifies this, aspectOwner
      ensures Valid() && Justified() && lockState == 0 && startupBegin == 0
      ensures frozenOwnerWord == 0 && forall i | 0 <= i < |ASPECTS| :: aspectOwner[i] == 0
    {
      for i := 0 to aspectOwner.Length
        invariant forall j | 0 <= j < i :: aspectOwner[j] == 0
        invariant forall j | i <= j < aspectOwner.Length :: aspectOwner[j] < 5
      {
        aspectOwner[i] := 0;
      }
      lockState, startupBegin, frozenOwnerWord := 0, 0, 0;
    }

    method AnyFrontendHealthy(policy: Policy, v: View) returns (any: bool)
      requires Complete(v)
      ensures any == AnyHealthy(policy, v)
    {
      any := false;
      var frontends := [Reflex, VkNvLowLatency2, XeLL, AntiLag2];
      for i := 0 to 4
        invariant any <==> (exists j :: 0 <= j < i && Healthy(frontends[j], policy, v))
      {
        var e := v.evidence[IndexOf(frontends[i]).value];
        if frontends[i] in v.mask && e.healthy && e.quality >= policy.minimumQuality {
          any := true;
        }
      }
      if AnyHealthy(policy, v) {
        ghost var f: Frontend :| Healthy(f, policy, v);
        assert frontends[IndexOf(f).value] == f;
      }
    }

    /**
     * maybe_lock_startup. Once locked it changes nothing; it locks exactly when
     * evidence has been collected long enough, and every aspect then decodes
     * from the packed word to the owner chosen for it.
     */
    method MaybeLock(policy: Policy, v: View, now: nat) returns (locked: bool)
      requires Valid() && Justified() && Complete(v) && now < U64 && startupBegin < U64
      modifies this, aspectOwner
      ensures Valid() && Justified()
      ensures locked == (lockState == 2)
      ensures old(lockState) == 2 ==>
        lockState == 2 && frozenOwnerWord == old(frozenOwnerWord) && startupBegin == old(startupBegin)
        && aspectOwner[..] == old(aspectOwner[..])
        && frozenPolicy == old(frozenPolicy) && frozenView == old(frozenView)
      ensures old(lockState) == 0 ==>
        var begin := if old(startupBegin) == 0 then now else old(startupBegin);
        && locked == (policy.startupLocked && now != 0 && AnyHealthy(policy, v)
                      && (if now >= begin then now - begin else now + U64 - begin) >= policy.startupObservations)
        && startupBegin == (if policy.startupLocked && now != 0 && AnyHealthy(policy, v) then begin else old(startupBegin))
        && (locked ==> frozenPolicy == policy && frozenView == v && DecodesToChoice(frozenOwnerWord, policy, v))
    {
      if lockState == 2 {
        return true;
      }
      if !policy.startupLocked || now == 0 {
        return false;
      }
      var any := AnyFrontendHealthy(policy, v);
      if !any {
        return false;
      }
      if startupBegin == 0 {
        startupBegin := now;
      }
      if Minus64(now, startupBegin) < policy.startupObservations {
        return false;
      }
      lockState := 1;
      ChooseOwners(policy, v);
      frozenOwnerWord := PackOwnerWord(aspectOwner);
      frozenPolicy, frozenView := policy, v;
      lockState := 2;
      PackedOwnersDecode(aspectOwner[..], policy, v);
      return true;
    }

    method ChooseOwners(policy: Policy, v: View)
      requires Complete(v) && aspectOwner.Length == |ASPECTS|
      modifies aspectOwner
      ensures forall i | 0 <= i < |ASPECTS| ::
        aspectOwner[i] < 5 && OwnerChosen(FromCode(aspectOwner[i]), ASPECTS[i], policy, v)
    {
      hide IsChoice;
      ghost var firsts: seq<Option<Frontend>> := [];
      for i := 0 to |ASPECTS|
        invariant |firsts| == i
        invariant forall j | 0 <= j < i ::
          aspectOwner[j] == Code(OrAuto(firsts[j])) && IsChoice(firsts[j], ASPECTS[j], policy, v, true)
      {
        var selected := ChooseBestSource(ASPECTS[i], policy, v, true);
        aspectOwner[i] := Code(OrAuto(selected));
        firsts := firsts + [selected];
      }
      ChosenIsNotAuto(firsts[0], policy, v, true);
      if FromCode(aspectOwner[0]) == Auto {
        var fallback := ChooseBestSource(Pacing, policy, v, false);
        aspectOwner[0] := Code(OrAuto(fallback));
      }
      forall i | 0 <= i < |ASPECTS|
        ensures aspectOwner[i] < 5 && OwnerChosen(FromCode(aspectOwner[i]), ASPECTS[i], policy, v)
      {
        assert IsChoice(firsts[i], ASPECTS[i], policy, v, true);
        assert ASPECTS[i] == Pacing <==> i == 0;
      }
    }
  }

  lemma ChosenIsNotAuto(best: Option<Frontend>, policy: Policy, v: View, needStartup: bool)
    requires Complete(v) && IsChoice(best, Pacing, policy, v, needStartup)
    ensures best.Some? ==> best.value != Auto
  {
  }
}
