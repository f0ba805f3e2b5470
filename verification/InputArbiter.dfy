/**
 * The input arbiter: per-frontend quality and activity, and the selection of
 * one frontend with hysteresis.
 */
module InputArbiter {
  import opened Frontends
  import opened Options

  const STALE_WINDOW: nat := 16
  const SWITCH_MARGIN: nat := 8

  datatype Evidence =
    | NoEvidence | Capability | Context | Control | Sleep | MarkerSeen | AsyncMarker | FrameGen

  datatype Observation = Observation(
    lastFrame: nat, lastSequence: nat, markers: set<Marker>, evidence: set<Evidence>, quality: nat, seen: bool)

  datatype Arbiter = Arbiter(states: seq<Observation>, sequence: nat)

  const NO_OBSERVATION := Observation(0, 0, {}, {}, 0, false)
  const CLEARED := Arbiter([NO_OBSERVATION, NO_OBSERVATION, NO_OBSERVATION, NO_OBSERVATION], 0)

  function Min(a: int, b: int): int {
    if a <= b then a else b
  }

  function Max(a: int, b: int): int {
    if a >= b then a else b
  }

  function Bonus(e: Evidence): nat {
    match e
    case Capability => 2
    case Context => 8
    case Control => 14
    case Sleep => 18
    case MarkerSeen => 4
    case AsyncMarker => 8
    case FrameGen => 10
    case NoEvidence => 0
  }

  /** note_evidence: a kind of evidence counts once, and quality saturates at 100. */
  function Noted(s: Observation, e: Evidence): Observation {
    if e == NoEvidence || e in s.evidence then s
    else s.(evidence := s.evidence + {e}, quality := Min(100, s.quality + Bonus(e)))
  }

  predicate Advances(s: Observation, frame: nat) {
    !s.seen || s.lastFrame != frame
  }

  /** The quality after a native frame ID, before the marker bonus. */
  function FrameScore(s: Observation, frame: nat): nat {
    if !s.seen then Max(20, s.quality)
    else if frame > s.lastFrame then Min(100, s.quality + 4)
    else if frame < s.lastFrame then (if s.quality > 12 then s.quality - 12 else 0)
    else s.quality
  }

  predicate StartsSomething(m: Marker) {
    m == SimulationStart || m == PresentStart || m == RenderSubmitStart || m == InputSample
  }

  function MarkerScore(s: Observation, m: Marker, score: nat): nat {
    if m in s.markers then score
    else if StartsSomething(m) then Min(100, Min(100, score + 8) + 5)
    else Min(100, score + 8)
  }

  /** The rest of observe, once the marker evidence is noted. */
  function Seen(s: Observation, m: Marker, frame: nat, sequence: nat): Observation {
    Observation(frame, if Advances(s, frame) then sequence + 1 else s.lastSequence, s.markers + {m}, s.evidence,
      MarkerScore(s, m, FrameScore(s, frame)), true)
  }

  datatype Op = Observe(f: Frontend, m: Marker, frame: nat) | Note(f: Frontend, e: Evidence)

  predicate Sized(a: Arbiter) {
    |a.states| == FRONTENDS
  }

  function Step(a: Arbiter, op: Op): (a': Arbiter)
    requires Sized(a)
    ensures Sized(a')
  {
    if op.f == Auto then a else
    var i := IndexOf(op.f).value;
    match op
    case Note(f, e) => a.(states := a.states[i := Noted(a.states[i], e)])
    case Observe(f, m, frame) =>
      var s := Noted(a.states[i], MarkerSeen);
      Arbiter(a.states[i := Seen(s, m, frame, a.sequence)], if Advances(s, frame) then a.sequence + 1 else a.sequence)
  }

  function Play(ops: seq<Op>): (a: Arbiter)
    ensures Sized(a)
  {
    if ops == [] then CLEARED else Step(Play(ops[..|ops| - 1]), ops[|ops| - 1])
  }

  /** fresh() */
  predicate Fresh(a: Arbiter, f: Frontend)
    requires Sized(a)
  {
    && f != Auto
    && var s := a.states[IndexOf(f).value];
       s.seen && a.sequence >= s.lastSequence && a.sequence - s.lastSequence <= STALE_WINDOW
  }

  // ------------------------------------------------------------- over all runs

  /** The native frame a frontend showed last, according to the calls alone. */
  function LastFrame(ops: seq<Op>, f: Frontend): Option<nat> {
    if ops == [] then None
    else
      var op := ops[|ops| - 1];
      if op.Observe? && op.f == f then Some(op.frame) else LastFrame(ops[..|ops| - 1], f)
  }

  /** Who advanced to a new native frame, in order. */
  function AdvanceLog(ops: seq<Op>): (log: seq<Frontend>)
    ensures |log| <= |ops|
  {
    if ops == [] then []
    else
      var init, op := ops[..|ops| - 1], ops[|ops| - 1];
      AdvanceLog(init) +
        if op.Observe? && op.f != Auto && LastFrame(init, op.f) != Some(op.frame) then [op.f] else []
  }

  /** What one frontend's record says about the log. */
  ghost predicate RecordOk(s: Observation, f: Frontend, log: seq<Frontend>, last: Option<nat>) {
    && s.quality <= 100
    && (s.seen <==> f in log) && (s.seen <==> last.Some?) && (s.seen ==> last.value == s.lastFrame)
    && s.lastSequence <= |log|
    && (s.seen ==>
        && s.lastSequence >= 1 && log[s.lastSequence - 1] == f
        && forall i | s.lastSequence <= i < |log| :: log[i] != f)
  }

  ghost predicate RunOk(ops: seq<Op>) {
    && Play(ops).sequence == |AdvanceLog(ops)|
    && forall f: Frontend | f != Auto ::
         RecordOk(Play(ops).states[IndexOf(f).value], f, AdvanceLog(ops), LastFrame(ops, f))
  }

  lemma OthersLogOn(s: Observation, f: Frontend, g: Frontend, log: seq<Frontend>, last: Option<nat>)
    requires RecordOk(s, f, log, last) && f != g
    ensures RecordOk(s, f, log + [g], last)
  {
    assert f in log ==> f in log + [g];
    if f in log + [g] {
      assert f in log;
    }
  }

  lemma OwnAdvance(s: Observation, f: Frontend, m: Marker, frame: nat, log: seq<Frontend>, last: Option<nat>)
    requires RecordOk(s, f, log, last)
    ensures var s1 := Noted(s, MarkerSeen);
      var log' := log + (if last != Some(frame) then [f] else []);
      && (Advances(s1, frame) <==> last != Some(frame))
      && RecordOk(Seen(s1, m, frame, |log|), f, log', Some(frame))
  {
    var log' := log + (if last != Some(frame) then [f] else []);
    if last != Some(frame) {
      assert log'[|log|] == f;
    } else {
      assert log' == log;
    }
  }

  lemma {:induction false} RunsStayOk(ops: seq<Op>)
    ensures RunOk(ops)
  {
    if ops != [] {
      var init, op := ops[..|ops| - 1], ops[|ops| - 1];
      RunsStayOk(init);
      forall f: Frontend | f != Auto
        ensures RecordOk(Play(ops).states[IndexOf(f).value], f, AdvanceLog(ops), LastFrame(ops, f))
      {
        StepKeepsRecord(ops, f);
      }
      if op.Observe? && op.f != Auto {
        OwnAdvance(Play(init).states[IndexOf(op.f).value], op.f, op.m, op.frame, AdvanceLog(init), LastFrame(init, op.f));
      }
    }
  }

  lemma StepKeepsRecord(ops: seq<Op>, f: Frontend)
    requires ops != [] && RunOk(ops[..|ops| - 1]) && f != Auto
    ensures RecordOk(Play(ops).states[IndexOf(f).value], f, AdvanceLog(ops), LastFrame(ops, f))
  {
    var init, op := ops[..|ops| - 1], ops[|ops| - 1];
    assert RecordOk(Play(init).states[IndexOf(f).value], f, AdvanceLog(init), LastFrame(init, f));
    if op.Observe? && op.f == f {
      OwnObservation(Play(init), op, f, AdvanceLog(init), LastFrame(init, f));
    } else {
      OthersObservation(Play(init), op, f, AdvanceLog(init), LastFrame(init, f), AdvanceLog(ops));
    }
  }

  lemma OwnObservation(a: Arbiter, op: Op, f: Frontend, log: seq<Frontend>, last: Option<nat>)
    requires Sized(a) && f != Auto && op.Observe? && op.f == f && a.sequence == |log|
    requires RecordOk(a.states[IndexOf(f).value], f, log, last)
    ensures RecordOk(Step(a, op).states[IndexOf(f).value], f,
                     log + (if last != Some(op.frame) then [f] else []), Some(op.frame))
  {
    OwnAdvance(a.states[IndexOf(f).value], f, op.m, op.frame, log, last);
  }

  /** Evidence, and other frontends' observations, leave a record standing. */
  lemma OthersObservation(a: Arbiter, op: Op, f: Frontend, log: seq<Frontend>, last: Option<nat>, log': seq<Frontend>)
    requires Sized(a) && f != Auto && !(op.Observe? && op.f == f)
    requires RecordOk(a.states[IndexOf(f).value], f, log, last)
    requires log' == log || (op.Observe? && log' == log + [op.f])
    ensures RecordOk(Step(a, op).states[IndexOf(f).value], f, log', last)
  {
    if op.f != f && op.f != Auto {
      assert IndexOf(op.f) != IndexOf(f);
    }
    if log' != log {
      OthersLogOn(a.states[IndexOf(f).value], f, op.f, log, last);
    }
  }

  /** Quality never leaves 0 to 100, whatever is observed or noted. */
  lemma QualityStaysAPercentage(ops: seq<Op>, i: nat)
    requires i < FRONTENDS
    ensures Play(ops).states[i].quality <= 100
  {
    RunsStayOk(ops);
    var f := [Reflex, VkNvLowLatency2, XeLL, AntiLag2][i];
    assert IndexOf(f) == Some(i);
    assert RecordOk(Play(ops).states[IndexOf(f).value], f, AdvanceLog(ops), LastFrame(ops, f));
  }

  function LastSeventeen(log: seq<Frontend>): seq<Frontend> {
    if |log| <= STALE_WINDOW + 1 then log else log[|log| - STALE_WINDOW - 1..]
  }

  lemma RecentMeansClose(s: Observation, f: Frontend, log: seq<Frontend>, last: Option<nat>)
    requires RecordOk(s, f, log, last)
    ensures s.seen && |log| - s.lastSequence <= STALE_WINDOW <==> f in LastSeventeen(log)
  {
    var skipped := |log| - |LastSeventeen(log)|;
    if s.seen && |log| - s.lastSequence <= STALE_WINDOW {
      assert LastSeventeen(log)[s.lastSequence - 1 - skipped] == f;
    }
    if f in LastSeventeen(log) {
      var k :| 0 <= k < |LastSeventeen(log)| && LastSeventeen(log)[k] == f;
      assert log[skipped + k] == f;
    }
  }

  /**
   * Freshness means activity: a frontend is fresh exactly if it is among the
   * last 17 to advance to a new native frame, its own advance and up to 16
   * later ones of anybody.
   */
  lemma FreshMeansRecentlyAdvanced(ops: seq<Op>, f: Frontend)
    requires f != Auto
    ensures Fresh(Play(ops), f) <==> f in LastSeventeen(AdvanceLog(ops))
  {
    RunsStayOk(ops);
    RecentMeansClose(Play(ops).states[IndexOf(f).value], f, AdvanceLog(ops), LastFrame(ops, f));
  }

  /** Repeating a callback for the same native frame changes nothing at all. */
  lemma RepeatedCallbackIsFree(a: Arbiter, f: Frontend, m: Marker, frame: nat)
    requires Sized(a)
    ensures var once := Step(a, Observe(f, m, frame)); Step(once, Observe(f, m, frame)) == once
  {
    if f != Auto {
      var once := Step(a, Observe(f, m, frame));
      var i := IndexOf(f).value;
      assert once.states[i].markers + {m} == once.states[i].markers;
      assert once.states[i := once.states[i]] == once.states;
    }
  }

  // -------------------------------------------------------------------- selection

  datatype InputPolicy = InputPolicy(
    mode: Frontend, priority: seq<Frontend>, minimumQuality: nat, allowFallback: bool)

  function Quality(a: Arbiter, f: Frontend): nat
    requires Sized(a)
  {
    if f == Auto then 0 else a.states[IndexOf(f).value].quality
  }

  /** candidate_quality succeeds. */
  predicate Healthy(a: Arbiter, policy: InputPolicy, mask: set<Frontend>, f: Frontend)
    requires Sized(a)
  {
    f in mask && Fresh(a, f) && Quality(a, f) >= policy.minimumQuality
  }

  /** The position before n of the healthy frontend with the highest quality, the earliest on ties. */
  function BestUpTo(a: Arbiter, policy: InputPolicy, mask: set<Frontend>, n: nat): (best: Option<nat>)
    requires Sized(a) && n <= |policy.priority|
    ensures best.Some? ==> best.value < n && Healthy(a, policy, mask, policy.priority[best.value])
  {
    if n == 0 then None
    else
      var best, f := BestUpTo(a, policy, mask, n - 1), policy.priority[n - 1];
      if Healthy(a, policy, mask, f)
         && (best.None? || Quality(a, f) > Quality(a, policy.priority[best.value])) then Some(n - 1)
      else best
  }

  function Best(a: Arbiter, policy: InputPolicy, mask: set<Frontend>): Option<Frontend>
    requires Sized(a)
  {
    var p := BestUpTo(a, policy, mask, |policy.priority|);
    if p.Some? then Some(policy.priority[p.value]) else None
  }

  lemma {:induction false} BestIsHighest(a: Arbiter, policy: InputPolicy, mask: set<Frontend>, n: nat, q: nat)
    requires Sized(a) && q < n <= |policy.priority| && Healthy(a, policy, mask, policy.priority[q])
    ensures var best := BestUpTo(a, policy, mask, n);
      && best.Some?
      && var top := Quality(a, policy.priority[best.value]);
         top > Quality(a, policy.priority[q]) || (top == Quality(a, policy.priority[q]) && best.value <= q)
  {
    if q < n - 1 {
      BestIsHighest(a, policy, mask, n - 1, q);
    }
  }

  /** select() */
  function Selected(a: Arbiter, policy: InputPolicy, mask: set<Frontend>, current: Frontend): Option<Frontend>
    requires Sized(a)
  {
    if policy.mode != Auto && Healthy(a, policy, mask, policy.mode) then Some(policy.mode)
    else if policy.mode != Auto && !policy.allowFallback then None
    else
      var best := Best(a, policy, mask);
      if current in policy.priority && Healthy(a, policy, mask, current)
         && (best.None? || best.value == current || Quality(a, best.value) < Quality(a, current) + SWITCH_MARGIN)
      then Some(current)
      else best
  }

  /** Healthy, by the calls: masked in, among the last 17 to advance, and of at least the minimum quality. */
  lemma HealthyMeans(ops: seq<Op>, policy: InputPolicy, mask: set<Frontend>, f: Frontend)
    ensures Healthy(Play(ops), policy, mask, f) <==>
      && f != Auto && f in mask && f in LastSeventeen(AdvanceLog(ops))
      && Play(ops).states[IndexOf(f).value].quality >= policy.minimumQuality
  {
    if f != Auto {
      FreshMeansRecentlyAdvanced(ops, f);
    }
  }

  /** Whatever is selected is fresh, masked in and good enough. */
  lemma SelectedIsHealthy(a: Arbiter, policy: InputPolicy, mask: set<Frontend>, current: Frontend)
    requires Sized(a) && Selected(a, policy, mask, current).Some?
    ensures Healthy(a, policy, mask, Selected(a, policy, mask, current).value)
  {
  }

  /** A healthy forced mode is always obeyed; an unhealthy one without fallback selects nobody. */
  lemma ForcedModeIsObeyed(a: Arbiter, policy: InputPolicy, mask: set<Frontend>, current: Frontend)
    requires Sized(a) && policy.mode != Auto
    ensures Healthy(a, policy, mask, policy.mode) ==> Selected(a, policy, mask, current) == Some(policy.mode)
    ensures !Healthy(a, policy, mask, policy.mode) && !policy.allowFallback ==>
      Selected(a, policy, mask, current) == None
  {
  }

  /** Selecting again on unchanged evidence, from what was selected, selects the same. */
  lemma SelectionIsIdempotent(a: Arbiter, policy: InputPolicy, mask: set<Frontend>, current: Frontend)
    requires Sized(a)
    ensures var first := Selected(a, policy, mask, current);
      Selected(a, policy, mask, if first.Some? then first.value else Auto) == first
  {
  }

  /**
   * Without a healthy forced mode, and with fallback allowed: a healthy listed
   * incumbent is displaced if and only if some healthy listed frontend is at
   * least 8 better, and then by one of the highest quality, the earliest listed
   * of those.
   */
  lemma IncumbentIsDisplacedOnlyByMargin(
    a: Arbiter, policy: InputPolicy, mask: set<Frontend>, current: Frontend)
    requires Sized(a) && current in policy.priority && Healthy(a, policy, mask, current)
    requires policy.mode == Auto || (!Healthy(a, policy, mask, policy.mode) && policy.allowFallback)
    ensures Selected(a, policy, mask, current) != Some(current) <==>
      exists q: nat :: Outscores(a, policy, mask, q, current)
    ensures Selected(a, policy, mask, current) != Some(current) ==> IsTop(a, policy, mask, Selected(a, policy, mask, current))
  {
    hide Healthy, Quality, BestUpTo;
    var p := BestUpTo(a, policy, mask, |policy.priority|);
    var at :| 0 <= at < |policy.priority| && policy.priority[at] == current;
    BestIsHighest(a, policy, mask, |policy.priority|, at);
    if Quality(a, policy.priority[p.value]) >= Quality(a, current) + SWITCH_MARGIN {
      assert Outscores(a, policy, mask, p.value, current);
    }
    if q: nat :| Outscores(a, policy, mask, q, current) {
      BestIsHighest(a, policy, mask, |policy.priority|, q);
    }
    BestIsTop(a, policy, mask);
  }

  /** The q-th listed frontend is healthy and better than the incumbent by the margin. */
  ghost predicate Outscores(a: Arbiter, policy: InputPolicy, mask: set<Frontend>, q: nat, incumbent: Frontend)
    requires Sized(a)
  {
    && q < |policy.priority| && Healthy(a, policy, mask, policy.priority[q])
    && Quality(a, policy.priority[q]) >= Quality(a, incumbent) + SWITCH_MARGIN
  }

  /** Highest quality among the healthy listed frontends, and earliest listed of those. */
  ghost predicate IsTop(a: Arbiter, policy: InputPolicy, mask: set<Frontend>, f: Option<Frontend>)
    requires Sized(a)
  {
    && f.Some?
    && exists p: nat :: p < |policy.priority| && policy.priority[p] == f.value && Healthy(a, policy, mask, f.value)
         && forall q: nat | q < |policy.priority| && Healthy(a, policy, mask, policy.priority[q]) ::
              Quality(a, policy.priority[q]) < Quality(a, f.value)
              || (Quality(a, policy.priority[q]) == Quality(a, f.value) && p <= q)
  }

  lemma BestIsTop(a: Arbiter, policy: InputPolicy, mask: set<Frontend>)
    requires Sized(a) && Best(a, policy, mask).Some?
    ensures IsTop(a, policy, mask, Best(a, policy, mask))
  {
    var p := BestUpTo(a, policy, mask, |policy.priority|).value;
    forall q: nat | q < |policy.priority| && Healthy(a, policy, mask, policy.priority[q])
      ensures Quality(a, policy.priority[q]) < Quality(a, policy.priority[p])
              || (Quality(a, policy.priority[q]) == Quality(a, policy.priority[p]) && p <= q)
    {
      BestIsHighest(a, policy, mask, |policy.priority|, q);
    }
  }

  /** Without a healthy incumbent or forced mode, priority breaks ties, and nobody healthy means nobody. */
  lemma VacancyGoesToTheTop(a: Arbiter, policy: InputPolicy, mask: set<Frontend>, current: Frontend)
    requires Sized(a) && !(current in policy.priority && Healthy(a, policy, mask, current))
    requires policy.mode == Auto || (!Healthy(a, policy, mask, policy.mode) && policy.allowFallback)
    ensures var s := Selected(a, policy, mask, current);
      if s.Some? then IsTop(a, policy, mask, s)
      else forall q | 0 <= q < |policy.priority| :: !Healthy(a, policy, mask, policy.priority[q])
  {
    if Best(a, policy, mask).Some? {
      BestIsTop(a, policy, mask);
    } else {
      forall q | 0 <= q < |policy.priority| ensures !Healthy(a, policy, mask, policy.priority[q]) {
        if Healthy(a, policy, mask, policy.priority[q]) {
          BestIsHighest(a, policy, mask, |policy.priority|, q);
        }
      }
    }
  }

  // ---------------------------------------------------------- the mutable object

  class InputArbiter {
    const states: array<Observation>
    var observationSequence: nat
    ghost var history: seq<Op>

    ghost predicate Valid()
      reads this, states
    {
      states.Length == FRONTENDS && Arbiter(states[..], observationSequence) == Play(history)
    }

    constructor ()
      ensures Valid() && fresh(states) && history == []
    {
      states := new Observation[FRONTENDS](_ => NO_OBSERVATION);
      observationSequence := 0;
      history := [];
      new;
      assert states[..] == CLEARED.states;
    }

    method NoteEvidence(f: Frontend, e: Evidence)
      requires Valid()
      modifies this, states
      ensures Valid() && history == old(history) + [Note(f, e)]
    {
      OneMoreCall(history, Note(f, e));
      AddEvidence(f, e);
      history := history + [Note(f, e)];
    }

    method AddEvidence(f: Frontend, e: Evidence)
      requires states.Length == FRONTENDS
      modifies states
      ensures Arbiter(states[..], observationSequence) == Step(Arbiter(old(states[..]), observationSequence), Note(f, e))
    {
      ghost var was := states[..];
      var i := IndexOf(f);
      if i.None? || e == NoEvidence {
        assert e == NoEvidence && i.Some? ==> was[i.value := was[i.value]] == was;
        return;
      }
      var s := states[i.value];
      if e in s.evidence {
        assert was[i.value := was[i.value]] == was;
        return;
      }
      states[i.value] := s.(evidence := s.evidence + {e}, quality := Min(100, s.quality + Bonus(e)));
    }

    /** The quality after one observation: progress counts once per frame, a marker once ever. */
    static method ScoreAfter(s: Observation, m: Marker, frame: nat) returns (score: nat)
      ensures score == MarkerScore(s, m, FrameScore(s, frame))
    {
      score := if s.seen then s.quality else Max(20, s.quality);
      if s.seen {
        if frame > s.lastFrame {
          score := Min(100, score + 4);
        } else if frame < s.lastFrame {
          score := if score > 12 then score - 12 else 0;
        }
      }
      if m !in s.markers {
        score := Min(100, score + 8);
        if m == SimulationStart || m == PresentStart || m == RenderSubmitStart || m == InputSample {
          score := Min(100, score + 5);
        }
      }
    }

    method ObserveMarker(f: Frontend, m: Marker, frame: nat)
      requires Valid()
      modifies this, states
      ensures Valid() && history == old(history) + [Observe(f, m, frame)]
    {
      OneMoreCall(history, Observe(f, m, frame));
      RecordMarker(f, m, frame);
      history := history + [Observe(f, m, frame)];
    }

    method RecordMarker(f: Frontend, m: Marker, frame: nat)
      requires states.Length == FRONTENDS
      modifies this`observationSequence, states
      ensures Arbiter(states[..], observationSequence)
        == Step(old(Arbiter(states[..], observationSequence)), Observe(f, m, frame))
    {
      var i := IndexOf(f);
      if i.None? {
        return;
      }
      AddEvidence(f, MarkerSeen);
      var s := states[i.value];
      var last := s.lastSequence;
      if !s.seen || s.lastFrame != frame {
        observationSequence := observationSequence + 1;
        last := observationSequence;
      }
      var score := ScoreAfter(s, m, frame);
      states[i.value] := Observation(frame, last, s.markers + {m}, s.evidence, score, true);
    }

    method IsFresh(f: Frontend) returns (fresh': bool)
      requires Valid()
      ensures fresh' == (f != Auto && f in LastSeventeen(AdvanceLog(history)))
    {
      var i := IndexOf(f);
      if i.None? {
        return false;
      }
      FreshMeansRecentlyAdvanced(history, f);
      var s := states[i.value];
      if !s.seen {
        return false;
      }
      return observationSequence >= s.lastSequence && observationSequence - s.lastSequence <= STALE_WINDOW;
    }

    method CandidateQuality(policy: InputPolicy, mask: set<Frontend>, f: Frontend) returns (healthy: bool, q: nat)
      requires states.Length == FRONTENDS
      ensures healthy == Healthy(Arbiter(states[..], observationSequence), policy, mask, f)
      ensures healthy ==> q == Quality(Arbiter(states[..], observationSequence), f)
    {
      q := 0;
      if f == Auto || f !in mask {
        return false, 0;
      }
      var s := states[IndexOf(f).value];
      if !s.seen || observationSequence < s.lastSequence || observationSequence - s.lastSequence > STALE_WINDOW {
        return false, 0;
      }
      return s.quality >= policy.minimumQuality, s.quality;
    }

    method Select(policy: InputPolicy, current: Frontend, mask: set<Frontend>) returns (r: Option<Frontend>)
      requires Valid()
      ensures r == Selected(Play(history), policy, mask, current)
    {
      ghost var a := Play(history);
      if policy.mode != Auto {
        var forced, _ := CandidateQuality(policy, mask, policy.mode);
        if forced {
          return Some(policy.mode);
        }
        if !policy.allowFallback {
          return None;
        }
      }
      var best: Option<Frontend> := None;
      var bestQuality, bestPriority := 0, 0xff;
      for priority := 0 to |policy.priority|
        invariant best.Some? <==> BestUpTo(a, policy, mask, priority).Some?
        invariant best.Some? ==>
          && bestPriority == BestUpTo(a, policy, mask, priority).value
          && best.value == policy.priority[bestPriority] && bestQuality == Quality(a, best.value)
      {
        var f := policy.priority[priority];
        var healthy, q := CandidateQuality(policy, mask, f);
        if healthy && (best.None? || q > bestQuality || (q == bestQuality && priority < bestPriority)) {
          best, bestQuality, bestPriority := Some(f), q, priority;
        }
      }
      if current != Auto && current in policy.priority {
        var healthy, q := CandidateQuality(policy, mask, current);
        if healthy && (best.None? || best.value == current || bestQuality < q + SWITCH_MARGIN) {
          return Some(current);
        }
      }
      return best;
    }
  }

  lemma OneMoreCall(history: seq<Op>, op: Op)
    ensures Play(history + [op]) == Step(Play(history), op)
  {
    assert (history + [op])[..|history|] == history;
  }
}
