/**
 * The frame-generation cadence detector: an eleven-entry sliding window of
 * repeat bits packed in one 16-bit word, and the hysteresis it decides with.
 * Frame IDs are 64-bit naturals; the counters are bytes.
 */
module FrameCadence {
  const WINDOW: nat := 11
  const ENABLE_THRESHOLD: nat := 5
  const WINDOW_MASK_PLUS_ONE: nat := 2048
  const EVICTED_WEIGHT: nat := 1024

  datatype Decision = NoChange | Enable | Disable

  datatype Detector = Detector(previous: nat, bits: nat, comparisons: nat, repeats: nat, initialized: bool)

  const CLEARED := Detector(0, 0, 0, 0, false)

  function Bit(b: bool): nat {
    if b then 1 else 0
  }

  /** observe, on the fields as they are stored: shifts, masks and byte arithmetic. */
  function Observed(d: Detector, frame: nat): Detector {
    if !d.initialized then d.(previous := frame, initialized := true)
    else if frame < d.previous then Detector(frame, 0, 0, 0, true)
    else
      var repeated := Bit(frame == d.previous);
      var evicted := if d.comparisons == WINDOW then (d.bits / EVICTED_WEIGHT) % 2 else 0;
      Detector(frame, (2 * d.bits + repeated) % WINDOW_MASK_PLUS_ONE,
        if d.comparisons < WINDOW then d.comparisons + 1 else d.comparisons,
        (d.repeats + repeated - evicted) % 256, true)
  }

  /** Whether this observation is compared with its predecessor at all. */
  predicate Compares(d: Detector, frame: nat) {
    d.initialized && frame >= d.previous
  }

  function Verdict(d: Detector, frame: nat, enabled: bool): Decision {
    var after := Observed(d, frame);
    if !Compares(d, frame) then NoChange
    else if !enabled && after.repeats >= ENABLE_THRESHOLD then Enable
    else if enabled && after.comparisons == WINDOW && after.repeats == 0 then Disable
    else NoChange
  }

  function Replay(frames: seq<nat>): Detector {
    if frames == [] then CLEARED else Observed(Replay(frames[..|frames| - 1]), frames[|frames| - 1])
  }

  // ----------------------------------------------------- the window it refines

  /** The comparison results since the start or the last backwards ID, oldest first. */
  function Comparisons(frames: seq<nat>): (c: seq<bool>)
    ensures |c| <= |frames|
  {
    var n := |frames|;
    if n <= 1 then []
    else if frames[n - 1] < frames[n - 2] then []
    else Comparisons(frames[..n - 1]) + [frames[n - 1] == frames[n - 2]]
  }

  function LastEleven(c: seq<bool>): (w: seq<bool>)
    ensures |w| == if |c| < WINDOW then |c| else WINDOW
  {
    if |c| <= WINDOW then c else c[|c| - WINDOW..]
  }

  function Repeats(w: seq<bool>): (n: nat)
    ensures n <= |w|
  {
    if w == [] then 0 else Bit(w[0]) + Repeats(w[1..])
  }

  /** The window as a binary number, newest comparison lowest. */
  function BitsOf(w: seq<bool>): nat {
    if w == [] then 0 else 2 * BitsOf(w[..|w| - 1]) + Bit(w[|w| - 1])
  }

  function Pow2(n: nat): nat {
    if n == 0 then 1 else 2 * Pow2(n - 1)
  }

  lemma {:induction false} OldestBit(w: seq<bool>)
    requires w != []
    ensures BitsOf(w) == Bit(w[0]) * Pow2(|w| - 1) + BitsOf(w[1..])
    ensures BitsOf(w[1..]) < Pow2(|w| - 1)
  {
    if |w| > 1 {
      var init := w[..|w| - 1];
      OldestBit(init);
      assert init[1..] == w[1..][..|w| - 2];
      assert Bit(w[0]) * Pow2(|w| - 1) == 2 * (Bit(w[0]) * Pow2(|w| - 2));
    }
  }

  lemma {:induction false} RepeatsAppend(w: seq<bool>, b: bool)
    ensures Repeats(w + [b]) == Repeats(w) + Bit(b)
  {
    if w != [] {
      assert (w + [b])[1..] == w[1..] + [b];
      RepeatsAppend(w[1..], b);
    } else {
      assert (w + [b])[1..] == [];
    }
  }

  /** The packed fields hold exactly the window w. */
  ghost predicate Holds(d: Detector, w: seq<bool>) {
    && |w| <= WINDOW && d.comparisons == |w| && d.repeats == Repeats(w) && d.bits == BitsOf(w)
  }

  lemma ElevenBits(w: seq<bool>)
    requires |w| == WINDOW
    ensures BitsOf(w) == Bit(w[0]) * EVICTED_WEIGHT + BitsOf(w[1..]) && BitsOf(w[1..]) < EVICTED_WEIGHT
  {
    OldestBit(w);
    assert Pow2(10) == EVICTED_WEIGHT;
  }

  lemma {:induction false} BitsBound(w: seq<bool>)
    ensures BitsOf(w) < Pow2(|w|)
  {
    if w != [] {
      BitsBound(w[..|w| - 1]);
    }
  }

  lemma {:induction false} PowersGrow(m: nat, n: nat)
    requires m <= n
    ensures Pow2(m) <= Pow2(n)
  {
    if m < n {
      PowersGrow(m, n - 1);
    }
  }

  lemma ShortShift(bits: nat, b: nat)
    requires bits < EVICTED_WEIGHT && b <= 1
    ensures (2 * bits + b) % WINDOW_MASK_PLUS_ONE == 2 * bits + b
  {
  }

  lemma FullShift(oldest: nat, low: nat, b: nat)
    requires oldest <= 1 && low < EVICTED_WEIGHT && b <= 1
    ensures ((oldest * EVICTED_WEIGHT + low) / EVICTED_WEIGHT) % 2 == oldest
    ensures (2 * (oldest * EVICTED_WEIGHT + low) + b) % WINDOW_MASK_PLUS_ONE == 2 * low + b
  {
  }

  lemma BitsAppend(w: seq<bool>, b: bool)
    ensures BitsOf(w + [b]) == 2 * BitsOf(w) + Bit(b)
  {
    assert (w + [b])[..|w|] == w;
  }

  lemma ShortBits(w: seq<bool>)
    requires |w| < WINDOW
    ensures BitsOf(w) < EVICTED_WEIGHT
  {
    BitsBound(w);
    PowersGrow(|w|, 10);
    assert Pow2(10) == EVICTED_WEIGHT;
  }

  lemma ShortWindowPushes(d: Detector, frame: nat, w: seq<bool>)
    requires Holds(d, w) && Compares(d, frame) && |w| < WINDOW
    ensures Holds(Observed(d, frame), w + [frame == d.previous])
  {
    hide BitsOf, Repeats;
    var b := frame == d.previous;
    RepeatsAppend(w, b);
    BitsAppend(w, b);
    ShortBits(w);
    ShortShift(d.bits, Bit(b));
  }

  lemma FullWindowPushes(d: Detector, frame: nat, w: seq<bool>)
    requires Holds(d, w) && Compares(d, frame) && |w| == WINDOW
    ensures Holds(Observed(d, frame), w[1..] + [frame == d.previous])
  {
    hide BitsOf, Repeats;
    var b := frame == d.previous;
    ElevenBits(w);
    FullShift(Bit(w[0]), BitsOf(w[1..]), Bit(b));
    RepeatsAppend(w[1..], b);
    BitsAppend(w[1..], b);
    RepeatsTail(w);
  }

  lemma RepeatsTail(w: seq<bool>)
    requires w != []
    ensures Repeats(w) == Bit(w[0]) + Repeats(w[1..])
  {
  }

  /** One shift-and-mask pushes the newest comparison and drops the twelfth. */
  lemma ShiftPushes(d: Detector, frame: nat, w: seq<bool>)
    requires Holds(d, w) && Compares(d, frame)
    ensures Holds(Observed(d, frame), LastEleven(w + [frame == d.previous]))
  {
    hide BitsOf, Repeats, Observed;
    var b := frame == d.previous;
    if |w| < WINDOW {
      ShortWindowPushes(d, frame, w);
      assert LastEleven(w + [b]) == w + [b];
    } else {
      FullWindowPushes(d, frame, w);
      assert LastEleven(w + [b]) == w[1..] + [b];
    }
  }

  lemma LastElevenAppends(c: seq<bool>, b: bool)
    ensures LastEleven(LastEleven(c) + [b]) == LastEleven(c + [b])
  {
  }

  lemma {:induction false} ReplayTracksTheLast(frames: seq<nat>)
    ensures Replay(frames).initialized <==> frames != []
    ensures frames != [] ==> Replay(frames).previous == frames[|frames| - 1]
  {
    if frames != [] {
      ReplayTracksTheLast(frames[..|frames| - 1]);
    }
  }

  /**
   * Refinement: after any observations the packed word is the list of the last
   * min(n, 11) comparisons since the start or the last backwards ID, and the
   * stored count is its number of repeats.
   */
  lemma {:induction false} WindowIsTheLastEleven(frames: seq<nat>)
    ensures Holds(Replay(frames), LastEleven(Comparisons(frames)))
  {
    if frames != [] {
      var n := |frames|;
      var init := frames[..n - 1];
      WindowIsTheLastEleven(init);
      ReplayTracksTheLast(init);
      if n > 1 && frames[n - 1] >= frames[n - 2] {
        var c, b := Comparisons(init), frames[n - 1] == frames[n - 2];
        assert Comparisons(frames) == c + [b] && Replay(frames) == Observed(Replay(init), frames[n - 1]);
        ShiftPushes(Replay(init), frames[n - 1], LastEleven(c));
        LastElevenAppends(c, b);
      }
    }
  }

  /** The decision in terms of the list alone. */
  lemma VerdictReadsTheList(frames: seq<nat>, frame: nat, enabled: bool)
    ensures var w := LastEleven(Comparisons(frames + [frame]));
      var v := Verdict(Replay(frames), frame, enabled);
      && (v == Enable <==> !enabled && frames != [] && Repeats(w) >= ENABLE_THRESHOLD)
      && (v == Disable <==> enabled && |w| == WINDOW && Repeats(w) == 0)
  {
    var all := frames + [frame];
    assert all[..|all| - 1] == frames;
    WindowIsTheLastEleven(all);
    ReplayTracksTheLast(frames);
  }

  // ------------------------------------------------------------ closed loop

  /** The detector driving the enabled state it is asked about, from reset and disabled. */
  datatype Loop = Loop(detector: Detector, enabled: bool, age: nat, w: seq<bool>)

  /** One observation, its decision applied; age counts the observations since the last change. */
  function Next(l: Loop, frame: nat): Loop {
    var v := Verdict(l.detector, frame, l.enabled);
    Loop(Observed(l.detector, frame),
      if v == NoChange then l.enabled else v == Enable,
      if v == NoChange then l.age + 1 else 0,
      if Compares(l.detector, frame) then LastEleven(l.w + [frame == l.detector.previous]) else [])
  }

  function Closed(frames: seq<nat>): Loop {
    if frames == [] then Loop(CLEARED, false, 0, []) else Next(Closed(frames[..|frames| - 1]), frames[|frames| - 1])
  }

  function DecisionAt(frames: seq<nat>, i: nat): Decision
    requires i < |frames|
  {
    var l := Closed(frames[..i]);
    Verdict(l.detector, frames[i], l.enabled)
  }

  /** A repeat at that distance from the newest comparison. */
  predicate RepeatAt(w: seq<bool>, age: nat) {
    age < |w| && w[|w| - 1 - age]
  }

  lemma {:induction false} ARepeatCounts(w: seq<bool>, i: nat)
    requires i < |w| && w[i]
    ensures Repeats(w) >= 1
  {
    if i > 0 {
      ARepeatCounts(w[1..], i - 1);
    }
  }

  /** `changed` says whether any decision has been made yet. */
  ghost predicate LoopOk(l: Loop, changed: bool) {
    && Holds(l.detector, l.w) && (l.detector.comparisons > 0 ==> l.detector.initialized)
    && (l.enabled ==> changed && (RepeatAt(l.w, l.age) || |l.w| <= l.age))
    && (!l.enabled ==> Repeats(l.w) < ENABLE_THRESHOLD && (changed ==> Repeats(l.w) <= l.age))
  }

  ghost predicate Changed(frames: seq<nat>) {
    exists i :: 0 <= i < |frames| && DecisionAt(frames, i) != NoChange
  }

  lemma {:induction false} RepeatsDropOldest(w: seq<bool>)
    requires w != []
    ensures Repeats(w[1..]) <= Repeats(w) <= Repeats(w[1..]) + 1
  {
  }

  /** Pushing one comparison raises the count by at most that comparison. */
  lemma PushCounts(w: seq<bool>, b: bool)
    requires |w| <= WINDOW
    ensures Repeats(LastEleven(w + [b])) <= Repeats(w) + Bit(b)
  {
    RepeatsAppend(w, b);
    if |w| == WINDOW {
      assert LastEleven(w + [b]) == (w + [b])[1..];
      RepeatsDropOldest(w + [b]);
    }
  }

  lemma NoRepeatMeansCalm(w: seq<bool>, age: nat)
    requires Repeats(w) == 0
    ensures !RepeatAt(w, age)
  {
    if RepeatAt(w, age) {
      ARepeatCounts(w, |w| - 1 - age);
    }
  }

  /** The age never exceeds the distance to any earlier change. */
  lemma {:induction false} AgeIsRecent(frames: seq<nat>, i: nat)
    requires i < |frames| && DecisionAt(frames, i) != NoChange
    ensures Closed(frames).age <= |frames| - 1 - i
  {
    var init := frames[..|frames| - 1];
    if i < |init| {
      assert init[..i] == frames[..i];
      AgeIsRecent(init, i);
    } else {
      assert frames[..i] == init;
    }
  }

  /** A repeat moves one place towards eviction with every observation. */
  lemma RepeatAges(w: seq<bool>, b: bool, age: nat)
    requires |w| <= WINDOW && (RepeatAt(w, age) || |w| <= age)
    ensures var w' := LastEleven(w + [b]); RepeatAt(w', age + 1) || |w'| <= age + 1
  {
    var w' := LastEleven(w + [b]);
    if RepeatAt(w, age) && age + 1 < |w'| {
      assert w'[|w'| - 2 - age] == w[|w| - 1 - age];
    }
  }

  lemma NextStaysOk(l: Loop, frame: nat, changed: bool)
    requires LoopOk(l, changed)
    ensures LoopOk(Next(l, frame), changed || Verdict(l.detector, frame, l.enabled) != NoChange)
  {
    if Compares(l.detector, frame) {
      ComparedStaysOk(l, frame, changed);
    }
  }

  lemma ComparedStaysOk(l: Loop, frame: nat, changed: bool)
    requires LoopOk(l, changed) && Compares(l.detector, frame)
    ensures LoopOk(Next(l, frame), changed || Verdict(l.detector, frame, l.enabled) != NoChange)
  {
    hide BitsOf, Repeats, LastEleven, Observed, RepeatAt;
    var b := frame == l.detector.previous;
    ShiftPushes(l.detector, frame, l.w);
    ObservedIsInitialized(l.detector, frame);
    PushCounts(l.w, b);
    if l.enabled {
      RepeatAges(l.w, b, l.age);
    } else if Verdict(l.detector, frame, l.enabled) == Enable {
      NewestRepeat(l.w, b);
    }
  }

  lemma ObservedIsInitialized(d: Detector, frame: nat)
    ensures Observed(d, frame).initialized
  {
  }

  /** The count only rises with a repeat, which is then the newest comparison. */
  lemma {:induction false} NewestRepeat(w: seq<bool>, b: bool)
    requires |w| <= WINDOW && Repeats(w) < Repeats(LastEleven(w + [b]))
    ensures RepeatAt(LastEleven(w + [b]), 0)
  {
    hide Repeats, LastEleven, RepeatAt;
    PushCounts(w, b);
    NewestIsLast(w, b);
  }

  lemma NewestIsLast(w: seq<bool>, b: bool)
    ensures RepeatAt(LastEleven(w + [b]), 0) == b
  {
  }

  lemma {:induction false} LoopStaysOk(frames: seq<nat>)
    ensures LoopOk(Closed(frames), Changed(frames))
  {
    if frames != [] {
      var init, frame := frames[..|frames| - 1], frames[|frames| - 1];
      LoopStaysOk(init);
      NextStaysOk(Closed(init), frame, Changed(init));
      ChangedGrows(frames);
    }
  }

  lemma ChangedGrows(frames: seq<nat>)
    requires frames != []
    ensures Changed(frames) <==> Changed(frames[..|frames| - 1]) || DecisionAt(frames, |frames| - 1) != NoChange
  {
    var init := frames[..|frames| - 1];
    forall i | 0 <= i < |init| ensures DecisionAt(init, i) == DecisionAt(frames, i) {
      assert init[..i] == frames[..i];
    }
  }

  /** A Disable needs every repeat gone, and the one of the last change takes 11 observations to go. */
  lemma DisableIsOld(l: Loop, frame: nat, changed: bool)
    requires LoopOk(l, changed) && Verdict(l.detector, frame, l.enabled) == Disable
    ensures l.age + 1 >= WINDOW
  {
    hide BitsOf, Repeats, LastEleven, RepeatAt, Observed;
    var b := frame == l.detector.previous;
    ShiftPushes(l.detector, frame, l.w);
    RepeatAges(l.w, b, l.age);
    NoRepeatMeansCalm(LastEleven(l.w + [b]), l.age + 1);
  }

  /** An Enable needs 5 repeats, and after a change there is at most one per observation. */
  lemma EnableIsOld(l: Loop, frame: nat)
    requires LoopOk(l, true) && Verdict(l.detector, frame, l.enabled) == Enable
    ensures l.age + 1 >= ENABLE_THRESHOLD
  {
    hide BitsOf, Repeats, LastEleven, Observed;
    ShiftPushes(l.detector, frame, l.w);
    PushCounts(l.w, frame == l.detector.previous);
  }

  /** The loop just before a decision, the one of observation i being behind it. */
  lemma LoopBefore(frames: seq<nat>, i: nat, j: nat)
    requires i < j <= |frames| && DecisionAt(frames, i) != NoChange
    ensures LoopOk(Closed(frames[..j]), true) && Closed(frames[..j]).age <= j - 1 - i
  {
    hide LoopOk, Closed, Verdict;
    var before := frames[..j];
    assert before[..i] == frames[..i];
    assert DecisionAt(before, i) == DecisionAt(frames, i);
    LoopStaysOk(before);
    AgeIsRecent(before, i);
    assert Changed(before);
  }

  /** From reset and disabled, an Enable is followed by a Disable no sooner than 11 observations later. */
  lemma EnableHoldsElevenObservations(frames: seq<nat>, i: nat, j: nat)
    requires i < j < |frames| && DecisionAt(frames, i) == Enable && DecisionAt(frames, j) == Disable
    ensures j - i >= WINDOW
  {
    hide LoopOk, Closed, Verdict;
    LoopBefore(frames, i, j);
    DisableIsOld(Closed(frames[..j]), frames[j], true);
  }

  /** And a Disable is followed by an Enable no sooner than 5 observations later. */
  lemma DisableHoldsFiveObservations(frames: seq<nat>, i: nat, j: nat)
    requires i < j < |frames| && DecisionAt(frames, i) == Disable && DecisionAt(frames, j) == Enable
    ensures j - i >= ENABLE_THRESHOLD
  {
    hide LoopOk, Closed, Verdict;
    LoopBefore(frames, i, j);
    EnableIsOld(Closed(frames[..j]), frames[j]);
  }

  /** The closed loop's detector is the replayed one: decisions do not feed back into the window. */
  lemma {:induction false} ClosedLoopReplays(frames: seq<nat>)
    ensures Closed(frames).detector == Replay(frames)
  {
    if frames != [] {
      ClosedLoopReplays(frames[..|frames| - 1]);
    }
  }

  /**
   * What the closed loop decides at each observation is read off the list of
   * comparisons up to it: it turns on exactly when it is off and the last 11
   * hold 5 repeats, off exactly when it is on and 11 of them hold none.
   */
  lemma ClosedLoopReadsTheList(frames: seq<nat>, i: nat)
    requires i < |frames|
    ensures var enabled, after := Closed(frames[..i]).enabled, Closed(frames[..i + 1]).enabled;
      var w := LastEleven(Comparisons(frames[..i + 1]));
      && (DecisionAt(frames, i) == Enable <==> !enabled && Repeats(w) >= ENABLE_THRESHOLD)
      && (DecisionAt(frames, i) == Disable <==> enabled && |w| == WINDOW && Repeats(w) == 0)
      && after == (if enabled then |w| < WINDOW || Repeats(w) > 0 else Repeats(w) >= ENABLE_THRESHOLD)
  {
    hide Verdict, Observed, Replay, Repeats, BitsOf;
    var before := frames[..i];
    assert frames[..i + 1] == before + [frames[i]];
    assert (before + [frames[i]])[..i] == before;
    ClosedLoopReplays(before);
    VerdictReadsTheList(before, frames[i], Closed(before).enabled);
  }

  // --------------------------------------------------------- the mutable object

  class FrameGenerationCadenceDetector {
    var previousFrameId: nat
    var repeatBits: nat
    var comparisons: nat
    var repeatCount: nat
    var initialized: bool
    ghost var frames: seq<nat>

    ghost function Stored(): Detector
      reads this
    {
      Detector(previousFrameId, repeatBits, comparisons, repeatCount, initialized)
    }

    ghost predicate Valid()
      reads this
    {
      Stored() == Replay(frames)
    }

    constructor ()
      ensures Valid() && frames == []
    {
      previousFrameId, repeatBits, comparisons, repeatCount, initialized, frames := 0, 0, 0, 0, false, [];
    }

    method Reset()
      modifies this
      ensures Valid() && frames == []
    {
      previousFrameId, repeatBits, comparisons, repeatCount, initialized, frames := 0, 0, 0, 0, false, [];
    }

    /** The decision is the list's decision over everything observed since the last reset. */
    method Observe(frame: nat, currentlyEnabled: bool) returns (d: Decision)
      requires Valid()
      modifies this
      ensures Valid() && frames == old(frames) + [frame]
      ensures var w := LastEleven(Comparisons(frames));
        && (d == Enable <==> !currentlyEnabled && old(frames) != [] && Repeats(w) >= ENABLE_THRESHOLD)
        && (d == Disable <==> currentlyEnabled && |w| == WINDOW && Repeats(w) == 0)
        && comparisons == |w| && repeatCount == Repeats(w)
    {
      VerdictReadsTheList(frames, frame, currentlyEnabled);
      WindowIsTheLastEleven(frames + [frame]);
      assert (frames + [frame])[..|frames|] == frames;
      d := Push(frame, currentlyEnabled);
      frames := frames + [frame];
    }

    /** The stored fields after one observation, and the decision they give. */
    method Push(frame: nat, currentlyEnabled: bool) returns (d: Decision)
      modifies this
      ensures Stored() == Observed(old(Stored()), frame) && frames == old(frames)
      ensures d == Verdict(old(Stored()), frame, currentlyEnabled)
    {
      if !initialized {
        previousFrameId := frame;
        initialized := true;
        return NoChange;
      }
      if frame < previousFrameId {
        previousFrameId, repeatBits, comparisons, repeatCount := frame, 0, 0, 0;
        return NoChange;
      }
      var repeated := if frame == previousFrameId then 1 else 0;
      previousFrameId := frame;
      var evicted := if comparisons == WINDOW then (repeatBits / EVICTED_WEIGHT) % 2 else 0;
      repeatBits := (2 * repeatBits + repeated) % WINDOW_MASK_PLUS_ONE;
      if comparisons < WINDOW {
        comparisons := comparisons + 1;
      }
      repeatCount := (repeatCount + repeated - evicted) % 256;
      if !currentlyEnabled && repeatCount >= ENABLE_THRESHOLD {
        return Enable;
      }
      if currentlyEnabled && comparisons == WINDOW && repeatCount == 0 {
        return Disable;
      }
      return NoChange;
    }
  }
}
