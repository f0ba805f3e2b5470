/**
 * What the router does with the calls made to it, over whole runs: which of a
 * producer's calls reach its detector, which decisions they hand out, how soon
 * they return and when one of them takes the stream.
 */
module RouterCalls {
  import opened FrameCadence
  import opened CadenceRouter
  import opened Options

  // ------------------------------------------------------------- calls in a run

  /** Step i is a call by t: an observation that finds the thread between calls. */
  ghost predicate Calls(r: Router, run: seq<Action>, i: nat, t: nat)
    requires r.owners != [] && t < |r.threads|
  {
    i < |run| && run[i].Observe? && run[i].t == t && Run(r, run[..i]).threads[t].pc.Idle?
  }

  /** Step i binds t's thread-local state anew. */
  ghost predicate Rebinds(r: Router, run: seq<Action>, i: nat, t: nat)
    requires r.owners != [] && t < |r.threads|
  {
    i < |run| && run[i] == Rebind(t) && Run(r, run[..i]).threads[t].pc.Idle?
  }

  /** The last instant at which the owner word did not show t, or t's state was bound anew. */
  ghost function Since(r: Router, run: seq<Action>, t: nat): (z: nat)
    requires r.owners != [] && t < |r.threads|
    ensures z <= |run|
    decreases |run|
  {
    if run == [] then 0
    else if Run(r, run).owner != Token(t) || Rebinds(r, run, |run| - 1, t) then |run|
    else Since(r, run[..|run| - 1], t)
  }

  /** The frame of t's call in progress, if it is in one. */
  ghost function Unfinished(r: Router, run: seq<Action>, t: nat): seq<nat>
    requires r.owners != [] && t < |r.threads|
    decreases |run|
  {
    if run == [] || Run(r, run).threads[t].pc.Idle? then []
    else if Calls(r, run, |run| - 1, t) then [run[|run| - 1].frame]
    else Unfinished(r, run[..|run| - 1], t)
  }

  /** The frames of t's calls that had not returned at instant z or were made since, in order. */
  ghost function CallsFrom(r: Router, run: seq<Action>, t: nat, z: nat): seq<nat>
    requires r.owners != [] && t < |r.threads|
    decreases |run|
  {
    if |run| <= z then Unfinished(r, run, t)
    else
      CallsFrom(r, run[..|run| - 1], t, z) + if Calls(r, run, |run| - 1, t) then [run[|run| - 1].frame] else []
  }

  /** The decisions handed to thread t, in order. */
  function DecisionsOf(log: seq<Returned>, t: nat): seq<Decision> {
    if log == [] then []
    else
      DecisionsOf(log[..|log| - 1], t) + if log[|log| - 1].thread == t then [log[|log| - 1].decision] else []
  }

  /** The decision a list of observations calls for. */
  function CalledFor(frames: seq<nat>, enabled: bool): seq<Decision> {
    var w := LastEleven(Comparisons(frames));
    if !enabled && Repeats(w) >= ENABLE_THRESHOLD then [Enable]
    else if enabled && |w| == WINDOW && Repeats(w) == 0 then [Disable]
    else []
  }

  // ------------------------------------------------------------ sampling invariant

  /** The frame of a call that has not reached the detector yet. */
  function Pending(pc: Pc): seq<nat> {
    match pc
    case CheckOwner(frame, _, _) => [frame]
    case LoadOwner(frame, _, _) => [frame]
    case LoadFrame(frame, _, _, _, _) => [frame]
    case Claim(frame, _, _, _) => [frame]
    case StoreFrame(frame, _) => [frame]
    case Idle => []
    case Confirm(_, _) => []
  }

  ghost predicate ShapeOk(thread: Thread) {
    && (!thread.local.owned ==> thread.local.window == [])
    && (thread.pc.LoadOwner? || thread.pc.LoadFrame? || thread.pc.Claim? ==> !thread.local.owned)
    && (thread.pc.CheckOwner? || thread.pc.StoreFrame? || thread.pc.Confirm? ==> thread.local.owned)
  }

  ghost predicate SampledOk(thread: Thread, owner: nat, t: nat, calls: seq<nat>, unfinished: seq<nat>) {
    && ShapeOk(thread)
    && (Pending(thread.pc) != [] ==> unfinished == Pending(thread.pc))
    && (owner == Token(t) ==>
      && !thread.pc.LoadFrame? && !thread.pc.Claim?
      && FramesOf(thread.local.window) + Pending(thread.pc) == calls)
  }

  ghost predicate Sampled(r: Router, run: seq<Action>, t: nat)
    requires r.owners != [] && t < |r.threads|
  {
    var r' := Run(r, run);
    SampledOk(r'.threads[t], r'.owner, t, CallsFrom(r, run, t, Since(r, run, t)), Unfinished(r, run, t))
  }

  lemma DetectSamples(l: Local, frame: nat, enabled: bool, now: nat)
    ensures var after := Detect(l, frame, enabled, now);
      && FramesOf(after.local.window) + Pending(after.pc) == FramesOf(l.window) + [frame]
      && Pending(after.pc) == [] && (after.pc.Idle? || after.pc.Confirm?)
      && after.local.owned == l.owned
  {
    hide Verdict, Observed, FramesOf;
    FramesAppend(l.window, Sample(frame, now));
  }

  lemma CallSamples(r: Router, t: nat, frame: nat, enabled: bool, calls: seq<nat>, unfinished: seq<nat>)
    requires r.owners != [] && t < |r.threads| && r.threads[t].pc.Idle?
    requires SampledOk(r.threads[t], r.owner, t, calls, unfinished)
    ensures var r' := Step(r, Observe(t, frame, enabled));
      SampledOk(r'.threads[t], r'.owner, t, calls + [frame], [frame])
  {
    hide Detect, FramesOf, PublishesProgress, AdvanceThread;
    DetectSamples(r.threads[t].local, frame, enabled, |r.owners|);
  }

  /** Reading the words: the call goes on with its frame, or gives up while the stream is another's. */
  lemma ReadSamples(r: Router, t: nat, calls: seq<nat>, unfinished: seq<nat>)
    requires r.owners != [] && t < |r.threads| && SampledOk(r.threads[t], r.owner, t, calls, unfinished)
    requires !r.threads[t].pc.Claim? && !r.threads[t].pc.StoreFrame?
    ensures var r' := Step(r, Advance(t));
      r'.owner == r.owner && SampledOk(r'.threads[t], r'.owner, t, calls, unfinished)
  {
    hide Detect, MayClaim;
  }

  lemma StoreSamples(r: Router, t: nat, calls: seq<nat>, unfinished: seq<nat>)
    requires r.owners != [] && t < |r.threads| && SampledOk(r.threads[t], r.owner, t, calls, unfinished)
    requires r.threads[t].pc.StoreFrame?
    ensures var r' := Step(r, Advance(t));
      r'.owner == r.owner && SampledOk(r'.threads[t], r'.owner, t, calls, unfinished)
  {
    hide Detect, MayClaim, FramesOf;
    DetectSamples(r.threads[t].local, r.threads[t].pc.frame, r.threads[t].pc.enabled, |r.owners|);
  }

  /** The tenure a claim begins starts with the claiming call. */
  lemma ClaimSamples(r: Router, t: nat, calls: seq<nat>, unfinished: seq<nat>)
    requires r.owners != [] && t < |r.threads| && SampledOk(r.threads[t], r.owner, t, calls, unfinished)
    requires r.threads[t].pc.Claim?
    ensures var r' := Step(r, Advance(t));
      r.owner != Token(t) && SampledOk(r'.threads[t], r'.owner, t, unfinished, unfinished)
  {
    hide Detect, MayClaim;
  }

  /** Other threads and resets take the word from t or leave it; they never give it to t. */
  lemma OthersSample(r: Router, a: Action, t: nat, calls: seq<nat>, unfinished: seq<nat>)
    requires r.owners != [] && t < |r.threads| && SampledOk(r.threads[t], r.owner, t, calls, unfinished)
    requires a != Advance(t) && !(a.Observe? && a.t == t && r.threads[t].pc.Idle?)
    requires !(a == Rebind(t) && r.threads[t].pc.Idle?)
    ensures var r' := Step(r, a);
      && SampledOk(r'.threads[t], r'.owner, t, calls, unfinished)
      && (r'.owner == Token(t) ==> r.owner == Token(t))
      && r'.threads[t] == r.threads[t]
  {
    hide Call, Detect, Enter, MayClaim, FramesOf;
  }

  ghost predicate IsCall(r: Router, a: Action, t: nat)
    requires t < |r.threads|
  {
    a.Observe? && a.t == t && r.threads[t].pc.Idle?
  }

  ghost predicate IsRebind(r: Router, a: Action, t: nat)
    requires t < |r.threads|
  {
    a == Rebind(t) && r.threads[t].pc.Idle?
  }

  /** How the lists grow with one more step. */
  lemma ListsGrow(r: Router, run: seq<Action>, a: Action, t: nat)
    requires r.owners != [] && t < |r.threads|
    ensures var before, after, all := Run(r, run), Run(r, run + [a]), run + [a];
      && after == Step(before, a)
      && Unfinished(r, all, t) == (
        if after.threads[t].pc.Idle? then [] else if IsCall(before, a, t) then [a.frame] else Unfinished(r, run, t))
      && (before.owner != Token(t) ==> CallsFrom(r, run, t, Since(r, run, t)) == Unfinished(r, run, t))
      && (after.owner == Token(t) && IsRebind(before, a, t) ==>
        CallsFrom(r, all, t, Since(r, all, t)) == Unfinished(r, all, t))
      && (after.owner == Token(t) && !IsRebind(before, a, t) ==>
        CallsFrom(r, all, t, Since(r, all, t)) ==
        CallsFrom(r, run, t, Since(r, run, t)) + (if IsCall(before, a, t) then [a.frame] else []))
  {
    var all := run + [a];
    assert all[..|all| - 1] == run;
  }

  lemma AdvanceKeepsSampled(r: Router, run: seq<Action>, t: nat)
    requires r.owners != [] && t < |r.threads| && Sampled(r, run, t)
    ensures Sampled(r, run + [Advance(t)], t)
  {
    hide Run, Step, CallsFrom, Since, Unfinished, FramesOf;
    var before := Run(r, run);
    var calls, unfinished := CallsFrom(r, run, t, Since(r, run, t)), Unfinished(r, run, t);
    ListsGrow(r, run, Advance(t), t);
    if before.threads[t].pc.Claim? {
      ClaimSamples(before, t, calls, unfinished);
    } else if before.threads[t].pc.StoreFrame? {
      StoreSamples(before, t, calls, unfinished);
    } else {
      ReadSamples(before, t, calls, unfinished);
    }
  }

  lemma StepKeepsSampled(r: Router, run: seq<Action>, a: Action, t: nat)
    requires r.owners != [] && t < |r.threads| && Sampled(r, run, t)
    ensures Sampled(r, run + [a], t)
  {
    hide Run, CallsFrom, Since, Unfinished, Call, Detect, MayClaim;
    var before := Run(r, run);
    var calls, unfinished := CallsFrom(r, run, t, Since(r, run, t)), Unfinished(r, run, t);
    ListsGrow(r, run, a, t);
    if a == Advance(t) {
      AdvanceKeepsSampled(r, run, t);
    } else if IsCall(before, a, t) {
      CallSamples(before, t, a.frame, a.enabled, calls, unfinished);
    } else if !IsRebind(before, a, t) {
      OthersSample(before, a, t, calls, unfinished);
    }
  }

  lemma {:induction false} RunKeepsSampled(r: Router, run: seq<Action>, t: nat)
    requires Start(r) && t < |r.threads|
    ensures Sampled(r, run, t)
    decreases |run|
  {
    hide Sampled;
    if run == [] {
      StartIsSampled(r, t);
    } else {
      RunKeepsSampled(r, run[..|run| - 1], t);
      StepKeepsSampled(r, run[..|run| - 1], run[|run| - 1], t);
      assert run[..|run| - 1] + [run[|run| - 1]] == run;
    }
  }

  lemma StartIsSampled(r: Router, t: nat)
    requires Start(r) && t < |r.threads|
    ensures Sampled(r, [], t)
  {
  }

  /**
   * Under any interleaving, while the owner word shows a producer, its
   * detector's window holds the frame of every call the producer made in its
   * present tenure, in order and duplicates included: from the call that was in
   * progress when the tenure began up to the newest, a call still on its way to
   * the detector left aside.
   */
  lemma EveryOwnedCallIsSampled(r: Router, run: seq<Action>, t: nat)
    requires Start(r) && t < |r.threads| && Run(r, run).owner == Token(t)
    ensures var thread := Run(r, run).threads[t];
      var calls := CallsFrom(r, run, t, Since(r, run, t));
      var sampled := FramesOf(thread.local.window);
      && thread.local.detector == Replay(sampled)
      && (thread.pc.Idle? || thread.pc.Confirm? ==> sampled == calls)
      && (!thread.pc.Idle? && !thread.pc.Confirm? ==> calls != [] && sampled == calls[..|calls| - 1])
  {
    hide Run, CallsFrom, Since, Unfinished, FramesOf, Replay;
    RunKeepsSampled(r, run, t);
    RunKeepsInv(r, run);
    var thread := Run(r, run).threads[t];
    assert ThreadOk(Run(r, run).owners, Token(t), thread, t);
    var sampled := FramesOf(thread.local.window);
    assert Pending(thread.pc) == [] ==> sampled + [] == sampled;
  }

  // ------------------------------------------------------------------ decisions

  /** From call i up to instant j thread t has not returned. */
  ghost predicate InCall(r: Router, run: seq<Action>, i: nat, j: nat, t: nat)
    requires r.owners != [] && t < |r.threads|
  {
    && Calls(r, run, i, t) && i <= j <= |run|
    && forall k | i < k <= j :: !Run(r, run[..k]).threads[t].pc.Idle?
  }

  lemma DecisionsAppend(log: seq<Returned>, d: Returned, t: nat)
    ensures DecisionsOf(log + [d], t) == DecisionsOf(log, t) + (if d.thread == t then [d.decision] else [])
  {
    assert (log + [d])[..|log|] == log;
  }

  /** Until a call returns it keeps its flag, and nobody hands its thread a decision. */
  lemma CallGoesOn(r: Router, a: Action, t: nat, enabled: bool)
    requires r.owners != [] && t < |r.threads|
    requires if r.threads[t].pc.Idle? then IsCall(r, a, t) && a.enabled == enabled else r.threads[t].pc.enabled == enabled
    requires !Step(r, a).threads[t].pc.Idle?
    ensures Step(r, a).threads[t].pc.enabled == enabled
    ensures DecisionsOf(Step(r, a).returned, t) == DecisionsOf(r.returned, t)
  {
    hide MayClaim, Verdict, Observed, DecisionsOf, PublishesProgress;
    if a.Advance? && a.t < |r.threads| && r.threads[a.t].pc.Confirm? && r.owner == Token(a.t) {
      var l := r.threads[a.t].local;
      DecisionsAppend(r.returned,
        Returned(a.t, r.threads[a.t].pc.decision, r.threads[a.t].pc.enabled, l.window, l.entered, |r.owners|), t);
    }
  }

  /** A prefix of a call is a call in progress. */
  lemma InCallBefore(r: Router, run: seq<Action>, i: nat, j: nat, t: nat)
    requires r.owners != [] && t < |r.threads| && InCall(r, run, i, j, t) && i < j
    ensures run[..j][..j - 1] == run[..j - 1] && InCall(r, run, i, j - 1, t)
  {
  }

  lemma {:induction false} CallInProgress(r: Router, run: seq<Action>, i: nat, j: nat, t: nat)
    requires r.owners != [] && t < |r.threads| && InCall(r, run, i, j, t) && i < j
    ensures var now := Run(r, run[..j]);
      && !now.threads[t].pc.Idle? && now.threads[t].pc.enabled == run[i].enabled
      && DecisionsOf(now.returned, t) == DecisionsOf(Run(r, run[..i]).returned, t)
    decreases j
  {
    hide Step, DecisionsOf;
    InCallBefore(r, run, i, j, t);
    if i + 1 < j {
      CallInProgress(r, run, i, j - 1, t);
    }
    CallGoesOn(Run(r, run[..j - 1]), run[j - 1], t, run[i].enabled);
  }

  /** The verdict on one more observation, as the list calls for it. */
  lemma VerdictIsCalledFor(frames: seq<nat>, frame: nat, enabled: bool)
    ensures var v := Verdict(Replay(frames), frame, enabled);
      CalledFor(frames + [frame], enabled) == (if v == NoChange then [] else [v])
  {
    hide Verdict, Replay, Repeats;
    VerdictReadsTheList(frames, frame, enabled);
    if frames == [] {
      FewRepeats(frame);
    }
  }

  lemma FewRepeats(frame: nat)
    ensures Repeats(LastEleven(Comparisons([] + [frame]))) == 0
  {
  }

  /** The step at which a call returns hands out what the window calls for, if the word still shows the thread. */
  ghost predicate Answers(r: Router, a: Action, t: nat, enabled: bool)
    requires r.owners != [] && t < |r.threads|
  {
    var r' := Step(r, a);
    DecisionsOf(r'.returned, t) == DecisionsOf(r.returned, t) +
      if r'.owner == Token(t) then CalledFor(FramesOf(r'.threads[t].local.window), enabled) else []
  }

  lemma DetectAnswers(l: Local, frame: nat, enabled: bool, now: nat)
    requires l.detector == Replay(FramesOf(l.window)) && Detect(l, frame, enabled, now).pc.Idle?
    ensures CalledFor(FramesOf(Detect(l, frame, enabled, now).local.window), enabled) == []
  {
    hide FramesOf, Replay, Verdict, Observed, CalledFor;
    FramesAppend(l.window, Sample(frame, now));
    VerdictIsCalledFor(FramesOf(l.window), frame, enabled);
  }

  lemma JustifiedIsCalledFor(decision: Decision, enabled: bool, window: seq<nat>)
    requires Justified(decision, enabled, window)
    ensures CalledFor(window, enabled) == [decision]
  {
    hide Replay, Verdict, CalledFor;
    var n := |window| - 1;
    VerdictIsCalledFor(window[..n], window[n], enabled);
    assert window[..n] + [window[n]] == window;
  }

  lemma CallAnswers(r: Router, a: Action, t: nat)
    requires Inv(r) && t < |r.threads| && IsCall(r, a, t) && Step(r, a).threads[t].pc.Idle?
    ensures Answers(r, a, t, a.enabled)
  {
    hide FramesOf, Replay, PublishesProgress, Detect, CalledFor, DecisionsOf, TakenWithin;
    var l := r.threads[t].local;
    assert ThreadOk(r.owners, r.owner, r.threads[t], t);
    DetectAnswers(l, a.frame, a.enabled, |r.owners|);
  }

  lemma ConfirmAnswers(r: Router, t: nat)
    requires Inv(r) && t < |r.threads| && r.threads[t].pc.Confirm?
    ensures Answers(r, Advance(t), t, r.threads[t].pc.enabled)
  {
    hide FramesOf, Replay, CalledFor, DecisionsOf, TakenWithin, Justified;
    var l, pc := r.threads[t].local, r.threads[t].pc;
    assert ThreadOk(r.owners, r.owner, r.threads[t], t);
    DecisionsAppend(r.returned, Returned(t, pc.decision, pc.enabled, l.window, l.entered, |r.owners|), t);
    JustifiedIsCalledFor(pc.decision, pc.enabled, FramesOf(l.window));
  }

  lemma StoreAnswers(r: Router, t: nat)
    requires Inv(r) && t < |r.threads| && r.threads[t].pc.StoreFrame? && Step(r, Advance(t)).threads[t].pc.Idle?
    ensures Answers(r, Advance(t), t, r.threads[t].pc.enabled)
  {
    hide FramesOf, Replay, Detect, CalledFor, DecisionsOf, TakenWithin;
    assert ThreadOk(r.owners, r.owner, r.threads[t], t);
    DetectAnswers(r.threads[t].local, r.threads[t].pc.frame, r.threads[t].pc.enabled, |r.owners|);
  }

  lemma RefusalAnswers(r: Router, t: nat, enabled: bool)
    requires Inv(r) && t < |r.threads| && Step(r, Advance(t)).threads[t].pc.Idle?
    requires !r.threads[t].pc.Idle? && !r.threads[t].pc.Confirm? && !r.threads[t].pc.StoreFrame?
    requires r.threads[t].pc.LoadFrame? || r.threads[t].pc.Claim? ==> r.owner != Token(t)
    ensures Answers(r, Advance(t), t, enabled)
  {
    hide FramesOf, Detect, CalledFor, DecisionsOf, MayClaim;
  }

  lemma ReturnAnswers(r: Router, a: Action, t: nat, enabled: bool)
    requires Inv(r) && t < |r.threads| && Step(r, a).threads[t].pc.Idle?
    requires if r.threads[t].pc.Idle? then IsCall(r, a, t) && a.enabled == enabled else r.threads[t].pc.enabled == enabled
    requires r.threads[t].pc.LoadFrame? || r.threads[t].pc.Claim? ==> r.owner != Token(t)
    ensures Answers(r, a, t, enabled)
  {
    hide Answers, AdvanceThread, ThreadOk, ReturnedOk;
    var pc := r.threads[t].pc;
    if pc.Idle? {
      CallAnswers(r, a, t);
    } else {
      OnlyItsOwnStepReturns(r, a, t);
      if pc.Confirm? {
        ConfirmAnswers(r, t);
      } else if pc.StoreFrame? {
        StoreAnswers(r, t);
      } else {
        RefusalAnswers(r, t, enabled);
      }
    }
  }

  lemma OnlyItsOwnStepReturns(r: Router, a: Action, t: nat)
    requires r.owners != [] && t < |r.threads| && !r.threads[t].pc.Idle? && Step(r, a).threads[t].pc.Idle?
    ensures a == Advance(t)
  {
    hide Call, Detect, Enter, MayClaim;
  }

  /**
   * Under any interleaving, a call that returns while the owner word shows its
   * thread hands out exactly one decision if the calls of the tenure call for
   * it, Enable when disabled with at least 5 repeats among the last 11
   * comparisons and Disable when enabled with 11 of them and no repeat, and
   * none otherwise; a call that returns while the stream is not its thread's
   * hands out none.
   */
  lemma EveryOwnedCallIsAnswered(r: Router, run: seq<Action>, i: nat, t: nat)
    requires Start(r) && t < |r.threads| && run != []
    requires InCall(r, run, i, |run| - 1, t) && Run(r, run).threads[t].pc.Idle?
    ensures var r' := Run(r, run);
      var w := LastEleven(Comparisons(CallsFrom(r, run, t, Since(r, run, t))));
      var enabled := run[i].enabled;
      DecisionsOf(r'.returned, t) == DecisionsOf(Run(r, run[..i]).returned, t) + (
        if r'.owner != Token(t) then []
        else if !enabled && Repeats(w) >= 5 then [Enable]
        else if enabled && |w| == 11 && Repeats(w) == 0 then [Disable]
        else [])
  {
    hide Step, DecisionsOf, CallsFrom, Since, Inv, Sampled, Repeats, LastEleven, FramesOf, Replay;
    var init, a := run[..|run| - 1], run[|run| - 1];
    var before := Run(r, init);
    var enabled := run[i].enabled;
    RunKeepsInv(r, init);
    RunKeepsSampled(r, init, t);
    ReadsWhileForeign(r, init, t);
    if i < |run| - 1 {
      CallInProgress(r, run, i, |run| - 1, t);
    }
    ReturnAnswers(before, a, t, enabled);
    if Run(r, run).owner == Token(t) {
      EveryOwnedCallIsSampled(r, run, t);
    }
  }

  lemma ReadsWhileForeign(r: Router, run: seq<Action>, t: nat)
    requires r.owners != [] && t < |r.threads| && Sampled(r, run, t)
    ensures var now := Run(r, run);
      now.threads[t].pc.LoadFrame? || now.threads[t].pc.Claim? ==> now.owner != Token(t)
  {
    hide Run, CallsFrom, Since, Unfinished, FramesOf;
  }

  // ---------------------------------------------------------------- publications

  /** The frame t published last since its state was bound. */
  ghost function LastPublished(r: Router, run: seq<Action>, t: nat): Option<nat>
    requires r.owners != [] && t < |r.threads|
    decreases |run|
  {
    if run == [] then None
    else
      var init, a := run[..|run| - 1], run[|run| - 1];
      var before := Run(r, init).threads[t];
      if a == Advance(t) && before.pc.StoreFrame? then Some(before.pc.frame)
      else if IsRebind(Run(r, init), a, t) then None
      else LastPublished(r, init, t)
  }

  /** An owner remembers the frame it published last, or is about to publish the one it remembers. */
  ghost predicate Remembers(thread: Thread, published: Option<nat>) {
    && ShapeOk(thread)
    && (thread.local.owned ==>
      && thread.local.lastValid
      && (if thread.pc.StoreFrame? then thread.local.lastFrame == thread.pc.frame
          else published == Some(thread.local.lastFrame)))
  }

  lemma StepRemembers(r: Router, a: Action, t: nat, published: Option<nat>)
    requires r.owners != [] && t < |r.threads| && Remembers(r.threads[t], published)
    ensures var before, after := r.threads[t], Step(r, a).threads[t];
      Remembers(after,
        if a == Advance(t) && before.pc.StoreFrame? then Some(before.pc.frame)
        else if IsRebind(r, a, t) then None
        else published)
  {
    hide MayClaim, Verdict, Observed;
  }

  lemma {:induction false} RunRemembers(r: Router, run: seq<Action>, t: nat)
    requires Start(r) && t < |r.threads|
    ensures Remembers(Run(r, run).threads[t], LastPublished(r, run, t))
    decreases |run|
  {
    hide Step, Remembers;
    if run == [] {
      NothingToRemember(r, t);
    } else {
      RunRemembers(r, run[..|run| - 1], t);
      StepRemembers(Run(r, run[..|run| - 1]), run[|run| - 1], t, LastPublished(r, run[..|run| - 1], t));
    }
  }

  lemma NothingToRemember(r: Router, t: nat)
    requires Start(r) && t < |r.threads|
    ensures Remembers(r.threads[t], None)
  {
  }

  /**
   * The common path stays off the shared words: a producer that has called in
   * its present tenure reads the owner word again exactly if the new frame is
   * before the one it published last or at least two past it; any other call is
   * over in its first step, but for a decision that is still to be confirmed.
   */
  lemma OwnersPublishEveryOtherFrame(r: Router, run: seq<Action>, t: nat, frame: nat, enabled: bool)
    requires Start(r) && t < |r.threads| && Run(r, run).owner == Token(t) && Run(r, run).threads[t].pc.Idle?
    requires CallsFrom(r, run, t, Since(r, run, t)) != []
    ensures var published, next := LastPublished(r, run, t), Step(Run(r, run), Observe(t, frame, enabled));
      && published.Some?
      && (next.threads[t].pc.CheckOwner? <==> frame < published.value || frame >= published.value + 2)
      && (!next.threads[t].pc.CheckOwner? ==> next.threads[t].pc.Idle? || next.threads[t].pc.Confirm?)
      && next.owner == Run(r, run).owner && next.ownerFrame == Run(r, run).ownerFrame
  {
    hide Run, CallsFrom, Since, Unfinished, LastPublished, Verdict, Observed;
    RunKeepsSampled(r, run, t);
    RunRemembers(r, run, t);
  }

  // ---------------------------------------------------------------- wait-freedom

  function AdvancesOf(run: seq<Action>, t: nat): nat {
    if run == [] then 0 else AdvancesOf(run[..|run| - 1], t) + if run[|run| - 1] == Advance(t) then 1 else 0
  }

  /** How many of its own steps a call has left at most. */
  function Left(pc: Pc): nat {
    match pc
    case Idle => 0
    case Confirm(_, _) => 1
    case StoreFrame(_, _) => 2
    case Claim(_, _, _, _) => 3
    case LoadFrame(_, _, _, _, _) => 4
    case LoadOwner(_, _, _) => 5
    case CheckOwner(_, _, _) => 6
  }

  lemma StepsRunOut(r: Router, a: Action, t: nat)
    requires r.owners != [] && t < |r.threads| && !r.threads[t].pc.Idle?
    ensures Left(Step(r, a).threads[t].pc) + (if a == Advance(t) then 1 else 0) <= Left(r.threads[t].pc)
  {
    hide Call, Verdict, Observed, MayClaim;
  }

  lemma {:induction false} CallRunsOut(r: Router, run: seq<Action>, i: nat, j: nat, t: nat)
    requires r.owners != [] && t < |r.threads| && InCall(r, run, i, j, t) && i < j
    ensures AdvancesOf(run[i + 1..j], t) + Left(Run(r, run[..j]).threads[t].pc) <= 6
    decreases j
  {
    hide Step;
    InCallBefore(r, run, i, j, t);
    if i + 1 < j {
      CallRunsOut(r, run, i, j - 1, t);
      var earlier := run[i + 1..j - 1];
      assert run[i + 1..j] == earlier + [run[j - 1]];
      assert (earlier + [run[j - 1]])[..|earlier|] == earlier;
      StepsRunOut(Run(r, run[..j - 1]), run[j - 1], t);
    } else {
      assert run[i + 1..j] == [];
    }
  }

  /** A call returns within six of its own steps, whatever the other threads do. */
  lemma CallsAreWaitFree(r: Router, run: seq<Action>, i: nat, t: nat)
    requires r.owners != [] && t < |r.threads| && InCall(r, run, i, |run|, t) && i < |run|
    ensures AdvancesOf(run[i + 1..], t) <= 5
  {
    hide Run, InCall;
    CallRunsOut(r, run, i, |run|, t);
    StillInside(r, run, i, t);
    assert run[i + 1..|run|] == run[i + 1..] && run[..|run|] == run;
  }

  lemma StillInside(r: Router, run: seq<Action>, i: nat, t: nat)
    requires r.owners != [] && t < |r.threads| && InCall(r, run, i, |run|, t) && i < |run|
    ensures Left(Run(r, run).threads[t].pc) > 0
  {
    hide Run;
    assert run[..|run|] == run;
  }

  // ------------------------------------------------------------- undisturbed calls

  /** n steps of thread t alone. */
  function Alone(r: Router, t: nat, n: nat): (r': Router)
    requires r.owners != [] && t < |r.threads|
    ensures |r'.threads| == |r.threads| && r'.owners != []
    decreases n
  {
    if n == 0 then r else Alone(Step(r, Advance(t)), t, n - 1)
  }

  lemma IdleStays(r: Router, t: nat, n: nat)
    requires r.owners != [] && t < |r.threads| && r.threads[t].pc.Idle?
    ensures Alone(r, t, n).threads[t].pc.Idle? && Alone(r, t, n).owner == r.owner
    ensures Alone(r, t, n).ownerFrame == r.ownerFrame && Alone(r, t, n).takeovers == r.takeovers
    decreases n
  {
    hide Call, Detect, Enter, MayClaim;
    if n > 0 {
      IdleStays(Step(r, Advance(t)), t, n - 1);
    }
  }

  lemma FromConfirm(r: Router, t: nat, n: nat)
    requires r.owners != [] && t < |r.threads| && n >= 1 && (r.threads[t].pc.Confirm? || r.threads[t].pc.Idle?)
    ensures Alone(r, t, n).threads[t].pc.Idle? && Alone(r, t, n).owner == r.owner
    ensures Alone(r, t, n).ownerFrame == r.ownerFrame && Alone(r, t, n).takeovers == r.takeovers
  {
    hide Call, Detect, Enter, MayClaim;
    IdleStays(Step(r, Advance(t)), t, n - 1);
  }

  lemma FromStore(r: Router, t: nat, n: nat)
    requires r.owners != [] && t < |r.threads| && n >= 2 && r.threads[t].pc.StoreFrame?
    ensures Alone(r, t, n).threads[t].pc.Idle? && Alone(r, t, n).owner == r.owner
    ensures Alone(r, t, n).ownerFrame == EncodeFrame(r.threads[t].pc.frame) && Alone(r, t, n).takeovers == r.takeovers
  {
    hide Call, Verdict, Observed, Enter, MayClaim, EncodeFrame;
    FromConfirm(Step(r, Advance(t)), t, n - 1);
  }

  lemma FromClaim(r: Router, t: nat, n: nat)
    requires r.owners != [] && t < |r.threads| && n >= 3 && r.threads[t].pc.Claim?
    requires r.owner == r.threads[t].pc.owner
    ensures Alone(r, t, n).threads[t].pc.Idle? && Alone(r, t, n).owner == Token(t)
    ensures Alone(r, t, n).ownerFrame == EncodeFrame(r.threads[t].pc.frame)
  {
    hide Call, Detect, MayClaim, EncodeFrame;
    FromStore(Step(r, Advance(t)), t, n - 1);
  }

  /** The published frame is so far behind this one, or so far ahead of it, that its owner counts as stale. */
  ghost predicate Stale(encoded: nat, frame: nat) {
    && encoded != 0
    && (frame > DecodeFrame(encoded) + 3 || DecodeFrame(encoded) >= frame + 32)
  }

  lemma FromLoadFrame(r: Router, t: nat, n: nat)
    requires r.owners != [] && t < |r.threads| && n >= 4 && r.threads[t].pc.LoadFrame?
    requires r.owner == r.threads[t].pc.owner != Token(t)
    ensures var after := Alone(r, t, n);
      && after.threads[t].pc.Idle?
      && after.owner == (if Stale(r.ownerFrame, r.threads[t].pc.frame) then Token(t) else r.owner)
      && after.ownerFrame ==
         (if after.owner == Token(t) then EncodeFrame(r.threads[t].pc.frame) else r.ownerFrame)
  {
    hide Call, Detect, Enter, EncodeFrame, DecodeFrame;
    var next := Step(r, Advance(t));
    if next.threads[t].pc.Claim? {
      FromClaim(next, t, n - 1);
    } else {
      IdleStays(next, t, n - 1);
    }
  }

  lemma FromLoadOwner(r: Router, t: nat, n: nat)
    requires r.owners != [] && t < |r.threads| && n >= 5 && r.threads[t].pc.LoadOwner?
    ensures var after, frame := Alone(r, t, n), r.threads[t].pc.frame;
      && after.threads[t].pc.Idle?
      && after.owner == (
        if r.owner == 0 || r.owner == Token(t) || Stale(r.ownerFrame, frame) then Token(t) else r.owner)
      && after.ownerFrame == (if after.owner == Token(t) then EncodeFrame(frame) else r.ownerFrame)
  {
    hide Call, Detect, EncodeFrame, Stale;
    var next := Step(r, Advance(t));
    if next.threads[t].pc.StoreFrame? {
      FromStore(next, t, n - 1);
    } else if next.threads[t].pc.Claim? {
      FromClaim(next, t, n - 1);
    } else {
      FromLoadFrame(next, t, n - 1);
    }
  }

  lemma FromCheckOwner(r: Router, t: nat, n: nat)
    requires r.owners != [] && t < |r.threads| && n >= 6 && r.threads[t].pc.CheckOwner?
    ensures var after, frame := Alone(r, t, n), r.threads[t].pc.frame;
      && after.threads[t].pc.Idle?
      && after.owner == (
        if r.owner == 0 || r.owner == Token(t) || Stale(r.ownerFrame, frame) then Token(t) else r.owner)
      && after.ownerFrame == (if after.owner == Token(t) then EncodeFrame(frame) else r.ownerFrame)
  {
    hide Call, Detect, EncodeFrame, Stale;
    var next := Step(r, Advance(t));
    if next.threads[t].pc.StoreFrame? {
      FromStore(next, t, n - 1);
    } else {
      FromLoadOwner(next, t, n - 1);
    }
  }

  /**
   * What an undisturbed call does to the shared words, in any state: it takes or
   * keeps the stream exactly when nobody owns it, the caller does, or the owner
   * counts as stale, and then publishes its frame; otherwise it leaves both
   * words alone. A caller that believes it owns the stream and is less than two
   * frames past its last publication touches neither.
   */
  lemma UndisturbedCall(r: Router, t: nat, frame: nat, enabled: bool, n: nat)
    requires r.owners != [] && t < |r.threads| && r.threads[t].pc.Idle? && n >= 6
    ensures var l := r.threads[t].local;
      var after := Alone(Step(r, Observe(t, frame, enabled)), t, n);
      var quiet := l.owned && l.lastValid && l.lastFrame <= frame < l.lastFrame + 2;
      && after.threads[t].pc.Idle?
      && after.owner == (
        if !quiet && (r.owner == 0 || r.owner == Token(t) || Stale(r.ownerFrame, frame)) then Token(t) else r.owner)
      && after.ownerFrame == (if !quiet && after.owner == Token(t) then EncodeFrame(frame) else r.ownerFrame)
  {
    hide EncodeFrame, Stale, Verdict, Observed;
    var next := Step(r, Observe(t, frame, enabled));
    if next.threads[t].pc.CheckOwner? {
      FromCheckOwner(next, t, n);
    } else if next.threads[t].pc.LoadOwner? {
      FromLoadOwner(next, t, n);
    } else {
      FromConfirm(next, t, n);
    }
  }
}
