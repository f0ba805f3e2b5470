/**
 * The lock-free ownership router in front of the cadence detector, as
 * interleaved atomic steps: any number of producer threads, each with its own
 * detector, one shared owner word and one shared owner-frame word, and resets
 * by anyone. Thread t's producer token is t + 1; 0 is "no owner".
 */
module CadenceRouter {
  import opened FrameCadence

  const PUBLISH_STRIDE: nat := 2
  const TAKEOVER_LAG: nat := 3
  const RESTART_GAP: nat := 32
  const U64_MAX: nat := 0xffff_ffff_ffff_ffff

  // ------------------------------------------------------------ frame encoding

  function EncodeFrame(frame: nat): nat {
    if frame == U64_MAX then U64_MAX else frame + 1
  }

  function DecodeFrame(encoded: nat): int {
    if encoded == U64_MAX then U64_MAX else encoded - 1
  }

  /**
   * Zero stays free for "not published", and every 64-bit frame but 2^64 - 2
   * is read back as written; that one is read back as 2^64 - 1.
   */
  lemma FrameRoundTrip(frame: nat)
    requires frame <= U64_MAX
    ensures 1 <= EncodeFrame(frame) <= U64_MAX
    ensures DecodeFrame(EncodeFrame(frame)) == frame <==> frame != U64_MAX - 1
  {
  }

  // ------------------------------------------------------------------ protocol

  /** One frame ID fed to a detector, and after how many steps. */
  datatype Sample = Sample(frame: nat, at: nat)

  /** A producer's thread-local state, with its samples since the detector's last reset. */
  datatype Local = Local(
    detector: Detector, lastFrame: nat, lastValid: bool, owned: bool, window: seq<Sample>, entered: nat)

  /**
   * What a claim rests on: the instants at which the call began, read the owner
   * word and read the owner-frame word, and what the latter showed.
   */
  datatype Evidence = Evidence(called: nat, sawOwner: nat, loaded: nat, encoded: nat)

  datatype Pc =
    | Idle
    | CheckOwner(frame: nat, enabled: bool, called: nat)
    | LoadOwner(frame: nat, enabled: bool, called: nat)
    | LoadFrame(frame: nat, enabled: bool, owner: nat, called: nat, sawOwner: nat)
    | Claim(frame: nat, enabled: bool, owner: nat, evidence: Evidence)
    | StoreFrame(frame: nat, enabled: bool)
    | Confirm(decision: Decision, enabled: bool)

  datatype Thread = Thread(pc: Pc, local: Local)

  /** A decision handed to a caller: at which instant, and on what. */
  datatype Returned = Returned(thread: nat, decision: Decision, enabled: bool, window: seq<Sample>, entered: nat, at: nat)

  /** A claim that took the stream over from another producer, the owner word still showing it at instant `at`. */
  datatype Takeover = Takeover(thread: nat, from: nat, frame: nat, evidence: Evidence, at: nat)

  /**
   * `writer` is the producer whose store left the owner-frame word, 0 after a
   * reset, and `stamp` the instant of that store or reset. `owners[i]`,
   * `frames[i]`, `writers[i]` and `stamps[i]` are the owner word, the
   * owner-frame word, its writer and its stamp after i steps.
   */
  datatype Router = Router(
    owner: nat, ownerFrame: nat, writer: nat, stamp: nat, threads: seq<Thread>,
    owners: seq<nat>, frames: seq<nat>, writers: seq<nat>, stamps: seq<nat>,
    returned: seq<Returned>, takeovers: seq<Takeover>)

  datatype Action =
    | Observe(t: nat, frame: nat, enabled: bool)
    | Advance(t: nat)
    | Rebind(t: nat)
    | ResetFrame
    | ResetOwner

  const UNBOUND := Local(CLEARED, 0, false, false, [], 0)

  function Token(t: nat): nat {
    t + 1
  }

  /** Ownership lost: history and publication are forgotten. */
  function Disowned(l: Local): Local {
    l.(detector := CLEARED, window := [], lastValid := false, owned := false)
  }

  predicate PublishesProgress(l: Local, frame: nat) {
    !l.lastValid || frame < l.lastFrame || frame - l.lastFrame >= PUBLISH_STRIDE
  }

  predicate MayClaim(encoded: nat, frame: nat) {
    encoded != 0 &&
    var ownerFrame := DecodeFrame(encoded);
    || (frame > ownerFrame && frame - ownerFrame > TAKEOVER_LAG)
    || (ownerFrame > frame && ownerFrame - frame >= RESTART_GAP)
  }

  /** Feeds the local detector; a decision still has to be confirmed against the owner word. */
  function Detect(l: Local, frame: nat, enabled: bool, now: nat): Thread {
    var v := Verdict(l.detector, frame, enabled);
    Thread(if v == NoChange then Idle else Confirm(v, enabled),
      l.(detector := Observed(l.detector, frame), window := l.window + [Sample(frame, now)]))
  }

  /** Entering ownership: a fresh detector, anchored at this instant. */
  function Enter(l: Local, frame: nat, enabled: bool, now: nat): Thread {
    Thread(StoreFrame(frame, enabled), Local(CLEARED, frame, true, true, [], now))
  }

  /** The start of a call, up to the first shared access; a duplicate presentation may need none. */
  function Call(l: Local, frame: nat, enabled: bool, now: nat): Thread {
    if !l.owned then Thread(LoadOwner(frame, enabled, now), l)
    else if PublishesProgress(l, frame) then Thread(CheckOwner(frame, enabled, now), l)
    else Detect(l, frame, enabled, now)
  }

  function SetThread(r: Router, t: nat, thread: Thread): Router
    requires t < |r.threads|
  {
    r.(threads := r.threads[t := thread])
  }

  function AdvanceThread(r: Router, t: nat): (r': Router)
    requires t < |r.threads| && r.owners != []
    ensures |r'.threads| == |r.threads| && r'.owners == r.owners && r'.frames == r.frames
    ensures r'.writers == r.writers && r'.stamps == r.stamps
    ensures forall k | 0 <= k < |r.threads| && k != t :: r'.threads[k] == r.threads[k]
  {
    var l := r.threads[t].local;
    var now := |r.owners|;
    match r.threads[t].pc
    case Idle => r
    case CheckOwner(frame, enabled, called) =>
      if r.owner != Token(t) then SetThread(r, t, Thread(LoadOwner(frame, enabled, called), Disowned(l)))
      else SetThread(r, t, Thread(StoreFrame(frame, enabled), l.(lastFrame := frame, lastValid := true)))
    case LoadOwner(frame, enabled, called) =>
      if r.owner == Token(t) then SetThread(r, t, Enter(l, frame, enabled, now))
      else if r.owner == 0 then
        SetThread(r, t, Thread(Claim(frame, enabled, 0, Evidence(called, now - 1, now - 1, 0)), l))
      else SetThread(r, t, Thread(LoadFrame(frame, enabled, r.owner, called, now - 1), l))
    case LoadFrame(frame, enabled, owner, called, sawOwner) =>
      if MayClaim(r.ownerFrame, frame) then
        SetThread(r, t, Thread(Claim(frame, enabled, owner, Evidence(called, sawOwner, now - 1, r.ownerFrame)), l))
      else SetThread(r, t, Thread(Idle, l))
    case Claim(frame, enabled, owner, evidence) =>
      if r.owner == owner || r.owner == Token(t) then
        SetThread(r.(owner := Token(t)), t, Enter(l, frame, enabled, now))
          .(takeovers := r.takeovers +
              if owner != 0 && r.owner == owner then [Takeover(t, owner, frame, evidence, now - 1)] else [])
      else SetThread(r, t, Thread(Idle, l))
    case StoreFrame(frame, enabled) =>
      SetThread(r.(ownerFrame := EncodeFrame(frame), writer := Token(t), stamp := now), t,
         Detect(l, frame, enabled, now))
    case Confirm(decision, enabled) =>
      if r.owner != Token(t) then SetThread(r, t, Thread(Idle, Disowned(l)))
      else SetThread(r, t, Thread(Idle, l))
           .(returned := r.returned + [Returned(t, decision, enabled, l.window, l.entered, now)])
  }

  function Act(r: Router, a: Action): (r': Router)
    requires r.owners != []
    ensures |r'.threads| == |r.threads|
  {
    match a
    case Observe(t, frame, enabled) =>
      if t < |r.threads| && r.threads[t].pc.Idle? then
        SetThread(r, t, Call(r.threads[t].local, frame, enabled, |r.owners|))
      else r
    case Advance(t) => if t < |r.threads| then AdvanceThread(r, t) else r
    case Rebind(t) => if t < |r.threads| && r.threads[t].pc.Idle? then SetThread(r, t, Thread(Idle, UNBOUND)) else r
    case ResetFrame => r.(ownerFrame := 0, writer := 0, stamp := |r.owners|)
    case ResetOwner => r.(owner := 0)
  }

  /** One step, and the words it leaves recorded. */
  function Step(r: Router, a: Action): (r': Router)
    requires r.owners != []
    ensures |r'.threads| == |r.threads| && r'.owners != []
  {
    var r1 := Act(r, a);
    r1.(owners := r1.owners + [r1.owner], frames := r1.frames + [r1.ownerFrame],
        writers := r1.writers + [r1.writer], stamps := r1.stamps + [r1.stamp])
  }

  ghost predicate Start(r: Router) {
    && r.owner == 0 && r.ownerFrame == 0 && r.writer == 0 && r.stamp == 0
    && r.owners == [0] && r.frames == [0] && r.writers == [0] && r.stamps == [0]
    && r.returned == [] && r.takeovers == []
    && forall t | 0 <= t < |r.threads| :: r.threads[t] == Thread(Idle, UNBOUND)
  }

  function Run(r: Router, run: seq<Action>): (r': Router)
    requires r.owners != []
    ensures |r'.threads| == |r.threads| && r'.owners != []
    decreases |run|
  {
    if run == [] then r else Step(Run(r, run[..|run| - 1]), run[|run| - 1])
  }

  // ---------------------------------------------------------------- invariant

  /** The owner word showed this token after every step from `from` to `to`. */
  ghost predicate OwnedThroughout(owners: seq<nat>, token: nat, from: nat, to: nat) {
    from <= to <= |owners| && forall i | from <= i < to :: owners[i] == token
  }

  function FramesOf(window: seq<Sample>): (f: seq<nat>)
    ensures |f| == |window|
  {
    if window == [] then [] else FramesOf(window[..|window| - 1]) + [window[|window| - 1].frame]
  }

  /** Every sample was taken between two instants. */
  ghost predicate TakenWithin(window: seq<Sample>, from: nat, to: nat) {
    forall k | 0 <= k < |window| :: from <= window[k].at < to
  }

  /**
   * While the owner word shows a thread that believes it owns the stream, it
   * has shown it ever since the thread entered, and the detector holds exactly
   * what the thread observed since then.
   */
  ghost predicate ThreadOk(owners: seq<nat>, owner: nat, thread: Thread, t: nat) {
    var l := thread.local;
    && l.detector == Replay(FramesOf(l.window)) && TakenWithin(l.window, l.entered, |owners|)
    && l.entered < |owners|
    && (thread.pc.StoreFrame? || thread.pc.Confirm? || thread.pc.CheckOwner? ==> l.owned)
    && (thread.pc.LoadFrame? || thread.pc.Claim? ==> thread.pc.owner != Token(t))
    && (l.owned && owner == Token(t) ==> OwnedThroughout(owners, Token(t), l.entered, |owners|))
    && (thread.pc.Confirm? ==> Justified(thread.pc.decision, thread.pc.enabled, FramesOf(l.window)))
  }

  /** The decision the detector takes at the end of a window of observations. */
  ghost predicate Justified(decision: Decision, enabled: bool, window: seq<nat>) {
    && window != [] && decision != NoChange
    && decision == Verdict(Replay(window[..|window| - 1]), window[|window| - 1], enabled)
  }

  ghost predicate ReturnedOk(owners: seq<nat>, d: Returned) {
    && Justified(d.decision, d.enabled, FramesOf(d.window)) && TakenWithin(d.window, d.entered, d.at)
    && d.at < |owners| && OwnedThroughout(owners, Token(d.thread), d.entered, d.at)
  }

  ghost predicate Inv(r: Router) {
    && r.owners != [] && r.owners[|r.owners| - 1] == r.owner
    && (forall t | 0 <= t < |r.threads| :: ThreadOk(r.owners, r.owner, r.threads[t], t))
    && (forall i | 0 <= i < |r.returned| :: ReturnedOk(r.owners, r.returned[i]))
  }

  // ------------------------------------------------------------------- proofs

  lemma DetectIsOk(l: Local, frame: nat, enabled: bool, now: nat)
    requires l.detector == Replay(FramesOf(l.window)) && TakenWithin(l.window, l.entered, now) && l.entered <= now
    ensures var after := Detect(l, frame, enabled, now);
      && after.local.detector == Replay(FramesOf(after.local.window))
      && TakenWithin(after.local.window, l.entered, now + 1)
      && (after.pc.Confirm? ==> Justified(after.pc.decision, after.pc.enabled, FramesOf(after.local.window)))
  {
    hide FramesOf, Replay, Verdict, Observed;
    FramesAppend(l.window, Sample(frame, now));
    ReplayAppend(FramesOf(l.window), frame);
  }

  lemma FramesAppend(window: seq<Sample>, sample: Sample)
    ensures FramesOf(window + [sample]) == FramesOf(window) + [sample.frame]
  {
    assert (window + [sample])[..|window|] == window;
  }

  lemma ReplayAppend(frames: seq<nat>, frame: nat)
    ensures Replay(frames + [frame]) == Observed(Replay(frames), frame)
    ensures (frames + [frame])[..|frames|] == frames
  {
    hide Observed;
    assert (frames + [frame])[..|frames|] == frames;
  }

  /** A thread that does nothing stays right, as long as the word is not set to its own token. */
  lemma BystanderStaysOk(owners: seq<nat>, owner: nat, owner': nat, thread: Thread, t: nat)
    requires owners != [] && owners[|owners| - 1] == owner && ThreadOk(owners, owner, thread, t)
    requires owner' == owner || owner' != Token(t)
    ensures ThreadOk(owners + [owner'], owner', thread, t)
  {
  }

  lemma ReturnedStaysOk(owners: seq<nat>, owner': nat, d: Returned)
    requires ReturnedOk(owners, d)
    ensures ReturnedOk(owners + [owner'], d)
  {
  }

  /** The acting thread is right after its step, which leaves the owner word alone or takes it. */
  ghost predicate ActorOk(r: Router, t: nat)
    requires t < |r.threads| && r.owners != []
  {
    var r' := Step(r, Advance(t));
    && ThreadOk(r'.owners, r'.owner, r'.threads[t], t)
    && (r'.owner == r.owner || r'.owner == Token(t))
  }

  ghost predicate Ready(r: Router, t: nat) {
    && r.owners != [] && r.owners[|r.owners| - 1] == r.owner
    && t < |r.threads| && ThreadOk(r.owners, r.owner, r.threads[t], t)
  }

  lemma CheckOwnerIsOk(r: Router, t: nat)
    requires Ready(r, t) && t < |r.threads| && r.owners != [] && r.threads[t].pc.CheckOwner?
    ensures ActorOk(r, t)
  {
    hide MayClaim, Detect, Enter, Justified, FramesOf;
  }

  lemma LoadOwnerIsOk(r: Router, t: nat)
    requires Ready(r, t) && t < |r.threads| && r.owners != [] && r.threads[t].pc.LoadOwner?
    ensures ActorOk(r, t)
  {
    hide MayClaim, Detect, Justified;
  }

  lemma LoadFrameIsOk(r: Router, t: nat)
    requires Ready(r, t) && t < |r.threads| && r.owners != [] && r.threads[t].pc.LoadFrame?
    ensures ActorOk(r, t)
  {
    hide MayClaim, FramesOf, Replay, Enter, Detect;
  }

  lemma ClaimIsOk(r: Router, t: nat)
    requires Ready(r, t) && t < |r.threads| && r.owners != [] && r.threads[t].pc.Claim?
    ensures ActorOk(r, t)
  {
    hide MayClaim, Detect;
  }

  /** Feeding the detector of a thread whose ownership stands. */
  lemma DetectedIsOk(owners: seq<nat>, owner: nat, thread: Thread, t: nat, frame: nat, enabled: bool)
    requires owners != [] && owners[|owners| - 1] == owner && ThreadOk(owners, owner, thread, t) && thread.local.owned
    ensures ThreadOk(owners + [owner], owner, Detect(thread.local, frame, enabled, |owners|), t)
  {
    DetectIsOk(thread.local, frame, enabled, |owners|);
    BystanderStaysOk(owners, owner, owner, thread, t);
  }

  lemma StoreFrameIsOk(r: Router, t: nat)
    requires Ready(r, t) && t < |r.threads| && r.owners != [] && r.threads[t].pc.StoreFrame?
    ensures ActorOk(r, t)
  {
    hide MayClaim, Detect, Enter, Justified, FramesOf, Replay, TakenWithin, OwnedThroughout;
    DetectedIsOk(r.owners, r.owner, r.threads[t], t, r.threads[t].pc.frame, r.threads[t].pc.enabled);
  }

  lemma ConfirmIsOk(r: Router, t: nat)
    requires Ready(r, t) && t < |r.threads| && r.owners != [] && (r.threads[t].pc.Confirm? || r.threads[t].pc.Idle?)
    ensures ActorOk(r, t)
  {
    hide MayClaim, Detect, Enter, Justified;
  }

  lemma ActorStaysOk(r: Router, t: nat)
    requires Ready(r, t) && t < |r.threads| && r.owners != []
    ensures ActorOk(r, t)
  {
    match r.threads[t].pc {
      case CheckOwner(_, _, _) => CheckOwnerIsOk(r, t);
      case LoadOwner(_, _, _) => LoadOwnerIsOk(r, t);
      case LoadFrame(_, _, _, _, _) => LoadFrameIsOk(r, t);
      case Claim(_, _, _, _) => ClaimIsOk(r, t);
      case StoreFrame(_, _) => StoreFrameIsOk(r, t);
      case Confirm(_, _) => ConfirmIsOk(r, t);
      case Idle => ConfirmIsOk(r, t);
    }
  }

  lemma AdvanceReturns(r: Router, t: nat)
    requires Inv(r) && t < |r.threads|
    ensures var r' := Step(r, Advance(t));
      forall i | 0 <= i < |r'.returned| :: ReturnedOk(r'.owners, r'.returned[i])
  {
    var r' := Step(r, Advance(t));
    assert ThreadOk(r.owners, r.owner, r.threads[t], t);
    forall i | 0 <= i < |r'.returned| ensures ReturnedOk(r'.owners, r'.returned[i]) {
      if i < |r.returned| {
        ReturnedStaysOk(r.owners, r'.owner, r.returned[i]);
      }
    }
  }

  lemma AdvanceKeepsInv(r: Router, t: nat)
    requires Inv(r) && t < |r.threads|
    ensures Inv(Step(r, Advance(t)))
  {
    var r' := Step(r, Advance(t));
    assert ThreadOk(r.owners, r.owner, r.threads[t], t);
    ActorStaysOk(r, t);
    AdvanceReturns(r, t);
    forall k | 0 <= k < |r'.threads| ensures ThreadOk(r'.owners, r'.owner, r'.threads[k], k) {
      if k != t {
        BystanderStaysOk(r.owners, r.owner, r'.owner, r.threads[k], k);
      }
    }
  }

  lemma ObserveIsOk(r: Router, t: nat, frame: nat, enabled: bool)
    requires Inv(r) && t < |r.threads| && r.threads[t].pc.Idle?
    ensures ThreadOk(r.owners + [r.owner], r.owner, Call(r.threads[t].local, frame, enabled, |r.owners|), t)
  {
    assert ThreadOk(r.owners, r.owner, r.threads[t], t);
    if r.threads[t].local.owned {
      DetectedIsOk(r.owners, r.owner, r.threads[t], t, frame, enabled);
    }
  }

  lemma UnboundIsOk(owners: seq<nat>, owner: nat, t: nat)
    requires owners != []
    ensures ThreadOk(owners, owner, Thread(Idle, UNBOUND), t)
  {
  }

  lemma StepKeepsInv(r: Router, a: Action)
    requires Inv(r)
    ensures Inv(Step(r, a))
  {
    hide ThreadOk, ReturnedOk, Call, AdvanceThread;
    var r' := Step(r, a);
    if a.Advance? && a.t < |r.threads| {
      AdvanceKeepsInv(r, a.t);
    } else {
      forall i | 0 <= i < |r'.returned| ensures ReturnedOk(r'.owners, r'.returned[i]) {
        ReturnedStaysOk(r.owners, r'.owner, r.returned[i]);
      }
      forall k | 0 <= k < |r'.threads| ensures ThreadOk(r'.owners, r'.owner, r'.threads[k], k) {
        if a.Observe? && a.t == k && r.threads[k].pc.Idle? {
          ObserveIsOk(r, k, a.frame, a.enabled);
        } else if a.Rebind? && a.t == k && r.threads[k].pc.Idle? {
          UnboundIsOk(r.owners + [r.owner], r.owner, k);
        } else {
          BystanderStaysOk(r.owners, r.owner, r'.owner, r.threads[k], k);
        }
      }
    }
  }

  lemma {:induction false} RunKeepsInv(r: Router, run: seq<Action>)
    requires Start(r)
    ensures Inv(Run(r, run))
    decreases |run|
  {
    if run != [] {
      RunKeepsInv(r, run[..|run| - 1]);
      StepKeepsInv(Run(r, run[..|run| - 1]), run[|run| - 1]);
    }
  }

  /**
   * Under any interleaving of producers, takeovers and resets, every Enable or
   * Disable handed out is what the list of the last eleven comparisons calls
   * for, over samples the calling producer took itself, all within one unbroken
   * interval of its ownership that lasts until the decision is confirmed.
   */
  lemma DecisionsRestOnOwnedWindows(r: Router, run: seq<Action>, i: nat)
    requires Start(r) && i < |Run(r, run).returned|
    ensures var r' := Run(r, run);
      var d := r'.returned[i];
      var frames := FramesOf(d.window);
      var w := LastEleven(Comparisons(frames));
      && d.decision != NoChange
      && (d.decision == Enable ==> !d.enabled && Repeats(w) >= ENABLE_THRESHOLD)
      && (d.decision == Disable ==> d.enabled && |w| == WINDOW && Repeats(w) == 0)
      && TakenWithin(d.window, d.entered, d.at)
      && d.at < |r'.owners| && OwnedThroughout(r'.owners, Token(d.thread), d.entered, d.at)
  {
    RunKeepsInv(r, run);
    var d := Run(r, run).returned[i];
    assert ReturnedOk(Run(r, run).owners, d);
    var frames := FramesOf(d.window);
    var n := |frames| - 1;
    VerdictReadsTheList(frames[..n], frames[n], d.enabled);
    assert frames[..n] + [frames[n]] == frames;
  }

  // ------------------------------------------------------------------ takeovers

  /** The call that ends up claiming: made by this thread, for this frame, at this instant. */
  ghost predicate CalledAt(run: seq<Action>, t: nat, frame: nat, called: nat) {
    1 <= called <= |run| && run[called - 1].Observe? && run[called - 1].t == t && run[called - 1].frame == frame
  }

  /**
   * In one call, the claimer first read the owner word and saw the producer it
   * claims from, and then read the owner-frame word and found it so far behind
   * its own frame, or so far ahead of it, that the owner counts as stale.
   */
  ghost predicate SawStale(r: Router, run: seq<Action>, t: nat, owner: nat, frame: nat, e: Evidence) {
    && |r.owners| == |r.frames|
    && CalledAt(run, t, frame, e.called)
    && e.called <= e.sawOwner < e.loaded < |r.owners| && r.owners[e.sawOwner] == owner
    && r.frames[e.loaded] == e.encoded && MayClaim(e.encoded, frame)
  }

  /** The producer held the stream at some instant up to this one. */
  ghost predicate HeldBy(owners: seq<nat>, token: nat, upTo: nat) {
    exists h :: 0 <= h <= upTo && h < |owners| && owners[h] == token
  }

  /** A published frame has a writer, who held the stream before; a reset leaves neither. */
  ghost predicate WrittenByAnOwner(r: Router, i: nat)
    requires i < |r.frames| && i < |r.writers|
  {
    if r.frames[i] == 0 then r.writers[i] == 0 else r.writers[i] != 0 && HeldBy(r.owners, r.writers[i], i)
  }

  /** What a thread in the middle of a call has seen so far. */
  ghost predicate CallOk(r: Router, run: seq<Action>, pc: Pc, t: nat) {
    match pc
    case CheckOwner(frame, _, called) => CalledAt(run, t, frame, called) && called < |r.owners|
    case LoadOwner(frame, _, called) => CalledAt(run, t, frame, called) && called < |r.owners|
    case LoadFrame(frame, _, owner, called, sawOwner) =>
      && CalledAt(run, t, frame, called) && called <= sawOwner < |r.owners| - 1 && r.owners[sawOwner] == owner
    case Claim(frame, _, owner, e) => owner != 0 ==> SawStale(r, run, t, owner, frame, e) && e.loaded < |r.owners| - 1
    case StoreFrame(_, _) => HeldBy(r.owners, Token(t), |r.owners|)
    case Idle => true
    case Confirm(_, _) => true
  }

  ghost predicate TakeoverOk(r: Router, run: seq<Action>, k: Takeover) {
    && SawStale(r, run, k.thread, k.from, k.frame, k.evidence)
    && k.evidence.loaded < k.at < |r.owners| - 1
    && r.owners[k.at] == k.from && r.owners[k.at + 1] == Token(k.thread)
  }

  ghost predicate Recorded(r: Router, run: seq<Action>) {
    && |r.owners| == |r.frames| == |r.writers| == |r.stamps| == |run| + 1
    && r.owners[|run|] == r.owner && r.frames[|run|] == r.ownerFrame
    && r.writers[|run|] == r.writer && r.stamps[|run|] == r.stamp
  }

  ghost predicate TakeoversOk(r: Router, run: seq<Action>) {
    && Recorded(r, run)
    && (forall i | 0 <= i <= |run| :: WrittenByAnOwner(r, i))
    && (forall t | 0 <= t < |r.threads| :: CallOk(r, run, r.threads[t].pc, t))
    && (forall i | 0 <= i < |r.takeovers| :: TakeoverOk(r, run, r.takeovers[i]))
  }

  /** The recorded words only grow. */
  ghost predicate Extends(r: Router, r': Router) {
    && r.owners <= r'.owners && r.frames <= r'.frames && r.writers <= r'.writers && r.stamps <= r'.stamps
    && |r'.owners| == |r'.frames|
  }

  lemma SawStaleForGood(
      r: Router, run: seq<Action>, r': Router, run': seq<Action>, t: nat, owner: nat, frame: nat, e: Evidence)
    requires SawStale(r, run, t, owner, frame, e) && Extends(r, r') && run <= run'
    ensures SawStale(r', run', t, owner, frame, e)
  {
    hide MayClaim;
  }

  lemma HeldForGood(owners: seq<nat>, more: seq<nat>, token: nat, upTo: nat, later: nat)
    requires HeldBy(owners, token, upTo) && owners <= more && upTo <= later
    ensures HeldBy(more, token, later)
  {
    var h :| 0 <= h <= upTo && h < |owners| && owners[h] == token;
    assert more[h] == token;
  }

  lemma CallStaysOk(r: Router, run: seq<Action>, r': Router, run': seq<Action>, pc: Pc, t: nat)
    requires CallOk(r, run, pc, t) && Extends(r, r') && run <= run'
    ensures CallOk(r', run', pc, t)
  {
    hide SawStale, HeldBy;
    if pc.Claim? && pc.owner != 0 {
      SawStaleForGood(r, run, r', run', t, pc.owner, pc.frame, pc.evidence);
    } else if pc.StoreFrame? {
      HeldForGood(r.owners, r'.owners, Token(t), |r.owners|, |r'.owners|);
    }
  }

  lemma StepExtends(r: Router, run: seq<Action>, a: Action)
    requires Recorded(r, run)
    ensures Extends(r, Step(r, a)) && Recorded(Step(r, a), run + [a])
  {
    hide Call, Detect, Enter, MayClaim;
  }

  lemma ReadNow(r: Router, run: seq<Action>, t: nat)
    requires Recorded(r, run) && t < |r.threads| && CallOk(r, run, r.threads[t].pc, t)
    requires !r.threads[t].pc.Claim? && !r.threads[t].pc.StoreFrame? && !r.threads[t].pc.Confirm?
    ensures CallOk(Step(r, Advance(t)), run + [Advance(t)], Step(r, Advance(t)).threads[t].pc, t)
  {
    hide Detect, MayClaim;
    var r', run' := Step(r, Advance(t)), run + [Advance(t)];
    StepExtends(r, run, Advance(t));
    if r.owner == Token(t) {
      assert r'.owners[|run|] == Token(t);
      assert HeldBy(r'.owners, Token(t), |r'.owners|);
    }
  }

  lemma ActNow(r: Router, run: seq<Action>, t: nat)
    requires Recorded(r, run) && t < |r.threads| && CallOk(r, run, r.threads[t].pc, t)
    requires r.threads[t].pc.Claim? || r.threads[t].pc.StoreFrame? || r.threads[t].pc.Confirm?
    ensures CallOk(Step(r, Advance(t)), run + [Advance(t)], Step(r, Advance(t)).threads[t].pc, t)
  {
    hide MayClaim, Verdict, Observed;
    var r', run' := Step(r, Advance(t)), run + [Advance(t)];
    StepExtends(r, run, Advance(t));
    if r'.threads[t].pc.StoreFrame? {
      assert r'.owners[|run| + 1] == Token(t);
      assert HeldBy(r'.owners, Token(t), |r'.owners|);
    }
  }

  lemma CallBegins(r: Router, run: seq<Action>, a: Action)
    requires Recorded(r, run) && a.Observe? && a.t < |r.threads| && r.threads[a.t].pc.Idle?
    ensures CallOk(Step(r, a), run + [a], Step(r, a).threads[a.t].pc, a.t)
  {
    hide MayClaim, Verdict, Observed, PublishesProgress;
    StepExtends(r, run, a);
  }

  lemma StepKeepsCalls(r: Router, run: seq<Action>, a: Action, t: nat)
    requires Recorded(r, run) && t < |r.threads| && CallOk(r, run, r.threads[t].pc, t)
    ensures CallOk(Step(r, a), run + [a], Step(r, a).threads[t].pc, t)
  {
    hide CallOk, Extends;
    var pc := r.threads[t].pc;
    if a == Advance(t) {
      if pc.Claim? || pc.StoreFrame? || pc.Confirm? {
        ActNow(r, run, t);
      } else {
        ReadNow(r, run, t);
      }
    } else if a.Observe? && a.t == t && pc.Idle? {
      CallBegins(r, run, a);
    } else {
      StepExtends(r, run, a);
      OthersWait(r, a, t);
      CallStaysOk(r, run, Step(r, a), run + [a], Step(r, a).threads[t].pc, t);
    }
  }

  /** A thread that is not acting keeps its place; one that is rebound was idle. */
  lemma OthersWait(r: Router, a: Action, t: nat)
    requires r.owners != [] && t < |r.threads| && a != Advance(t)
    requires !(a.Observe? && a.t == t && r.threads[t].pc.Idle?)
    ensures Step(r, a).threads[t].pc == r.threads[t].pc
  {
    hide Call, Detect, Enter, MayClaim;
  }

  lemma StepKeepsWriters(r: Router, run: seq<Action>, a: Action, i: nat)
    requires Recorded(r, run) && i <= |run| + 1 && (i <= |run| ==> WrittenByAnOwner(r, i)) && WrittenByAnOwner(r, |run|)
    requires a.Advance? && a.t < |r.threads| ==> CallOk(r, run, r.threads[a.t].pc, a.t)
    ensures Recorded(Step(r, a), run + [a]) && WrittenByAnOwner(Step(r, a), i)
  {
    hide MayClaim, Call, Detect, Enter, HeldBy;
    var r' := Step(r, a);
    StepExtends(r, run, a);
    if i <= |run| {
      if r.frames[i] != 0 {
        HeldForGood(r.owners, r'.owners, r.writers[i], i, i);
      }
    } else if r'.frames[i] != 0 {
      if a.Advance? && a.t < |r.threads| && r.threads[a.t].pc.StoreFrame? {
        HeldForGood(r.owners, r'.owners, Token(a.t), |r.owners|, i);
      } else {
        HeldForGood(r.owners, r'.owners, r.writers[|run|], |run|, i);
      }
    }
  }

  lemma StepKeepsLogged(r: Router, run: seq<Action>, a: Action, i: nat)
    requires Recorded(r, run) && i < |Step(r, a).takeovers| && (i < |r.takeovers| ==> TakeoverOk(r, run, r.takeovers[i]))
    requires a.Advance? && a.t < |r.threads| ==> CallOk(r, run, r.threads[a.t].pc, a.t)
    ensures TakeoverOk(Step(r, a), run + [a], Step(r, a).takeovers[i])
  {
    hide MayClaim, Call, Detect, SawStale;
    var r' := Step(r, a);
    var k := r'.takeovers[i];
    StepExtends(r, run, a);
    SawStaleForGood(r, run, r', run + [a], k.thread, k.from, k.frame, k.evidence);
  }

  lemma StepKeepsTakeovers(r: Router, run: seq<Action>, a: Action)
    requires TakeoversOk(r, run)
    ensures TakeoversOk(Step(r, a), run + [a])
  {
    hide CallOk, WrittenByAnOwner, TakeoverOk, Step;
    var r' := Step(r, a);
    StepExtends(r, run, a);
    forall i | 0 <= i <= |run + [a]| ensures WrittenByAnOwner(r', i) {
      StepKeepsWriters(r, run, a, i);
    }
    forall t | 0 <= t < |r'.threads| ensures CallOk(r', run + [a], r'.threads[t].pc, t) {
      StepKeepsCalls(r, run, a, t);
    }
    forall i | 0 <= i < |r'.takeovers| ensures TakeoverOk(r', run + [a], r'.takeovers[i]) {
      StepKeepsLogged(r, run, a, i);
    }
  }

  lemma StartIsOk(r: Router)
    requires Start(r)
    ensures TakeoversOk(r, [])
  {
  }

  lemma {:induction false} RunKeepsTakeovers(r: Router, run: seq<Action>)
    requires Start(r)
    ensures TakeoversOk(Run(r, run), run)
    decreases |run|
  {
    hide Step, TakeoversOk;
    if run == [] {
      StartIsOk(r);
    } else {
      RunKeepsTakeovers(r, run[..|run| - 1]);
      StepKeepsTakeovers(Run(r, run[..|run| - 1]), run[..|run| - 1], run[|run| - 1]);
      assert run[..|run| - 1] + [run[|run| - 1]] == run;
    }
  }

  /** What "stale" means in frame IDs, for every published frame but the one the encoding cannot hold. */
  lemma StaleMeans(published: nat, frame: nat)
    requires published <= U64_MAX && published != U64_MAX - 1
    ensures MayClaim(EncodeFrame(published), frame) <==>
      frame > published + TAKEOVER_LAG || published >= frame + RESTART_GAP
  {
    FrameRoundTrip(published);
  }

  /**
   * Under any interleaving the stream changes hands without a reset in between
   * only after this, within one call of the claimer: it read the displaced
   * producer from the owner word, then read a frame more than 3 behind its own
   * or at least 32 ahead of it from the owner-frame word, and then replaced the
   * owner word while it still showed that producer. The frame it read was
   * published by some producer that had held the stream by then; whether that is
   * the displaced one is the subject of TakeoverJudgement.
   */
  lemma TakeoversAreJustified(r: Router, run: seq<Action>, i: nat)
    requires Start(r) && i < |Run(r, run).takeovers|
    ensures var r' := Run(r, run);
      var k := r'.takeovers[i];
      var e := k.evidence;
      && |r'.owners| == |r'.frames| == |r'.writers| == |r'.stamps| == |run| + 1
      && CalledAt(run, k.thread, k.frame, e.called)
      && e.called <= e.sawOwner < e.loaded < k.at < |run|
      && r'.owners[e.sawOwner] == k.from == r'.owners[k.at] && r'.owners[k.at + 1] == Token(k.thread)
      && MayClaim(r'.frames[e.loaded], k.frame)
      && r'.writers[e.loaded] != 0 && HeldBy(r'.owners, r'.writers[e.loaded], e.loaded)
  {
    hide Run, HeldBy, CallOk;
    RunKeepsTakeovers(r, run);
    var r' := Run(r, run);
    assert TakeoverOk(r', run, r'.takeovers[i]);
    assert WrittenByAnOwner(r', r'.takeovers[i].evidence.loaded);
  }

  /** And every change of hands is in the log: no other step moves the stream between two producers. */
  lemma TakeoversAreLogged(r: Router, a: Action)
    requires r.owners != []
    ensures var r' := Step(r, a);
      r.owner != 0 && r'.owner != 0 && r'.owner != r.owner ==>
        && |r'.takeovers| == |r.takeovers| + 1 && r'.takeovers[..|r.takeovers|] == r.takeovers
        && r'.takeovers[|r.takeovers|].from == r.owner && r'.owner == Token(r'.takeovers[|r.takeovers|].thread)
  {
    hide Call, Detect, Enter, MayClaim;
  }
}
