/**
 * Whose frame a takeover judges. The router's rule is that a producer loses the
 * stream only when it is provably stale, but a claimer judges the owner-frame
 * word, and that word need not be the displaced producer's: its store may still
 * be pending, another producer's late store may have overwritten it, or it may
 * stem from an earlier tenure. This module says exactly when the judged frame is
 * the displaced producer's own, gives a run for each way it can fail to be, and
 * proves that it never fails when calls and resets do not overlap.
 */
module TakeoverJudgement {
  import opened CadenceRouter
  import opened FrameCadence

  // ----------------------------------------------------- stores to the frame word

  /** Step u of the run stores a producer's frame in the owner-frame word. */
  ghost predicate Publishes(start: Router, run: seq<Action>, u: nat)
    requires start.owners != []
  {
    && u < |run| && run[u].Advance? && run[u].t < |start.threads|
    && Run(start, run[..u]).threads[run[u].t].pc.StoreFrame?
  }

  function PublishedAt(start: Router, run: seq<Action>, u: nat): nat
    requires start.owners != [] && Publishes(start, run, u)
  {
    Run(start, run[..u]).threads[run[u].t].pc.frame
  }

  /** Step u takes the owner-frame word away from a producer: another one's store, or a reset. */
  ghost predicate Overwrites(start: Router, run: seq<Action>, u: nat, token: nat)
    requires start.owners != []
  {
    u < |run| && (run[u] == ResetFrame || (Publishes(start, run, u) && Token(run[u].t) != token))
  }

  ghost predicate Touches(start: Router, run: seq<Action>, u: nat)
    requires start.owners != []
  {
    u < |run| && (run[u] == ResetFrame || Publishes(start, run, u))
  }

  /** A longer run has the same stores where it is the same. */
  lemma PublishesInPrefix(start: Router, run: seq<Action>, n: nat, u: nat)
    requires start.owners != [] && n <= |run| && u < n
    ensures Publishes(start, run[..n], u) <==> Publishes(start, run, u)
    ensures Publishes(start, run, u) ==> PublishedAt(start, run[..n], u) == PublishedAt(start, run, u)
    ensures Touches(start, run[..n], u) <==> Touches(start, run, u)
  {
    hide Run;
    assert run[..n][..u] == run[..u];
  }

  /**
   * What the stamp of instant i says: nothing touched the owner-frame word since
   * then, and the step that ended at it, if any, left the word and its writer.
   */
  ghost predicate StampOk(start: Router, run: seq<Action>, r: Router, i: nat)
    requires start.owners != [] && i < |r.frames| && i < |r.writers| && i < |r.stamps|
  {
    var s := r.stamps[i];
    && s <= i && (forall v | s <= v < i :: !Touches(start, run, v))
    && (s == 0 ==> r.writers[i] == 0)
    && (s > 0 ==> StampedBy(start, run, s - 1, r.writers[i], r.frames[i]))
  }

  ghost predicate StampedBy(start: Router, run: seq<Action>, u: nat, writer: nat, word: nat)
    requires start.owners != []
  {
    && Touches(start, run, u)
    && (run[u] == ResetFrame ==> writer == 0)
    && (Publishes(start, run, u) ==> writer == Token(run[u].t) && word == EncodeFrame(PublishedAt(start, run, u)))
  }

  lemma {:induction false} StampIsOk(start: Router, run: seq<Action>, i: nat)
    requires Start(start) && i <= |run|
    ensures Recorded(Run(start, run), run) && StampOk(start, run, Run(start, run), i)
    decreases |run|
  {
    RunIsRecorded(start, run);
    if run == [] {
      NothingStamped(start);
    } else {
      hide Run, Step, StampedBy, StampOk, Touches;
      var n := |run| - 1;
      var init := run[..n];
      RunIsRecorded(start, init);
      LastStep(start, run);
      StepExtends(Run(start, init), init, run[n]);
      StampIsOk(start, init, if i <= n then i else n);
      StampKept(start, run, Run(start, init), Run(start, run), if i <= n then i else n);
      if i > n {
        StampMoves(start, run, Run(start, init), Run(start, run));
      }
    }
  }

  lemma NothingStamped(start: Router)
    requires Start(start)
    ensures Recorded(Run(start, []), []) && StampOk(start, [], Run(start, []), 0)
  {
  }

  lemma RunIsRecorded(start: Router, run: seq<Action>)
    requires Start(start)
    ensures Recorded(Run(start, run), run)
  {
    hide Run, Recorded;
    RunKeepsTakeovers(start, run);
  }

  lemma LastStep(start: Router, run: seq<Action>)
    requires start.owners != [] && run != []
    ensures Run(start, run) == Step(Run(start, run[..|run| - 1]), run[|run| - 1])
  {
    hide Step;
  }

  lemma StampKept(start: Router, run: seq<Action>, r: Router, r': Router, i: nat)
    requires start.owners != [] && run != [] && i < |run| && Recorded(r, run[..|run| - 1]) && Extends(r, r')
    requires |r'.writers| > i && |r'.stamps| > i && StampOk(start, run[..|run| - 1], r, i)
    ensures i < |r'.frames| && StampOk(start, run, r', i)
  {
    hide Publishes, Touches, PublishedAt;
    var s, n := r.stamps[i], |run| - 1;
    forall v: nat | s <= v < i ensures !Touches(start, run, v) {
      PublishesInPrefix(start, run, n, v);
    }
    if s > 0 {
      PublishesInPrefix(start, run, n, s - 1);
      assert run[..n][s - 1] == run[s - 1];
    }
  }

  lemma StampMoves(start: Router, run: seq<Action>, r: Router, r': Router)
    requires start.owners != [] && run != [] && r == Run(start, run[..|run| - 1]) && r.owners != []
    requires r' == Step(r, run[|run| - 1]) && Extends(r, r')
    requires Recorded(r, run[..|run| - 1]) && Recorded(r', run) && StampOk(start, run, r', |run| - 1)
    ensures StampOk(start, run, r', |run|)
  {
    hide Run, Step, Touches, StampedBy, StampOk, Recorded;
    StampedNow(start, run, r);
    LastWords(r, r', run);
    NewestStamp(start, run, r', |run| - 1);
  }

  lemma LastWords(r: Router, r': Router, run: seq<Action>)
    requires run != [] && Recorded(r, run[..|run| - 1]) && Recorded(r', run) && Extends(r, r')
    ensures var n := |run| - 1;
      && |r.owners| == n + 1 && |r'.frames| == |r'.writers| == |r'.stamps| == n + 2
      && r'.stamps[n] == r.stamp && r'.writers[n] == r.writer && r'.frames[n] == r.ownerFrame
      && r'.stamps[n + 1] == r'.stamp && r'.writers[n + 1] == r'.writer && r'.frames[n + 1] == r'.ownerFrame
  {
  }

  /** The stamp of the last instant follows from the one before and from what the last step did. */
  lemma NewestStamp(start: Router, run: seq<Action>, r: Router, n: nat)
    requires start.owners != [] && n + 1 < |r.frames| && n + 1 < |r.writers| && n + 1 < |r.stamps|
    requires StampOk(start, run, r, n)
    requires
      if Touches(start, run, n) then r.stamps[n + 1] == n + 1 && StampedBy(start, run, n, r.writers[n + 1], r.frames[n + 1])
      else r.stamps[n + 1] == r.stamps[n] && r.writers[n + 1] == r.writers[n] && r.frames[n + 1] == r.frames[n]
    ensures StampOk(start, run, r, n + 1)
  {
    hide Touches, StampedBy;
  }

  /** The last step of the run stamps the word exactly if it touches it. */
  lemma StampedNow(start: Router, run: seq<Action>, r: Router)
    requires start.owners != [] && run != [] && r == Run(start, run[..|run| - 1])
    ensures r.owners != []
    ensures var n := |run| - 1;
      var r' := Step(r, run[n]);
      if Touches(start, run, n) then r'.stamp == |r.owners| && StampedBy(start, run, n, r'.writer, r'.ownerFrame)
      else r'.stamp == r.stamp && r'.writer == r.writer && r'.ownerFrame == r.ownerFrame
  {
    hide Run, Call, Detect, Enter, MayClaim;
    TouchingMovesTheStamp(r, run[|run| - 1]);
  }

  lemma TouchingMovesTheStamp(r: Router, a: Action)
    requires r.owners != []
    ensures var r' := Step(r, a);
      if a == ResetFrame || (a.Advance? && a.t < |r.threads| && r.threads[a.t].pc.StoreFrame?) then
        r'.stamp == |r.owners|
      else r'.stamp == r.stamp && r'.writer == r.writer && r'.ownerFrame == r.ownerFrame
  {
    hide Call, Detect, Enter, MayClaim;
  }

  // -------------------------------------------------------------- the condition

  /**
   * The frame this takeover judged was stored by the producer it displaced, in
   * the very tenure it ended: the owner word has shown that producer from the
   * store up to the takeover.
   */
  ghost predicate JudgesItsOwn(r: Router, k: Takeover) {
    && k.evidence.loaded < |r.writers| && k.evidence.loaded < |r.stamps|
    && r.writers[k.evidence.loaded] == k.from
    && OwnedThroughout(r.owners, k.from, r.stamps[k.evidence.loaded], k.at + 1)
  }

  /** In terms of the steps: the displaced producer stored in this tenure, and nothing overwrote it before it was judged. */
  ghost predicate StoredAndStanding(start: Router, run: seq<Action>, r: Router, k: Takeover)
    requires start.owners != []
  {
    exists u: nat :: StandsSince(start, run, r, k, u)
  }

  ghost predicate StandsSince(start: Router, run: seq<Action>, r: Router, k: Takeover, u: nat)
    requires start.owners != []
  {
    && u < k.evidence.loaded && Publishes(start, run, u) && Token(run[u].t) == k.from
    && OwnedThroughout(r.owners, k.from, u + 1, k.at + 1)
    && (forall v | u < v < k.evidence.loaded :: !Overwrites(start, run, v, k.from))
  }

  /**
   * Exactly when a takeover judges the displaced producer's own frame, for every
   * run: if and only if that producer stored a frame after it last got the
   * stream, and neither another producer's store nor a reset came between that
   * store and the claimer's load. The displaced producer then really was stale:
   * its frame was more than 3 behind the claimer's or at least 32 ahead of it.
   */
  lemma JudgedFrameIsItsOwn(start: Router, run: seq<Action>, i: nat)
    requires Start(start) && i < |Run(start, run).takeovers|
    ensures var r := Run(start, run);
      var k := r.takeovers[i];
      && (JudgesItsOwn(r, k) <==> StoredAndStanding(start, run, r, k))
      && (JudgesItsOwn(r, k) ==> StaleByItsOwnFrame(start, run, r, k))
  {
    hide Run, Publishes, Touches, PublishedAt;
    RunKeepsTakeovers(start, run);
    var r := Run(start, run);
    var k := r.takeovers[i];
    TakeoverFacts(r, run, i);
    StampIsOk(start, run, k.evidence.loaded);
    if JudgesItsOwn(r, k) {
      OwnStoreStands(start, run, r, k);
    }
    if StoredAndStanding(start, run, r, k) {
      StandingIsItsOwn(start, run, r, k);
    }
  }

  /** The frame the displaced producer published last before it was judged, in frame IDs. */
  ghost predicate StaleByItsOwnFrame(start: Router, run: seq<Action>, r: Router, k: Takeover)
    requires start.owners != []
  {
    && k.evidence.loaded < |r.stamps|
    && var s := r.stamps[k.evidence.loaded];
       && 1 <= s <= k.evidence.loaded && Publishes(start, run, s - 1) && Token(run[s - 1].t) == k.from
       && (forall v | s <= v < k.evidence.loaded :: !Touches(start, run, v))
       && var f := PublishedAt(start, run, s - 1);
          f <= U64_MAX && f != U64_MAX - 1 ==> k.frame > f + TAKEOVER_LAG || f >= k.frame + RESTART_GAP
  }

  lemma TakeoverFacts(r: Router, run: seq<Action>, i: nat)
    requires TakeoversOk(r, run) && i < |r.takeovers|
    ensures Recorded(r, run)
    ensures var k := r.takeovers[i];
      && k.evidence.loaded < k.at < |run| && r.owners[k.at] == k.from
      && MayClaim(r.frames[k.evidence.loaded], k.frame) && r.frames[k.evidence.loaded] != 0
      && r.writers[k.evidence.loaded] != 0
  {
    assert TakeoverOk(r, run, r.takeovers[i]);
    assert WrittenByAnOwner(r, r.takeovers[i].evidence.loaded);
  }

  lemma OwnStoreStands(start: Router, run: seq<Action>, r: Router, k: Takeover)
    requires start.owners != [] && Recorded(r, run) && k.evidence.loaded < k.at < |run|
    requires StampOk(start, run, r, k.evidence.loaded) && JudgesItsOwn(r, k)
    requires r.writers[k.evidence.loaded] != 0 && MayClaim(r.frames[k.evidence.loaded], k.frame)
    ensures StoredAndStanding(start, run, r, k) && StaleByItsOwnFrame(start, run, r, k)
  {
    hide Run, PublishedAt, OwnedThroughout, MayClaim;
    var s := r.stamps[k.evidence.loaded];
    var u := s - 1;
    assert StampedBy(start, run, u, r.writers[k.evidence.loaded], r.frames[k.evidence.loaded]);
    assert Publishes(start, run, u) && Token(run[u].t) == k.from;
    forall v | u < v < k.evidence.loaded ensures !Overwrites(start, run, v, k.from) {
      assert !Touches(start, run, v);
    }
    assert StandsSince(start, run, r, k, u);
    var f := PublishedAt(start, run, u);
    if f <= U64_MAX && f != U64_MAX - 1 {
      StaleMeans(f, k.frame);
    }
  }

  lemma StandingIsItsOwn(start: Router, run: seq<Action>, r: Router, k: Takeover)
    requires start.owners != [] && Recorded(r, run) && k.evidence.loaded < k.at < |run|
    requires StampOk(start, run, r, k.evidence.loaded) && StoredAndStanding(start, run, r, k)
    ensures JudgesItsOwn(r, k)
  {
    hide Run, PublishedAt;
    var u: nat :| StandsSince(start, run, r, k, u);
    var s := r.stamps[k.evidence.loaded];
    assert Touches(start, run, u);
    assert s > u;
    assert StampedBy(start, run, s - 1, r.writers[k.evidence.loaded], r.frames[k.evidence.loaded]);
    if s - 1 > u {
      assert !Overwrites(start, run, s - 1, k.from);
    }
  }

  // -------------------------------------------------------- calls that do not overlap

  predicate Quiet(r: Router) {
    forall t | 0 <= t < |r.threads| :: r.threads[t].pc.Idle?
  }

  predicate Opens(a: Action) {
    a.Observe? || a.ResetFrame? || a.ResetOwner?
  }

  /** No call begins, and nothing is reset, while any call is under way. */
  ghost predicate Serial(start: Router, run: seq<Action>)
    requires start.owners != []
  {
    forall i | 0 <= i < |run| :: Opens(run[i]) ==> Quiet(Run(start, run[..i]))
  }

  /** The owner-frame word is the owner's own, stored in this tenure. */
  ghost predicate OwnWord(r: Router) {
    r.writer == r.owner && OwnedThroughout(r.owners, r.owner, r.stamp, |r.owners|)
  }

  /** What is true of the one call under way. */
  ghost predicate SerialPc(r: Router, pc: Pc, t: nat) {
    match pc
    case LoadFrame(_, _, owner, _, _) => owner == r.owner != 0
    case Claim(_, _, owner, e) =>
      owner != 0 ==>
        && owner == r.owner && e.loaded < |r.writers| && e.loaded < |r.stamps| && r.writers[e.loaded] == owner
        && OwnedThroughout(r.owners, owner, r.stamps[e.loaded], |r.owners|)
    case StoreFrame(_, _) => r.owner == Token(t)
    case _ => true
  }

  ghost predicate Alone(r: Router) {
    forall t, u | 0 <= t < |r.threads| && 0 <= u < |r.threads| && t != u ::
      r.threads[t].pc.Idle? || r.threads[u].pc.Idle?
  }

  /** The owner is about to store its frame for the first time in this tenure. */
  ghost predicate StorePending(r: Router) {
    1 <= r.owner <= |r.threads| && r.threads[r.owner - 1].pc.StoreFrame?
  }

  ghost predicate SerialOk(r: Router) {
    && Alone(r)
    && (r.owner == 0 || r.writer == 0 || OwnWord(r) || StorePending(r))
    && (forall t | 0 <= t < |r.threads| :: SerialPc(r, r.threads[t].pc, t))
    && (forall i | 0 <= i < |r.takeovers| :: JudgesItsOwn(r, r.takeovers[i]))
  }

  /** Ownership so far is ownership one step on, if the word stays. */
  lemma TenureGoesOn(owners: seq<nat>, token: nat, from: nat)
    requires OwnedThroughout(owners, token, from, |owners|)
    ensures OwnedThroughout(owners + [token], token, from, |owners| + 1)
  {
  }

  lemma JudgementStands(r: Router, r': Router, k: Takeover)
    requires JudgesItsOwn(r, k) && Extends(r, r')
    ensures JudgesItsOwn(r', k)
  {
  }

  /** What was known of a claim, or of an idle thread, stays known while the owner word stands. */
  lemma PcStands(r: Router, r': Router, pc: Pc, t: nat)
    requires SerialPc(r, pc, t) && Extends(r, r') && r'.owner == r.owner && r'.owners == r.owners + [r.owner]
    ensures SerialPc(r', pc, t)
  {
    if pc.Claim? && pc.owner != 0 {
      TenureGoesOn(r.owners, pc.owner, r.stamps[pc.evidence.loaded]);
    }
  }

  /** A step that leaves owner word, frame word and log alone keeps all but the acting thread's own part. */
  ghost predicate WordsStand(r: Router, r': Router) {
    && r'.owner == r.owner && r'.ownerFrame == r.ownerFrame && r'.writer == r.writer && r'.stamp == r.stamp
    && r'.takeovers == r.takeovers && r'.owners == r.owners + [r.owner] && |r'.threads| == |r.threads|
  }

  lemma OwnWordStands(r: Router, r': Router)
    requires WordsStand(r, r') && OwnWord(r)
    ensures OwnWord(r')
  {
    TenureGoesOn(r.owners, r.owner, r.stamp);
  }

  lemma WordsStandKeepsSerial(r: Router, r': Router, t: nat)
    requires SerialOk(r) && WordsStand(r, r') && Extends(r, r') && Alone(r') && t < |r.threads|
    requires forall u | 0 <= u < |r.threads| && u != t :: r'.threads[u] == r.threads[u]
    requires SerialPc(r', r'.threads[t].pc, t)
    requires StorePending(r) && r.owner - 1 == t ==> r'.threads[t] == r.threads[t]
    ensures SerialOk(r')
  {
    hide OwnWord, JudgesItsOwn, OwnedThroughout;
    if OwnWord(r) {
      OwnWordStands(r, r');
    }
    forall u | 0 <= u < |r'.threads| ensures SerialPc(r', r'.threads[u].pc, u) {
      if u != t {
        PcStands(r, r', r.threads[u].pc, u);
      }
    }
    forall i | 0 <= i < |r'.takeovers| ensures JudgesItsOwn(r', r'.takeovers[i]) {
      JudgementStands(r, r', r.takeovers[i]);
    }
  }

  /** An active thread is the only one, so nobody's store is pending but its own. */
  lemma OnlyOneActive(r: Router, t: nat)
    requires Alone(r) && t < |r.threads| && !r.threads[t].pc.Idle?
    ensures forall u | 0 <= u < |r.threads| && u != t :: r.threads[u].pc.Idle?
    ensures StorePending(r) ==> r.owner == Token(t)
  {
  }

  lemma StillAlone(r: Router, r': Router, t: nat)
    requires t < |r.threads| == |r'.threads| && forall u | 0 <= u < |r.threads| && u != t :: r'.threads[u] == r.threads[u]
    requires forall u | 0 <= u < |r.threads| && u != t :: r.threads[u].pc.Idle?
    ensures Alone(r')
  {
  }

  lemma LookKeepsSerial(r: Router, run: seq<Action>, t: nat)
    requires TakeoversOk(r, run) && SerialOk(r) && t < |r.threads|
    requires Inv(r)
    requires var pc := r.threads[t].pc; pc.CheckOwner? || pc.LoadOwner? || pc.LoadFrame? || pc.Confirm?
    ensures SerialOk(Step(r, Advance(t)))
  {
    var r' := Step(r, Advance(t));
    OnlyOneActive(r, t);
    LookMovesOneThread(r, run, t);
    StillAlone(r, r', t);
    LookIsRight(r, run, t);
    hide Step, SerialOk, SerialPc, Inv, TakeoversOk;
    WordsStandKeepsSerial(r, r', t);
  }

  lemma LookMovesOneThread(r: Router, run: seq<Action>, t: nat)
    requires Recorded(r, run) && t < |r.threads|
    requires var pc := r.threads[t].pc; pc.CheckOwner? || pc.LoadOwner? || pc.LoadFrame? || pc.Confirm?
    ensures var r' := Step(r, Advance(t));
      && WordsStand(r, r') && Extends(r, r')
      && forall u | 0 <= u < |r.threads| && u != t :: r'.threads[u] == r.threads[u]
  {
    hide Detect, Enter, MayClaim;
    StepExtends(r, run, Advance(t));
  }

  lemma LookIsRight(r: Router, run: seq<Action>, t: nat)
    requires TakeoversOk(r, run) && SerialOk(r) && t < |r.threads| && Inv(r)
    requires var pc := r.threads[t].pc; pc.CheckOwner? || pc.LoadOwner? || pc.LoadFrame? || pc.Confirm?
    ensures SerialPc(Step(r, Advance(t)), Step(r, Advance(t)).threads[t].pc, t)
  {
    hide Detect, JudgesItsOwn, TakeoverOk, CallOk, FramesOf, Replay;
    OnlyOneActive(r, t);
    assert ThreadOk(r.owners, r.owner, r.threads[t], t);
    if r.threads[t].pc.LoadFrame? && MayClaim(r.ownerFrame, r.threads[t].pc.frame) {
      assert WrittenByAnOwner(r, |run|);
      TenureGoesOn(r.owners, r.owner, r.stamp);
    }
  }

  lemma ClaimKeepsSerial(r: Router, run: seq<Action>, t: nat)
    requires Recorded(r, run) && SerialOk(r) && t < |r.threads| && r.threads[t].pc.Claim?
    ensures SerialOk(Step(r, Advance(t)))
  {
    var r' := Step(r, Advance(t));
    OnlyOneActive(r, t);
    StepExtends(r, run, Advance(t));
    StillAlone(r, r', t);
    if r.owner == r.threads[t].pc.owner || r.owner == Token(t) {
      hide MayClaim, OwnWord;
      forall i | 0 <= i < |r'.takeovers| ensures JudgesItsOwn(r', r'.takeovers[i]) {
        if i < |r.takeovers| {
          JudgementStands(r, r', r.takeovers[i]);
        }
      }
    } else {
      WordsStandKeepsSerial(r, r', t);
    }
  }

  lemma StoreKeepsSerial(r: Router, run: seq<Action>, t: nat)
    requires Recorded(r, run) && SerialOk(r) && t < |r.threads| && r.threads[t].pc.StoreFrame?
    ensures SerialOk(Step(r, Advance(t)))
  {
    hide Verdict, Observed, MayClaim;
    var r' := Step(r, Advance(t));
    OnlyOneActive(r, t);
    StepExtends(r, run, Advance(t));
    StillAlone(r, r', t);
    forall i | 0 <= i < |r'.takeovers| ensures JudgesItsOwn(r', r'.takeovers[i]) {
      JudgementStands(r, r', r.takeovers[i]);
    }
  }

  lemma IdleKeepsSerial(r: Router, run: seq<Action>, a: Action)
    requires Recorded(r, run) && SerialOk(r) && (Opens(a) ==> Quiet(r))
    requires a.Advance? && a.t < |r.threads| ==> r.threads[a.t].pc.Idle?
    ensures SerialOk(Step(r, a))
  {
    hide Verdict, Observed, PublishesProgress, MayClaim, JudgesItsOwn, OwnedThroughout;
    var r' := Step(r, a);
    StepExtends(r, run, a);
    if OwnWord(r) && a != ResetFrame && a != ResetOwner {
      OwnWordStands(r, r');
    }
    forall t | 0 <= t < |r'.threads| ensures SerialPc(r', r'.threads[t].pc, t) {
      if r'.threads[t].pc == r.threads[t].pc && r'.owner == r.owner {
        PcStands(r, r', r.threads[t].pc, t);
      }
    }
    forall i | 0 <= i < |r'.takeovers| ensures JudgesItsOwn(r', r'.takeovers[i]) {
      JudgementStands(r, r', r.takeovers[i]);
    }
  }

  lemma StepKeepsSerial(r: Router, run: seq<Action>, a: Action)
    requires TakeoversOk(r, run) && Inv(r) && SerialOk(r) && (Opens(a) ==> Quiet(r))
    ensures r.owners != [] && SerialOk(Step(r, a))
  {
    hide SerialOk, Step;
    if a.Advance? && a.t < |r.threads| && !r.threads[a.t].pc.Idle? {
      var t := a.t;
      if r.threads[t].pc.Claim? {
        ClaimKeepsSerial(r, run, t);
      } else if r.threads[t].pc.StoreFrame? {
        StoreKeepsSerial(r, run, t);
      } else {
        LookKeepsSerial(r, run, t);
      }
    } else {
      IdleKeepsSerial(r, run, a);
    }
  }

  lemma {:induction false} SerialRunIsOk(start: Router, run: seq<Action>)
    requires Start(start) && Serial(start, run)
    ensures SerialOk(Run(start, run))
    decreases |run|
  {
    hide Step, SerialOk, TakeoversOk, Inv, Quiet;
    if run == [] {
      StartIsSerial(start);
    } else {
      var n := |run| - 1;
      forall i | 0 <= i < n ensures Opens(run[..n][i]) ==> Quiet(Run(start, run[..n][..i])) {
        assert run[..n][..i] == run[..i];
      }
      SerialRunIsOk(start, run[..n]);
      RunKeepsTakeovers(start, run[..n]);
      CadenceRouter.RunKeepsInv(start, run[..n]);
      StepKeepsSerial(Run(start, run[..n]), run[..n], run[n]);
    }
  }

  lemma StartIsSerial(start: Router)
    requires Start(start)
    ensures SerialOk(start)
  {
  }

  /**
   * What the router promises holds when calls do not overlap each other or a
   * reset: every takeover judges the frame the displaced producer itself
   * published last, in the tenure that ends, so that producer is stale by more
   * than 3 frames or the claimer has restarted at least 32 frames lower.
   */
  lemma SerialTakeoversAreProven(start: Router, run: seq<Action>, i: nat)
    requires Start(start) && Serial(start, run) && i < |Run(start, run).takeovers|
    ensures var r := Run(start, run);
      var k := r.takeovers[i];
      JudgesItsOwn(r, k) && StoredAndStanding(start, run, r, k) && StaleByItsOwnFrame(start, run, r, k)
  {
    hide Run, StoredAndStanding, StaleByItsOwnFrame;
    SerialRunIsOk(start, run);
    JudgedFrameIsItsOwn(start, run, i);
  }

  // ------------------------------------------------------ how the judgement fails

  /** Three producers that have not called yet. */
  function ThreeProducers(): Router {
    Router(0, 0, 0, 0, seq(3, _ => Thread(Idle, UNBOUND)), [0], [0], [0], [0], [], [])
  }

  /** A call of producer t and its first three steps. */
  function BeginCall(t: nat, frame: nat): seq<Action> {
    [Observe(t, frame, false), Advance(t), Advance(t), Advance(t)]
  }

  lemma {:induction false} RunConcat(r: Router, a: seq<Action>, b: seq<Action>)
    requires r.owners != []
    ensures Run(r, a + b) == Run(Run(r, a), b)
    decreases |b|
  {
    hide Step;
    if b == [] {
      assert a + b == a;
    } else {
      RunConcat(r, a, b[..|b| - 1]);
      assert (a + b)[..|a + b| - 1] == a + b[..|b| - 1];
    }
  }

  lemma RunOfOne(r: Router, a: Action)
    requires r.owners != []
    ensures Run(r, [a]) == Step(r, a)
  {
    hide Step;
    assert [a][..0] == [] && Run(r, []) == r;
  }

  lemma RunOfTwo(r: Router, a: Action, b: Action)
    requires r.owners != []
    ensures Run(r, [a, b]) == Step(Step(r, a), b)
  {
    hide Step, Run;
    RunOfOne(r, a);
    RunOfOne(Step(r, a), b);
    RunConcat(r, [a], [b]);
    assert [a] + [b] == [a, b];
  }

  lemma RunOfCall(r: Router, t: nat, frame: nat)
    requires r.owners != []
    ensures Run(r, BeginCall(t, frame))
      == Step(Step(Step(Step(r, Observe(t, frame, false)), Advance(t)), Advance(t)), Advance(t))
  {
    hide Step, Run;
    RunOfTwo(r, Observe(t, frame, false), Advance(t));
    RunOfTwo(Step(Step(r, Observe(t, frame, false)), Advance(t)), Advance(t), Advance(t));
    RunConcat(r, [Observe(t, frame, false), Advance(t)], [Advance(t), Advance(t)]);
    assert [Observe(t, frame, false), Advance(t)] + [Advance(t), Advance(t)] == BeginCall(t, frame);
  }

  /** The histories end with the words as they are. */
  ghost predicate Whole(r: Router) {
    var n := |r.owners|;
    && n == |r.frames| == |r.writers| == |r.stamps| > 0
    && r.owners[n - 1] == r.owner && r.frames[n - 1] == r.ownerFrame
    && r.writers[n - 1] == r.writer && r.stamps[n - 1] == r.stamp
  }

  /** Only producer t moved, and history was only added to. */
  ghost predicate OnlyMoves(r: Router, r': Router, t: nat) {
    && Whole(r') && Extends(r, r') && t < |r.threads| == |r'.threads|
    && forall u | 0 <= u < |r.threads| && u != t :: r'.threads[u] == r.threads[u]
  }

  predicate SameWords(r: Router, r': Router) {
    r'.ownerFrame == r.ownerFrame && r'.writer == r.writer && r'.stamp == r.stamp
  }

  lemma MovesOn(a: Router, b: Router, c: Router, t: nat)
    requires OnlyMoves(a, b, t) && OnlyMoves(b, c, t)
    ensures OnlyMoves(a, c, t)
  {
  }

  /** Whatever producer t does, one step adds one instant to the history. */
  lemma MoveOn(r: Router, a: Action, t: nat)
    requires Whole(r) && t < |r.threads| && (a == Advance(t) || (a.Observe? && a.t == t))
    ensures OnlyMoves(r, Step(r, a), t) && |Step(r, a).owners| == |r.owners| + 1
  {
    hide Call, Detect, Enter, MayClaim;
  }

  /** A step that changes producer t's place and nothing else that matters. */
  ghost predicate Proceeds(r: Router, r': Router, t: nat, thread: Thread) {
    && OnlyMoves(r, r', t) && |r'.owners| == |r.owners| + 1 && SameWords(r, r')
    && r'.owner == r.owner && r'.takeovers == r.takeovers && r'.threads[t] == thread
  }

  lemma Asks(r: Router, t: nat, frame: nat)
    requires Whole(r) && t < |r.threads| && r.threads[t].pc.Idle?
    ensures Proceeds(r, Step(r, Observe(t, frame, false)), t, Call(r.threads[t].local, frame, false, |r.owners|))
  {
    MoveOn(r, Observe(t, frame, false), t);
    hide Call, OnlyMoves;
  }

  lemma Checks(r: Router, t: nat)
    requires Whole(r) && t < |r.threads| && r.threads[t].pc.CheckOwner?
    ensures var pc, l := r.threads[t].pc, r.threads[t].local;
      Proceeds(r, Step(r, Advance(t)), t,
        if r.owner != Token(t) then Thread(LoadOwner(pc.frame, pc.enabled, pc.called), Disowned(l))
        else Thread(StoreFrame(pc.frame, pc.enabled), l.(lastFrame := pc.frame, lastValid := true)))
  {
    MoveOn(r, Advance(t), t);
    hide OnlyMoves, Disowned;
  }

  lemma SeesOwner(r: Router, t: nat)
    requires Whole(r) && t < |r.threads| && r.threads[t].pc.LoadOwner? && r.owner != Token(t)
    ensures var pc, l, n := r.threads[t].pc, r.threads[t].local, |r.owners|;
      Proceeds(r, Step(r, Advance(t)), t, Thread(
        if r.owner == 0 then Claim(pc.frame, pc.enabled, 0, Evidence(pc.called, n - 1, n - 1, 0))
        else LoadFrame(pc.frame, pc.enabled, r.owner, pc.called, n - 1), l))
  {
    MoveOn(r, Advance(t), t);
    hide OnlyMoves;
  }

  lemma SeesStaleFrame(r: Router, t: nat)
    requires Whole(r) && t < |r.threads| && r.threads[t].pc.LoadFrame? && MayClaim(r.ownerFrame, r.threads[t].pc.frame)
    ensures var pc, l, n := r.threads[t].pc, r.threads[t].local, |r.owners|;
      Proceeds(r, Step(r, Advance(t)), t, Thread(
        Claim(pc.frame, pc.enabled, pc.owner, Evidence(pc.called, pc.sawOwner, n - 1, r.ownerFrame)), l))
  {
    MoveOn(r, Advance(t), t);
    hide OnlyMoves, MayClaim;
  }

  lemma Wins(r: Router, t: nat)
    requires Whole(r) && t < |r.threads| && r.threads[t].pc.Claim? && r.owner == r.threads[t].pc.owner
    ensures var r', pc := Step(r, Advance(t)), r.threads[t].pc;
      && OnlyMoves(r, r', t) && |r'.owners| == |r.owners| + 1 && SameWords(r, r') && r'.owner == Token(t)
      && r'.threads[t] == Enter(r.threads[t].local, pc.frame, pc.enabled, |r.owners|)
      && r'.takeovers == r.takeovers +
           if pc.owner != 0 then [Takeover(t, pc.owner, pc.frame, pc.evidence, |r.owners| - 1)] else []
  {
    MoveOn(r, Advance(t), t);
    hide OnlyMoves, Enter;
  }

  lemma StoreLands(r: Router, t: nat)
    requires Whole(r) && t < |r.threads| && r.threads[t].pc.StoreFrame?
    ensures var r', pc := Step(r, Advance(t)), r.threads[t].pc;
      && OnlyMoves(r, r', t) && r'.owner == r.owner && r'.takeovers == r.takeovers && |r'.owners| == |r.owners| + 1
      && r'.ownerFrame == EncodeFrame(pc.frame) && r'.writer == Token(t) && r'.stamp == |r.owners|
      && r'.threads[t] == Detect(r.threads[t].local, pc.frame, pc.enabled, |r.owners|)
  {
    MoveOn(r, Advance(t), t);
    hide OnlyMoves, Detect;
  }

  /** The first observation of a fresh detector decides nothing. */
  lemma FirstObservation(l: Local, frame: nat, now: nat)
    requires l.detector == CLEARED
    ensures var after := Detect(l, frame, false, now);
      && after.pc == Idle && after.local.owned == l.owned
      && after.local.lastValid == l.lastValid && after.local.lastFrame == l.lastFrame
  {
  }

  /** The first call on a free stream: the producer owns it and has published its frame. */
  lemma FirstComes(r: Router, t: nat, frame: nat)
    requires Whole(r) && t < |r.threads| && r.threads[t] == Thread(Idle, UNBOUND) && r.owner == 0
    ensures var r' := Run(r, BeginCall(t, frame));
      && OnlyMoves(r, r', t) && r'.takeovers == r.takeovers
      && r'.owner == r'.writer == Token(t) && r'.ownerFrame == EncodeFrame(frame) && r'.stamp == |r'.owners| - 1
      && var l := r'.threads[t].local;
         r'.threads[t].pc == Idle && l.owned && l.lastValid && l.lastFrame == frame
  {
    hide Run, Step, Extends, Detect;
    var s1 := Step(r, Observe(t, frame, false));
    var s2 := Step(s1, Advance(t));
    var s3 := Step(s2, Advance(t));
    RunOfCall(r, t, frame);
    Asks(r, t, frame);
    SeesOwner(s1, t);
    Wins(s2, t);
    StoreLands(s3, t);
    FirstObservation(s3.threads[t].local, frame, |s3.owners|);
    MovesOn(r, s1, s2, t);
    MovesOn(r, s2, s3, t);
    MovesOn(r, s3, Step(s3, Advance(t)), t);
  }

  /** An undisturbed foreign producer that finds a stale frame owns the stream, its own frame not yet published. */
  lemma StaleIsTakenOver(r: Router, t: nat, frame: nat)
    requires Whole(r) && t < |r.threads| && r.threads[t] == Thread(Idle, UNBOUND)
    requires r.owner != 0 && r.owner != Token(t) && MayClaim(r.ownerFrame, frame)
    ensures var r', n := Run(r, BeginCall(t, frame)), |r.owners|;
      && OnlyMoves(r, r', t) && SameWords(r, r') && r'.owner == Token(t)
      && r'.threads[t].pc == StoreFrame(frame, false) && |r'.owners| == n + 4
      && r'.takeovers == r.takeovers + [Takeover(t, r.owner, frame, Evidence(n, n, n + 1, r.ownerFrame), n + 2)]
      && r'.writers[n + 1] == r.writer && r'.stamps[n + 1] == r.stamp
  {
    hide Run, Step, MayClaim;
    var s1 := Step(r, Observe(t, frame, false));
    var s2 := Step(s1, Advance(t));
    var s3 := Step(s2, Advance(t));
    RunOfCall(r, t, frame);
    Asks(r, t, frame);
    SeesOwner(s1, t);
    SeesStaleFrame(s2, t);
    Wins(s3, t);
    MovesOn(r, s1, s2, t);
    MovesOn(r, s2, s3, t);
    MovesOn(r, s3, Step(s3, Advance(t)), t);
    MovesOn(s2, s3, Step(s3, Advance(t)), t);
  }

  /** The owner begins a call that publishes, up to its store. */
  lemma OwnerBegins(r: Router, t: nat, frame: nat)
    requires Whole(r) && t < |r.threads| && r.threads[t].pc == Idle && r.threads[t].local.owned && r.owner == Token(t)
    requires PublishesProgress(r.threads[t].local, frame)
    ensures var r' := Run(r, [Observe(t, frame, false), Advance(t)]);
      && OnlyMoves(r, r', t) && SameWords(r, r') && r'.owner == r.owner && r'.takeovers == r.takeovers
      && r'.threads[t].pc == StoreFrame(frame, false)
  {
    hide Run, Step, Extends;
    var s1 := Step(r, Observe(t, frame, false));
    RunOfTwo(r, Observe(t, frame, false), Advance(t));
    Asks(r, t, frame);
    Checks(s1, t);
    MovesOn(r, s1, Step(s1, Advance(t)), t);
  }

  /** A producer that still believes it owns the stream finds out, and claims it back. */
  lemma ClaimsBack(r: Router, t: nat, frame: nat)
    requires Whole(r) && t < |r.threads| && r.threads[t].pc == Idle && r.threads[t].local.owned
    requires r.owner != 0 && r.owner != Token(t) && MayClaim(r.ownerFrame, frame)
    requires PublishesProgress(r.threads[t].local, frame)
    ensures var r', n := Run(r, BeginCall(t, frame) + [Advance(t)]), |r.owners|;
      && OnlyMoves(r, r', t) && SameWords(r, r') && r'.owner == Token(t)
      && r'.threads[t].pc == StoreFrame(frame, false) && |r'.owners| == n + 5
      && r'.takeovers == r.takeovers + [Takeover(t, r.owner, frame, Evidence(n, n + 1, n + 2, r.ownerFrame), n + 3)]
  {
    hide Run, Step, MayClaim, Extends;
    var s1 := Step(r, Observe(t, frame, false));
    var s2 := Step(s1, Advance(t));
    var s3 := Step(s2, Advance(t));
    var s4 := Step(s3, Advance(t));
    RunOfCall(r, t, frame);
    RunConcat(r, BeginCall(t, frame), [Advance(t)]);
    RunOfOne(s4, Advance(t));
    Asks(r, t, frame);
    Checks(s1, t);
    SeesOwner(s2, t);
    SeesStaleFrame(s3, t);
    Wins(s4, t);
    MovesOn(r, s1, s2, t);
    MovesOn(r, s2, s3, t);
    MovesOn(r, s3, s4, t);
    MovesOn(r, s4, Step(s4, Advance(t)), t);
  }

  lemma Untouched(r: Router, r': Router, t: nat, u: nat)
    requires OnlyMoves(r, r', t) && u < |r.threads| && u != t
    ensures Whole(r') && Extends(r, r') && |r'.threads| == |r.threads| && r'.threads[u] == r.threads[u]
  {
  }

  lemma FreshStart()
    ensures var r := ThreeProducers();
      && Whole(r) && r.owner == 0 && r.takeovers == [] && |r.threads| == 3
      && forall t | 0 <= t < 3 :: r.threads[t] == Thread(Idle, UNBOUND)
  {
  }

  /** Two moves are one longer move, as far as history goes. */
  lemma HistoryIsKept(a: Router, b: Router, c: Router)
    requires Extends(a, b) && Extends(b, c)
    ensures Extends(a, c)
  {
  }

  /**
   * A pending store: the second producer, at frame 20, has won the owner word
   * and not stored its frame yet; the third, at frame 15, takes over from it
   * because the first one's frame 10 still stands.
   */
  lemma JudgedByThePredecessor()
    ensures var run := BeginCall(0, 10) + BeginCall(1, 20) + BeginCall(2, 15);
      var r := Run(ThreeProducers(), run);
      && |r.takeovers| == 2
      && var k := r.takeovers[1];
         && k.thread == 2 && k.from == Token(1) && k.frame == 15
         && k.evidence.loaded < |r.writers| && r.writers[k.evidence.loaded] == Token(0) && !JudgesItsOwn(r, k)
         && !MayClaim(EncodeFrame(20), k.frame)
  {
    FreshStart();
    var r := ThreeProducers();
    hide Run, BeginCall, ThreeProducers, OnlyMoves, Whole, Extends, MayClaim, OwnedThroughout;
    var r1 := Run(r, BeginCall(0, 10));
    var r2 := Run(r1, BeginCall(1, 20));
    RunConcat(r, BeginCall(0, 10), BeginCall(1, 20));
    RunConcat(r, BeginCall(0, 10) + BeginCall(1, 20), BeginCall(2, 15));
    StaleMeans(10, 20);
    StaleMeans(10, 15);
    StaleMeans(20, 15);
    FirstComes(r, 0, 10);
    Untouched(r, r1, 0, 1);
    Untouched(r, r1, 0, 2);
    StaleIsTakenOver(r1, 1, 20);
    Untouched(r1, r2, 1, 2);
    StaleIsTakenOver(r2, 2, 15);
    Untouched(r2, Run(r2, BeginCall(2, 15)), 2, 0);
    WholeSizes(Run(r2, BeginCall(2, 15)));
  }

  /**
   * A late store: the first producer stops between its look at the owner word
   * and its store of frame 13; meanwhile the second takes over and publishes
   * 20. The late store overwrites that, and the third, at frame 18, takes over
   * from the second, which is not stale.
   */
  lemma JudgedByALateStore()
    ensures var run := BeginCall(0, 10) + [Observe(0, 13, false), Advance(0)] + BeginCall(1, 20)
        + [Advance(1)] + [Advance(0)] + BeginCall(2, 18);
      var r := Run(ThreeProducers(), run);
      && |r.takeovers| == 2
      && var k := r.takeovers[1];
         && k.thread == 2 && k.from == Token(1) && k.frame == 18
         && k.evidence.loaded < |r.writers| && r.writers[k.evidence.loaded] == Token(0) && !JudgesItsOwn(r, k)
         && k.evidence.loaded < |r.frames| && EncodeFrame(20) in r.frames[..k.evidence.loaded]
         && !MayClaim(EncodeFrame(20), k.frame)
  {
    var first := BeginCall(0, 10) + [Observe(0, 13, false), Advance(0)] + BeginCall(1, 20) + [Advance(1)] + [Advance(0)];
    hide Run, BeginCall, ThreeProducers, OnlyMoves, Whole, MayClaim, OwnedThroughout;
    LateStoreLands();
    var r := Run(ThreeProducers(), first);
    var r' := Run(r, BeginCall(2, 18));
    RunConcat(ThreeProducers(), first, BeginCall(2, 18));
    StaleMeans(13, 18);
    StaleMeans(20, 18);
    StaleIsTakenOver(r, 2, 18);
    Untouched(r, r', 2, 0);
    WholeSizes(r);
    assert r'.takeovers[1].evidence.loaded >= |r.frames| && r.frames <= r'.frames;
    assert EncodeFrame(20) in r'.frames[..r'.takeovers[1].evidence.loaded];
  }

  lemma WholeSizes(r: Router)
    requires Whole(r)
    ensures |r.owners| == |r.frames| == |r.writers| == |r.stamps|
  {
  }

  lemma LateStoreLands()
    ensures var run := BeginCall(0, 10) + [Observe(0, 13, false), Advance(0)] + BeginCall(1, 20)
        + [Advance(1)] + [Advance(0)];
      var r := Run(ThreeProducers(), run);
      && Whole(r) && |r.threads| == 3 && r.threads[2] == Thread(Idle, UNBOUND) && |r.takeovers| == 1
      && r.owner == Token(1) && r.ownerFrame == EncodeFrame(13) && r.writer == Token(0) && EncodeFrame(20) in r.frames
  {
    var before := BeginCall(0, 10) + [Observe(0, 13, false), Advance(0)] + BeginCall(1, 20);
    hide Run, Step, BeginCall, ThreeProducers, OnlyMoves, Whole, Extends, Detect;
    StorePassedOver();
    var r3 := Run(ThreeProducers(), before);
    var r4 := Step(r3, Advance(1));
    RunConcat(ThreeProducers(), before, [Advance(1)]);
    RunConcat(ThreeProducers(), before + [Advance(1)], [Advance(0)]);
    RunOfOne(r3, Advance(1));
    RunOfOne(r4, Advance(0));
    StoreLands(r3, 1);
    Untouched(r3, r4, 1, 0);
    Untouched(r3, r4, 1, 2);
    StoreLands(r4, 0);
    Untouched(r4, Step(r4, Advance(0)), 0, 2);
    StoreIsRecorded(r4, Step(r4, Advance(0)));
  }

  lemma StoreIsRecorded(r: Router, r': Router)
    requires Whole(r) && Extends(r, r')
    ensures r.ownerFrame in r'.frames
  {
    assert r'.frames[|r.frames| - 1] == r.ownerFrame;
  }

  /** The first producer is before its store of 13, and the second has won the owner word and is before its own of 20. */
  lemma StorePassedOver()
    ensures var run := BeginCall(0, 10) + [Observe(0, 13, false), Advance(0)] + BeginCall(1, 20);
      var r := Run(ThreeProducers(), run);
      && Whole(r) && |r.threads| == 3 && r.threads[2] == Thread(Idle, UNBOUND) && |r.takeovers| == 1
      && r.owner == Token(1) && r.threads[0].pc == StoreFrame(13, false) && r.threads[1].pc == StoreFrame(20, false)
  {
    FreshStart();
    var r := ThreeProducers();
    hide Run, BeginCall, ThreeProducers, OnlyMoves, Whole, Extends, MayClaim;
    var r1 := Run(r, BeginCall(0, 10));
    var r2 := Run(r1, [Observe(0, 13, false), Advance(0)]);
    RunConcat(r, BeginCall(0, 10), [Observe(0, 13, false), Advance(0)]);
    RunConcat(r, BeginCall(0, 10) + [Observe(0, 13, false), Advance(0)], BeginCall(1, 20));
    FirstComes(r, 0, 10);
    Untouched(r, r1, 0, 1);
    Untouched(r, r1, 0, 2);
    OwnerBegins(r1, 0, 13);
    Untouched(r1, r2, 0, 1);
    Untouched(r1, r2, 0, 2);
    StaleMeans(10, 20);
    StaleIsTakenOver(r2, 1, 20);
    Untouched(r2, Run(r2, BeginCall(1, 20)), 1, 0);
    Untouched(r2, Run(r2, BeginCall(1, 20)), 1, 2);
  }

  /**
   * An old tenure: the second producer displaces the first and stops before its
   * store; the first, at frame 50, claims the stream back, and the third, at
   * frame 49, takes over from it judging the frame 10 of its earlier tenure.
   * The writer is the displaced producer here, and still the frame is not the
   * one of the tenure that ends.
   */
  lemma JudgedByAnOldTenure()
    ensures var run := BeginCall(0, 10) + BeginCall(1, 20) + (BeginCall(0, 50) + [Advance(0)]) + BeginCall(2, 49);
      var r := Run(ThreeProducers(), run);
      && |r.takeovers| == 3
      && var k := r.takeovers[2];
         && k.thread == 2 && k.from == Token(0) && k.frame == 49
         && k.evidence.loaded < |r.writers| && r.writers[k.evidence.loaded] == k.from && !JudgesItsOwn(r, k)
         && !MayClaim(EncodeFrame(50), k.frame)
  {
    FreshStart();
    var r := ThreeProducers();
    hide Run, BeginCall, ThreeProducers, OnlyMoves, Whole, Extends, MayClaim, JudgesItsOwn;
    var r1 := Run(r, BeginCall(0, 10));
    var r2 := Run(r1, BeginCall(1, 20));
    var r3 := Run(r2, BeginCall(0, 50) + [Advance(0)]);
    var r4 := Run(r3, BeginCall(2, 49));
    RunConcat(r, BeginCall(0, 10), BeginCall(1, 20));
    RunConcat(r, BeginCall(0, 10) + BeginCall(1, 20), BeginCall(0, 50) + [Advance(0)]);
    RunConcat(r, BeginCall(0, 10) + BeginCall(1, 20) + (BeginCall(0, 50) + [Advance(0)]), BeginCall(2, 49));
    StaleMeans(10, 20);
    StaleMeans(10, 50);
    StaleMeans(10, 49);
    StaleMeans(50, 49);
    FirstComes(r, 0, 10);
    Untouched(r, r1, 0, 1);
    Untouched(r, r1, 0, 2);
    StaleIsTakenOver(r1, 1, 20);
    Untouched(r1, r2, 1, 0);
    Untouched(r1, r2, 1, 2);
    ClaimsBack(r2, 0, 50);
    Untouched(r2, r3, 0, 2);
    StaleIsTakenOver(r3, 2, 49);
    Untouched(r3, r4, 2, 0);
    HistoryIsKept(r2, r3, r4);
    InterruptedTenure(r2, r3, r4, r4.takeovers[2]);
  }

  /** A tenure that reached back beyond r would have to own the stream at the end of r. */
  lemma InterruptedTenure(r: Router, r': Router, r'': Router, k: Takeover)
    requires Whole(r) && Whole(r') && Extends(r, r'') && r.owner != k.from
    requires k.evidence.loaded < |r''.stamps| && r''.stamps[k.evidence.loaded] < |r.owners| <= k.at
    ensures !JudgesItsOwn(r'', k)
  {
    assert r''.owners[|r.owners| - 1] == r.owner;
  }
}
