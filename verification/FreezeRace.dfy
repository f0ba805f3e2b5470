/**
 * The startup freeze of owners as interleaved atomic steps: any number of
 * callers race to freeze, any number of readers look owners up.
 *
 * A caller loads the lock state, agrees on where collection began with one
 * compare-exchange, and races for the freeze with another, from 0 to 1. The
 * winner stores an owner for every aspect, repairs the pacing owner, loads all
 * owners back into one packed word, stores the word and then the lock state 2. A
 * reader loads the lock state and, if it is 2, the word. What a caller knows of
 * its frontends, and so whom it would choose, is an input of its call. A reset is
 * one step.
 */
module FreezeRace {
  import opened Frontends
  import opened HybridOwners
  import opened Options

  /**
   * What one call brings along: its observation count, whether startup locking
   * is on and a healthy frontend was seen, how long to collect, the owner code it
   * would choose for each aspect and its second choice for pacing.
   */
  datatype Ballot = Ballot(now: nat, ready: bool, observations: nat, chosen: seq<nat>, fallback: nat)

  datatype Pc =
    | Idle
    | LoadLock(e: Ballot)
    | LoadBegin(e: Ballot)
    | CasBegin(e: Ballot)
    | ReloadBegin(e: Ballot)
    | CasLock(e: Ballot, begin: nat)
    | LoadLockAgain
    | StoreOwner(e: Ballot, i: nat)
    | CheckPacing(e: Ballot)
    | StoreFallback(e: Ballot)
    | LoadOwner(e: Ballot, got: seq<nat>)
    | StoreWord(e: Ballot, word: nat)
    | StoreLocked(e: Ballot)
    | Returned(locked: bool)
    | ReadLock
    | ReadWord
    | Got(answer: Option<nat>)

  /** A caller that won the freeze, and what it froze from. */
  datatype Win = Win(era: nat, thread: nat, begin: nat, e: Ballot)

  /** A word a reader got, having seen lock state 2. */
  datatype Reading = Reading(era: nat, word: nat)

  /** `era` counts resets; `wins` and `readings` log the two things the theorems speak of. */
  datatype Freeze = Freeze(
    lock: nat, begin: nat, owners: seq<nat>, word: nat, era: nat,
    threads: seq<Pc>, wins: seq<Win>, readings: seq<Reading>)

  datatype Action =
    | TryLock(t: nat, e: Ballot)
    | Read(t: nat)
    | Advance(t: nat)
    | Reset

  const N: nat := |ASPECTS|

  predicate Proper(e: Ballot) {
    && |e.chosen| == N && e.fallback < 5 && e.now < U64
    && forall i | 0 <= i < N :: e.chosen[i] < 5
  }

  /** Between calls. */
  predicate AtRest(pc: Pc) {
    pc.Idle? || pc.Returned? || pc.Got?
  }

  /** The owners a winner leaves: its choices, and the second choice for pacing if the first is nobody. */
  function Final(e: Ballot): (owners: seq<nat>)
    ensures Proper(e) ==> |owners| == N
  {
    if |e.chosen| > 0 && e.chosen[0] == 0 then e.chosen[0 := e.fallback] else e.chosen
  }

  predicate LongEnough(e: Ballot, begin: nat) {
    Minus64(e.now, begin) >= e.observations
  }

  /** By the numbers, wrap-around of the 64-bit counters included. */
  lemma LongEnoughMeans(e: Ballot, begin: nat)
    requires e.now < U64 && begin < U64
    ensures LongEnough(e, begin) <==>
      (if e.now >= begin then e.now - begin else e.now + U64 - begin) >= e.observations
  {
  }

  function SetPc(f: Freeze, t: nat, pc: Pc): Freeze
    requires t < |f.threads|
  {
    f.(threads := f.threads[t := pc])
  }

  function AdvanceThread(f: Freeze, t: nat): (f': Freeze)
    requires t < |f.threads| && |f.owners| == N
    ensures |f'.threads| == |f.threads| && |f'.owners| == N && f'.era == f.era
    ensures forall u | 0 <= u < |f.threads| && u != t :: f'.threads[u] == f.threads[u]
  {
    match f.threads[t]
    case LoadLock(e) =>
      SetPc(f, t, if f.lock == 2 then Returned(true) else if e.ready && e.now != 0 then LoadBegin(e) else Returned(false))
    case LoadBegin(e) =>
      SetPc(f, t,
        if f.begin == 0 then CasBegin(e)
        else if LongEnough(e, f.begin) then CasLock(e, f.begin) else Returned(false))
    case CasBegin(e) => SetPc(if f.begin == 0 then f.(begin := e.now) else f, t, ReloadBegin(e))
    case ReloadBegin(e) => SetPc(f, t, if LongEnough(e, f.begin) then CasLock(e, f.begin) else Returned(false))
    case CasLock(e, begin) =>
      if f.lock == 0 then
        SetPc(f.(lock := 1, wins := f.wins + [Win(f.era, t, begin, e)]), t, StoreOwner(e, 0))
      else SetPc(f, t, LoadLockAgain)
    case LoadLockAgain => SetPc(f, t, Returned(f.lock == 2))
    case StoreOwner(e, i) =>
      if i < N && i < |e.chosen| then SetPc(f.(owners := f.owners[i := e.chosen[i]]), t, StoreOwner(e, i + 1))
      else SetPc(f, t, CheckPacing(e))
    case CheckPacing(e) => SetPc(f, t, if f.owners[0] == 0 then StoreFallback(e) else LoadOwner(e, []))
    case StoreFallback(e) => SetPc(f.(owners := f.owners[0 := e.fallback]), t, LoadOwner(e, []))
    case LoadOwner(e, got) =>
      SetPc(f, t,
        if |got| < N then LoadOwner(e, got + [f.owners[|got|]]) else StoreWord(e, PackedOwners(got)))
    case StoreWord(e, word) => SetPc(f.(word := word), t, StoreLocked(e))
    case StoreLocked(e) => SetPc(f.(lock := 2), t, Returned(true))
    case ReadLock => SetPc(f, t, if f.lock == 2 then ReadWord else Got(None))
    case ReadWord => SetPc(f.(readings := f.readings + [Reading(f.era, f.word)]), t, Got(Some(f.word)))
    case _ => f
  }

  function Step(f: Freeze, a: Action): (f': Freeze)
    requires |f.owners| == N
    ensures |f'.owners| == N && |f'.threads| == |f.threads|
  {
    match a
    case TryLock(t, e) =>
      if t < |f.threads| && AtRest(f.threads[t]) && Proper(e) then SetPc(f, t, LoadLock(e)) else f
    case Read(t) => if t < |f.threads| && AtRest(f.threads[t]) then SetPc(f, t, ReadLock) else f
    case Advance(t) => if t < |f.threads| then AdvanceThread(f, t) else f
    case Reset => f.(lock := 0, begin := 0, owners := seq(N, _ => 0), word := 0, era := f.era + 1)
  }

  ghost predicate Start(f: Freeze) {
    && f.lock == 0 && f.begin == 0 && f.owners == seq(N, _ => 0) && f.word == 0 && f.era == 0
    && f.wins == [] && f.readings == [] && forall t | 0 <= t < |f.threads| :: f.threads[t] == Idle
  }

  function Run(f: Freeze, run: seq<Action>): (f': Freeze)
    requires |f.owners| == N
    ensures |f'.owners| == N && |f'.threads| == |f.threads|
    decreases |run|
  {
    if run == [] then f else Step(Run(f, run[..|run| - 1]), run[|run| - 1])
  }

  predicate Quiet(f: Freeze) {
    forall t | 0 <= t < |f.threads| :: AtRest(f.threads[t])
  }

  /** Nobody is inside a call when a reset comes. */
  ghost predicate QuietResets(f: Freeze, run: seq<Action>)
    requires |f.owners| == N
  {
    forall i | 0 <= i < |run| :: run[i] == Reset ==> Quiet(Run(f, run[..i]))
  }

  // ---------------------------------------------------------------- invariant

  predicate Freezing(pc: Pc) {
    pc.StoreOwner? || pc.CheckPacing? || pc.StoreFallback? || pc.LoadOwner? || pc.StoreWord? || pc.StoreLocked?
  }

  /** How far the winner has got. */
  ghost predicate Underway(f: Freeze, pc: Pc, e: Ballot)
    requires |f.owners| == N
  {
    Proper(e) &&
    match pc
    case StoreOwner(e', i) => e' == e && i <= N && f.owners[..i] == e.chosen[..i]
    case CheckPacing(e') => e' == e && f.owners == e.chosen
    case StoreFallback(e') => e' == e && f.owners == e.chosen && e.chosen[0] == 0
    case LoadOwner(e', got) => e' == e && f.owners == Final(e) && |got| <= N && got == f.owners[..|got|]
    case StoreWord(e', word) => e' == e && word == PackedOwners(Final(e))
    case StoreLocked(e') => e' == e && f.word == PackedOwners(Final(e))
    case _ => false
  }

  /** The last winner, if it won since the last reset. */
  ghost predicate WonThisEra(f: Freeze) {
    f.wins != [] && f.wins[|f.wins| - 1].era == f.era
  }

  /** What a caller that is still collecting knows. */
  ghost predicate CollectingOk(f: Freeze, pc: Pc) {
    match pc
    case LoadLock(e) => Proper(e)
    case LoadBegin(e) => Proper(e) && e.ready && e.now != 0
    case CasBegin(e) => Proper(e) && e.ready && e.now != 0
    case ReloadBegin(e) => Proper(e) && e.ready && e.now != 0 && f.begin != 0
    case CasLock(e, begin) => Proper(e) && e.ready && e.now != 0 && begin == f.begin != 0 && LongEnough(e, begin)
    case ReadWord => f.lock == 2
    case _ => true
  }

  ghost predicate WinOk(w: Win, era: nat) {
    && w.era <= era && Proper(w.e) && w.e.ready && w.e.now != 0 && w.begin != 0 && LongEnough(w.e, w.begin)
  }

  /** The word a reader got is the one its era's winner packed. */
  ghost predicate ReadingOk(wins: seq<Win>, r: Reading) {
    exists i :: 0 <= i < |wins| && wins[i].era == r.era && r.word == PackedOwners(Final(wins[i].e))
  }

  ghost predicate LockOk(f: Freeze)
    requires |f.owners| == N
  {
    && f.lock <= 2 && (f.lock != 0 <==> WonThisEra(f))
    && (f.lock == 1 ==>
        var w := f.wins[|f.wins| - 1];
        w.thread < |f.threads| && Underway(f, f.threads[w.thread], w.e))
    && (f.lock == 2 ==> f.word == PackedOwners(Final(f.wins[|f.wins| - 1].e)))
    && (f.lock != 0 ==> f.wins[|f.wins| - 1].begin == f.begin)
  }

  ghost predicate Inv(f: Freeze) {
    && |f.owners| == N && LockOk(f)
    && (forall t | 0 <= t < |f.threads| :: CollectingOk(f, f.threads[t]))
    && (forall t | 0 <= t < |f.threads| && Freezing(f.threads[t]) :: f.lock == 1 && f.wins[|f.wins| - 1].thread == t)
    && (forall i | 0 <= i < |f.wins| :: WinOk(f.wins[i], f.era))
    && (forall i, j | 0 <= i < j < |f.wins| :: f.wins[i].era < f.wins[j].era)
    && (forall i | 0 <= i < |f.readings| :: ReadingOk(f.wins, f.readings[i]))
  }

  lemma ReadingStands(wins: seq<Win>, more: seq<Win>, r: Reading)
    requires ReadingOk(wins, r) && wins <= more
    ensures ReadingOk(more, r)
  {
    hide PackedOwners, Final;
    var i :| 0 <= i < |wins| && wins[i].era == r.era && r.word == PackedOwners(Final(wins[i].e));
    assert more[i] == wins[i];
  }

  /** A thread that moves between places where it neither freezes nor stores. */
  lemma MoveKeepsInv(f: Freeze, t: nat, pc: Pc)
    requires Inv(f) && t < |f.threads| && !Freezing(f.threads[t]) && !Freezing(pc) && CollectingOk(f, pc)
    ensures Inv(SetPc(f, t, pc))
  {
    hide PackedOwners, Final, WinOk, ReadingOk, LongEnough;
  }

  lemma BeginKeepsInv(f: Freeze, t: nat)
    requires Inv(f) && t < |f.threads| && f.threads[t].CasBegin?
    ensures Inv(AdvanceThread(f, t))
  {
    hide PackedOwners, Final, WinOk, ReadingOk, LongEnough, Proper;
    var f' := AdvanceThread(f, t);
    forall u | 0 <= u < |f.threads| ensures CollectingOk(f', f'.threads[u]) {
      assert CollectingOk(f, f.threads[u]);
    }
    if f.lock != 0 {
      assert WinOk(f.wins[|f.wins| - 1], f.era);
      BeginIsSet(f);
    }
  }

  /** Once somebody has won, collection has begun. */
  lemma BeginIsSet(f: Freeze)
    requires |f.owners| == N && LockOk(f) && f.lock != 0 && WinOk(f.wins[|f.wins| - 1], f.era)
    ensures f.begin != 0
  {
  }

  lemma WinKeepsInv(f: Freeze, t: nat)
    requires Inv(f) && t < |f.threads| && f.threads[t].CasLock? && f.lock == 0
    ensures Inv(AdvanceThread(f, t))
  {
    hide PackedOwners, Final, LongEnough, Proper;
    var f' := AdvanceThread(f, t);
    assert CollectingOk(f, f.threads[t]);
    forall u | 0 <= u < |f.threads| ensures CollectingOk(f', f'.threads[u]) {
      assert CollectingOk(f, f.threads[u]);
    }
    forall i | 0 <= i < |f.wins| ensures f.wins[i].era < f.era {
      assert WinOk(f.wins[i], f.era) && WinOk(f.wins[|f.wins| - 1], f.era);
    }
    forall i | 0 <= i < |f'.readings| ensures ReadingOk(f'.wins, f'.readings[i]) {
      ReadingStands(f.wins, f'.wins, f.readings[i]);
    }
  }

  /** The winner's own steps bring it on; its last one publishes. */
  lemma FreezingKeepsInv(f: Freeze, t: nat)
    requires Inv(f) && t < |f.threads| && Freezing(f.threads[t])
    ensures Inv(AdvanceThread(f, t))
  {
    var f' := AdvanceThread(f, t);
    var w := f.wins[|f.wins| - 1];
    FreezingComesOn(f, t, w.e);
    hide PackedOwners, Final, WinOk, ReadingOk, LongEnough, Proper, Underway;
    forall u | 0 <= u < |f.threads| ensures CollectingOk(f', f'.threads[u]) {
      assert CollectingOk(f, f.threads[u]);
    }
  }

  lemma FreezingComesOn(f: Freeze, t: nat, e: Ballot)
    requires |f.owners| == N && t < |f.threads| && Underway(f, f.threads[t], e)
    ensures var f' := AdvanceThread(f, t);
      if f.threads[t].StoreLocked? then f'.lock == 2 && f'.word == PackedOwners(Final(e)) && f'.threads[t] == Returned(true)
      else f'.lock == f.lock && Underway(f', f'.threads[t], e)
  {
    hide PackedOwners;
    match f.threads[t]
    case StoreOwner(_, i) =>
      if i < N {
        assert e.chosen[..i + 1] == e.chosen[..i] + [e.chosen[i]];
      } else {
        assert f.owners == f.owners[..N] && e.chosen == e.chosen[..N];
      }
    case LoadOwner(_, got) =>
      if |got| < N {
        assert f.owners[..|got| + 1] == f.owners[..|got|] + [f.owners[|got|]];
      } else {
        assert got == f.owners;
      }
    case _ =>
  }

  lemma ReadKeepsInv(f: Freeze, t: nat)
    requires Inv(f) && t < |f.threads| && f.threads[t].ReadWord?
    ensures Inv(AdvanceThread(f, t))
  {
    hide PackedOwners, Final, WinOk, LongEnough, Proper;
    var f' := AdvanceThread(f, t);
    assert CollectingOk(f, f.threads[t]);
    var n := |f.wins| - 1;
    assert f.wins[n].era == f.era && f.word == PackedOwners(Final(f.wins[n].e));
    forall i | 0 <= i < |f'.readings| ensures ReadingOk(f'.wins, f'.readings[i]) {
      assert i < |f.readings| ==> ReadingOk(f.wins, f.readings[i]);
    }
  }

  lemma AdvanceKeepsInv(f: Freeze, t: nat)
    requires Inv(f) && t < |f.threads|
    ensures Inv(AdvanceThread(f, t))
  {
    hide LockOk, WinOk, ReadingOk, LongEnough, Proper;
    var pc := f.threads[t];
    assert CollectingOk(f, pc);
    if Freezing(pc) {
      FreezingKeepsInv(f, t);
    } else if pc.CasBegin? {
      BeginKeepsInv(f, t);
    } else if pc.CasLock? && f.lock == 0 {
      WinKeepsInv(f, t);
    } else if pc.ReadWord? {
      ReadKeepsInv(f, t);
    } else if !AtRest(pc) {
      MoveKeepsInv(f, t, AdvanceThread(f, t).threads[t]);
    }
  }

  lemma ResetKeepsInv(f: Freeze)
    requires Inv(f) && Quiet(f)
    ensures Inv(Step(f, Reset))
  {
    hide PackedOwners, Final, ReadingOk, LongEnough, Proper;
    var f' := Step(f, Reset);
    forall i | 0 <= i < |f'.wins| ensures WinOk(f'.wins[i], f'.era) && f'.wins[i].era < f'.era {
      assert WinOk(f.wins[i], f.era);
    }
  }

  lemma StepKeepsInv(f: Freeze, a: Action)
    requires Inv(f) && (a == Reset ==> Quiet(f))
    ensures Inv(Step(f, a))
  {
    hide LockOk, WinOk, ReadingOk, LongEnough, AdvanceThread;
    match a
    case TryLock(t, e) => if t < |f.threads| && AtRest(f.threads[t]) && Proper(e) { MoveKeepsInv(f, t, LoadLock(e)); }
    case Read(t) => if t < |f.threads| && AtRest(f.threads[t]) { MoveKeepsInv(f, t, ReadLock); }
    case Advance(t) => if t < |f.threads| { AdvanceKeepsInv(f, t); }
    case Reset => ResetKeepsInv(f);
  }

  lemma {:induction false} RunKeepsInv(start: Freeze, run: seq<Action>)
    requires Start(start) && QuietResets(start, run)
    ensures Inv(Run(start, run))
    decreases |run|
  {
    hide Step, Inv, Quiet;
    if run == [] {
      StartIsInv(start);
    } else {
      var n := |run| - 1;
      forall i | 0 <= i < n && run[..n][i] == Reset ensures Quiet(Run(start, run[..n][..i])) {
        assert run[..n][..i] == run[..i];
      }
      RunKeepsInv(start, run[..n]);
      StepKeepsInv(Run(start, run[..n]), run[n]);
    }
  }

  lemma StartIsInv(start: Freeze)
    requires Start(start)
    ensures Inv(start)
  {
  }

  // ------------------------------------------------------------- main results

  /** Exactly one winner has this era. */
  ghost predicate OneWinnerOf(wins: seq<Win>, era: nat, w: Win) {
    && w in wins && w.era == era && forall i | 0 <= i < |wins| && wins[i].era == era :: wins[i] == w
  }

  /** The word the one winner of an era packed. */
  ghost predicate FinishedWord(wins: seq<Win>, era: nat, word: nat) {
    exists w :: OneWinnerOf(wins, era, w) && word == PackedOwners(Final(w.e))
  }

  /**
   * In every interleaving of callers, readers and quiet resets, at most one
   * caller freezes between two resets, and exactly one once the lock state is 2;
   * it had collected long enough since the beginning all callers agree on; and
   * whenever a reader sees lock state 2, the word it then gets is the finished
   * one that this caller packed, so all readers between two resets get the same.
   */
  lemma FrozenOncePerReset(start: Freeze, run: seq<Action>)
    requires Start(start) && QuietResets(start, run)
    ensures var f := Run(start, run);
      && (forall i, j | 0 <= i < j < |f.wins| :: f.wins[i].era < f.wins[j].era)
      && (forall i | 0 <= i < |f.wins| ::
            f.wins[i].e.ready && f.wins[i].begin != 0 && LongEnough(f.wins[i].e, f.wins[i].begin))
      && (f.lock == 2 ==> FinishedWord(f.wins, f.era, f.word))
      && (forall i | 0 <= i < |f.readings| :: FinishedWord(f.wins, f.readings[i].era, f.readings[i].word))
  {
    hide Run, PackedOwners, Final, LongEnough, CollectingOk;
    RunKeepsInv(start, run);
    var f := Run(start, run);
    forall i | 0 <= i < |f.wins|
      ensures f.wins[i].e.ready && f.wins[i].begin != 0 && LongEnough(f.wins[i].e, f.wins[i].begin)
    {
      assert WinOk(f.wins[i], f.era);
    }
    if f.lock == 2 {
      ErasAreDistinct(f.wins, |f.wins| - 1);
      assert OneWinnerOf(f.wins, f.era, f.wins[|f.wins| - 1]);
    }
    forall i | 0 <= i < |f.readings| ensures FinishedWord(f.wins, f.readings[i].era, f.readings[i].word) {
      assert ReadingOk(f.wins, f.readings[i]);
      var k :| 0 <= k < |f.wins| && f.wins[k].era == f.readings[i].era
               && f.readings[i].word == PackedOwners(Final(f.wins[k].e));
      ErasAreDistinct(f.wins, k);
      assert OneWinnerOf(f.wins, f.readings[i].era, f.wins[k]);
    }
  }

  lemma ErasAreDistinct(wins: seq<Win>, k: nat)
    requires k < |wins| && forall i, j | 0 <= i < j < |wins| :: wins[i].era < wins[j].era
    ensures OneWinnerOf(wins, wins[k].era, wins[k])
  {
  }

  lemma ReadersAgree(start: Freeze, run: seq<Action>, i: nat, j: nat)
    requires Start(start) && QuietResets(start, run)
    requires i < |Run(start, run).readings| && j < |Run(start, run).readings|
    requires Run(start, run).readings[i].era == Run(start, run).readings[j].era
    ensures Run(start, run).readings[i].word == Run(start, run).readings[j].word
  {
    hide Run, PackedOwners, Final;
    FrozenOncePerReset(start, run);
    var f := Run(start, run);
    var w :| OneWinnerOf(f.wins, f.readings[i].era, w) && f.readings[i].word == PackedOwners(Final(w.e));
    var w' :| OneWinnerOf(f.wins, f.readings[j].era, w') && f.readings[j].word == PackedOwners(Final(w'.e));
    assert w == w';
  }

  /** Each code a caller brings along is the one chosen from its own evidence, nobody standing for Auto. */
  ghost predicate ChosenFrom(e: Ballot, policy: Policy, v: View)
    requires Complete(v)
  {
    && Proper(e)
    && forall i | 0 <= i < N :: OwnerChosen(FromCode(Final(e)[i]), ASPECTS[i], policy, v)
  }

  /** Then every aspect a reader decodes is the owner chosen from the one winner's evidence. */
  lemma ReadersDecodeTheChoice(start: Freeze, run: seq<Action>, i: nat, w: Win, policy: Policy, v: View)
    requires Start(start) && QuietResets(start, run) && i < |Run(start, run).readings|
    requires OneWinnerOf(Run(start, run).wins, Run(start, run).readings[i].era, w)
    requires Complete(v) && ChosenFrom(w.e, policy, v)
    ensures DecodesToChoice(Run(start, run).readings[i].word, policy, v)
  {
    hide Run, PackedOwners, OwnerChosen, DecodesToChoice;
    FrozenOncePerReset(start, run);
    var f := Run(start, run);
    var w' :| OneWinnerOf(f.wins, f.readings[i].era, w') && f.readings[i].word == PackedOwners(Final(w'.e));
    assert w == w';
    PackedOwnersDecode(Final(w.e), policy, v);
  }

  // --------------------------------------------------------- a reset in the middle

  function Eager(): Ballot {
    Ballot(1, true, 0, seq(N, _ => 1), 0)
  }

  /** From its call to its win a caller takes this way when nothing is in its way. */
  function WayToWin(t: nat): seq<Action> {
    [TryLock(t, Eager()), Advance(t), Advance(t), Advance(t), Advance(t), Advance(t)]
  }

  ghost predicate Free(f: Freeze, t: nat) {
    |f.owners| == N && t < |f.threads| && f.lock == 0 && f.begin == 0 && AtRest(f.threads[t])
  }

  lemma UndisturbedWins(f: Freeze, t: nat)
    requires Free(f, t)
    ensures var f' := Run(f, WayToWin(t));
      && f'.threads[t].StoreOwner? && f'.lock == 1
      && forall u | 0 <= u < |f.threads| && u != t :: f'.threads[u] == f.threads[u]
  {
    var e := Eager();
    var f1 := Step(f, TryLock(t, e));
    var f2 := Step(f1, Advance(t));
    var f3 := Step(f2, Advance(t));
    var f4 := Step(f3, Advance(t));
    var f5 := Step(f4, Advance(t));
    RunOfSix(f, WayToWin(t));
    assert f1.threads[t] == LoadLock(e);
    assert f2.threads[t] == LoadBegin(e);
    assert f3.threads[t] == CasBegin(e);
    assert f4.threads[t] == ReloadBegin(e);
    assert f5.threads[t] == CasLock(e, 1);
  }

  lemma RunOfSix(f: Freeze, run: seq<Action>)
    requires |f.owners| == N && |run| == 6
    ensures Run(f, run) == Step(Step(Step(Step(Step(Step(f, run[0]), run[1]), run[2]), run[3]), run[4]), run[5])
  {
    hide Step;
    assert run[..5][..4] == run[..4] && run[..4][..3] == run[..3] && run[..3][..2] == run[..2];
    assert run[..2][..1] == run[..1] && run[..1][..0] == [];
    assert Run(f, run[..1]) == Step(f, run[0]);
    assert Run(f, run[..2]) == Step(Step(f, run[0]), run[1]);
    assert Run(f, run[..3]) == Step(Step(Step(f, run[0]), run[1]), run[2]);
    assert Run(f, run[..4]) == Step(Step(Step(Step(f, run[0]), run[1]), run[2]), run[3]);
  }

  /**
   * The assumption on resets is needed: a reset that comes while one caller is
   * storing owners lets a second one win, and both are then storing.
   */
  lemma OverlappingResetLetsTwoFreeze(f: Freeze)
    requires Start(f) && |f.threads| >= 2
    ensures var f' := Run(Step(Run(f, WayToWin(0)), Reset), WayToWin(1));
      f'.threads[0].StoreOwner? && f'.threads[1].StoreOwner?
  {
    hide Run, WayToWin;
    UndisturbedWins(f, 0);
    UndisturbedWins(Step(Run(f, WayToWin(0)), Reset), 1);
  }

  // --------------------------------------------------------------- what calls return

  /**
   * What a call that returns in this step answers: yes only with the owners
   * frozen at that instant; no only if they were not when it looked last, it had
   * no business freezing, or it has not collected for long enough.
   */
  lemma AnswersAreRight(f: Freeze, t: nat)
    requires t < |f.threads| && |f.owners| == N && !f.threads[t].Returned?
    requires Step(f, Advance(t)).threads[t].Returned?
    ensures var f', pc := Step(f, Advance(t)), f.threads[t];
      && (f'.threads[t].locked ==> f'.lock == 2)
      && (!f'.threads[t].locked ==>
        && f' == f.(threads := f'.threads)
        && ((f.lock != 2 && (pc.LoadLockAgain? || (pc.LoadLock? && !(pc.e.ready && pc.e.now != 0))))
            || (pc.LoadBegin? && f.begin != 0 && !LongEnough(pc.e, f.begin))
            || (pc.ReloadBegin? && !LongEnough(pc.e, f.begin))))
  {
    hide LongEnough, Final, PackedOwners;
  }

  /** Once the owners are frozen, every call that comes is told so by its first load. */
  lemma FrozenIsReported(f: Freeze, t: nat, e: Ballot)
    requires t < |f.threads| && |f.owners| == N && AtRest(f.threads[t]) && Proper(e) && f.lock == 2
    ensures Step(Step(f, TryLock(t, e)), Advance(t)).threads[t] == Returned(true)
  {
    hide Final, PackedOwners, LongEnough;
  }
}
