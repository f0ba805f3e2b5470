/**
 * The marker path of HybridFusion as interleaved atomic steps, within one epoch:
 * one token creator at a time, behind its gate, and any number of callers that
 * look a token's frame up, set a marker bit in it and read the token back.
 *
 * A frame lives in the slot its sequence is congruent to modulo 64. A creation
 * marks the slot busy, stores the fields, clears the markers and publishes the
 * sequence. A caller keeps the slot it found and does not look again before it
 * sets its bit, so a caller that is 64 creations late works on a newer frame.
 * `payload` stands for the fields a token carries besides its sequence.
 */
module MarkerRace {
  import opened Frontends
  import opened Options

  const SLOTS: nat := 64

  datatype Word = Busy | At(sequence: nat)

  datatype Slot = Slot(word: Word, payload: nat, markers: set<Marker>)

  datatype Creator =
    | NotCreating
    | MarkBusy(n: nat, payload: nat)
    | StorePayload(n: nat, payload: nat)
    | ClearMarkers(n: nat, payload: nat)
    | Publish(n: nat, payload: nat)

  datatype Token = Token(sequence: nat, payload: nat)

  /** `s` is the token looked up and `a` the place of the acceptance in the log. */
  datatype Caller =
    | Idle
    | LookUp(s: nat, m: Marker)
    | FetchOr(s: nat, m: Marker)
    | LoadSequence(s: nat, a: nat)
    | LoadPayload(s: nat, a: nat, published: nat)
    | Recheck(s: nat, a: nat, token: Token)

  /** A marker bit newly set: for which token it was meant, and what the call then handed out. */
  datatype Acceptance = Acceptance(s: nat, m: Marker, answer: Option<Option<Token>>)

  /** `made[s]` is the payload token s was created with. */
  datatype System = System(
    slots: seq<Slot>, next: nat, creator: Creator, callers: seq<Caller>,
    made: seq<nat>, accepted: seq<Acceptance>)

  datatype Action =
    | Create(payload: nat)
    | CreateStep
    | Mark(t: nat, s: nat, m: Marker)
    | Advance(t: nat)

  function SlotOf(x: System, s: nat): Slot
    requires |x.slots| == SLOTS
  {
    x.slots[s % SLOTS]
  }

  function SetSlot(x: System, s: nat, slot: Slot): System
    requires |x.slots| == SLOTS
  {
    x.(slots := x.slots[s % SLOTS := slot])
  }

  function CreateAdvance(x: System): (x': System)
    requires |x.slots| == SLOTS
    ensures |x'.slots| == SLOTS && x'.callers == x.callers && x'.accepted == x.accepted && x'.next == x.next
  {
    match x.creator
    case NotCreating => x
    case MarkBusy(n, p) => SetSlot(x, n, SlotOf(x, n).(word := Busy)).(creator := StorePayload(n, p))
    case StorePayload(n, p) => SetSlot(x, n, SlotOf(x, n).(payload := p)).(creator := ClearMarkers(n, p))
    case ClearMarkers(n, p) => SetSlot(x, n, SlotOf(x, n).(markers := {})).(creator := Publish(n, p))
    case Publish(n, p) => SetSlot(x, n, SlotOf(x, n).(word := At(n))).(creator := NotCreating)
  }

  function Answered(log: seq<Acceptance>, a: nat, token: Option<Token>): seq<Acceptance> {
    if a < |log| then log[a := log[a].(answer := Some(token))] else log
  }

  function CallerAdvance(x: System, t: nat): (x': System)
    requires |x.slots| == SLOTS && t < |x.callers|
    ensures |x'.slots| == SLOTS && x'.next == x.next && x'.creator == x.creator && x'.made == x.made
    ensures |x'.callers| == |x.callers| && forall u | 0 <= u < |x.callers| && u != t :: x'.callers[u] == x.callers[u]
  {
    match x.callers[t]
    case Idle => x
    case LookUp(s, m) =>
      x.(callers := x.callers[t := if s != 0 && SlotOf(x, s).word == At(s) then FetchOr(s, m) else Idle])
    case FetchOr(s, m) =>
      var slot := SlotOf(x, s);
      if m in slot.markers then x.(callers := x.callers[t := Idle]) else
      SetSlot(x, s, slot.(markers := slot.markers + {m}))
        .(callers := x.callers[t := LoadSequence(s, |x.accepted|)], accepted := x.accepted + [Acceptance(s, m, None)])
    case LoadSequence(s, a) =>
      var word := SlotOf(x, s).word;
      if word.Busy? || word.sequence == 0 then
        x.(callers := x.callers[t := Idle], accepted := Answered(x.accepted, a, None))
      else x.(callers := x.callers[t := LoadPayload(s, a, word.sequence)])
    case LoadPayload(s, a, published) =>
      x.(callers := x.callers[t := Recheck(s, a, Token(published, SlotOf(x, s).payload))])
    case Recheck(s, a, token) =>
      x.(callers := x.callers[t := Idle],
         accepted := Answered(x.accepted, a, if SlotOf(x, s).word == At(token.sequence) then Some(token) else None))
  }

  function Step(x: System, a: Action): (x': System)
    requires |x.slots| == SLOTS
    ensures |x'.slots| == SLOTS && |x'.callers| == |x.callers|
  {
    match a
    case Create(p) =>
      if x.creator.NotCreating? then
        x.(next := x.next + 1, creator := MarkBusy(x.next + 1, p), made := x.made + [p])
      else x
    case CreateStep => CreateAdvance(x)
    case Mark(t, s, m) =>
      if t < |x.callers| && x.callers[t].Idle? then x.(callers := x.callers[t := LookUp(s, m)]) else x
    case Advance(t) => if t < |x.callers| then CallerAdvance(x, t) else x
  }

  ghost predicate Start(x: System) {
    && x.slots == seq(SLOTS, _ => Slot(At(0), 0, {})) && x.next == 0 && x.creator == NotCreating
    && x.made == [0] && x.accepted == [] && forall t | 0 <= t < |x.callers| :: x.callers[t] == Idle
  }

  function Run(x: System, run: seq<Action>): (x': System)
    requires |x.slots| == SLOTS
    ensures |x'.slots| == SLOTS && |x'.callers| == |x.callers|
    decreases |run|
  {
    if run == [] then x else Step(Run(x, run[..|run| - 1]), run[|run| - 1])
  }

  // --------------------------------------------------------------- the token lead

  predicate Holding(c: Caller) {
    !c.Idle? && !c.LookUp?
  }

  /** No caller holds a frame whose slot is being, or has been, given to a newer token. */
  predicate InTime(x: System) {
    forall t | 0 <= t < |x.callers| && Holding(x.callers[t]) :: x.next < x.callers[t].s + SLOTS
  }

  /** While a call holds a frame, fewer than 64 tokens are created after that frame's. */
  ghost predicate Prompt(x: System, run: seq<Action>)
    requires |x.slots| == SLOTS
  {
    forall i | 0 <= i <= |run| :: InTime(Run(x, run[..i]))
  }

  // ------------------------------------------------------------------- invariant

  predicate Published(x: System, s: nat) {
    1 <= s <= x.next && (x.creator.NotCreating? || s != x.creator.n)
  }

  /** A token of the last 64 is in its slot with its own payload, unless that slot is being recycled. */
  ghost predicate TokenOk(x: System, s: nat)
    requires |x.slots| == SLOTS
  {
    Published(x, s) && x.next < s + SLOTS ==>
      s < |x.made| && SlotOf(x, s).word == At(s) && SlotOf(x, s).payload == x.made[s]
  }

  ghost predicate SlotOk(x: System, k: nat)
    requires k < |x.slots|
  {
    x.slots[k].word.At? && x.slots[k].word.sequence != 0 ==>
      Published(x, x.slots[k].word.sequence) && x.slots[k].word.sequence % SLOTS == k
  }

  ghost predicate CreatorOk(x: System)
    requires |x.slots| == SLOTS
  {
    |x.made| == x.next + 1 &&
    match x.creator
    case NotCreating => true
    case MarkBusy(n, p) => n == x.next >= 1 && x.made[n] == p
    case StorePayload(n, p) => n == x.next >= 1 && x.made[n] == p && SlotOf(x, n).word == Busy
    case ClearMarkers(n, p) =>
      n == x.next >= 1 && x.made[n] == p && SlotOf(x, n).word == Busy && SlotOf(x, n).payload == p
    case Publish(n, p) =>
      n == x.next >= 1 && x.made[n] == p && SlotOf(x, n).word == Busy && SlotOf(x, n).payload == p
      && SlotOf(x, n).markers == {}
  }

  ghost predicate CallerOk(x: System, c: Caller) {
    match c
    case Idle => true
    case LookUp(_, _) => true
    case FetchOr(s, _) => Published(x, s)
    case LoadSequence(s, a) => Published(x, s) && a < |x.accepted| && x.accepted[a].s == s
    case LoadPayload(s, a, published) =>
      Published(x, s) && a < |x.accepted| && x.accepted[a].s == s && published == s
    case Recheck(s, a, token) =>
      && Published(x, s) && a < |x.accepted| && x.accepted[a].s == s
      && s < |x.made| && token == Token(s, x.made[s])
  }

  /** The bit stands as long as the token's frame does, and what was handed out is the token it was set for. */
  ghost predicate AcceptanceOk(x: System, a: Acceptance)
    requires |x.slots| == SLOTS
  {
    && Published(x, a.s) && a.s < |x.made|
    && (SlotOf(x, a.s).word == At(a.s) ==> a.m in SlotOf(x, a.s).markers)
    && (a.answer.Some? ==> a.answer.value == Some(Token(a.s, x.made[a.s])))
  }

  ghost predicate Inv(x: System) {
    && |x.slots| == SLOTS && CreatorOk(x)
    && (forall s: nat :: TokenOk(x, s))
    && (forall k | 0 <= k < SLOTS :: SlotOk(x, k))
    && (forall t | 0 <= t < |x.callers| :: CallerOk(x, x.callers[t]))
    && (forall i | 0 <= i < |x.accepted| :: AcceptanceOk(x, x.accepted[i]))
    && Once(x.accepted)
  }

  /** No marker of a token is accepted twice. */
  ghost predicate Once(log: seq<Acceptance>) {
    forall i, j | 0 <= i < j < |log| :: log[i].s != log[j].s || log[i].m != log[j].m
  }

  lemma OtherSlot(s: nat, n: nat)
    requires s < n < s + SLOTS
    ensures s % SLOTS != n % SLOTS
  {
  }

  /** What is published stays published, and no payload changes. */
  ghost predicate Grows(x: System, x': System) {
    && (forall s: nat :: Published(x, s) ==> Published(x', s))
    && x.made <= x'.made && |x.accepted| <= |x'.accepted|
    && forall i | 0 <= i < |x.accepted| :: x'.accepted[i].s == x.accepted[i].s
  }

  lemma CallerStands(x: System, x': System, c: Caller)
    requires CallerOk(x, c) && Grows(x, x')
    ensures CallerOk(x', c)
  {
    hide Published;
  }

  lemma CreateKeepsInv(x: System, p: nat)
    requires Inv(x)
    ensures Inv(Step(x, Create(p)))
  {
    if x.creator.NotCreating? {
      var x' := Step(x, Create(p));
      forall s: nat ensures TokenOk(x', s) && Published(x', s) == Published(x, s) {
        assert TokenOk(x, s);
      }
      SameSlotsKeepInv(x, x');
    }
  }

  lemma SameSlotsKeepInv(x: System, x': System)
    requires Inv(x) && x'.slots == x.slots && x'.callers == x.callers && x'.accepted == x.accepted
    requires x.made <= x'.made && CreatorOk(x')
    requires (forall s: nat :: TokenOk(x', s)) && (forall s: nat :: Published(x', s) == Published(x, s))
    ensures Inv(x')
  {
    hide Published, TokenOk, CreatorOk;
    forall k | 0 <= k < SLOTS ensures SlotOk(x', k) {
      assert SlotOk(x, k);
    }
    forall t | 0 <= t < |x'.callers| ensures CallerOk(x', x'.callers[t]) {
      CallerStands(x, x', x.callers[t]);
    }
    forall i | 0 <= i < |x'.accepted| ensures AcceptanceOk(x', x'.accepted[i]) {
      assert AcceptanceOk(x, x.accepted[i]);
    }
  }

  /** One store of a creation: its slot holds none of the last 64 tokens that are published. */
  lemma CreateStepKeepsInv(x: System)
    requires Inv(x)
    ensures Inv(CreateAdvance(x))
  {
    if !x.creator.NotCreating? {
      var x' := CreateAdvance(x);
      CreateStepKeepsTokens(x);
      CreateStepGrows(x);
      hide TokenOk, Once, CallerOk;
      forall k | 0 <= k < SLOTS ensures SlotOk(x', k) {
        assert SlotOk(x, k);
      }
      forall t | 0 <= t < |x'.callers| ensures CallerOk(x', x'.callers[t]) {
        CallerStands(x, x', x.callers[t]);
      }
      forall i | 0 <= i < |x'.accepted| ensures AcceptanceOk(x', x'.accepted[i]) {
        assert AcceptanceOk(x, x.accepted[i]);
      }
    }
  }

  lemma CreateStepGrows(x: System)
    requires |x.slots| == SLOTS
    ensures Grows(x, CreateAdvance(x))
  {
  }

  lemma CreateStepKeepsTokens(x: System)
    requires Inv(x) && !x.creator.NotCreating?
    ensures CreatorOk(CreateAdvance(x))
    ensures forall s: nat :: TokenOk(CreateAdvance(x), s)
  {
    hide SlotOk, AcceptanceOk, CallerOk, Once;
    var x' := CreateAdvance(x);
    forall s: nat ensures TokenOk(x', s) {
      assert TokenOk(x, s);
      if s < x.creator.n < s + SLOTS {
        OtherSlot(s, x.creator.n);
      }
    }
  }

  /** What a caller that is in time finds in its slot. */
  lemma HeldFrame(x: System, t: nat)
    requires Inv(x) && InTime(x) && t < |x.callers| && Holding(x.callers[t])
    ensures var s := x.callers[t].s;
      && Published(x, s) && s < |x.made| && SlotOf(x, s).word == At(s) && SlotOf(x, s).payload == x.made[s]
  {
    hide SlotOk, AcceptanceOk, Once;
    assert CallerOk(x, x.callers[t]) && TokenOk(x, x.callers[t].s);
  }

  /** A step of a caller that sets no bit. */
  lemma QuietStepKeepsInv(x: System, x': System, t: nat)
    requires Inv(x) && t < |x.callers| == |x'.callers| && x' == x.(callers := x'.callers, accepted := x'.accepted)
    requires forall u | 0 <= u < |x.callers| && u != t :: x'.callers[u] == x.callers[u]
    requires |x'.accepted| == |x.accepted| && CallerOk(x', x'.callers[t])
    requires forall i | 0 <= i < |x.accepted| ::
      x'.accepted[i].s == x.accepted[i].s && x'.accepted[i].m == x.accepted[i].m && AcceptanceOk(x', x'.accepted[i])
    ensures Inv(x')
  {
    hide Published, AcceptanceOk;
    forall s: nat ensures TokenOk(x', s) && Published(x', s) == Published(x, s) {
      SameTokens(x, x', s);
    }
    forall k | 0 <= k < SLOTS ensures SlotOk(x', k) {
      assert SlotOk(x, k);
    }
    forall u | 0 <= u < |x'.callers| ensures CallerOk(x', x'.callers[u]) {
      if u != t {
        CallerStands(x, x', x.callers[u]);
      }
    }
  }

  lemma SameTokens(x: System, x': System, s: nat)
    requires |x.slots| == SLOTS && TokenOk(x, s) && x' == x.(callers := x'.callers, accepted := x'.accepted)
    ensures TokenOk(x', s) && Published(x', s) == Published(x, s)
  {
  }

  lemma AcceptanceStands(x: System, x': System, a: Acceptance)
    requires |x.slots| == SLOTS && AcceptanceOk(x, a) && x' == x.(callers := x'.callers, accepted := x'.accepted)
    ensures AcceptanceOk(x', a)
  {
  }

  /** The answer a caller in time gives is the token it set the bit for. */
  lemma AnswerKeepsInv(x: System, t: nat)
    requires Inv(x) && InTime(x) && t < |x.callers|
    requires x.callers[t].LoadSequence? || x.callers[t].LoadPayload? || x.callers[t].Recheck?
    ensures Inv(CallerAdvance(x, t))
  {
    var x' := CallerAdvance(x, t);
    HeldFrame(x, t);
    assert CallerOk(x, x.callers[t]);
    forall i | 0 <= i < |x.accepted| ensures AcceptanceOk(x', x'.accepted[i]) {
      AcceptanceStands(x, x', x.accepted[i]);
    }
    hide Inv, AcceptanceOk, TokenOk;
    QuietStepKeepsInv(x, x', t);
  }

  lemma LookUpKeepsInv(x: System, t: nat)
    requires Inv(x) && t < |x.callers| && x.callers[t].LookUp?
    ensures Inv(CallerAdvance(x, t))
  {
    var x' := CallerAdvance(x, t);
    assert SlotOk(x, x.callers[t].s % SLOTS);
    forall i | 0 <= i < |x.accepted| ensures AcceptanceOk(x', x'.accepted[i]) {
      AcceptanceStands(x, x', x.accepted[i]);
    }
    hide Inv, AcceptanceOk, TokenOk;
    QuietStepKeepsInv(x, x', t);
  }

  lemma FetchOrKeepsInv(x: System, t: nat)
    requires Inv(x) && InTime(x) && t < |x.callers| && x.callers[t].FetchOr?
    ensures Inv(CallerAdvance(x, t))
  {
    var x' := CallerAdvance(x, t);
    var s, m := x.callers[t].s, x.callers[t].m;
    HeldFrame(x, t);
    if m in SlotOf(x, s).markers {
      forall i | 0 <= i < |x.accepted| ensures AcceptanceOk(x', x'.accepted[i]) {
        AcceptanceStands(x, x', x.accepted[i]);
      }
      QuietStepKeepsInv(x, x', t);
    } else {
      SetBitKeepsInv(x, t);
    }
  }

  lemma SetBitKeepsInv(x: System, t: nat)
    requires Inv(x) && t < |x.callers| && x.callers[t].FetchOr? && x.callers[t].m !in SlotOf(x, x.callers[t].s).markers
    requires Published(x, x.callers[t].s) && x.callers[t].s < |x.made|
    requires SlotOf(x, x.callers[t].s).word == At(x.callers[t].s)
    ensures Inv(CallerAdvance(x, t))
  {
    var x' := CallerAdvance(x, t);
    var s, m := x.callers[t].s, x.callers[t].m;
    SetBitKeepsTokens(x, t);
    hide TokenOk, CreatorOk;
    assert Grows(x, x');
    forall k | 0 <= k < SLOTS ensures SlotOk(x', k) {
      assert SlotOk(x, k);
    }
    forall u | 0 <= u < |x'.callers| ensures CallerOk(x', x'.callers[u]) {
      if u != t {
        CallerStands(x, x', x.callers[u]);
      }
    }
    forall i | 0 <= i < |x'.accepted| ensures AcceptanceOk(x', x'.accepted[i]) {
      assert i < |x.accepted| ==> AcceptanceOk(x, x.accepted[i]);
    }
    forall i | 0 <= i < |x.accepted| ensures x.accepted[i].s != s || x.accepted[i].m != m {
      assert AcceptanceOk(x, x.accepted[i]);
    }
  }

  lemma SetBitKeepsTokens(x: System, t: nat)
    requires Inv(x) && t < |x.callers| && x.callers[t].FetchOr?
    requires SlotOf(x, x.callers[t].s).word == At(x.callers[t].s)
    ensures var x' := CallerAdvance(x, t);
      CreatorOk(x') && (forall s: nat :: TokenOk(x', s)) && (forall s: nat :: Published(x', s) == Published(x, s))
  {
    hide SlotOk, CallerOk, AcceptanceOk, Once;
    var x' := CallerAdvance(x, t);
    forall s: nat ensures TokenOk(x', s) && Published(x', s) == Published(x, s) {
      assert TokenOk(x, s);
    }
  }

  lemma StepKeepsInv(x: System, a: Action)
    requires Inv(x) && InTime(x)
    ensures Inv(Step(x, a))
  {
    hide Inv, InTime, CreateAdvance, CallerAdvance;
    InvSizes(x);
    match a
    case Create(p) => CreateKeepsInv(x, p);
    case CreateStep => CreateStepKeepsInv(x);
    case Mark(t, s, m) => MarkKeepsInv(x, t, s, m);
    case Advance(t) =>
      if t < |x.callers| {
        AdvanceKeepsInv(x, t);
      }
  }

  lemma InvSizes(x: System)
    requires Inv(x)
    ensures |x.slots| == SLOTS
  {
  }

  lemma MarkKeepsInv(x: System, t: nat, s: nat, m: Marker)
    requires Inv(x)
    ensures Inv(Step(x, Mark(t, s, m)))
  {
    if t < |x.callers| && x.callers[t].Idle? {
      var x' := Step(x, Mark(t, s, m));
      forall i | 0 <= i < |x.accepted| ensures AcceptanceOk(x', x'.accepted[i]) {
        AcceptanceStands(x, x', x.accepted[i]);
      }
      hide Inv, AcceptanceOk, TokenOk;
      QuietStepKeepsInv(x, x', t);
    }
  }

  lemma AdvanceKeepsInv(x: System, t: nat)
    requires Inv(x) && InTime(x) && t < |x.callers|
    ensures |x.slots| == SLOTS && Inv(CallerAdvance(x, t))
  {
    hide Inv, InTime;
    InvSizes(x);
    match x.callers[t]
    case Idle =>
    case LookUp(_, _) => LookUpKeepsInv(x, t);
    case FetchOr(_, _) => FetchOrKeepsInv(x, t);
    case _ => AnswerKeepsInv(x, t);
  }

  lemma StartIsInv(x: System)
    requires Start(x)
    ensures Inv(x)
  {
    assert forall k | 0 <= k < SLOTS :: x.slots[k] == Slot(At(0), 0, {});
  }

  lemma {:induction false} PromptRunKeepsInv(start: System, run: seq<Action>)
    requires Start(start) && Prompt(start, run)
    ensures Inv(Run(start, run))
    decreases |run|
  {
    hide Step, Inv, InTime;
    if run == [] {
      StartIsInv(start);
    } else {
      var n := |run| - 1;
      forall i | 0 <= i <= n ensures InTime(Run(start, run[..n][..i])) {
        assert run[..n][..i] == run[..i];
      }
      PromptRunKeepsInv(start, run[..n]);
      assert run[..n][..n] == run[..n];
      StepKeepsInv(Run(start, run[..n]), run[n]);
    }
  }

  // ---------------------------------------------------------------- main results

  /**
   * In every interleaving in which fewer than 64 tokens are created while a call
   * holds a frame: no marker of a token is accepted twice, and a call that set a
   * new bit hands out exactly the token it looked up, with the fields that token
   * was created with.
   */
  lemma PromptMarkersAcceptedOnce(start: System, run: seq<Action>)
    requires Start(start) && Prompt(start, run)
    ensures var x := Run(start, run);
      && Once(x.accepted)
      && forall i | 0 <= i < |x.accepted| && x.accepted[i].answer.Some? ::
           && 1 <= x.accepted[i].s <= x.next < |x.made|
           && x.accepted[i].answer.value == Some(Token(x.accepted[i].s, x.made[x.accepted[i].s]))
  {
    hide Run;
    PromptRunKeepsInv(start, run);
    var x := Run(start, run);
    forall i | 0 <= i < |x.accepted| && x.accepted[i].answer.Some?
      ensures 1 <= x.accepted[i].s <= x.next < |x.made|
      ensures x.accepted[i].answer.value == Some(Token(x.accepted[i].s, x.made[x.accepted[i].s]))
    {
      assert AcceptanceOk(x, x.accepted[i]);
    }
  }

  // ------------------------------------------------------- a caller 64 tokens late

  lemma {:induction false} RunConcat(x: System, a: seq<Action>, b: seq<Action>)
    requires |x.slots| == SLOTS
    ensures Run(x, a + b) == Run(Run(x, a), b)
    decreases |b|
  {
    hide Step;
    if b == [] {
      assert a + b == a;
    } else {
      RunConcat(x, a, b[..|b| - 1]);
      assert (a + b)[..|a + b| - 1] == a + b[..|b| - 1];
    }
  }

  lemma RunFirst(x: System, run: seq<Action>)
    requires |x.slots| == SLOTS && run != []
    ensures Run(x, run) == Run(Step(x, run[0]), run[1..])
  {
    hide Step;
    assert [run[0]] + run[1..] == run && [run[0]][..0] == [] && Run(x, []) == x;
    RunConcat(x, [run[0]], run[1..]);
  }

  lemma RunNothing(x: System)
    requires |x.slots| == SLOTS
    ensures Run(x, []) == x
  {
  }

  function Creation(): seq<Action> {
    [Create(0), CreateStep, CreateStep, CreateStep, CreateStep]
  }

  function Creations(n: nat): seq<Action> {
    if n == 0 then [] else Creations(n - 1) + Creation()
  }

  lemma CreatesOne(x: System)
    requires |x.slots| == SLOTS && x.creator.NotCreating?
    ensures var n := x.next + 1;
      Run(x, Creation()) == x.(next := n, made := x.made + [0], slots := x.slots[n % SLOTS := Slot(At(n), 0, {})])
  {
    CreatesInPlace(x);
    hide Run, Step;
    var run := Creation();
    var x1 := Step(x, run[0]);
    var x2 := Step(x1, run[1]);
    var x3 := Step(x2, run[2]);
    var x4 := Step(x3, run[3]);
    RunFirst(x, run);
    RunFirst(x1, run[1..]);
    RunFirst(x2, run[1..][1..]);
    RunFirst(x3, run[1..][1..][1..]);
    RunFirst(x4, run[1..][1..][1..][1..]);
    RunNothing(Step(x4, run[4]));
    assert run[1..][1..][1..][1..][1..] == [];
  }

  lemma CreatesInPlace(x: System)
    requires |x.slots| == SLOTS && x.creator.NotCreating?
    ensures var n := x.next + 1;
      Step(Step(Step(Step(Step(x, Create(0)), CreateStep), CreateStep), CreateStep), CreateStep)
      == x.(next := n, made := x.made + [0], slots := x.slots[n % SLOTS := Slot(At(n), 0, {})])
  {
    var n := x.next + 1;
    var x1 := Step(x, Create(0));
    var x2 := Step(x1, CreateStep);
    var x3 := Step(x2, CreateStep);
    var x4 := Step(x3, CreateStep);
    assert x4.creator == Publish(n, 0) && SlotOf(x4, n) == Slot(Busy, 0, {});
    assert x4.slots == x.slots[n % SLOTS := SlotOf(x4, n)];
  }

  /** After n creations the slots that were not due hold what they held. */
  lemma {:induction false} CreatesMany(x: System, n: nat)
    requires |x.slots| == SLOTS && x.creator.NotCreating?
    ensures var x' := Run(x, Creations(n));
      && x' == x.(next := x.next + n, made := x'.made, slots := x'.slots)
      && forall k | 0 <= k < SLOTS && (forall s: nat | x.next < s <= x.next + n :: s % SLOTS != k) ::
           x'.slots[k] == x.slots[k]
  {
    hide Run, Step, Creation;
    if n == 0 {
      RunNothing(x);
    } else {
      CreatesMany(x, n - 1);
      var y := Run(x, Creations(n - 1));
      RunConcat(x, Creations(n - 1), Creation());
      CreatesOne(y);
      var x' := Run(x, Creations(n));
      forall k | 0 <= k < SLOTS && (forall s: nat | x.next < s <= x.next + n :: s % SLOTS != k)
        ensures x'.slots[k] == x.slots[k]
      {
        assert (x.next + n) % SLOTS != k;
      }
    }
  }

  /** The first frame, held by caller 0 on its way to set a bit, when 64 tokens exist. */
  ghost predicate AboutToBeLate(x: System, m: Marker) {
    && |x.slots| == SLOTS && x.slots[1] == Slot(At(1), 0, {}) && x.next == 64 && x.creator.NotCreating?
    && |x.callers| >= 2 && x.callers[0] == FetchOr(1, m) && x.callers[1] == Idle && x.accepted == []
  }

  function WayToLateness(m: Marker): seq<Action> {
    Creation() + [Mark(0, 1, m), Advance(0)] + Creations(63)
  }

  lemma BecomesLate(start: System, m: Marker)
    requires Start(start) && |start.callers| >= 2
    ensures AboutToBeLate(Run(start, WayToLateness(m)), m)
  {
    hide Run, Creation, Creations;
    var x1 := Run(start, Creation());
    var x2 := Run(x1, [Mark(0, 1, m), Advance(0)]);
    RunConcat(start, Creation(), [Mark(0, 1, m), Advance(0)]);
    RunConcat(start, Creation() + [Mark(0, 1, m), Advance(0)], Creations(63));
    CreatesOne(start);
    RunFirst(x1, [Mark(0, 1, m), Advance(0)]);
    RunFirst(Step(x1, Mark(0, 1, m)), [Mark(0, 1, m), Advance(0)][1..]);
    assert [Mark(0, 1, m), Advance(0)][1..][1..] == [];
    RunNothing(x2);
    RunNothing(Step(Step(x1, Mark(0, 1, m)), Advance(0)));
    CreatesMany(x2, 63);
    forall s: nat | x2.next < s <= x2.next + 63 ensures s % SLOTS != 1 {
    }
  }

  /** Creation 65 begins, and the late bit goes into its slot in time to be cleared. */
  function LateBit(): seq<Action> {
    [Create(0), CreateStep, Advance(0), CreateStep, CreateStep, CreateStep]
  }

  /** Then the late call reads the new token back. */
  function LateCall(): seq<Action> {
    LateBit() + [Advance(0), Advance(0), Advance(0)]
  }

  lemma LateCallAnswersTheNewToken(x: System, m: Marker)
    requires AboutToBeLate(x, m)
    ensures var x' := Run(x, LateCall());
      && |x'.slots| == SLOTS && x'.slots[1] == Slot(At(65), 0, {}) && |x'.callers| >= 2 && x'.callers[1] == Idle
      && x'.accepted == [Acceptance(1, m, Some(Some(Token(65, 0))))]
  {
    hide Run, Step, LateBit;
    LateBitIsCleared(x, m);
    RunConcat(x, LateBit(), [Advance(0), Advance(0), Advance(0)]);
    AnswersWhatIsThere(Run(x, LateBit()), m);
  }

  lemma AnswersWhatIsThere(x: System, m: Marker)
    requires |x.slots| == SLOTS && x.slots[1] == Slot(At(65), 0, {}) && |x.callers| >= 2
    requires x.callers[0] == LoadSequence(1, 0) && x.accepted == [Acceptance(1, m, None)]
    ensures var x' := Run(x, [Advance(0), Advance(0), Advance(0)]);
      && |x'.slots| == SLOTS && x'.slots == x.slots && |x'.callers| == |x.callers| && x'.callers[1] == x.callers[1]
      && x'.accepted == [Acceptance(1, m, Some(Some(Token(65, 0))))]
  {
    hide Run;
    var run := [Advance(0), Advance(0), Advance(0)];
    RunFirst(x, run);
    RunFirst(Step(x, run[0]), run[1..]);
    RunFirst(Step(Step(x, run[0]), run[1]), run[1..][1..]);
    assert run[1..][1..][1..] == [];
    RunNothing(Step(Step(Step(x, run[0]), run[1]), run[2]));
  }

  lemma LateBitIsCleared(x: System, m: Marker)
    requires AboutToBeLate(x, m)
    ensures var x' := Run(x, LateBit());
      && |x'.slots| == SLOTS && x'.slots[1] == Slot(At(65), 0, {}) && |x'.callers| >= 2
      && x'.callers[0] == LoadSequence(1, 0) && x'.callers[1] == Idle && x'.accepted == [Acceptance(1, m, None)]
  {
    hide Run;
    var run := LateBit();
    var x1 := Step(x, run[0]);
    var x2 := Step(x1, run[1]);
    var x3 := Step(x2, run[2]);
    var x4 := Step(x3, run[3]);
    var x5 := Step(x4, run[4]);
    RunFirst(x, run);
    RunFirst(x1, run[1..]);
    RunFirst(x2, run[1..][1..]);
    RunFirst(x3, run[1..][1..][1..]);
    RunFirst(x4, run[1..][1..][1..][1..]);
    RunFirst(x5, run[1..][1..][1..][1..][1..]);
    RunNothing(Step(x5, run[5]));
    assert run[1..][1..][1..][1..][1..][1..] == [];
  }

  function NextCall(m: Marker): seq<Action> {
    [Mark(1, 65, m), Advance(1), Advance(1), Advance(1), Advance(1), Advance(1)]
  }

  lemma NextCallAnswersItToo(x: System, m: Marker)
    requires |x.slots| == SLOTS && x.slots[1] == Slot(At(65), 0, {}) && |x.callers| >= 2 && x.callers[1] == Idle
    requires |x.accepted| == 1
    ensures Run(x, NextCall(m)).accepted == x.accepted + [Acceptance(65, m, Some(Some(Token(65, 0))))]
  {
    hide Run;
    var run := NextCall(m);
    var x1 := Step(x, run[0]);
    var x2 := Step(x1, run[1]);
    var x3 := Step(x2, run[2]);
    var x4 := Step(x3, run[3]);
    var x5 := Step(x4, run[4]);
    RunFirst(x, run);
    RunFirst(x1, run[1..]);
    RunFirst(x2, run[1..][1..]);
    RunFirst(x3, run[1..][1..][1..]);
    RunFirst(x4, run[1..][1..][1..][1..]);
    RunFirst(x5, run[1..][1..][1..][1..][1..]);
    RunNothing(Step(x5, run[5]));
    assert run[1..][1..][1..][1..][1..][1..] == [];
  }

  /**
   * A lead of 64 is too much: a call that still holds frame 1 when token 65 is
   * created sets its bit in time for the creation to clear it, hands out token
   * 65, which it never looked up, and the next call with that marker hands out
   * token 65 again.
   */
  lemma LateMarkerIsHandedOutTwice(start: System, m: Marker)
    requires Start(start) && |start.callers| >= 2
    ensures Run(start, WayToLateness(m) + LateCall() + NextCall(m)).accepted
      == [Acceptance(1, m, Some(Some(Token(65, 0)))), Acceptance(65, m, Some(Some(Token(65, 0))))]
  {
    hide Run, Step, WayToLateness, LateCall, NextCall;
    var x1 := Run(start, WayToLateness(m));
    RunConcat(start, WayToLateness(m), LateCall());
    RunConcat(start, WayToLateness(m) + LateCall(), NextCall(m));
    BecomesLate(start, m);
    LateCallAnswersTheNewToken(x1, m);
    NextCallAnswersItToo(Run(x1, LateCall()), m);
  }
}
