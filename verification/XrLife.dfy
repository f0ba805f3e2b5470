/**
 * One OpenXR session's life in sequential runs: the frame ring, the pairing of
 * waits, begins and ends, and the counters.
 */
module XrLife {
  import opened Options
  import opened XrFrames

  datatype FrameSlot = FrameSlot(sequence: nat, revision: nat, fields: Fields)

  datatype Counts = Counts(
    waits: nat, begins: nat, ends: nat, discarded: nat, correlated: nat, clockedWaits: nat, clockedEnds: nat)

  datatype Life = Life(
    epoch: nat, next: nat, nextBegin: nat, active: nat, latest: nat, counts: Counts, frames: seq<FrameSlot>)

  const NO_COUNTS := Counts(0, 0, 0, 0, 0, 0, 0)
  const NO_FRAME := FrameSlot(0, 0, seq(FIELDS, _ => Number(0)))

  predicate Sized(l: Life) {
    |l.frames| == SLOTS && forall k | 0 <= k < SLOTS :: |l.frames[k].fields| == FIELDS
  }

  /** A claimed slot: sequences and counters cleared, frame identities cleared, old fields left behind. */
  function Cleared(epoch: nat, old': seq<FrameSlot>): (l: Life)
    requires |old'| == SLOTS && forall k | 0 <= k < SLOTS :: |old'[k].fields| == FIELDS
    ensures Sized(l) && forall k | 0 <= k < SLOTS :: l.frames[k].sequence == 0
  {
    Life(epoch, 0, 0, 0, 0, NO_COUNTS,
      seq(SLOTS, k requires 0 <= k < SLOTS => FrameSlot(0, 0, old'[k].fields)))
  }

  /** frame_for */
  predicate HasFrame(l: Life, s: nat)
    requires Sized(l)
  {
    s != 0 && l.frames[s % SLOTS].sequence == s
  }

  datatype Call =
    | Wait(w: WaitCall)
    | BeginFrame(discardedPrevious: bool, returned: nat)
    | EndFrame(submittedTime: int, endReturned: nat, render: Option<RenderToken>, host: Option<nat>)

  function WaitFrame(l: Life, w: WaitCall): (l': Life)
    requires Sized(l)
    ensures Sized(l')
  {
    var n := l.next + 1;
    var c := l.counts;
    l.(next := n, latest := n, frames := l.frames[n % SLOTS := FrameSlot(n, 0, WaitRecord(l.epoch, w))],
       counts := c.(waits := c.waits + 1,
                    clockedWaits := c.clockedWaits + if w.predictedHost.Some? then 1 else 0))
  }

  /** A completed revision update of the record of sequence s. */
  function Touch(l: Life, s: nat, u: Update): (l': Life)
    requires Sized(l)
    ensures Sized(l')
  {
    var slot := l.frames[s % SLOTS];
    l.(frames := l.frames[s % SLOTS := slot.(revision := slot.revision + 2, fields := Updated(slot.fields, u))])
  }

  /** What a begin does first when the runtime discarded the previous frame. */
  function DiscardActive(l: Life): (l': Life)
    requires Sized(l)
    ensures Sized(l')
  {
    if !HasFrame(l, l.active) then l.(active := 0)
    else Touch(l, l.active, Discard).(active := 0, counts := l.counts.(discarded := l.counts.discarded + 1))
  }

  function BeginNext(l: Life, returned: nat): (l': Life)
    requires Sized(l)
    ensures Sized(l')
  {
    var s := l.nextBegin + 1;
    if !HasFrame(l, s) then l.(nextBegin := s)
    else Touch(l, s, Begin(returned)).(nextBegin := s, active := s, counts := l.counts.(begins := l.counts.begins + 1))
  }

  function EndActive(l: Life, time: int, returned: nat, render: Option<RenderToken>, host: Option<nat>): (l': Life)
    requires Sized(l)
    ensures Sized(l')
  {
    if !HasFrame(l, l.active) then l.(active := 0) else
    var r := l.frames[l.active % SLOTS].fields;
    var c := l.counts;
    Touch(l, l.active, End(time, returned, render, host)).(active := 0,
      counts := c.(ends := c.ends + 1,
                   correlated := c.correlated + (if Correlates(r, render) then 1 else 0),
                   clockedEnds := c.clockedEnds + if host.Some? then 1 else 0))
  }

  function Step(l: Life, c: Call): (l': Life)
    requires Sized(l)
    ensures Sized(l')
  {
    match c
    case Wait(w) => WaitFrame(l, w)
    case BeginFrame(discarded, returned) => BeginNext(if discarded then DiscardActive(l) else l, returned)
    case EndFrame(time, returned, render, host) => EndActive(l, time, returned, render, host)
  }

  /** The record a call reports on, or nothing if the call is dropped. */
  function Reported(l: Life, c: Call): Option<nat>
    requires Sized(l)
  {
    match c
    case Wait(_) => Some(l.next + 1)
    case BeginFrame(_, _) => if HasFrame(l, l.nextBegin + 1) then Some(l.nextBegin + 1) else None
    case EndFrame(_, _, _, _) => if HasFrame(l, l.active) then Some(l.active) else None
  }

  function Live(start: Life, calls: seq<Call>): (l: Life)
    requires Sized(start)
    ensures Sized(l)
  {
    if calls == [] then start else Step(Live(start, calls[..|calls| - 1]), calls[|calls| - 1])
  }

  ghost predicate Start(l: Life) {
    Sized(l) && l == Cleared(l.epoch, l.frames)
  }

  // ---------------------------------------------------------------- invariant

  /** The last 16 waits are in their slots, and nothing else is. */
  ghost predicate Window(l: Life)
    requires Sized(l)
  {
    && (forall s: nat | 1 <= s <= l.next < s + SLOTS :: l.frames[s % SLOTS].sequence == s)
    && (forall k | 0 <= k < SLOTS && l.frames[k].sequence != 0 ::
          l.frames[k].sequence % SLOTS == k && l.frames[k].sequence <= l.next < l.frames[k].sequence + SLOTS)
  }

  function Active(l: Life): nat {
    if l.active != 0 then 1 else 0
  }

  ghost predicate Counted(l: Life, lost: nat) {
    && l.counts.waits == l.next == l.latest
    && l.counts.begins <= l.nextBegin && l.counts.begins <= l.counts.waits && l.active <= l.nextBegin
    && l.counts.begins == l.counts.ends + l.counts.discarded + Active(l) + lost
    && l.counts.correlated <= l.counts.ends && l.counts.clockedEnds <= l.counts.ends
    && l.counts.clockedWaits <= l.counts.waits
  }

  /** How many begun frames a call loses track of without ending or discarding them. */
  function Lost(l: Life, c: Call): nat
    requires Sized(l)
  {
    match c
    case Wait(_) => 0
    case BeginFrame(discarded, _) =>
      if l.active == 0 then 0
      else if discarded then (if HasFrame(l, l.active) then 0 else 1)
      else (if HasFrame(l, l.nextBegin + 1) then 1 else 0)
    case EndFrame(_, _, _, _) => if l.active != 0 && !HasFrame(l, l.active) then 1 else 0
  }

  function TotalLost(start: Life, calls: seq<Call>): nat
    requires Sized(start)
  {
    if calls == [] then 0
    else
      var init := calls[..|calls| - 1];
      TotalLost(start, init) + Lost(Live(start, init), calls[|calls| - 1])
  }

  lemma WaitKeepsWindow(l: Life, w: WaitCall)
    requires Sized(l) && Window(l)
    ensures Window(WaitFrame(l, w))
  {
    var l' := WaitFrame(l, w);
    forall s: nat | 1 <= s <= l'.next < s + SLOTS ensures l'.frames[s % SLOTS].sequence == s {
      if s <= l.next {
        DifferentSlots(s, l'.next);
        assert l.frames[s % SLOTS].sequence == s;
      }
    }
    forall k | 0 <= k < SLOTS && l'.frames[k].sequence != 0
      ensures l'.frames[k].sequence % SLOTS == k
      ensures l'.frames[k].sequence <= l'.next < l'.frames[k].sequence + SLOTS
    {
      if k != l'.next % SLOTS {
        assert l.frames[k].sequence != 0 && l.frames[k].sequence % SLOTS == k;
        StillInWindow(l.frames[k].sequence, l'.next);
      }
    }
  }

  /** Begins, discards and ends move no frame. */
  lemma UpdatesMoveNoFrame(l: Life, c: Call)
    requires Sized(l) && !c.Wait?
    ensures Step(l, c).next == l.next && Step(l, c).epoch == l.epoch
    ensures forall k | 0 <= k < SLOTS :: Step(l, c).frames[k].sequence == l.frames[k].sequence
  {
  }

  lemma StepKeepsWindow(l: Life, c: Call)
    requires Sized(l) && Window(l)
    ensures Window(Step(l, c))
  {
    if c.Wait? {
      WaitKeepsWindow(l, c.w);
    } else {
      UpdatesMoveNoFrame(l, c);
    }
  }

  lemma StepCounts(l: Life, c: Call, lost: nat)
    requires Sized(l) && Window(l) && Counted(l, lost)
    ensures Counted(Step(l, c), lost + Lost(l, c))
  {
    hide Updated, WaitRecord, Correlates;
    match c
    case Wait(w) => WaitCounts(l, w, lost);
    case BeginFrame(discarded, returned) =>
      if discarded {
        DiscardCounts(l, lost);
        BeginCounts(DiscardActive(l), returned, lost + Lost(l, c));
      } else {
        BeginCounts(l, returned, lost);
      }
    case EndFrame(_, _, _, _) =>
  }

  lemma WaitCounts(l: Life, w: WaitCall, lost: nat)
    requires Sized(l) && Counted(l, lost)
    ensures Counted(WaitFrame(l, w), lost)
  {
    hide WaitRecord;
  }

  lemma DiscardCounts(l: Life, lost: nat)
    requires Sized(l) && Window(l) && Counted(l, lost)
    ensures var l' := DiscardActive(l);
      && Window(l') && l'.active == 0 && l'.nextBegin == l.nextBegin
      && Counted(l', lost + if l.active != 0 && !HasFrame(l, l.active) then 1 else 0)
  {
    hide Updated;
  }

  lemma BeginCounts(l: Life, returned: nat, lost: nat)
    requires Sized(l) && Window(l) && Counted(l, lost)
    ensures Counted(BeginNext(l, returned), lost + if l.active != 0 && HasFrame(l, l.nextBegin + 1) then 1 else 0)
  {
    hide Updated;
  }

  lemma {:induction false} LifeIsCounted(start: Life, calls: seq<Call>)
    requires Start(start)
    ensures Window(Live(start, calls)) && Counted(Live(start, calls), TotalLost(start, calls))
  {
    if calls != [] {
      var init := calls[..|calls| - 1];
      LifeIsCounted(start, init);
      StepKeepsWindow(Live(start, init), calls[|calls| - 1]);
      StepCounts(Live(start, init), calls[|calls| - 1], TotalLost(start, init));
    }
  }

  // ------------------------------------------------------------- main results

  /**
   * Whatever is called, in whatever order: ends, discards and the active frame
   * never outnumber the begins, which never outnumber the waits. The difference
   * is exactly the begun frames the calls lost track of.
   */
  lemma EveryBeginIsAccountedFor(start: Life, calls: seq<Call>)
    requires Start(start)
    ensures var c := Live(start, calls).counts;
      && c.ends + c.discarded + Active(Live(start, calls)) <= c.begins <= c.waits
      && c.correlated <= c.ends
      && c.begins - (c.ends + c.discarded + Active(Live(start, calls))) == TotalLost(start, calls)
  {
    LifeIsCounted(start, calls);
  }

  /** Discard is reported exactly when a frame is active, and no wait recycles the active frame's slot. */
  predicate WellPaired(l: Life, c: Call) {
    match c
    case Wait(_) => l.active == 0 || l.next + 1 < l.active + SLOTS
    case BeginFrame(discarded, _) => discarded == (l.active != 0)
    case EndFrame(_, _, _, _) => true
  }

  predicate AllWellPaired(start: Life, calls: seq<Call>)
    requires Sized(start)
  {
    forall i | 0 <= i < |calls| :: WellPaired(Live(start, calls[..i]), calls[i])
  }

  /** In well-paired runs the active frame is always still in the ring, so nothing is ever lost. */
  lemma {:induction false} WellPairedRunsLoseNothing(start: Life, calls: seq<Call>)
    requires Start(start) && AllWellPaired(start, calls)
    ensures var l := Live(start, calls);
      && (l.active != 0 ==> HasFrame(l, l.active)) && TotalLost(start, calls) == 0
      && l.counts.begins == l.counts.ends + l.counts.discarded + Active(l)
  {
    hide Step, Window, WellPaired, Lost;
    LifeIsCounted(start, calls);
    if calls != [] {
      var init := calls[..|calls| - 1];
      forall i | 0 <= i < |init| ensures WellPaired(Live(start, init[..i]), init[i]) {
        assert init[..i] == calls[..i];
      }
      WellPairedRunsLoseNothing(start, init);
      LifeIsCounted(start, init);
      assert calls[..|calls| - 1] == init;
      WellPairedStep(Live(start, init), calls[|calls| - 1]);
    }
  }

  lemma WellPairedStep(l: Life, c: Call)
    requires Sized(l) && Window(l) && WellPaired(l, c) && (l.active != 0 ==> HasFrame(l, l.active))
    ensures Lost(l, c) == 0 && (Step(l, c).active != 0 ==> HasFrame(Step(l, c), Step(l, c).active))
  {
    hide Updated, WaitRecord, Correlates;
    if c.Wait? && l.active != 0 {
      DifferentSlots(l.active, l.next + 1);
    }
  }

  function WaitLog(calls: seq<Call>): seq<WaitCall> {
    if calls == [] then []
    else WaitLog(calls[..|calls| - 1]) + if calls[|calls| - 1].Wait? then [calls[|calls| - 1].w] else []
  }

  function BeginCalls(calls: seq<Call>): nat {
    if calls == [] then 0
    else BeginCalls(calls[..|calls| - 1]) + if calls[|calls| - 1].BeginFrame? then 1 else 0
  }

  /** A record carries what its own wait was told. */
  ghost predicate RecordOf(r: Fields, epoch: nat, w: WaitCall)
    requires |r| == FIELDS
  {
    && (forall i :: i in WAIT_FIELDS ==> r[i] == WaitRecord(epoch, w)[i])
    && (ShouldRender in FlagsOf(r) <==> w.shouldRender)
  }

  ghost predicate SlotPaired(slot: FrameSlot, epoch: nat, waits: seq<WaitCall>)
    requires |slot.fields| == FIELDS
  {
    slot.sequence != 0 ==> slot.sequence <= |waits| && RecordOf(slot.fields, epoch, waits[slot.sequence - 1])
  }

  ghost predicate Paired(l: Life, waits: seq<WaitCall>, begins: nat)
    requires Sized(l)
  {
    && |waits| == l.next && l.nextBegin == begins
    && forall k | 0 <= k < SLOTS :: SlotPaired(l.frames[k], l.epoch, waits)
  }

  lemma TouchKeepsPaired(l: Life, s: nat, u: Update, waits: seq<WaitCall>, begins: nat)
    requires Sized(l) && Paired(l, waits, begins)
    ensures Paired(Touch(l, s, u), waits, begins)
  {
    hide Updated, WaitRecord;
    UpdateKeepsTheWait(l.frames[s % SLOTS].fields, u);
    var l' := Touch(l, s, u);
    forall k | 0 <= k < SLOTS ensures SlotPaired(l'.frames[k], l'.epoch, waits) {
      assert SlotPaired(l.frames[k], l.epoch, waits);
    }
  }

  lemma WaitKeepsPaired(l: Life, w: WaitCall, waits: seq<WaitCall>, begins: nat)
    requires Sized(l) && Paired(l, waits, begins)
    ensures Paired(WaitFrame(l, w), waits + [w], begins)
  {
    var l' := WaitFrame(l, w);
    forall k | 0 <= k < SLOTS ensures SlotPaired(l'.frames[k], l'.epoch, waits + [w]) {
      assert SlotPaired(l.frames[k], l.epoch, waits);
    }
  }

  /** Counters and the active frame do not matter to the pairing. */
  lemma SameFramesSamePairing(l: Life, l': Life, waits: seq<WaitCall>, begins: nat)
    requires Sized(l) && Sized(l') && Paired(l, waits, begins)
    requires l'.frames == l.frames && l'.epoch == l.epoch && l'.next == l.next
    ensures Paired(l', waits, l'.nextBegin)
  {
  }

  lemma BeginKeepsPaired(l: Life, returned: nat, waits: seq<WaitCall>, begins: nat)
    requires Sized(l) && Paired(l, waits, begins)
    ensures Paired(BeginNext(l, returned), waits, begins + 1)
  {
    var s := l.nextBegin + 1;
    TouchKeepsPaired(l, s, Begin(returned), waits, begins);
    SameFramesSamePairing(if HasFrame(l, s) then Touch(l, s, Begin(returned)) else l, BeginNext(l, returned), waits, begins);
  }

  lemma DiscardKeepsPaired(l: Life, waits: seq<WaitCall>, begins: nat)
    requires Sized(l) && Paired(l, waits, begins)
    ensures Paired(DiscardActive(l), waits, begins)
  {
    TouchKeepsPaired(l, l.active, Discard, waits, begins);
    SameFramesSamePairing(if HasFrame(l, l.active) then Touch(l, l.active, Discard) else l, DiscardActive(l), waits, begins);
  }

  lemma EndKeepsPaired(l: Life, c: Call, waits: seq<WaitCall>, begins: nat)
    requires Sized(l) && Paired(l, waits, begins) && c.EndFrame?
    ensures Paired(Step(l, c), waits, begins)
  {
    var u := End(c.submittedTime, c.endReturned, c.render, c.host);
    TouchKeepsPaired(l, l.active, u, waits, begins);
    SameFramesSamePairing(if HasFrame(l, l.active) then Touch(l, l.active, u) else l, Step(l, c), waits, begins);
  }

  lemma StepKeepsPaired(l: Life, c: Call, waits: seq<WaitCall>, begins: nat)
    requires Sized(l) && Paired(l, waits, begins)
    ensures Paired(Step(l, c), waits + (if c.Wait? then [c.w] else []), begins + if c.BeginFrame? then 1 else 0)
  {
    assert waits + [] == waits;
    match c {
      case Wait(w) => WaitKeepsPaired(l, w, waits, begins);
      case BeginFrame(discarded, returned) =>
        if discarded {
          DiscardKeepsPaired(l, waits, begins);
          BeginKeepsPaired(DiscardActive(l), returned, waits, begins);
        } else {
          BeginKeepsPaired(l, returned, waits, begins);
        }
      case EndFrame(_, _, _, _) => EndKeepsPaired(l, c, waits, begins);
    }
  }

  lemma {:induction false} LifeIsPaired(start: Life, calls: seq<Call>)
    requires Start(start)
    ensures Paired(Live(start, calls), WaitLog(calls), BeginCalls(calls))
  {
    if calls != [] {
      var init := calls[..|calls| - 1];
      LifeIsPaired(start, init);
      LifeIsCounted(start, init);
      StepKeepsPaired(Live(start, init), calls[|calls| - 1], WaitLog(init), BeginCalls(init));
    }
  }

  /**
   * The k-th begin call pairs with the k-th wait: it succeeds if and only if
   * that wait has happened and is among the last 16, and the record it reports
   * carries what that wait was told.
   */
  lemma BeginPairsWithItsWait(start: Life, calls: seq<Call>, discarded: bool, returned: nat)
    requires Start(start)
    ensures var l, k := Live(start, calls), BeginCalls(calls) + 1;
      var c := BeginFrame(discarded, returned);
      && (Reported(l, c) == Some(k) <==> k <= |WaitLog(calls)| < k + SLOTS)
      && (Reported(l, c).Some? ==>
          && Reported(l, c).value == k <= |WaitLog(calls)| && Step(l, c).active == k
          && RecordOf(Step(l, c).frames[k % SLOTS].fields, l.epoch, WaitLog(calls)[k - 1])
          && Begun in FlagsOf(Step(l, c).frames[k % SLOTS].fields))
  {
    hide Live, BeginCalls, WaitLog, Step, Reported, RecordOf, Window;
    LifeIsPaired(start, calls);
    LifeIsCounted(start, calls);
    BeginIsPaired(Live(start, calls), WaitLog(calls), BeginCalls(calls), discarded, returned);
  }

  lemma BeginIsPaired(l: Life, waits: seq<WaitCall>, begins: nat, discarded: bool, returned: nat)
    requires Sized(l) && Window(l) && Paired(l, waits, begins)
    ensures var c, k := BeginFrame(discarded, returned), begins + 1;
      && (Reported(l, c) == Some(k) <==> k <= |waits| < k + SLOTS)
      && (Reported(l, c).Some? ==>
          && Reported(l, c).value == k <= |waits| && Step(l, c).active == k
          && RecordOf(Step(l, c).frames[k % SLOTS].fields, l.epoch, waits[k - 1])
          && Begun in FlagsOf(Step(l, c).frames[k % SLOTS].fields))
  {
    hide Updated, RecordOf;
    var c, k := BeginFrame(discarded, returned), begins + 1;
    StepKeepsPaired(l, c, waits, begins);
    var l1 := if discarded then DiscardActive(l) else l;
    UpdateKeepsTheWait(l1.frames[k % SLOTS].fields, Begin(returned));
    assert waits + [] == waits;
    assert SlotPaired(Step(l, c).frames[k % SLOTS], l.epoch, waits);
  }
}
