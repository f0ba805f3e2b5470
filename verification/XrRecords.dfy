/**
 * What the records of an OpenXR session say, read off the session's calls alone:
 * which frame an end belongs to, and every field of the record it leaves.
 */
module XrRecords {
  import opened Options
  import opened XrFrames
  import opened XrLife

  /** The return times of the begin calls, dropped ones included. */
  function BeginLog(calls: seq<Call>): seq<nat> {
    if calls == [] then []
    else
      BeginLog(calls[..|calls| - 1])
      + if calls[|calls| - 1].BeginFrame? then [calls[|calls| - 1].returned] else []
  }

  /**
   * The frame begun and not yet ended or discarded: the k-th begin makes it k if
   * the k-th wait has happened and is among the last 16.
   */
  function ActiveOf(calls: seq<Call>): nat {
    if calls == [] then 0 else
    var before := ActiveOf(calls[..|calls| - 1]);
    match calls[|calls| - 1]
    case Wait(_) => before
    case EndFrame(_, _, _, _) => 0
    case BeginFrame(discarded, _) =>
      var k, waits := |BeginLog(calls)|, |WaitLog(calls)|;
      if k <= waits < k + SLOTS then k else if discarded then 0 else before
  }

  /** A record after its wait and its begin. */
  function BegunRecord(epoch: nat, w: WaitCall, returned: nat): (r: Fields)
    ensures |r| == FIELDS
  {
    var r := WaitRecord(epoch, w);
    r[BEGIN_RETURN := Number(returned)][FLAGS := Flags(FlagsOf(r) + {Begun})]
  }

  /** A record not begun yet is its wait's, and the active frame's is its wait's and its begin's. */
  ghost predicate SlotPhase(slot: FrameSlot, epoch: nat, waits: seq<WaitCall>, begins: seq<nat>, active: nat) {
    slot.sequence != 0 ==>
      && slot.sequence <= |waits|
      && (slot.sequence > |begins| ==> slot.fields == WaitRecord(epoch, waits[slot.sequence - 1]))
      && (slot.sequence == active ==>
        && active <= |begins|
        && slot.fields == BegunRecord(epoch, waits[active - 1], begins[active - 1]))
  }

  ghost predicate Phases(l: Life, waits: seq<WaitCall>, begins: seq<nat>)
    requires Sized(l)
  {
    && Window(l) && |waits| == l.next && |begins| == l.nextBegin && l.active <= l.next && l.active <= l.nextBegin
    && forall k | 0 <= k < SLOTS :: SlotPhase(l.frames[k], l.epoch, waits, begins, l.active)
  }

  lemma WaitKeepsPhases(l: Life, w: WaitCall, waits: seq<WaitCall>, begins: seq<nat>)
    requires Sized(l) && Phases(l, waits, begins)
    ensures Phases(WaitFrame(l, w), waits + [w], begins)
  {
    hide WaitRecord, BegunRecord, Window;
    WaitKeepsWindow(l, w);
    var l' := WaitFrame(l, w);
    forall k | 0 <= k < SLOTS ensures SlotPhase(l'.frames[k], l'.epoch, waits + [w], begins, l'.active) {
      assert SlotPhase(l.frames[k], l.epoch, waits, begins, l.active);
    }
  }

  /** The active frame is updated once more and given up. */
  function Closed(l: Life, u: Update): (l': Life)
    requires Sized(l)
    ensures Sized(l')
  {
    (if HasFrame(l, l.active) then Touch(l, l.active, u) else l).(active := 0)
  }

  lemma CloseKeepsPhases(l: Life, u: Update, waits: seq<WaitCall>, begins: seq<nat>)
    requires Sized(l) && Phases(l, waits, begins)
    ensures Phases(Closed(l, u), waits, begins)
  {
    hide WaitRecord, BegunRecord, Updated;
    var l' := Closed(l, u);
    forall k | 0 <= k < SLOTS ensures SlotPhase(l'.frames[k], l'.epoch, waits, begins, 0) {
      assert SlotPhase(l.frames[k], l.epoch, waits, begins, l.active);
    }
  }

  /** Counters do not matter. */
  lemma CountersAside(l: Life, counts: Counts, waits: seq<WaitCall>, begins: seq<nat>)
    requires Sized(l) && Phases(l, waits, begins)
    ensures Sized(l.(counts := counts)) && Phases(l.(counts := counts), waits, begins)
  {
    hide SlotPhase;
  }

  lemma BeginStores(epoch: nat, w: WaitCall, returned: nat)
    ensures Updated(WaitRecord(epoch, w), Begin(returned)) == BegunRecord(epoch, w, returned)
  {
    hide WaitRecord, StoreAll;
    var r := WaitRecord(epoch, w);
    var stores := Stores(r, Begin(returned));
    StoreOneMore(r, stores, 0);
    StoreOneMore(r, stores, 1);
    NothingStored(r);
    assert stores[..0] == [] && stores[..2] == stores;
  }

  lemma BeginKeepsPhases(l: Life, returned: nat, waits: seq<WaitCall>, begins: seq<nat>)
    requires Sized(l) && Phases(l, waits, begins)
    ensures Phases(BeginNext(l, returned), waits, begins + [returned])
  {
    hide WaitRecord, BegunRecord, Updated;
    var l', s := BeginNext(l, returned), l.nextBegin + 1;
    if HasFrame(l, s) {
      assert SlotPhase(l.frames[s % SLOTS], l.epoch, waits, begins, l.active);
      BeginStores(l.epoch, waits[s - 1], returned);
    }
    forall k | 0 <= k < SLOTS ensures SlotPhase(l'.frames[k], l'.epoch, waits, begins + [returned], l'.active) {
      assert SlotPhase(l.frames[k], l.epoch, waits, begins, l.active);
    }
  }

  lemma StepKeepsPhases(l: Life, c: Call, waits: seq<WaitCall>, begins: seq<nat>)
    requires Sized(l) && Phases(l, waits, begins)
    ensures Phases(Step(l, c), waits + (if c.Wait? then [c.w] else []),
      begins + if c.BeginFrame? then [c.returned] else [])
  {
    hide Phases, Touch, WaitFrame, BeginNext, HasFrame;
    assert waits + [] == waits && begins + [] == begins;
    match c {
      case Wait(w) => WaitKeepsPhases(l, w, waits, begins);
      case BeginFrame(discarded, returned) =>
        if discarded {
          CloseKeepsPhases(l, Discard, waits, begins);
          CountersAside(Closed(l, Discard), DiscardActive(l).counts, waits, begins);
          BeginKeepsPhases(DiscardActive(l), returned, waits, begins);
        } else {
          BeginKeepsPhases(l, returned, waits, begins);
        }
      case EndFrame(time, returned, render, host) =>
        CloseKeepsPhases(l, End(time, returned, render, host), waits, begins);
        CountersAside(Closed(l, End(time, returned, render, host)), Step(l, c).counts, waits, begins);
    }
  }

  /** A record is in the ring exactly while it is one of the last 16 waits'. */
  lemma FoundInWindow(l: Life, s: nat)
    requires Sized(l) && Window(l)
    ensures HasFrame(l, s) <==> 1 <= s <= l.next < s + SLOTS
  {
  }

  lemma StepActivates(l: Life, c: Call)
    requires Sized(l) && Window(l)
    ensures var k := l.nextBegin + 1;
      Step(l, c).active ==
        match c
        case Wait(_) => l.active
        case EndFrame(_, _, _, _) => 0
        case BeginFrame(discarded, _) => if k <= l.next < k + SLOTS then k else if discarded then 0 else l.active
  {
    hide Updated, WaitRecord, Window, HasFrame;
    FoundInWindow(l, l.nextBegin + 1);
    if c.BeginFrame? && c.discardedPrevious {
      DiscardStays(l);
    }
  }

  lemma DiscardStays(l: Life)
    requires Sized(l)
    ensures var l' := DiscardActive(l);
      && l'.next == l.next && l'.nextBegin == l.nextBegin && l'.active == 0
      && HasFrame(l', l.nextBegin + 1) == HasFrame(l, l.nextBegin + 1)
  {
    hide Updated;
  }

  lemma StartHasPhases(start: Life)
    requires Start(start)
    ensures Phases(start, [], [])
  {
  }

  lemma {:induction false} LifeHasPhases(start: Life, calls: seq<Call>)
    requires Start(start)
    ensures Phases(Live(start, calls), WaitLog(calls), BeginLog(calls))
    ensures Live(start, calls).active == ActiveOf(calls)
  {
    hide Phases, Step, Window;
    if calls == [] {
      StartHasPhases(start);
    } else {
      var init, c := calls[..|calls| - 1], calls[|calls| - 1];
      LifeHasPhases(start, init);
      StepKeepsPhases(Live(start, init), c, WaitLog(init), BeginLog(init));
      PhasesCount(Live(start, init), WaitLog(init), BeginLog(init));
      StepActivates(Live(start, init), c);
    }
  }

  lemma PhasesCount(l: Life, waits: seq<WaitCall>, begins: seq<nat>)
    requires Sized(l) && Phases(l, waits, begins)
    ensures Window(l) && |waits| == l.next && |begins| == l.nextBegin && l.active <= l.next && l.active <= l.nextBegin
  {
  }

  /** All sixteen fields of an ended record, from the calls that made it. */
  ghost predicate EndedRecord(r: Fields, epoch: nat, w: WaitCall, begun: nat, c: Call)
    requires c.EndFrame?
  {
    && |r| == FIELDS
    && r[EPOCH] == Number(epoch)
    && r[PREDICTED_TIME] == Number(w.predictedTime) && r[PREDICTED_PERIOD] == Number(w.period)
    && r[SUBMITTED_TIME] == Number(c.submittedTime)
    && r[WAIT_RETURN] == Number(w.returned) && r[BEGIN_RETURN] == Number(begun) && r[END_RETURN] == Number(c.endReturned)
    && r[PREDICTED_HOST] == Number(if w.predictedHost.Some? then w.predictedHost.value else 0)
    && r[SUBMITTED_HOST] == Number(if c.host.Some? then c.host.value else 0)
    && r[WAIT_TO_DISPLAY] ==
       Number(if w.predictedHost.Some? then SignedDelta(w.predictedHost.value, w.returned) else 0)
    && r[END_TO_DISPLAY] == Number(if c.host.Some? then SignedDelta(c.host.value, c.endReturned) else 0)
    && r[WATERMARK] == Number(w.watermark) && r[WATERMARK_EPOCH] == Number(w.watermarkEpoch)
    && r[FLAGS].Flags? && EndedFlags(r[FLAGS].flags, w, c)
  }

  ghost predicate EndedFlags(flags: set<Flag>, w: WaitCall, c: Call)
    requires c.EndFrame?
  {
    forall flag: Flag :: flag in flags <==>
      match flag
      case ShouldRender => w.shouldRender
      case Begun => true
      case Ended => true
      case Discarded => false
      case PredictedClockValid => w.predictedHost.Some?
      case SubmittedClockValid => c.host.Some?
  }

  lemma BegunFields(epoch: nat, w: WaitCall, begun: nat)
    ensures var r := BegunRecord(epoch, w, begun);
      && r[BEGIN_RETURN] == Number(begun) && r[END_TO_DISPLAY] == Number(0)
      && r[RENDER_EPOCH] == Number(0) && r[RENDER_SEQUENCE] == Number(0)
      && (forall i :: i in WAIT_FIELDS ==> r[i] == WaitRecord(epoch, w)[i])
      && FlagsOf(r) == (if w.shouldRender then {ShouldRender} else {})
                       + (if w.predictedHost.Some? then {PredictedClockValid} else {}) + {Begun}
  {
    hide SignedDelta;
  }

  lemma WaitFields(epoch: nat, w: WaitCall)
    ensures var r := WaitRecord(epoch, w);
      && r[EPOCH] == Number(epoch)
      && r[PREDICTED_TIME] == Number(w.predictedTime) && r[PREDICTED_PERIOD] == Number(w.period)
      && r[WAIT_RETURN] == Number(w.returned)
      && r[PREDICTED_HOST] == Number(if w.predictedHost.Some? then w.predictedHost.value else 0)
      && r[WAIT_TO_DISPLAY] ==
         Number(if w.predictedHost.Some? then SignedDelta(w.predictedHost.value, w.returned) else 0)
      && r[WATERMARK] == Number(w.watermark) && r[WATERMARK_EPOCH] == Number(w.watermarkEpoch)
  {
    hide SignedDelta;
  }

  lemma EndsTheFlags(flags: set<Flag>, w: WaitCall, c: Call)
    requires c.EndFrame?
    requires flags == (if w.shouldRender then {ShouldRender} else {})
      + (if w.predictedHost.Some? then {PredictedClockValid} else {}) + {Begun}
    ensures EndedFlags(flags + ({Ended} + if c.host.Some? then {SubmittedClockValid} else {}), w, c)
  {
  }

  lemma EndsTheRecord(epoch: nat, w: WaitCall, begun: nat, c: Call)
    requires c.EndFrame?
    ensures var r := Updated(BegunRecord(epoch, w, begun), End(c.submittedTime, c.endReturned, c.render, c.host));
      EndedRecord(r, epoch, w, begun, c)
  {
    hide WaitRecord, BegunRecord, Updated, SignedDelta, EndedFlags;
    var u := End(c.submittedTime, c.endReturned, c.render, c.host);
    var before := BegunRecord(epoch, w, begun);
    var r := Updated(before, u);
    BegunFields(epoch, w, begun);
    WaitFields(epoch, w);
    UpdateKeepsTheWait(before, u);
    EndSubmits(before, c.submittedTime, c.endReturned, c.render, c.host);
    EndSetsFlags(before, u);
    EndsTheFlags(FlagsOf(before), w, c);
    EverythingWaited(r, before, WaitRecord(epoch, w));
  }

  /** The wait fields by name. */
  lemma EverythingWaited(r: Fields, before: Fields, waited: Fields)
    requires |r| == |before| == |waited| == FIELDS
    requires forall i :: i in WAIT_FIELDS ==> r[i] == before[i] && before[i] == waited[i]
    ensures r[EPOCH] == waited[EPOCH] && r[PREDICTED_TIME] == waited[PREDICTED_TIME]
    ensures r[PREDICTED_PERIOD] == waited[PREDICTED_PERIOD] && r[WAIT_RETURN] == waited[WAIT_RETURN]
    ensures r[PREDICTED_HOST] == waited[PREDICTED_HOST] && r[WAIT_TO_DISPLAY] == waited[WAIT_TO_DISPLAY]
    ensures r[WATERMARK] == waited[WATERMARK] && r[WATERMARK_EPOCH] == waited[WATERMARK_EPOCH]
  {
  }

  lemma EndSetsFlags(r: Fields, u: Update)
    requires |r| == FIELDS
    ensures Updated(r, u)[FLAGS].Flags?
  {
    hide StoreAll, Submission, Correlation;
    FieldStoredLast(r, Stores(r, u), |Stores(r, u)| - 1);
  }

  /**
   * An end belongs to the frame begun last and not ended or discarded since, if
   * its wait is still among the last 16, and reports nothing otherwise. The
   * record it leaves says in every field what that frame's own wait, begin and
   * end were told.
   */
  lemma EndReportsItsFrame(start: Life, calls: seq<Call>, c: Call)
    requires Start(start) && c.EndFrame?
    ensures var l, k := Live(start, calls), ActiveOf(calls);
      && Reported(l, c) == (if k != 0 && |WaitLog(calls)| < k + SLOTS then Some(k) else None)
      && (Reported(l, c).Some? ==>
        && k <= |WaitLog(calls)| && k <= |BeginLog(calls)|
        && EndedRecord(Step(l, c).frames[k % SLOTS].fields, l.epoch, WaitLog(calls)[k - 1], BeginLog(calls)[k - 1], c)
        && Step(l, c).counts.ends == l.counts.ends + 1
        && Step(l, c).counts.clockedEnds == l.counts.clockedEnds + if c.host.Some? then 1 else 0)
      && (Reported(l, c).None? ==> Step(l, c).counts == l.counts && Step(l, c).frames == l.frames)
  {
    hide Live, WaitLog, BeginLog, ActiveOf, Updated, BegunRecord, EndedRecord, Correlates;
    LifeHasPhases(start, calls);
    var l, k := Live(start, calls), ActiveOf(calls);
    FoundInWindow(l, k);
    if HasFrame(l, k) {
      assert SlotPhase(l.frames[k % SLOTS], l.epoch, WaitLog(calls), BeginLog(calls), l.active);
      EndsTheRecord(l.epoch, WaitLog(calls)[k - 1], BeginLog(calls)[k - 1], c);
    }
  }

  /**
   * The render identity a frame's record names: the sequence right after a
   * nonzero watermark of its wait, or the newest token at its end if the wait
   * saw none; nothing if the frame was not to render, if no token came after
   * the watermark, or if the newest is of another epoch than the watermark's.
   */
  ghost predicate NamesRender(r: Fields, w: WaitCall, newest: Option<RenderToken>)
    requires |r| == FIELDS
  {
    if newest.Some? && w.shouldRender && w.watermark != 0 && newest.value.sequence > w.watermark
       && (w.watermarkEpoch == 0 || w.watermarkEpoch == newest.value.epoch)
    then r[RENDER_SEQUENCE] == Number(w.watermark + 1) && r[RENDER_EPOCH] == Number(newest.value.epoch)
    else if newest.Some? && w.shouldRender && w.watermark == 0 && newest.value.sequence > 0
    then r[RENDER_SEQUENCE] == Number(newest.value.sequence) && r[RENDER_EPOCH] == Number(newest.value.epoch)
    else r[RENDER_SEQUENCE] == Number(0) && r[RENDER_EPOCH] == Number(0)
  }

  /** Every end names the render its own wait's watermark calls for, and is counted exactly if it names one. */
  lemma EndCorrelatesWithItsWait(start: Life, calls: seq<Call>, c: Call)
    requires Start(start) && c.EndFrame? && Reported(Live(start, calls), c).Some?
    ensures var l, k := Live(start, calls), ActiveOf(calls);
      && 1 <= k <= |WaitLog(calls)|
      && var r := Step(l, c).frames[k % SLOTS].fields;
         && |r| == FIELDS && NamesRender(r, WaitLog(calls)[k - 1], c.render)
         && Step(l, c).counts.correlated == l.counts.correlated + if r[RENDER_SEQUENCE] != Number(0) then 1 else 0
  {
    hide Live, WaitLog, BeginLog, ActiveOf, Updated, BegunRecord, WaitRecord;
    LifeHasPhases(start, calls);
    var l, k := Live(start, calls), ActiveOf(calls);
    assert SlotPhase(l.frames[k % SLOTS], l.epoch, WaitLog(calls), BeginLog(calls), l.active);
    var w, begun := WaitLog(calls)[k - 1], BeginLog(calls)[k - 1];
    BegunFields(l.epoch, w, begun);
    WaitFields(l.epoch, w);
    assert WATERMARK in WAIT_FIELDS && WATERMARK_EPOCH in WAIT_FIELDS;
    EndCorrelation(BegunRecord(l.epoch, w, begun), c.submittedTime, c.endReturned, c.render, c.host);
  }

  /**
   * A reported discard marks and counts the active frame, if its record is still
   * in the ring, and nothing else; the record keeps what its wait and begin said.
   */
  lemma DiscardMarksItsFrame(start: Life, calls: seq<Call>, returned: nat)
    requires Start(start)
    ensures var l, k := Live(start, calls), ActiveOf(calls);
      var l' := Step(l, BeginFrame(true, returned));
      if k != 0 && |WaitLog(calls)| < k + SLOTS then
        && k <= |WaitLog(calls)| && k <= |BeginLog(calls)|
        && l'.counts.discarded == l.counts.discarded + 1 && l'.frames[k % SLOTS].sequence == k
        && var r := BegunRecord(l.epoch, WaitLog(calls)[k - 1], BeginLog(calls)[k - 1]);
           l'.frames[k % SLOTS].fields == r[FLAGS := Flags(FlagsOf(r) + {Discarded})]
      else l'.counts.discarded == l.counts.discarded
  {
    hide Live, WaitLog, BeginLog, ActiveOf, Updated, BegunRecord;
    LifeHasPhases(start, calls);
    var l, k := Live(start, calls), ActiveOf(calls);
    FoundInWindow(l, k);
    if HasFrame(l, k) {
      assert SlotPhase(l.frames[k % SLOTS], l.epoch, WaitLog(calls), BeginLog(calls), l.active);
      DiscardSetsOneFlag(l.frames[k % SLOTS].fields);
    }
  }

  lemma DiscardSetsOneFlag(r: Fields)
    requires |r| == FIELDS
    ensures Updated(r, Discard) == r[FLAGS := Flags(FlagsOf(r) + {Discarded})]
  {
    assert Stores(r, Discard)[..0] == [];
    StoreOneMore(r, Stores(r, Discard), 0);
  }

  // -------------------------------------------------------------------- counters

  /** Whether an end with this newest token owes its frame a render identity. */
  predicate OwesRender(w: WaitCall, newest: Option<RenderToken>) {
    && w.shouldRender && newest.Some? && newest.value.sequence > w.watermark
    && (w.watermark == 0 || w.watermarkEpoch == 0 || w.watermarkEpoch == newest.value.epoch)
  }

  function One(b: bool): nat {
    if b then 1 else 0
  }

  /** All seven counters, from the calls alone. */
  function CountsOf(calls: seq<Call>): Counts {
    if calls == [] then NO_COUNTS
    else
      var init := calls[..|calls| - 1];
      var before, active, waits := CountsOf(init), ActiveOf(init), WaitLog(init);
      var inRing := active != 0 && |waits| < active + SLOTS;
      match calls[|calls| - 1]
      case Wait(w) =>
        before.(waits := before.waits + 1, clockedWaits := before.clockedWaits + One(w.predictedHost.Some?))
      case BeginFrame(discarded, _) =>
        var k := |BeginLog(init)| + 1;
        before.(begins := before.begins + One(k <= |waits| < k + SLOTS),
                discarded := before.discarded + One(discarded && inRing))
      case EndFrame(_, _, render, host) =>
        if !inRing then before
        else
          before.(ends := before.ends + 1, clockedEnds := before.clockedEnds + One(host.Some?),
                  correlated := before.correlated + One(active <= |waits| && OwesRender(waits[active - 1], render)))
  }

  lemma BeginCounters(l: Life, discarded: bool, returned: nat)
    requires Sized(l) && Window(l)
    ensures var c, k := l.counts, l.nextBegin + 1;
      Step(l, BeginFrame(discarded, returned)).counts ==
        c.(begins := c.begins + One(k <= l.next < k + SLOTS),
           discarded := c.discarded + One(discarded && l.active != 0 && l.active <= l.next < l.active + SLOTS))
  {
    hide Updated, Window, HasFrame;
    FoundInWindow(l, l.nextBegin + 1);
    FoundInWindow(l, l.active);
    DiscardStays(l);
  }

  /** What an end counts, on top of what it stores. */
  lemma EndCounters(start: Life, calls: seq<Call>, c: Call)
    requires Start(start) && c.EndFrame?
    ensures var l, active, waits := Live(start, calls), ActiveOf(calls), WaitLog(calls);
      var counts := Step(l, c).counts;
      if active != 0 && |waits| < active + SLOTS then
        && active <= |waits|
        && counts == l.counts.(ends := l.counts.ends + 1, clockedEnds := l.counts.clockedEnds + One(c.host.Some?),
             correlated := l.counts.correlated + One(OwesRender(waits[active - 1], c.render)))
      else counts == l.counts
  {
    hide Live, WaitLog, BeginLog, ActiveOf, Updated, BegunRecord, EndedRecord, Correlates;
    EndReportsItsFrame(start, calls, c);
    if Reported(Live(start, calls), c).Some? {
      EndCorrelatesWithItsWait(start, calls, c);
    }
  }

  /** Every counter of a session is what its calls alone say it should be. */
  lemma {:induction false} CountersAreRead(start: Life, calls: seq<Call>)
    requires Start(start)
    ensures Live(start, calls).counts == CountsOf(calls)
  {
    hide Step, Window, Phases, ActiveOf, OwesRender;
    if calls != [] {
      var init, c := calls[..|calls| - 1], calls[|calls| - 1];
      CountersAreRead(start, init);
      LifeHasPhases(start, init);
      PhasesCount(Live(start, init), WaitLog(init), BeginLog(init));
      match c {
        case Wait(w) => WaitCounters(Live(start, init), w);
        case BeginFrame(discarded, returned) => BeginCounters(Live(start, init), discarded, returned);
        case EndFrame(_, _, _, _) => EndCounters(start, init, c);
      }
    }
  }

  lemma WaitCounters(l: Life, w: WaitCall)
    requires Sized(l)
    ensures Step(l, Wait(w)).counts ==
      l.counts.(waits := l.counts.waits + 1, clockedWaits := l.counts.clockedWaits + One(w.predictedHost.Some?))
  {
    hide WaitRecord;
  }

  /**
   * The k-th begin leaves the k-th wait's own record with its return time and
   * the Begun flag, and nothing else changed: no submission and no render yet.
   */
  lemma BeginReportsItsFrame(start: Life, calls: seq<Call>, discarded: bool, returned: nat)
    requires Start(start)
    ensures var l, k := Live(start, calls), |BeginLog(calls)| + 1;
      var c := BeginFrame(discarded, returned);
      && Reported(l, c) == (if k <= |WaitLog(calls)| < k + SLOTS then Some(k) else None)
      && (Reported(l, c).Some? ==>
        && Step(l, c).active == k
        && Step(l, c).frames[k % SLOTS].fields ==
           WaitRecord(l.epoch, WaitLog(calls)[k - 1])[BEGIN_RETURN := Number(returned)]
             [FLAGS := Flags(FlagsOf(WaitRecord(l.epoch, WaitLog(calls)[k - 1])) + {Begun})])
  {
    hide Live, WaitLog, BeginLog, ActiveOf, Updated, Phases, Window, WaitRecord, HasFrame;
    LifeHasPhases(start, calls);
    var l, k := Live(start, calls), |BeginLog(calls)| + 1;
    var c := BeginFrame(discarded, returned);
    PhasesCount(l, WaitLog(calls), BeginLog(calls));
    FoundInWindow(l, k);
    StepActivates(l, c);
    StepKeepsPhases(l, c, WaitLog(calls), BeginLog(calls));
    assert WaitLog(calls) + [] == WaitLog(calls);
    if Reported(l, c).Some? {
      DiscardStays(l);
      BegunNow(Step(l, c), WaitLog(calls), BeginLog(calls) + [returned]);
      UpdatesMoveNoFrame(l, c);
    }
  }

  lemma BegunNow(l: Life, waits: seq<WaitCall>, begins: seq<nat>)
    requires Sized(l) && Phases(l, waits, begins) && l.active != 0 && HasFrame(l, l.active)
    ensures l.active <= |waits| && l.active <= |begins|
    ensures l.frames[l.active % SLOTS].fields == BegunRecord(l.epoch, waits[l.active - 1], begins[l.active - 1])
  {
    assert SlotPhase(l.frames[l.active % SLOTS], l.epoch, waits, begins, l.active);
  }

  /** All sixteen fields of the record a wait leaves: what it was told, and nothing of a begin, an end or a render. */
  ghost predicate WaitedRecord(r: Fields, epoch: nat, w: WaitCall) {
    && |r| == FIELDS
    && r[EPOCH] == Number(epoch)
    && r[PREDICTED_TIME] == Number(w.predictedTime) && r[PREDICTED_PERIOD] == Number(w.period)
    && r[WAIT_RETURN] == Number(w.returned)
    && r[PREDICTED_HOST] == Number(if w.predictedHost.Some? then w.predictedHost.value else 0)
    && r[WAIT_TO_DISPLAY] ==
       Number(if w.predictedHost.Some? then SignedDelta(w.predictedHost.value, w.returned) else 0)
    && r[WATERMARK] == Number(w.watermark) && r[WATERMARK_EPOCH] == Number(w.watermarkEpoch)
    && r[SUBMITTED_TIME] == Number(0) && r[BEGIN_RETURN] == Number(0) && r[END_RETURN] == Number(0)
    && r[SUBMITTED_HOST] == Number(0) && r[END_TO_DISPLAY] == Number(0)
    && r[RENDER_EPOCH] == Number(0) && r[RENDER_SEQUENCE] == Number(0)
    && r[FLAGS].Flags? && forall flag: Flag :: flag in r[FLAGS].flags <==>
      (flag == ShouldRender && w.shouldRender) || (flag == PredictedClockValid && w.predictedHost.Some?)
  }

  lemma WaitIsRecorded(epoch: nat, w: WaitCall)
    ensures WaitedRecord(WaitRecord(epoch, w), epoch, w)
  {
    hide SignedDelta;
  }

  /** Between calls no record is marked as being updated: every revision is even. */
  ghost predicate AtRest(l: Life)
    requires Sized(l)
  {
    forall k | 0 <= k < SLOTS :: l.frames[k].revision % 2 == 0
  }

  lemma StepRests(l: Life, c: Call)
    requires Sized(l) && AtRest(l)
    ensures AtRest(Step(l, c))
  {
    hide Updated, WaitRecord, Correlates, HasFrame;
  }

  /** So a token read between calls is never withheld for a half-done update. */
  lemma {:induction false} LifeIsAtRest(start: Life, calls: seq<Call>)
    requires Start(start)
    ensures AtRest(Live(start, calls))
  {
    hide Step;
    if calls != [] {
      LifeIsAtRest(start, calls[..|calls| - 1]);
      StepRests(Live(start, calls[..|calls| - 1]), calls[|calls| - 1]);
    }
  }
}
