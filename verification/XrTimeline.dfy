/**
 * The OpenXR timeline object in sequential runs: sixteen session slots found by
 * probing, per-session counters, and the totals they are flushed into when a
 * session is destroyed.
 */
module XrTimeline {
  import opened Options
  import opened XrFrames
  import opened XrLife
  import opened XrRecords

  const SESSIONS: nat := 16

  /** One session slot: the key owns it, ready publishes it. */
  datatype Session = Session(key: nat, ready: bool, life: Life)

  function Plus(a: Counts, b: Counts): Counts {
    Counts(a.waits + b.waits, a.begins + b.begins, a.ends + b.ends, a.discarded + b.discarded,
      a.correlated + b.correlated, a.clockedWaits + b.clockedWaits, a.clockedEnds + b.clockedEnds)
  }

  /** Ends and discards never outnumber the begins, nor those the waits, nor correlations the ends. */
  predicate Ordered(c: Counts) {
    c.ends + c.discarded <= c.begins <= c.waits && c.correlated <= c.ends
  }

  const NEVER_USED := Session(0, false, Life(1, 0, 0, 0, 0, NO_COUNTS, seq(SLOTS, _ => NO_FRAME)))

  predicate Unused(s: Session) {
    s.key == 0 && !s.ready && XrLife.Sized(s.life)
  }

  lemma NeverUsedIsUnused()
    ensures Unused(NEVER_USED)
  {
    assert |NO_FRAME.fields| == FIELDS;
  }

  function Contribution(s: Session): Counts {
    if s.key != 0 && s.ready then s.life.counts else NO_COUNTS
  }

  /** The counters of the first n sessions together, as far as they are readable. */
  function LiveTotal(sessions: seq<Session>, n: nat): Counts
    requires n <= |sessions|
  {
    if n == 0 then NO_COUNTS else Plus(LiveTotal(sessions, n - 1), Contribution(sessions[n - 1]))
  }

  /** What stats() reports. */
  function Total(retired: Counts, sessions: seq<Session>): Counts {
    Plus(retired, LiveTotal(sessions, |sessions|))
  }

  /** Replacing one session moves the total by the difference of its contributions. */
  lemma {:induction false} TotalMoves(sessions: seq<Session>, k: nat, s: Session, n: nat)
    requires k < |sessions| && n <= |sessions|
    ensures var moved := LiveTotal(sessions[k := s], n);
      if k < n then Plus(moved, Contribution(sessions[k])) == Plus(LiveTotal(sessions, n), Contribution(s))
      else moved == LiveTotal(sessions, n)
  {
    if n > 0 {
      TotalMoves(sessions, k, s, n - 1);
      if k < n - 1 {
        PlusSwaps(LiveTotal(sessions[k := s], n - 1), Contribution(sessions[n - 1]), Contribution(sessions[k]));
        PlusSwaps(LiveTotal(sessions, n - 1), Contribution(s), Contribution(sessions[n - 1]));
      } else if k == n - 1 {
        PlusSwaps(LiveTotal(sessions, n - 1), Contribution(s), Contribution(sessions[k]));
      }
    }
  }

  lemma PlusSwaps(a: Counts, b: Counts, c: Counts)
    ensures Plus(Plus(a, b), c) == Plus(Plus(a, c), b)
  {
  }

  /** Keys own slots: no key twice, and a slot is readable exactly while it is owned. */
  ghost predicate TableOk(sessions: seq<Session>) {
    && |sessions| == SESSIONS
    && (forall k | 0 <= k < SESSIONS :: XrLife.Sized(sessions[k].life) && (sessions[k].ready <==> sessions[k].key != 0))
    && (forall j, k | 0 <= j < k < SESSIONS && sessions[j].key == sessions[k].key :: sessions[j].key == 0)
  }

  predicate Registered(sessions: seq<Session>, session: nat) {
    session != 0 && exists k | 0 <= k < |sessions| :: sessions[k].key == session
  }

  predicate HasRoom(sessions: seq<Session>) {
    exists k | 0 <= k < |sessions| :: sessions[k].key == 0
  }

  /** The probe-th slot tried for a session. */
  function Probe(session: nat, probe: nat): (k: nat)
    ensures k < SESSIONS
  {
    (session / 16 % SESSIONS + probe) % SESSIONS
  }

  /** Sixteen probes visit every slot. */
  lemma ProbesCover(session: nat, k: nat)
    requires k < SESSIONS
    ensures exists p: nat :: p < SESSIONS && Probe(session, p) == k
  {
    var start := session / 16 % SESSIONS;
    var p := if k >= start then k - start else k + SESSIONS - start;
    assert Probe(session, p) == k;
  }

  /** A claimed slot: one more epoch, everything else cleared. */
  function Claimed(s: Session, session: nat): Session
    requires XrLife.Sized(s.life)
  {
    Session(session, true, Cleared(s.life.epoch + 1, s.life.frames))
  }

  function Destroyed(s: Session): Session {
    Session(0, false, s.life.(epoch := s.life.epoch + 1, active := 0, latest := 0))
  }

  datatype Token = Token(session: nat, sequence: nat, fields: Fields)

  ghost function NoCalls(): (c: seq<seq<Call>>)
    ensures |c| == SESSIONS
  {
    seq(SESSIONS, _ => [])
  }

  ghost function NoStarts(): (s: seq<Life>)
    ensures |s| == SESSIONS
  {
    seq(SESSIONS, _ => NEVER_USED.life)
  }

  method AllocateSessions() returns (sessions: array<Session>)
    ensures fresh(sessions) && sessions.Length == SESSIONS && forall k | 0 <= k < SESSIONS :: Unused(sessions[k])
  {
    NeverUsedIsUnused();
    sessions := new Session[SESSIONS](_ => NEVER_USED);
  }

  class XrFlexTimeline {
    const sessions: array<Session>
    var retired: Counts
    var dropped: nat
    /** What the session in each slot has called since it claimed the slot, and how it started. */
    ghost var calls: seq<seq<Call>>
    ghost var starts: seq<Life>

    ghost predicate Valid()
      reads this, sessions
    {
      && TableOk(sessions[..]) && |calls| == SESSIONS && |starts| == SESSIONS && Ordered(retired)
      && forall k | 0 <= k < SESSIONS && sessions[k].key != 0 :: LivesItsCalls(sessions[k].life, starts[k], calls[k])
    }

    constructor ()
      ensures Valid() && fresh(sessions) && retired == NO_COUNTS && dropped == 0
      ensures forall k | 0 <= k < SESSIONS :: sessions[k].key == 0
    {
      var table := AllocateSessions();
      sessions := table;
      retired, dropped := NO_COUNTS, 0;
      calls, starts := NoCalls(), NoStarts();
    }

    method Find(session: nat) returns (slot: Option<nat>)
      requires Valid()
      ensures slot.Some? <==> Registered(sessions[..], session)
      ensures slot.Some? ==> slot.value < SESSIONS && sessions[slot.value].key == session
    {
      if session == 0 {
        return None;
      }
      for probe := 0 to SESSIONS
        invariant forall p: nat | p < probe :: sessions[Probe(session, p)].key != session
      {
        var k := Probe(session, probe);
        if sessions[k].key == session {
          assert sessions[..][k].key == session;
          return Some(k);
        }
      }
      forall k | 0 <= k < SESSIONS ensures sessions[k].key != session {
        ProbesCover(session, k);
      }
      return None;
    }

    /**
     * The session's slot, claiming the first free one in probe order if it has
     * none. It fails exactly for the null session, or when all slots are taken.
     */
    method FindOrClaim(session: nat) returns (slot: Option<nat>)
      requires Valid()
      modifies sessions, this`calls, this`starts
      ensures Valid()
      ensures slot.Some? <==> session != 0 && (Registered(old(sessions[..]), session) || HasRoom(old(sessions[..])))
      ensures slot.Some? ==> slot.value < SESSIONS && sessions[slot.value].key == session
      ensures slot.None? || Registered(old(sessions[..]), session) ==>
        sessions[..] == old(sessions[..]) && calls == old(calls) && starts == old(starts)
      ensures slot.Some? && !Registered(old(sessions[..]), session) ==>
        && old(sessions[..])[slot.value].key == 0
        && sessions[..] == old(sessions[..])[slot.value := Claimed(old(sessions[..])[slot.value], session)]
        && calls == old(calls)[slot.value := []]
        && sessions[slot.value].life.epoch > old(sessions[..])[slot.value].life.epoch
        && exists probe: nat :: probe < SESSIONS && Probe(session, probe) == slot.value
             && forall p: nat | p < probe :: old(sessions[..])[Probe(session, p)].key != 0
    {
      if session == 0 {
        return None;
      }
      slot := Find(session);
      if slot.Some? {
        return;
      }
      ghost var was := sessions[..];
      for probe := 0 to SESSIONS
        invariant sessions[..] == was && calls == old(calls) && starts == old(starts)
        invariant forall p: nat | p < probe :: was[Probe(session, p)].key != 0
      {
        var k := Probe(session, probe);
        if sessions[k].key == 0 {
          assert was[k].key == 0;
          sessions[k] := Claimed(sessions[k], session);
          calls, starts := calls[k := []], starts[k := sessions[k].life];
          return Some(k);
        }
      }
      forall k | 0 <= k < SESSIONS ensures was[k].key != 0 {
        ProbesCover(session, k);
      }
      return None;
    }

    /** The stores of a successful wait. */
    method PerformWait(k: nat, w: WaitCall)
      requires Valid() && k < SESSIONS && sessions[k].key != 0
      modifies sessions, this`calls
      ensures Performed(old(sessions[..]), old(calls), k, Wait(w))
    {
      hide LivesItsCalls, TableOk, WaitFrame;
      SlotIsSized(sessions[..], k);
      var life := WaitStores(sessions[k].life, w);
      Finish(k, Wait(w), life);
    }

    static method WaitStores(before: Life, w: WaitCall) returns (life: Life)
      requires XrLife.Sized(before)
      ensures life == WaitFrame(before, w)
    {
      hide WaitRecord;
      var sequence := before.next + 1;
      life := before.(next := sequence);
      var fields := StoreWait(life.frames[sequence % SLOTS].fields, life.epoch, w);
      life := life.(frames := life.frames[sequence % SLOTS := FrameSlot(sequence, 0, fields)]);
      if w.predictedHost.Some? {
        life := life.(counts := life.counts.(clockedWaits := life.counts.clockedWaits + 1));
      }
      life := life.(latest := sequence, counts := life.counts.(waits := life.counts.waits + 1));
    }

    /** The stores of a begin, after those of a discard if the runtime reported one. */
    method PerformBegin(k: nat, discarded: bool, returned: nat) returns (sequence: Option<nat>)
      requires Valid() && k < SESSIONS && sessions[k].key != 0
      modifies sessions, this`calls
      ensures Performed(old(sessions[..]), old(calls), k, BeginFrame(discarded, returned))
      ensures sequence == Reported(old(sessions[..])[k].life, BeginFrame(discarded, returned))
    {
      hide LivesItsCalls, TableOk, DiscardActive, BeginNext;
      SlotIsSized(sessions[..], k);
      var life := sessions[k].life;
      if discarded {
        life := DiscardStores(life);
      }
      life, sequence := BeginStores(life, returned);
      DiscardMovesNoFrame(sessions[k].life);
      Finish(k, BeginFrame(discarded, returned), life);
    }

    static method BeginStores(before: Life, returned: nat) returns (life: Life, sequence: Option<nat>)
      requires XrLife.Sized(before)
      ensures life == BeginNext(before, returned)
      ensures sequence == if HasFrame(before, before.nextBegin + 1) then Some(before.nextBegin + 1) else None
    {
      hide Updated;
      var next := before.nextBegin + 1;
      life := before.(nextBegin := next);
      sequence := None;
      if life.frames[next % SLOTS].sequence == next {
        var slot := life.frames[next % SLOTS];
        var fields := StoreBegin(slot.fields, returned);
        life := life.(frames := life.frames[next % SLOTS := slot.(revision := slot.revision + 2, fields := fields)]);
        life := life.(active := next, counts := life.counts.(begins := life.counts.begins + 1));
        sequence := Some(next);
      }
    }

    static method DiscardStores(before: Life) returns (life: Life)
      requires XrLife.Sized(before)
      ensures life == DiscardActive(before)
    {
      hide Updated;
      var previous := before.active;
      life := before.(active := 0);
      if previous != 0 && life.frames[previous % SLOTS].sequence == previous {
        var slot := life.frames[previous % SLOTS];
        var fields := StoreDiscard(slot.fields);
        life := life.(frames := life.frames[previous % SLOTS := slot.(revision := slot.revision + 2, fields := fields)]);
        life := life.(counts := life.counts.(discarded := life.counts.discarded + 1));
      }
    }

    /** The stores of an end, on the active frame if its record is still there. */
    method PerformEnd(k: nat, time: int, returned: nat, render: Option<RenderToken>, host: Option<nat>)
        returns (sequence: Option<nat>)
      requires Valid() && k < SESSIONS && sessions[k].key != 0
      modifies sessions, this`calls
      ensures Performed(old(sessions[..]), old(calls), k, EndFrame(time, returned, render, host))
      ensures sequence == Reported(old(sessions[..])[k].life, EndFrame(time, returned, render, host))
    {
      hide LivesItsCalls, TableOk, EndActive;
      SlotIsSized(sessions[..], k);
      var life;
      life, sequence := EndStores(sessions[k].life, time, returned, render, host);
      Finish(k, EndFrame(time, returned, render, host), life);
    }

    static method EndStores(before: Life, time: int, returned: nat, render: Option<RenderToken>, host: Option<nat>)
        returns (life: Life, sequence: Option<nat>)
      requires XrLife.Sized(before)
      ensures life == EndActive(before, time, returned, render, host)
      ensures sequence == if HasFrame(before, before.active) then Some(before.active) else None
    {
      hide Updated, Correlates;
      var ended := before.active;
      life := before.(active := 0);
      sequence := None;
      if ended != 0 && life.frames[ended % SLOTS].sequence == ended {
        var slot := life.frames[ended % SLOTS];
        var fields, correlated := StoreEnd(slot.fields, time, returned, render, host);
        life := life.(frames := life.frames[ended % SLOTS := slot.(revision := slot.revision + 2, fields := fields)]);
        if host.Some? {
          life := life.(counts := life.counts.(clockedEnds := life.counts.clockedEnds + 1));
        }
        if correlated {
          life := life.(counts := life.counts.(correlated := life.counts.correlated + 1));
        }
        life := life.(counts := life.counts.(ends := life.counts.ends + 1));
        sequence := Some(ended);
      }
    }

    /** A slot moves by exactly one call, and every other slot stays. */
    ghost predicate Performed(was: seq<Session>, wasCalls: seq<seq<Call>>, k: nat, c: Call)
      requires TableOk(was) && |wasCalls| == SESSIONS && k < SESSIONS
      reads this, sessions
    {
      && Valid() && calls == wasCalls[k := wasCalls[k] + [c]]
      && sessions[..] == was[k := was[k].(life := Step(was[k].life, c))]
    }

    method Finish(k: nat, c: Call, life: Life)
      requires Valid() && k < SESSIONS && sessions[k].key != 0 && life == Step(sessions[k].life, c)
      modifies sessions, this`calls
      ensures Performed(old(sessions[..]), old(calls), k, c)
    {
      OneMoreCall(starts[k], calls[k], c);
      sessions[k] := sessions[k].(life := life);
      calls := calls[k := calls[k] + [c]];
    }

    method OnWait(session: nat, w: WaitCall) returns (token: Option<Token>, ghost at: Option<nat>)
      requires Valid()
      modifies this, sessions
      ensures Valid() && retired == old(retired)
      ensures token.Some? <==> session != 0 && (Registered(old(sessions[..]), session) || HasRoom(old(sessions[..])))
      ensures token.None? ==> sessions[..] == old(sessions[..]) && dropped == old(dropped) + 1
      ensures token.Some? ==>
        && dropped == old(dropped) && at.Some? && at.value < SESSIONS && sessions[at.value].key == session
        && old(sessions[..])[at.value].key == (if Registered(old(sessions[..]), session) then session else 0)
        && Waited(old(sessions[..]), sessions[..], at.value, session, w)
        && (if Registered(old(sessions[..]), session)
            then sessions[at.value].life.epoch == old(sessions[..])[at.value].life.epoch
            else sessions[at.value].life.epoch > old(sessions[..])[at.value].life.epoch)
        && calls == old(calls)[at.value :=
             (if Registered(old(sessions[..]), session) then old(calls)[at.value] else []) + [Wait(w)]]
        && token.value.session == session && token.value.sequence == sessions[at.value].life.next
        && WaitedRecord(token.value.fields, sessions[at.value].life.epoch, w)
    {
      hide WaitedRecord;
      at := None;
      var slot := FindOrClaim(session);
      if slot.None? {
        dropped := dropped + 1;
        return None, None;
      }
      var k := slot.value;
      at := slot;
      PerformWait(k, w);
      WaitIsRecorded(sessions[k].life.epoch, w);
      var life := sessions[k].life;
      token := Some(Token(session, life.next, life.frames[life.next % SLOTS].fields));
    }

    method OnBegin(session: nat, discardedPrevious: bool, returned: nat)
      returns (token: Option<Token>, ghost at: Option<nat>)
      requires Valid()
      modifies this, sessions
      ensures Valid() && retired == old(retired)
      ensures at.Some? <==> Registered(old(sessions[..]), session)
      ensures at.None? ==> sessions[..] == old(sessions[..]) && dropped == old(dropped) + 1 && token.None?
      ensures at.Some? ==>
        && at.value < SESSIONS && old(sessions[..])[at.value].key == session
        && Reports(old(sessions[..]), sessions[..], at.value, BeginFrame(discardedPrevious, returned), token)
        && calls == old(calls)[at.value := old(calls)[at.value] + [BeginFrame(discardedPrevious, returned)]]
        && dropped == old(dropped) + if token.None? then 1 else 0
    {
      var slot := Find(session);
      at := slot;
      if slot.None? {
        dropped := dropped + 1;
        return None, None;
      }
      var k := slot.value;
      var reported := PerformBegin(k, discardedPrevious, returned);
      if reported.None? {
        dropped := dropped + 1;
        return None, at;
      }
      token := Some(Token(session, reported.value, sessions[k].life.frames[reported.value % SLOTS].fields));
    }

    method OnEnd(session: nat, time: int, returned: nat, render: Option<RenderToken>, host: Option<nat>)
      returns (token: Option<Token>, ghost at: Option<nat>)
      requires Valid()
      modifies this, sessions
      ensures Valid() && retired == old(retired)
      ensures at.Some? <==> Registered(old(sessions[..]), session)
      ensures at.None? ==> sessions[..] == old(sessions[..]) && dropped == old(dropped) + 1 && token.None?
      ensures at.Some? ==>
        && at.value < SESSIONS && old(sessions[..])[at.value].key == session
        && Reports(old(sessions[..]), sessions[..], at.value, EndFrame(time, returned, render, host), token)
        && calls == old(calls)[at.value := old(calls)[at.value] + [EndFrame(time, returned, render, host)]]
        && dropped == old(dropped) + (if token.None? then 1 else 0)
        && EndTells(token, sessions[at.value].life.epoch, old(calls)[at.value], EndFrame(time, returned, render, host))
    {
      hide EndTells, LivesItsCalls;
      var slot := Find(session);
      at := slot;
      if slot.None? {
        dropped := dropped + 1;
        return None, None;
      }
      var k := slot.value;
      EndTellsItsFrame(sessions[k], starts[k], calls[k], EndFrame(time, returned, render, host));
      var reported := PerformEnd(k, time, returned, render, host);
      if reported.None? {
        dropped := dropped + 1;
        return None, at;
      }
      token := Some(Token(session, reported.value, sessions[k].life.frames[reported.value % SLOTS].fields));
    }

    /** Destroying a session frees its slot and leaves every total as it was. */
    method OnDestroySession(session: nat)
      requires Valid()
      modifies this, sessions
      ensures Valid() && dropped == old(dropped)
      ensures Total(retired, sessions[..]) == old(Total(retired, sessions[..]))
      ensures !Registered(sessions[..], session)
      ensures forall k | 0 <= k < SESSIONS && old(sessions[..])[k].key != session :: sessions[k] == old(sessions[..])[k]
      ensures forall k | 0 <= k < SESSIONS && old(sessions[..])[k].key == session != 0 ::
        sessions[k].key == 0 && sessions[k].life.epoch > old(sessions[..])[k].life.epoch
    {
      var slot := Find(session);
      if slot.None? {
        return;
      }
      hide LivesItsCalls, Total, TableOk;
      var k := slot.value;
      DestroyKeepsTheTotals(sessions[..], k, retired);
      LivesAreOrdered(sessions[k].life, starts[k], calls[k]);
      retired := Plus(retired, sessions[k].life.counts);
      sessions[k] := Destroyed(sessions[k]);
      assert sessions[..] == old(sessions[..])[k := Destroyed(old(sessions[..])[k])];
    }

    method Stats() returns (total: Counts, drops: nat)
      requires Valid()
      ensures total == Total(retired, sessions[..]) && drops == dropped
      ensures Ordered(total)
    {
      hide LivesItsCalls;
      total, drops := retired, dropped;
      for k := 0 to SESSIONS
        invariant total == Plus(retired, LiveTotal(sessions[..], k)) && Ordered(total)
      {
        if sessions[k].key != 0 && sessions[k].ready {
          LivesAreOrdered(sessions[k].life, starts[k], calls[k]);
          total := Plus(total, sessions[k].life.counts);
        }
      }
    }

    method Latest(session: nat) returns (token: Option<Token>)
      requires Valid()
      ensures token.Some? ==>
        exists k | 0 <= k < SESSIONS :: sessions[k].key == session
          && token.value == Token(session, sessions[k].life.next,
               sessions[k].life.frames[sessions[k].life.next % SLOTS].fields)
      ensures token.Some? <==>
        exists k | 0 <= k < SESSIONS :: sessions[k].key == session != 0 && sessions[k].life.next != 0
    {
      var slot := Find(session);
      if slot.None? {
        return None;
      }
      var life := sessions[slot.value].life;
      LifeIsCounted(starts[slot.value], calls[slot.value]);
      if !HasFrame(life, life.latest) {
        return None;
      }
      return Some(Token(session, life.latest, life.frames[life.latest % SLOTS].fields));
    }
  }

  /**
   * The token of an end, from the session's own calls: it is missing exactly if
   * no frame is active or the active one's wait is not among the last 16, and
   * otherwise says in every field what that frame's wait, begin and end were
   * told, and names the render its wait's watermark calls for.
   */
  ghost predicate EndTells(token: Option<Token>, epoch: nat, calls: seq<Call>, c: Call)
    requires c.EndFrame?
  {
    var k, waits, begins := ActiveOf(calls), WaitLog(calls), BeginLog(calls);
    && (token.Some? <==> k != 0 && |waits| < k + SLOTS)
    && (token.Some? ==>
      && token.value.sequence == k <= |waits| && k <= |begins|
      && EndedRecord(token.value.fields, epoch, waits[k - 1], begins[k - 1], c)
      && NamesRender(token.value.fields, waits[k - 1], c.render))
  }

  lemma EndTellsItsFrame(s: Session, start: Life, calls: seq<Call>, c: Call)
    requires LivesItsCalls(s.life, start, calls) && XrLife.Sized(s.life) && c.EndFrame?
    ensures var life, reported := Step(s.life, c), Reported(s.life, c);
      && life.epoch == s.life.epoch
      && EndTells(
           if reported.Some? then Some(Token(s.key, reported.value, life.frames[reported.value % SLOTS].fields)) else None,
           life.epoch, calls, c)
  {
    hide Live, WaitLog, BeginLog, ActiveOf, EndedRecord, NamesRender, Updated, Correlates;
    EndReportsItsFrame(start, calls, c);
    if Reported(s.life, c).Some? {
      EndCorrelatesWithItsWait(start, calls, c);
    }
  }

  lemma SlotIsSized(sessions: seq<Session>, k: nat)
    requires TableOk(sessions) && k < SESSIONS
    ensures |sessions| == SESSIONS && XrLife.Sized(sessions[k].life)
  {
  }

  /** A discard neither advances the begins nor moves a record to another slot. */
  lemma DiscardMovesNoFrame(l: Life)
    requires XrLife.Sized(l)
    ensures DiscardActive(l).nextBegin == l.nextBegin
    ensures HasFrame(DiscardActive(l), l.nextBegin + 1) == HasFrame(l, l.nextBegin + 1)
  {
    hide Updated;
  }

  /** The life a slot holds is what its session's calls made of the cleared slot. */
  ghost predicate LivesItsCalls(life: Life, start: Life, calls: seq<Call>) {
    Start(start) && life == Live(start, calls)
  }

  lemma LivesAreOrdered(life: Life, start: Life, calls: seq<Call>)
    requires LivesItsCalls(life, start, calls)
    ensures Ordered(life.counts)
  {
    EveryBeginIsAccountedFor(start, calls);
  }

  /** A wait moves its own session by one call, claiming a free slot for it first, and leaves the others alone. */
  ghost predicate Waited(was: seq<Session>, now: seq<Session>, k: nat, session: nat, w: WaitCall)
    requires TableOk(was) && k < SESSIONS
  {
    var ready := if was[k].key == session then was[k] else Claimed(was[k], session);
    now == was[k := ready.(life := Step(ready.life, Wait(w)))]
  }

  /** A token reports the record the call worked on, and is missing if there was none. */
  ghost predicate Reports(was: seq<Session>, now: seq<Session>, k: nat, c: Call, token: Option<Token>)
    requires TableOk(was) && k < SESSIONS
  {
    var reported := Reported(was[k].life, c);
    && now == was[k := was[k].(life := Step(was[k].life, c))]
    && (token.Some? <==> reported.Some?)
    && (token.Some? ==>
        token.value == Token(was[k].key, reported.value, now[k].life.frames[reported.value % SLOTS].fields))
  }

  lemma OneMoreCall(start: Life, calls: seq<Call>, c: Call)
    requires XrLife.Sized(start)
    ensures Live(start, calls + [c]) == Step(Live(start, calls), c)
  {
    assert (calls + [c])[..|calls|] == calls;
  }

  /** A frame call moves the totals by what it did to its own session's counters, and by nothing else. */
  lemma CallMovesTheTotals(sessions: seq<Session>, k: nat, c: Call, retired: Counts)
    requires TableOk(sessions) && k < SESSIONS && sessions[k].key != 0
    ensures var life, life' := sessions[k].life, Step(sessions[k].life, c);
      Plus(Total(retired, sessions[k := sessions[k].(life := life')]), life.counts)
        == Plus(Total(retired, sessions), life'.counts)
  {
    TotalMoves(sessions, k, sessions[k].(life := Step(sessions[k].life, c)), SESSIONS);
  }

  /** Flushing a session's counters and freeing its slot leaves the totals as they were. */
  lemma DestroyKeepsTheTotals(sessions: seq<Session>, k: nat, retired: Counts)
    requires TableOk(sessions) && k < SESSIONS && sessions[k].key != 0
    ensures |sessions| == SESSIONS && TableOk(sessions[k := Destroyed(sessions[k])])
    ensures Total(Plus(retired, sessions[k].life.counts), sessions[k := Destroyed(sessions[k])]) == Total(retired, sessions)
    ensures !Registered(sessions[k := Destroyed(sessions[k])], sessions[k].key)
  {
    TotalMoves(sessions, k, Destroyed(sessions[k]), SESSIONS);
  }

  /** Claiming a free slot leaves the totals as they were. */
  lemma ClaimKeepsTheTotals(sessions: seq<Session>, k: nat, session: nat, retired: Counts)
    requires TableOk(sessions) && k < SESSIONS && sessions[k].key == 0 && session != 0
    ensures Total(retired, sessions[k := Claimed(sessions[k], session)]) == Total(retired, sessions)
  {
    TotalMoves(sessions, k, Claimed(sessions[k], session), SESSIONS);
  }
}
