/**
 * Who is answered and with what: over whole histories, exactly which marker,
 * presentation and pacing calls hand out a token, and which token that is. The
 * answers are read off the calls themselves: the owners of the freeze, the
 * attachments and acceptances made so far, and the transports set.
 */
module HybridTokens {
  import opened Frontends
  import opened HybridRuns
  import opened HybridTimeline
  import opened Options

  // --------------------------------------------------------- what a history says

  /** The owners frozen by the first freeze since the last reset. */
  function FrozenBy(ops: seq<Op>): Option<map<Aspect, Frontend>> {
    if ops == [] then None else
    var before := FrozenBy(ops[..|ops| - 1]);
    match ops[|ops| - 1]
    case Reset => None
    case FreezeOwners(owners) => if before.Some? then before else Some(owners)
    case _ => before
  }

  predicate Owns(owners: Option<map<Aspect, Frontend>>, a: Aspect, f: Frontend) {
    f != Auto && owners.Some? && a in owners.value && owners.value[a] == f
  }

  predicate SomebodyPaces(owners: Option<map<Aspect, Frontend>>) {
    owners.Some? && Pacing in owners.value && owners.value[Pacing] != Auto
  }

  /** The newest token of an epoch that a frontend's native ID was attached to. */
  function LastFor(log: seq<Stamp>, epoch: nat, source: nat, native: nat): Option<nat> {
    if log == [] then None else
    var s := log[|log| - 1];
    if s.epoch == epoch && s.source == source && s.native == native then Some(s.sequence)
    else LastFor(log[..|log| - 1], epoch, source, native)
  }

  /** The token a frontend's native ID stands for after a history. */
  function TokenOf(ops: seq<Op>, f: Frontend, id: nat): Option<nat> {
    if f == Auto then None else LastFor(AttachedLog(ops), Play(ops).epoch, IndexOf(f).value, id)
  }

  /** The transport set last since the last reset. */
  function TransportIn(ops: seq<Op>): nat {
    if ops == [] then 0 else
    match ops[|ops| - 1]
    case Reset => 0
    case SetTransport(transport) => transport
    case _ => TransportIn(ops[..|ops| - 1])
  }

  /** The transport in force when a token was created. */
  function TransportOf(ops: seq<Op>, epoch: nat, sequence: nat): nat {
    if ops == [] then 0 else
    var n := |ops| - 1;
    var o := OutcomeAt(ops, n);
    if o.created && o.attached == Some(sequence) && Play(ops[..n]).epoch == epoch then TransportIn(ops[..n])
    else TransportOf(ops[..n], epoch, sequence)
  }

  /** The ID is bound, or its frontend paces and can create a token for it, or nothing stands against attaching it. */
  predicate HasToken(t: Timeline, f: Frontend, id: nat)
    requires Sized(t)
  {
    Lookup(t, f, id).Some? || (UsableId(f, id) && f == OwnerOf(t, Pacing)) || !RefusesToBind(t, f, id)
  }

  // ------------------------------------------------------------- a call's frame

  lemma CreatedIsFound(t: Timeline, f: Frontend, id: nat)
    requires Inv(t) && UsableId(f, id)
    ensures Lookup(Create(t, f, id), f, id) == Some((t.latest + 1) % FRAMES)
  {
    hide FrameOk, BindingOk, PresentationRing;
  }

  lemma AttachedIsFound(t: Timeline, f: Frontend, id: nat, k: nat)
    requires Inv(t) && UsableId(f, id) && k < FRAMES && t.frames[k].sequence != 0
    ensures Lookup(Attach(t, f, id, k), f, id) == Some(k)
  {
    hide BindingOk, PresentationRing;
    assert FrameOk(t, k);
  }

  /** Resolving answers exactly for bound IDs and those nothing stands against, and with the binding it leaves. */
  lemma ResolveIsExact(t: Timeline, f: Frontend, id: nat)
    requires Inv(t)
    ensures var (t1, k, bound) := Resolve(t, f, id);
      && Lookup(t1, f, id) == k && (k.Some? <==> Lookup(t, f, id).Some? || !RefusesToBind(t, f, id))
  {
    hide PresentationRing;
    BindTargetIsExact(t, f, id);
    ResolveStage(t, f, id);
    var (t1, k, bound) := Resolve(t, f, id);
    if bound {
      AttachedIsFound(t, f, id, k.value);
    }
  }

  lemma EstablishIsExact(t: Timeline, f: Frontend, id: nat)
    requires Inv(t) && OwnerOf(t, Pacing) == f
    ensures var (t1, k, created) := Establish(t, f, id);
      && Lookup(t1, f, id) == k && (k.Some? <==> UsableId(f, id))
      && RefusesToBind(t, f, id)
  {
    hide PresentationRing, FrameOk, BindingOk;
    EstablishStage(t, f, id);
    if UsableId(f, id) && Lookup(t, f, id).None? {
      CreatedIsFound(t, f, id);
    }
  }

  /** What a marker call of the owner does once its ID has been resolved to a slot of t1, or to none. */
  ghost predicate MarksIn(t1: Timeline, op: Op, o: Outcome, t': Timeline)
    requires Sized(t1) && op.Mark?
  {
    var k := Lookup(t1, op.f, op.id);
    if k.None? || op.m in t1.frames[k.value].markers then o.frame == None && t' == t1
    else o.frame == Some(TokenFrom(t1.frames[k.value], op.id)) && t' == AddMarker(t1, k.value, op.m)
  }

  lemma PacerMarks(t: Timeline, op: Op) returns (t1: Timeline)
    requires Inv(t) && op.Mark? && OwnerOf(t, Pacing) == op.f != Auto && OwnerOf(t, AspectForMarker(op.m)) == op.f
    ensures Sized(t1) && FirstStage(t, op, Step(t, op).1, t1) && MarksIn(t1, op, Step(t, op).1, Step(t, op).0)
    ensures Lookup(t1, op.f, op.id).Some? <==> HasToken(t, op.f, op.id)
  {
    hide PresentationRing, FrameOk, BindingOk, Lookup, AddMarker, BindTarget, PublishBinding, AspectForMarker, Create;
    var (u, k, created) := Establish(t, op.f, op.id);
    t1 := u;
    EstablishStage(t, op.f, op.id);
    EstablishIsExact(t, op.f, op.id);
    if k.None? {
      ResolveIsExact(t, op.f, op.id);
    }
  }

  lemma OthersMark(t: Timeline, op: Op) returns (t1: Timeline)
    requires Inv(t) && op.Mark? && OwnerOf(t, Pacing) != Auto && op.f != OwnerOf(t, Pacing)
    requires op.f != Auto && OwnerOf(t, AspectForMarker(op.m)) == op.f
    ensures Sized(t1) && FirstStage(t, op, Step(t, op).1, t1) && MarksIn(t1, op, Step(t, op).1, Step(t, op).0)
    ensures Lookup(t1, op.f, op.id).Some? <==> HasToken(t, op.f, op.id)
  {
    hide PresentationRing, FrameOk, BindingOk, AddMarker, BindTarget, PublishBinding, AspectForMarker, Attach;
    t1 := Resolve(t, op.f, op.id).0;
    ResolveStage(t, op.f, op.id);
    ResolveIsExact(t, op.f, op.id);
  }

  lemma NobodyElseMarks(t: Timeline, op: Op)
    requires Sized(t) && op.Mark?
    requires op.f == Auto || OwnerOf(t, Pacing) == Auto || OwnerOf(t, AspectForMarker(op.m)) != op.f
    ensures Step(t, op).1.frame.None?
  {
    hide Establish, Resolve, AddMarker, AspectForMarker;
  }

  /** A presentation of the frame-generation owner: published for the frame its ID resolves to, or for none. */
  ghost predicate PresentsIn(t1: Timeline, op: Op, o: Outcome, t': Timeline)
    requires Sized(t1) && op.Present?
  {
    var k := Lookup(t1, op.f, op.id);
    if k.None? then o.presentation == None && t' == t1
    else
      && t1.frames[k.value].sequence != 0
      && o.presentation == Some(NextPresentation(t1, k.value, op.f, op.id, op.interpolated))
      && t' == AddPresentation(t1, k.value, o.presentation.value)
  }

  lemma OwnerPresents(t: Timeline, op: Op) returns (t1: Timeline)
    requires Inv(t) && op.Present? && OwnerOf(t, FrameGeneration) == op.f != Auto
    ensures Sized(t1) && FirstStage(t, op, Step(t, op).1, t1) && PresentsIn(t1, op, Step(t, op).1, Step(t, op).0)
    ensures Lookup(t1, op.f, op.id).Some? <==> Lookup(t, op.f, op.id).Some? || !RefusesToBind(t, op.f, op.id)
  {
    hide PresentationRing, BindingOk, AddPresentation, NextPresentation, BindTarget, PublishBinding, Attach;
    var (u, k, bound) := Resolve(t, op.f, op.id);
    t1 := u;
    ResolveStage(t, op.f, op.id);
    ResolveIsExact(t, op.f, op.id);
    if k.Some? {
      var attached := if bound then Some(t1.frames[k.value].sequence) else None;
      FirstStageKeepsInv(t, op, Outcome(None, None, attached, false), t1);
      LiveFrame(t1, k.value);
    }
  }

  lemma NobodyElsePresents(t: Timeline, op: Op)
    requires Sized(t) && op.Present? && (op.f == Auto || OwnerOf(t, FrameGeneration) != op.f)
    ensures Step(t, op).1.presentation.None?
  {
    hide Resolve, AddPresentation, NextPresentation;
  }

  lemma PacerPaces(t: Timeline, op: Op)
    requires Inv(t) && op.Pace? && OwnerOf(t, Pacing) == op.f != Auto
    ensures var (t1, o) := Step(t, op);
      var k := Lookup(t1, op.f, op.id);
      && FirstStage(t, op, o, t1) && (k.Some? <==> UsableId(op.f, op.id))
      && o.frame == (if k.Some? then Some(TokenFrom(t1.frames[k.value], op.id)) else None)
  {
    hide PresentationRing, FrameOk, BindingOk, Lookup, BindTarget, PublishBinding, Create;
    EstablishStage(t, op.f, op.id);
    EstablishIsExact(t, op.f, op.id);
  }

  lemma NobodyElsePaces(t: Timeline, op: Op)
    requires Sized(t) && op.Pace? && (op.f == Auto || OwnerOf(t, Pacing) != op.f)
    ensures Step(t, op).1.frame.None?
  {
    hide Establish;
  }

  // ------------------------------------------------------- the books of a history

  function StampsOf(t: Timeline, op: Op, o: Outcome): seq<Stamp> {
    if IsCall(op) && o.attached.Some? && IndexOf(op.f).Some? then
      [Stamp(t.epoch, IndexOf(op.f).value, op.id, o.attached.value)]
    else []
  }

  /** Every binding is the newest attachment of its native ID. */
  ghost predicate BindingLogged(t: Timeline, log: seq<Stamp>, i: nat, j: nat)
    requires Sized(t) && i < FRONTENDS && j < FRAMES
  {
    var b := t.bindings[i][j];
    b.native != 0 ==> LastFor(log, t.epoch, i, b.native) == Some(b.sequence)
  }

  ghost predicate BindingsLogged(t: Timeline, log: seq<Stamp>)
    requires Sized(t)
  {
    forall i, j | 0 <= i < FRONTENDS && 0 <= j < FRAMES :: BindingLogged(t, log, i, j)
  }

  lemma LastForAppend(log: seq<Stamp>, s: Stamp, epoch: nat, source: nat, native: nat)
    ensures LastFor(log + [s], epoch, source, native) ==
      if s.epoch == epoch && s.source == source && s.native == native then Some(s.sequence)
      else LastFor(log, epoch, source, native)
  {
    assert (log + [s])[..|log|] == log;
  }

  /** Attaching a native ID leaves every other binding, and books its own. */
  lemma AttachedBindingLogged(t: Timeline, f: Frontend, id: nat, k: nat, log: seq<Stamp>, i: nat, j: nat)
    requires Inv(t) && UsableId(f, id) && k < FRAMES && t.frames[k].sequence != 0 && BindingsLogged(t, log)
    requires i < FRONTENDS && j < FRAMES
    ensures BindingLogged(Attach(t, f, id, k),
      log + [Stamp(t.epoch, IndexOf(f).value, id, t.frames[k].sequence)], i, j)
  {
    hide PresentationRing;
    assert FrameOk(t, k) && BindingOk(t, i, j) && BindingLogged(t, log, i, j);
    LastForAppend(log, Stamp(t.epoch, IndexOf(f).value, id, t.frames[k].sequence), t.epoch, i,
      Attach(t, f, id, k).bindings[i][j].native);
  }

  lemma CreatedBindingLogged(t: Timeline, f: Frontend, id: nat, log: seq<Stamp>, i: nat, j: nat)
    requires Inv(t) && UsableId(f, id) && BindingsLogged(t, log) && i < FRONTENDS && j < FRAMES
    ensures BindingLogged(Create(t, f, id), log + [Stamp(t.epoch, IndexOf(f).value, id, t.latest + 1)], i, j)
  {
    hide PresentationRing, FrameOk;
    assert BindingOk(t, i, j) && BindingLogged(t, log, i, j);
    LastForAppend(log, Stamp(t.epoch, IndexOf(f).value, id, t.latest + 1), t.epoch, i,
      Create(t, f, id).bindings[i][j].native);
  }

  lemma FirstStageBooksBindings(t: Timeline, op: Op, o: Outcome, t1: Timeline, log: seq<Stamp>)
    requires Inv(t) && FirstStage(t, op, o, t1) && BindingsLogged(t, log)
    ensures BindingsLogged(t1, log + StampsOf(t, op, o))
  {
    hide Inv, BindingLogged, Create, Attach;
    if o.attached.None? {
      assert log + StampsOf(t, op, o) == log;
    } else if o.created {
      forall i, j | 0 <= i < FRONTENDS && 0 <= j < FRAMES ensures BindingLogged(t1, log + StampsOf(t, op, o), i, j) {
        CreatedBindingLogged(t, op.f, op.id, log, i, j);
      }
    } else {
      var k :| 0 <= k < FRAMES && t.frames[k].sequence == o.attached.value
               && t.last[IndexOf(op.f).value] < o.attached.value && t1 == Attach(t, op.f, op.id, k);
      forall i, j | 0 <= i < FRONTENDS && 0 <= j < FRAMES ensures BindingLogged(t1, log + StampsOf(t, op, o), i, j) {
        AttachedBindingLogged(t, op.f, op.id, k, log, i, j);
      }
    }
  }

  /** Marking and presenting touch no binding, no token and no transport of a frame. */
  lemma SecondStageKeepsTokens(t1: Timeline, op: Op, o: Outcome, t': Timeline)
    requires Sized(t1) && SecondStage(t1, op, o, t')
    ensures Sized(t') && t'.bindings == t1.bindings && t'.epoch == t1.epoch && t'.transport == t1.transport
    ensures t'.owners == t1.owners
    ensures forall k | 0 <= k < FRAMES ::
      t'.frames[k].sequence == t1.frames[k].sequence && t'.frames[k].transport == t1.frames[k].transport
  {
    hide NextPresentation, TokenFrom;
    if o.frame.Some? && op.Mark? {
      var k :| 0 <= k < FRAMES && t' == AddMarker(t1, k, op.m);
    } else if o.presentation.Some? {
      var k :| 0 <= k < FRAMES && t' == AddPresentation(t1, k, o.presentation.value);
    }
  }

  lemma SameBindingsSameBooks(t: Timeline, t': Timeline, log: seq<Stamp>)
    requires Sized(t) && Sized(t') && t'.bindings == t.bindings && t'.epoch == t.epoch && BindingsLogged(t, log)
    ensures BindingsLogged(t', log)
  {
    forall i, j | 0 <= i < FRONTENDS && 0 <= j < FRAMES ensures BindingLogged(t', log, i, j) {
      assert BindingLogged(t, log, i, j);
    }
  }

  lemma StepBooksBindings(t: Timeline, op: Op, log: seq<Stamp>)
    requires Inv(t) && Sized(t) && BindingsLogged(t, log)
    ensures BindingsLogged(Step(t, op).0, log + StampsOf(t, op, Step(t, op).1))
  {
    hide Inv, BindingLogged, FirstStage, SecondStage, CanonicalizeMarker, CanonicalizePresentation, PacingObservation;
    if IsCall(op) {
      var t1 := CallStages(t, op);
      FirstStageBooksBindings(t, op, Step(t, op).1, t1, log);
      SecondStageKeepsTokens(t1, op, Step(t, op).1, Step(t, op).0);
      SameBindingsSameBooks(t1, Step(t, op).0, log + StampsOf(t, op, Step(t, op).1));
    } else {
      assert log + StampsOf(t, op, Step(t, op).1) == log;
      if op.Reset? {
        ClearedIsBooked(t.epoch + 1, log);
      } else {
        SameBindingsSameBooks(t, Step(t, op).0, log);
      }
    }
  }

  lemma ClearedIsBooked(epoch: nat, log: seq<Stamp>)
    ensures BindingsLogged(Cleared(epoch), log)
  {
  }

  lemma {:induction false} PlayBooksBindings(ops: seq<Op>)
    ensures BindingsLogged(Play(ops), AttachedLog(ops))
  {
    hide Step, BindingsLogged, Inv;
    if ops == [] {
      ClearedIsBooked(1, []);
    } else {
      var n := |ops| - 1;
      PlayBooksBindings(ops[..n]);
      PlayKeepsInv(ops[..n]);
      StepBooksBindings(Play(ops[..n]), ops[n], AttachedLog(ops[..n]));
    }
  }

  lemma LookupReadsTheBooks(t: Timeline, log: seq<Stamp>, f: Frontend, id: nat)
    requires Sized(t) && BindingsLogged(t, log) && Lookup(t, f, id).Some?
    ensures LastFor(log, t.epoch, IndexOf(f).value, id) == Some(t.frames[Lookup(t, f, id).value].sequence)
  {
    assert BindingLogged(t, log, IndexOf(f).value, id % FRAMES);
  }

  // ---------------------------------------------------------- accepted markers

  function AcceptancesOf(op: Op, o: Outcome): seq<Acceptance> {
    if op.Mark? && o.frame.Some? then [Acceptance(o.frame.value.epoch, o.frame.value.sequence, op.m)] else []
  }

  /** Every marker set on a live frame was accepted for its token. */
  ghost predicate MarkersLogged(t: Timeline, log: seq<Acceptance>)
    requires Sized(t)
  {
    forall k, m | 0 <= k < FRAMES && t.frames[k].sequence != 0 && m in t.frames[k].markers ::
      Acceptance(t.epoch, t.frames[k].sequence, m) in log
  }

  lemma FirstStageKeepsMarkersLogged(t: Timeline, op: Op, o: Outcome, t1: Timeline, log: seq<Acceptance>)
    requires Inv(t) && FirstStage(t, op, o, t1) && MarkersLogged(t, log)
    ensures MarkersLogged(t1, log)
  {
    hide Inv;
    if o.attached.Some? && !o.created {
      var k :| 0 <= k < FRAMES && t.frames[k].sequence == o.attached.value
               && t.last[IndexOf(op.f).value] < o.attached.value && t1 == Attach(t, op.f, op.id, k);
      assert t1.frames == t.frames[k := t1.frames[k]];
    } else if o.attached.Some? {
      var k := (t.next + 1) % FRAMES;
      assert t1.frames == t.frames[k := t1.frames[k]] && t1.frames[k].markers == {};
    }
  }

  lemma SecondStageBooksMarkers(t1: Timeline, op: Op, o: Outcome, t': Timeline, log: seq<Acceptance>)
    requires Inv(t1) && SecondStage(t1, op, o, t') && MarkersLogged(t1, log)
    ensures MarkersLogged(t', log + AcceptancesOf(op, o))
  {
    hide Inv;
    if o.frame.Some? && op.Mark? {
      var k :| 0 <= k < FRAMES && t1.frames[k].sequence != 0 && o.frame.value == TokenFrom(t1.frames[k], op.id)
             && op.m !in t1.frames[k].markers && t' == AddMarker(t1, k, op.m);
      LiveFrame(t1, k);
    } else if o.presentation.Some? {
      var k :| 0 <= k < FRAMES && t' == AddPresentation(t1, k, o.presentation.value);
    }
  }

  lemma StepBooksMarkers(t: Timeline, op: Op, log: seq<Acceptance>)
    requires Inv(t) && MarkersLogged(t, log)
    ensures MarkersLogged(Step(t, op).0, log + AcceptancesOf(op, Step(t, op).1))
  {
    hide Inv, FirstStage, SecondStage, CanonicalizeMarker, CanonicalizePresentation, PacingObservation;
    if IsCall(op) {
      var t1 := CallStages(t, op);
      FirstStageKeepsMarkersLogged(t, op, Step(t, op).1, t1, log);
      SecondStageBooksMarkers(t1, op, Step(t, op).1, Step(t, op).0, log);
    }
  }

  lemma {:induction false} PlayBooksMarkers(ops: seq<Op>)
    ensures MarkersLogged(Play(ops), AcceptedLog(ops))
  {
    hide Step, Inv;
    if ops != [] {
      var n := |ops| - 1;
      PlayBooksMarkers(ops[..n]);
      PlayKeepsInv(ops[..n]);
      StepBooksMarkers(Play(ops[..n]), ops[n], AcceptedLog(ops[..n]));
    }
  }

  // -------------------------------------------------------- owners and transports

  lemma CallsKeepSettings(t: Timeline, op: Op)
    requires Inv(t) && IsCall(op)
    ensures Step(t, op).0.owners == t.owners && Step(t, op).0.transport == t.transport
  {
    hide Inv, Step, SecondStage;
    var t1 := CallStages(t, op);
    SecondStageKeepsTokens(t1, op, Step(t, op).1, Step(t, op).0);
    if Step(t, op).1.attached.Some? && !Step(t, op).1.created {
      var k :| 0 <= k < FRAMES && t1 == Attach(t, op.f, op.id, k);
    }
  }

  lemma {:induction false} SettingsAreRead(ops: seq<Op>)
    ensures Play(ops).owners == FrozenBy(ops) && Play(ops).transport == TransportIn(ops)
  {
    hide CanonicalizeMarker, CanonicalizePresentation, PacingObservation, Inv;
    if ops != [] {
      var n := |ops| - 1;
      SettingsAreRead(ops[..n]);
      if IsCall(ops[n]) {
        PlayKeepsInv(ops[..n]);
        CallsKeepSettings(Play(ops[..n]), ops[n]);
      }
    }
  }

  /** Every live frame carries the transport in force when its token was created. */
  ghost predicate TransportsLogged(t: Timeline, ops: seq<Op>)
    requires Sized(t)
  {
    forall k | 0 <= k < FRAMES && t.frames[k].sequence != 0 ::
      t.frames[k].transport == TransportOf(ops, t.epoch, t.frames[k].sequence)
  }

  lemma FirstStageBooksTransports(ops: seq<Op>, op: Op, o: Outcome, t1: Timeline)
    requires Inv(Play(ops)) && FirstStage(Play(ops), op, o, t1) && o == Step(Play(ops), op).1
    requires TransportsLogged(Play(ops), ops)
    ensures TransportsLogged(t1, ops + [op])
  {
    hide Inv, Step, Play, BindingOk;
    var t := Play(ops);
    assert (ops + [op])[..|ops|] == ops;
    SettingsAreRead(ops);
    NextIsLatest(t);
    FirstStageCounters(t, op, o, t1);
    forall k | 0 <= k < FRAMES && t1.frames[k].sequence != 0
      ensures t1.frames[k].transport == TransportOf(ops + [op], t1.epoch, t1.frames[k].sequence)
    {
      LiveFrame(t, k);
      FirstStageTransport(t, op, o, t1, k);
    }
  }

  lemma NextIsLatest(t: Timeline)
    requires Inv(t)
    ensures Sized(t) && t.next == t.latest && t.epoch >= 1
  {
  }

  lemma FirstStageTransport(t: Timeline, op: Op, o: Outcome, t1: Timeline, k: nat)
    requires FirstStage(t, op, o, t1) && k < FRAMES && t1.frames[k].sequence != 0 && t.latest == t.next
    ensures if o.created && t1.frames[k].sequence == t.latest + 1 && k == (t.latest + 1) % FRAMES
      then t1.frames[k].transport == t.transport
      else t1.frames[k].sequence == t.frames[k].sequence && t1.frames[k].transport == t.frames[k].transport
  {
    if o.attached.Some? && !o.created {
      var at :| 0 <= at < FRAMES && t1 == Attach(t, op.f, op.id, at);
    }
  }

  lemma StepBooksTransports(ops: seq<Op>, op: Op)
    requires Inv(Play(ops)) && Sized(Play(ops)) && TransportsLogged(Play(ops), ops)
    ensures TransportsLogged(Step(Play(ops), op).0, ops + [op])
  {
    hide Inv, Play, FirstStage, SecondStage, CanonicalizeMarker, CanonicalizePresentation, PacingObservation;
    var t := Play(ops);
    if IsCall(op) {
      var t1 := CallStages(t, op);
      FirstStageBooksTransports(ops, op, Step(t, op).1, t1);
      SecondStageKeepsTokens(t1, op, Step(t, op).1, Step(t, op).0);
    } else {
      assert (ops + [op])[..|ops|] == ops;
    }
  }

  lemma {:induction false} PlayBooksTransports(ops: seq<Op>)
    ensures TransportsLogged(Play(ops), ops)
  {
    hide Step, Inv, TransportsLogged;
    if ops == [] {
      NothingToTransport();
    } else {
      var n := |ops| - 1;
      PlayBooksTransports(ops[..n]);
      PlayKeepsInv(ops[..n]);
      StepBooksTransports(ops[..n], ops[n]);
      assert ops[..n] + [ops[n]] == ops;
    }
  }

  lemma NothingToTransport()
    ensures TransportsLogged(Play([]), [])
  {
  }

  // ----------------------------------------------------------------- the answers

  /** A history one call longer: what it plays, attaches and hands out. */
  lemma OneMoreCall(ops: seq<Op>, i: nat)
    requires i < |ops| && IsCall(ops[i])
    ensures ops[..i + 1] == ops[..i] + [ops[i]] && ops[..i + 1][..i] == ops[..i]
    ensures OutcomeAt(ops, i) == OutcomeAt(ops[..i + 1], i) == Step(Play(ops[..i]), ops[i]).1
    ensures Play(ops[..i + 1]) == Step(Play(ops[..i]), ops[i]).0 && Play(ops[..i + 1]).epoch == Play(ops[..i]).epoch
    ensures AttachedLog(ops[..i + 1]) == AttachedLog(ops[..i]) + StampsOf(Play(ops[..i]), ops[i], OutcomeAt(ops, i))
  {
    hide Inv, CanonicalizeMarker, CanonicalizePresentation, PacingObservation;
    assert ops[..i + 1][..i] == ops[..i];
    PlayKeepsInv(ops[..i]);
    StepCounters(Play(ops[..i]), ops[i]);
  }

  /** What the books say of the frame that the ID of call i has been resolved to. */
  lemma ResolvedByTheBooks(ops: seq<Op>, i: nat, t1: Timeline)
    requires i < |ops| && IsCall(ops[i]) && FirstStage(Play(ops[..i]), ops[i], OutcomeAt(ops, i), t1)
    requires Sized(t1) && Lookup(t1, ops[i].f, ops[i].id).Some?
    ensures var op, t := ops[i], Play(ops[..i]);
      var frame := t1.frames[Lookup(t1, op.f, op.id).value];
      && frame.sequence != 0 && frame.epoch == t.epoch && frame.pacing == OwnerOf(t, Pacing)
      && TokenOf(ops[..i + 1], op.f, op.id) == Some(frame.sequence)
      && frame.transport == TransportOf(ops[..i + 1], t.epoch, frame.sequence)
  {
    hide Inv, Step, Play, OutcomeAt, AttachedLog, BindingsLogged, TransportOf, FirstStage;
    var t, op, o := Play(ops[..i]), ops[i], OutcomeAt(ops, i);
    OneMoreCall(ops, i);
    PlayKeepsInv(ops[..i]);
    FirstStageKeepsInv(t, op, o, t1);
    FirstStageKeepsOwners(t, op, o, t1);
    PlayBooksBindings(ops[..i]);
    FirstStageBooksBindings(t, op, o, t1, AttachedLog(ops[..i]));
    LookupReadsTheBooks(t1, AttachedLog(ops[..i + 1]), op.f, op.id);
    PlayBooksTransports(ops[..i]);
    FirstStageBooksTransports(ops[..i], op, o, t1);
    LiveFrame(t1, Lookup(t1, op.f, op.id).value);
  }

  lemma FirstStageKeepsOwners(t: Timeline, op: Op, o: Outcome, t1: Timeline)
    requires FirstStage(t, op, o, t1)
    ensures t1.owners == t.owners && t1.epoch == t.epoch
  {
    if o.attached.Some? && !o.created {
      var k :| 0 <= k < FRAMES && t1 == Attach(t, op.f, op.id, k);
    }
  }

  /** A marker is set on the frame of a call's ID exactly if it was accepted for that token before. */
  lemma SetByTheBooks(ops: seq<Op>, i: nat, t1: Timeline)
    requires i < |ops| && ops[i].Mark? && FirstStage(Play(ops[..i]), ops[i], OutcomeAt(ops, i), t1)
    requires Sized(t1) && Lookup(t1, ops[i].f, ops[i].id).Some?
    ensures var op, t := ops[i], Play(ops[..i]);
      var frame := t1.frames[Lookup(t1, op.f, op.id).value];
      op.m in frame.markers <==> Acceptance(t.epoch, frame.sequence, op.m) in AcceptedLog(ops[..i])
  {
    hide Inv, Step, Play, OutcomeAt, AcceptedLog, FirstStage, Remembered;
    var t, op, o, log := Play(ops[..i]), ops[i], OutcomeAt(ops, i), AcceptedLog(ops[..i]);
    var k := Lookup(t1, op.f, op.id).value;
    PlayKeepsInv(ops[..i]);
    FirstStageKeepsInv(t, op, o, t1);
    FirstStageKeepsOwners(t, op, o, t1);
    PlayBooksMarkers(ops[..i]);
    FirstStageKeepsMarkersLogged(t, op, o, t1, log);
    LiveFrame(t1, k);
    var a := Acceptance(t.epoch, t1.frames[k].sequence, op.m);
    if a in log {
      var j :| 0 <= j < |log| && log[j] == a;
      MarkersAcceptedOnce(ops[..i]);
      FirstStageRemembers(t, op, o, t1, a);
      RememberedIsSet(t1, k, op.m);
    }
  }

  lemma RememberedIsSet(t: Timeline, k: nat, m: Marker)
    requires Sized(t) && k < FRAMES && FrameOk(t, k) && t.frames[k].sequence != 0
    requires Remembered(t, Acceptance(t.epoch, t.frames[k].sequence, m))
    ensures m in t.frames[k].markers
  {
  }

  /** The frozen owners of a history, as the timeline knows them. */
  lemma OwnersByTheBooks(ops: seq<Op>, a: Aspect)
    ensures OwnerOf(Play(ops), a) != Auto ==> Owns(FrozenBy(ops), a, OwnerOf(Play(ops), a))
    ensures forall f :: Owns(FrozenBy(ops), a, f) ==> OwnerOf(Play(ops), a) == f
    ensures SomebodyPaces(FrozenBy(ops)) <==> OwnerOf(Play(ops), Pacing) != Auto
  {
    hide Play, FrozenBy;
    SettingsAreRead(ops);
  }

  /**
   * A marker call hands out a token exactly if somebody paces, the caller owns
   * the marker's aspect in the freeze, its ID stands for a token or can be given
   * one, and the marker was never accepted for that token; and then the token is
   * the one the caller's ID is attached to, by the log of attachments.
   */
  lemma MarkersAreAnsweredToTheirOwners(ops: seq<Op>, i: nat)
    requires i < |ops| && ops[i].Mark?
    ensures var t, op, o := Play(ops[..i]), ops[i], OutcomeAt(ops, i);
      var owners, named := FrozenBy(ops[..i]), TokenOf(ops[..i + 1], op.f, op.id);
      && (o.frame.Some? <==>
        && SomebodyPaces(owners) && Owns(owners, AspectForMarker(op.m), op.f) && HasToken(t, op.f, op.id)
        && named.Some? && Acceptance(t.epoch, named.value, op.m) !in AcceptedLog(ops[..i]))
      && (SomebodyPaces(owners) && Owns(owners, AspectForMarker(op.m), op.f) && HasToken(t, op.f, op.id) ==> named.Some?)
      && (o.frame.Some? ==> StandsFor(ops[..i + 1], t.epoch, o.frame.value, op.f, op.id, owners))
  {
    hide Inv, Step, Play, AttachedLog, AcceptedLog, TransportOf, FrozenBy, FirstStage, AspectForMarker, RefusesToBind;
    var t, op, o := Play(ops[..i]), ops[i], OutcomeAt(ops, i);
    PlayKeepsInv(ops[..i]);
    OwnersByTheBooks(ops[..i], AspectForMarker(op.m));
    OwnersByTheBooks(ops[..i], Pacing);
    if op.f == Auto || OwnerOf(t, Pacing) == Auto || OwnerOf(t, AspectForMarker(op.m)) != op.f {
      NobodyElseMarks(t, op);
    } else {
      var t1: Timeline;
      if op.f == OwnerOf(t, Pacing) {
        t1 := PacerMarks(t, op);
      } else {
        t1 := OthersMark(t, op);
      }
      if Lookup(t1, op.f, op.id).Some? {
        ResolvedByTheBooks(ops, i, t1);
        SetByTheBooks(ops, i, t1);
      }
    }
  }

  /** The token handed out is the one the caller's ID stands for, complete with pacing owner and transport. */
  ghost predicate StandsFor(
      ops: seq<Op>, epoch: nat, token: FrameToken, f: Frontend, id: nat, owners: Option<map<Aspect, Frontend>>) {
    && token.native == id && token.epoch == epoch && TokenOf(ops, f, id) == Some(token.sequence)
    && Owns(owners, Pacing, token.pacing) && token.transport == TransportOf(ops, epoch, token.sequence)
  }

  /** Pacing calls are answered exactly for the frozen pacing owner and every usable ID, with that ID's token. */
  lemma PacingIsAnsweredToItsOwner(ops: seq<Op>, i: nat)
    requires i < |ops| && ops[i].Pace?
    ensures var t, op, o := Play(ops[..i]), ops[i], OutcomeAt(ops, i);
      var owners := FrozenBy(ops[..i]);
      && (o.frame.Some? <==> Owns(owners, Pacing, op.f) && UsableId(op.f, op.id))
      && (o.frame.Some? ==> StandsFor(ops[..i + 1], t.epoch, o.frame.value, op.f, op.id, owners))
  {
    hide Inv, Step, Play, AttachedLog, TransportOf, FrozenBy, FirstStage;
    var t, op, o := Play(ops[..i]), ops[i], OutcomeAt(ops, i);
    PlayKeepsInv(ops[..i]);
    OwnersByTheBooks(ops[..i], Pacing);
    if op.f == Auto || OwnerOf(t, Pacing) != op.f {
      NobodyElsePaces(t, op);
    } else {
      PacerPaces(t, op);
      if UsableId(op.f, op.id) {
        ResolvedByTheBooks(ops, i, Step(t, op).0);
      }
    }
  }

  /**
   * A presentation call publishes exactly if the caller owns FrameGeneration in
   * the freeze and its ID is bound or nothing stands against attaching it; and
   * then the presentation names the caller, its ID and its flag, and renders the
   * token the ID is attached to.
   */
  lemma PresentationsAreAnsweredToTheirOwner(ops: seq<Op>, i: nat)
    requires i < |ops| && ops[i].Present?
    ensures var t, op, o := Play(ops[..i]), ops[i], OutcomeAt(ops, i);
      && (o.presentation.Some? <==>
        && Owns(FrozenBy(ops[..i]), FrameGeneration, op.f)
        && (Lookup(t, op.f, op.id).Some? || !RefusesToBind(t, op.f, op.id)))
      && (o.presentation.Some? ==>
        var p := o.presentation.value;
        && p.source == op.f && p.native == op.id && p.interpolated == op.interpolated
        && p.epoch == t.epoch
        && TokenOf(ops[..i + 1], op.f, op.id) == Some(p.render)
        && p.transport == TransportOf(ops[..i + 1], t.epoch, p.render))
  {
    hide Inv, Step, Play, AttachedLog, TransportOf, FrozenBy, FirstStage, RefusesToBind;
    var t, op, o := Play(ops[..i]), ops[i], OutcomeAt(ops, i);
    PlayKeepsInv(ops[..i]);
    OwnersByTheBooks(ops[..i], FrameGeneration);
    if op.f == Auto || OwnerOf(t, FrameGeneration) != op.f {
      NobodyElsePresents(t, op);
    } else {
      var t1 := OwnerPresents(t, op);
      if Lookup(t1, op.f, op.id).Some? {
        ResolvedByTheBooks(ops, i, t1);
      }
    }
  }

  // -------------------------------------------------- what a call leaves behind

  /** The callers a marker or presentation may attach without pacing. */
  predicate MayAttach(op: Op, owners: Option<map<Aspect, Frontend>>) {
    match op
    case Mark(f, m, _) => SomebodyPaces(owners) && Owns(owners, AspectForMarker(m), f)
    case Present(f, _, _) => Owns(owners, FrameGeneration, f)
    case _ => false
  }

  /** A call attaches its ID now, to a new token or to an existing one. */
  ghost predicate AttachesAs(t: Timeline, op: Op, o: Outcome, owners: Option<map<Aspect, Frontend>>)
    requires Sized(t) && IsCall(op)
  {
    var fresh' := UsableId(op.f, op.id) && Lookup(t, op.f, op.id).None?;
    && (o.created <==> fresh' && !op.Present? && Owns(owners, Pacing, op.f))
    && (o.attached.Some? <==>
      && fresh'
      && (|| (!op.Present? && Owns(owners, Pacing, op.f))
          || (MayAttach(op, owners) && !RefusesToBind(t, op.f, op.id))))
  }

  lemma MarkAttaches(t: Timeline, op: Op)
    requires Inv(t) && Sized(t) && op.Mark?
    ensures AttachesAs(t, op, Step(t, op).1, t.owners)
  {
    hide PresentationRing, FrameOk, BindingOk, AddMarker, BindTarget, PublishBinding, AspectForMarker, Lookup, Inv;
    if OwnerOf(t, Pacing) == op.f != Auto {
      EstablishStage(t, op.f, op.id);
      EstablishIsExact(t, op.f, op.id);
    }
    ResolveStage(t, op.f, op.id);
    ResolveIsExact(t, op.f, op.id);
  }

  lemma PaceAttaches(t: Timeline, op: Op)
    requires Inv(t) && Sized(t) && op.Pace?
    ensures AttachesAs(t, op, Step(t, op).1, t.owners)
  {
    hide PresentationRing, FrameOk, BindingOk, BindTarget, PublishBinding, Lookup, Inv;
    if OwnerOf(t, Pacing) == op.f != Auto {
      EstablishStage(t, op.f, op.id);
      EstablishIsExact(t, op.f, op.id);
    }
  }

  lemma PresentAttaches(t: Timeline, op: Op)
    requires Inv(t) && Sized(t) && op.Present?
    ensures AttachesAs(t, op, Step(t, op).1, t.owners)
  {
    hide PresentationRing, FrameOk, BindingOk, BindTarget, PublishBinding, Lookup, Inv, NextPresentation;
    if OwnerOf(t, FrameGeneration) == op.f != Auto {
      var t1 := OwnerPresents(t, op);
      ResolveStage(t, op.f, op.id);
      ResolveIsExact(t, op.f, op.id);
    }
  }

  /**
   * Exactly which calls create a token or attach an ID, answered or not: the
   * frozen pacing owner's markers and pacing calls create one for every usable
   * ID that is not bound, even where another frontend owns the marker; the
   * owner of a marker's aspect or of FrameGeneration attaches an unbound ID
   * unless something stands against it. The ID then stands for that token, and
   * a created token is the next one of its epoch.
   */
  lemma AttachmentsAreExact(ops: seq<Op>, i: nat)
    requires i < |ops| && IsCall(ops[i])
    ensures var t, op, o := Play(ops[..i]), ops[i], OutcomeAt(ops, i);
      && AttachesAs(t, op, o, FrozenBy(ops[..i]))
      && (o.attached.Some? ==> TokenOf(ops[..i + 1], op.f, op.id) == o.attached)
      && (o.attached.None? ==> TokenOf(ops[..i + 1], op.f, op.id) == TokenOf(ops[..i], op.f, op.id))
      && (o.created ==> o.attached == Some(t.latest + 1))
  {
    hide Inv, Step, Play, AttachedLog, FrozenBy, AttachesAs, LastFor;
    var t, op, o := Play(ops[..i]), ops[i], OutcomeAt(ops, i);
    PlayKeepsInv(ops[..i]);
    NextIsLatest(t);
    SettingsAreRead(ops[..i]);
    OneMoreCall(ops, i);
    StepCounters(t, op);
    match op {
      case Mark(_, _, _) => MarkAttaches(t, op);
      case Pace(_, _) => PaceAttaches(t, op);
      case Present(_, _, _) => PresentAttaches(t, op);
    }
    if o.attached.Some? {
      LastForAppend(AttachedLog(ops[..i]), StampsOf(t, op, o)[0], t.epoch, IndexOf(op.f).value, op.id);
    } else {
      assert AttachedLog(ops[..i]) + [] == AttachedLog(ops[..i]);
    }
  }

  /** The newest token of the current epoch, with its pacing owner and transport; no native ID is asked for. */
  lemma LatestFrameIsTheNewest(ops: seq<Op>)
    ensures var t, token := Play(ops), LatestFrame(Play(ops));
      if t.latest == 0 then token.None?
      else
        && token.Some? && token.value.epoch == t.epoch && token.value.sequence == t.latest && token.value.native == 0
        && Owns(FrozenBy(ops), Pacing, token.value.pacing)
        && token.value.transport == TransportOf(ops, t.epoch, t.latest)
  {
    hide Play, TransportOf, FrozenBy, Inv;
    var t := Play(ops);
    PlayKeepsInv(ops);
    PlayBooksTransports(ops);
    OwnersByTheBooks(ops, Pacing);
    NextIsLatest(t);
    WindowIsExact(t, t.latest);
    LiveFrame(t, t.latest % FRAMES);
    if t.latest != 0 {
      PacingOwnerIsSomebody(t, t.latest % FRAMES);
    }
  }
}
