/**
 * HybridFusion over whole sequential runs: markers, tokens, attachments and
 * presentations, across resets.
 */
module HybridRuns {
  import opened Frontends
  import opened HybridTimeline
  import opened Options

  /** The timeline after a history of calls, starting from a fresh process. */
  function Play(ops: seq<Op>): (t: Timeline)
    ensures Sized(t)
  {
    if ops == [] then Cleared(1) else Step(Play(ops[..|ops| - 1]), ops[|ops| - 1]).0
  }

  /** What the i-th call of a history did. */
  function OutcomeAt(ops: seq<Op>, i: nat): Outcome
    requires i < |ops|
  {
    Step(Play(ops[..i]), ops[i]).1
  }

  lemma LiveFrame(t: Timeline, k: nat)
    requires Inv(t) && k < FRAMES
    ensures Sized(t) && FrameOk(t, k)
  {
  }

  // ------------------------------------------------------- anatomy of one step

  /** A call made by a frontend, as opposed to an administrative operation. */
  predicate IsCall(op: Op) {
    op.Mark? || op.Pace? || op.Present?
  }

  /**
   * Every call first possibly creates a token or attaches its frontend to one
   * (t1), and then possibly marks or presents the frame in slot k.
   */
  ghost predicate FirstStage(t: Timeline, op: Op, o: Outcome, t1: Timeline) {
    && Sized(t) && Sized(t1) && IsCall(op)
    && (o.attached.None? ==> t1 == t && !o.created)
    && (o.attached.Some? ==>
        && UsableId(op.f, op.id) && Lookup(t, op.f, op.id).None?
        && (if o.created then t1 == Create(t, op.f, op.id) && OwnerOf(t, Pacing) == op.f && o.attached.value == t.latest + 1
            else exists k :: 0 <= k < FRAMES && t.frames[k].sequence == o.attached.value
                  && t.last[IndexOf(op.f).value] < o.attached.value && t1 == Attach(t, op.f, op.id, k)))
  }

  ghost predicate SecondStage(t1: Timeline, op: Op, o: Outcome, t': Timeline) {
    && Sized(t1) && IsCall(op)
    && (o.frame.None? && o.presentation.None? ==> t' == t1)
    && (o.frame.Some? ==>
        && o.presentation.None?
        && exists k :: 0 <= k < FRAMES && t1.frames[k].sequence != 0 && o.frame.value == TokenFrom(t1.frames[k], op.id)
             && (op.Mark? ==> op.m !in t1.frames[k].markers && t' == AddMarker(t1, k, op.m))
             && (!op.Mark? ==> t' == t1))
    && (o.presentation.Some? ==>
        && op.Present?
        && exists k :: 0 <= k < FRAMES && t1.frames[k].sequence != 0
             && o.presentation.value == NextPresentation(t1, k, op.f, op.id, op.interpolated)
             && t' == AddPresentation(t1, k, o.presentation.value))
  }

  lemma EstablishStage(t: Timeline, f: Frontend, id: nat)
    requires Inv(t) && OwnerOf(t, Pacing) == f
    ensures var (t1, k, created) := Establish(t, f, id);
      && (created ==> UsableId(f, id) && Lookup(t, f, id).None? && k.Some? && t1 == Create(t, f, id)
                      && t1.frames[k.value].sequence == t.latest + 1)
      && (!created ==> t1 == t)
  {
  }

  lemma ResolveStage(t: Timeline, f: Frontend, id: nat)
    requires Inv(t)
    ensures var (t1, k, bound) := Resolve(t, f, id);
      && (bound ==> && UsableId(f, id) && Lookup(t, f, id).None? && k.Some? && t1 == Attach(t, f, id, k.value)
                    && t1.frames[k.value].sequence == t.frames[k.value].sequence > t.last[IndexOf(f).value])
      && (!bound ==> t1 == t)
  {
    if Lookup(t, f, id).None? && UsableId(f, id) && BindTarget(t, f, id).Some? {
      BindTargetIsExact(t, f, id);
    }
  }

  lemma CallStages(t: Timeline, op: Op) returns (t1: Timeline)
    requires Inv(t) && IsCall(op)
    ensures FirstStage(t, op, Step(t, op).1, t1) && SecondStage(t1, op, Step(t, op).1, Step(t, op).0)
    ensures Inv(t1)
  {
    match op {
      case Mark(_, _, _) => t1 := MarkStages(t, op);
      case Pace(_, _) => t1 := PaceStages(t, op);
      case Present(_, _, _) => t1 := PresentStages(t, op);
    }
    FirstStageKeepsInv(t, op, Step(t, op).1, t1);
  }

  lemma FirstStageKeepsInv(t: Timeline, op: Op, o: Outcome, t1: Timeline)
    requires Inv(t) && FirstStage(t, op, o, t1)
    ensures Inv(t1)
    ensures o.attached.Some? ==> t1.last == t.last[IndexOf(op.f).value := o.attached.value]
  {
    if o.attached.Some? {
      if o.created {
        CreateKeepsInv(t, op.f, op.id);
      } else {
        var k :| 0 <= k < FRAMES && t.frames[k].sequence == o.attached.value
                 && t.last[IndexOf(op.f).value] < o.attached.value && t1 == Attach(t, op.f, op.id, k);
        AttachKeepsInv(t, op.f, op.id, k);
      }
    }
  }

  lemma PaceStages(t: Timeline, op: Op) returns (t1: Timeline)
    requires Inv(t) && op.Pace?
    ensures FirstStage(t, op, Step(t, op).1, t1) && SecondStage(t1, op, Step(t, op).1, Step(t, op).0)
  {
    t1 := Step(t, op).0;
    if OwnerOf(t, Pacing) == op.f {
      EstablishStage(t, op.f, op.id);
    }
  }

  lemma PresentStages(t: Timeline, op: Op) returns (t1: Timeline)
    requires Inv(t) && op.Present?
    ensures FirstStage(t, op, Step(t, op).1, t1) && SecondStage(t1, op, Step(t, op).1, Step(t, op).0)
  {
    ResolveStage(t, op.f, op.id);
    t1 := if Step(t, op).1 == NOTHING then t else Resolve(t, op.f, op.id).0;
  }

  lemma MarkStages(t: Timeline, op: Op) returns (t1: Timeline)
    requires Inv(t) && op.Mark?
    ensures FirstStage(t, op, Step(t, op).1, t1) && SecondStage(t1, op, Step(t, op).1, Step(t, op).0)
  {
    hide Lookup, BindTarget, PublishBinding, AspectForMarker, AddMarker;
    if op.f == Auto || op.id == 0 || t.owners.None? || OwnerOf(t, Pacing) == Auto {
      t1 := t;
    } else if op.f == OwnerOf(t, Pacing) {
      t1 := PacingMarkStages(t, op);
    } else {
      ResolveStage(t, op.f, op.id);
      t1 := if OwnerOf(t, AspectForMarker(op.m)) != op.f then t else Resolve(t, op.f, op.id).0;
    }
  }

  lemma PacingMarkStages(t: Timeline, op: Op) returns (t1: Timeline)
    requires Inv(t) && op.Mark? && op.f == OwnerOf(t, Pacing) != Auto && op.id != 0 && t.owners.Some?
    ensures FirstStage(t, op, Step(t, op).1, t1) && SecondStage(t1, op, Step(t, op).1, Step(t, op).0)
  {
    var (u, k, created) := Establish(t, op.f, op.id);
    EstablishStage(t, op.f, op.id);
    t1 := u;
    if k.None? {
      ResolveStage(t1, op.f, op.id);
      PacingOwnerNeverCatchesUp(t, op.id);
    }
  }

  lemma StepKeepsInv(t: Timeline, op: Op)
    requires Inv(t)
    ensures Inv(Step(t, op).0)
  {
    match op
    case FreezeOwners(owners) => FreezeKeepsInv(t, owners);
    case SetTransport(transport) => TransportKeepsInv(t, transport);
    case Reset => ClearedIsInv(t.epoch + 1);
    case _ =>
      var t1 := CallStages(t, op);
      SecondStageKeepsInv(t1, op, Step(t, op).1, Step(t, op).0);
  }

  lemma TransportKeepsInv(t: Timeline, transport: nat)
    requires Inv(t)
    ensures Inv(t.(transport := transport))
  {
    var t' := t.(transport := transport);
    forall k | 0 <= k < FRAMES ensures FrameOk(t', k) {
      assert FrameOk(t, k);
    }
    forall i, j | 0 <= i < FRONTENDS && 0 <= j < FRAMES ensures BindingOk(t', i, j) {
      assert BindingOk(t, i, j);
    }
  }

  lemma SecondStageKeepsInv(t1: Timeline, op: Op, o: Outcome, t': Timeline)
    requires Inv(t1) && SecondStage(t1, op, o, t')
    ensures Inv(t')
  {
    if o.frame.Some? && op.Mark? {
      var k :| 0 <= k < FRAMES && t' == AddMarker(t1, k, op.m);
      AddMarkerKeepsInv(t1, k, op.m);
    } else if o.presentation.Some? {
      var k :| 0 <= k < FRAMES && t1.frames[k].sequence != 0
             && o.presentation.value == NextPresentation(t1, k, op.f, op.id, op.interpolated)
             && t' == AddPresentation(t1, k, o.presentation.value);
      AddPresentationKeepsInv(t1, k, op.f, op.id, op.interpolated);
    }
  }

  lemma {:induction false} PlayKeepsInv(ops: seq<Op>)
    ensures Inv(Play(ops))
  {
    if ops == [] {
      ClearedIsInv(1);
    } else {
      PlayKeepsInv(ops[..|ops| - 1]);
      StepKeepsInv(Play(ops[..|ops| - 1]), ops[|ops| - 1]);
    }
  }

  // ------------------------------------------------------- tokens and epochs

  /** A token or attachment stamp: epoch, then sequence within it. */
  datatype Stamp = Stamp(epoch: nat, source: nat, native: nat, sequence: nat)

  /** Strictly later: a later epoch, or a larger sequence in the same one. */
  predicate Later(a: Stamp, b: Stamp) {
    a.epoch < b.epoch || (a.epoch == b.epoch && a.sequence < b.sequence)
  }

  /** Tokens created so far, oldest first. */
  function CreatedLog(ops: seq<Op>): seq<Stamp> {
    if ops == [] then [] else
    var n := |ops| - 1;
    var t, o := Play(ops[..n]), OutcomeAt(ops, n);
    CreatedLog(ops[..n]) +
      if IsCall(ops[n]) && o.created && o.attached.Some? then
        [Stamp(t.epoch, 0, ops[n].id, o.attached.value)]
      else []
  }

  /** Frontend-to-token attachments so far (created or caught up), oldest first. */
  function AttachedLog(ops: seq<Op>): seq<Stamp> {
    if ops == [] then [] else
    var n := |ops| - 1;
    var t, o := Play(ops[..n]), OutcomeAt(ops, n);
    AttachedLog(ops[..n]) +
      if IsCall(ops[n]) && o.attached.Some? && IndexOf(ops[n].f).Some? then
        [Stamp(t.epoch, IndexOf(ops[n].f).value, ops[n].id, o.attached.value)]
      else []
  }

  /** What one call can do to the counters: epochs and tokens only grow. */
  lemma StepCounters(t: Timeline, op: Op)
    requires Inv(t)
    ensures var (t', o) := Step(t, op);
      && (op.Reset? ==> t'.epoch == t.epoch + 1)
      && (!op.Reset? ==>
          && t'.epoch == t.epoch
          && t'.latest == (if o.created then t.latest + 1 else t.latest)
          && (o.created ==> o.attached == Some(t.latest + 1)))
      && (IsCall(op) ==>
          && (o.attached.None? ==> t'.last == t.last)
          && (o.attached.Some? ==>
                && UsableId(op.f, op.id) && t.last[IndexOf(op.f).value] < o.attached.value <= t'.latest
                && t'.last == t.last[IndexOf(op.f).value := o.attached.value]))
      && (op.FreezeOwners? || op.SetTransport? ==> o == NOTHING && t'.last == t.last)
      && (op.Reset? ==> o == NOTHING)
  {
    if IsCall(op) {
      var t1 := CallStages(t, op);
      FirstStageKeepsInv(t, op, Step(t, op).1, t1);
      FirstStageCounters(t, op, Step(t, op).1, t1);
    }
  }

  lemma FirstStageCounters(t: Timeline, op: Op, o: Outcome, t1: Timeline)
    requires Inv(t) && FirstStage(t, op, o, t1)
    ensures t1.epoch == t.epoch && t1.latest == if o.created then t.latest + 1 else t.latest
    ensures o.created ==> o.attached == Some(t.latest + 1)
    ensures o.attached.Some? ==> t.last[IndexOf(op.f).value] < o.attached.value <= t1.latest
  {
    if o.attached.Some? && !o.created {
      var k :| 0 <= k < FRAMES && t.frames[k].sequence == o.attached.value
               && t.last[IndexOf(op.f).value] < o.attached.value && t1 == Attach(t, op.f, op.id, k);
      assert FrameOk(t, k);
    }
  }

  /** No token of the log is beyond the present: earlier epoch, or a sequence already issued. */
  ghost predicate UpTo(log: seq<Stamp>, epoch: nat, latest: nat) {
    forall i | 0 <= i < |log| :: log[i].epoch < epoch || (log[i].epoch == epoch && log[i].sequence <= latest)
  }

  /** (epoch, sequence) pairs never repeat, resets included: each token is strictly later than all before. */
  lemma {:induction false} TokensNeverRepeat(ops: seq<Op>)
    ensures var log := CreatedLog(ops);
      && (forall i, j | 0 <= i < j < |log| :: Later(log[i], log[j]))
      && UpTo(log, Play(ops).epoch, Play(ops).latest)
  {
    if ops != [] {
      var n := |ops| - 1;
      TokensNeverRepeat(ops[..n]);
      PlayKeepsInv(ops[..n]);
      StepCounters(Play(ops[..n]), ops[n]);
      assert ops[..n] == ops[..|ops| - 1];
    }
  }

  /** Every attachment is at or before its frontend's last token in its epoch. */
  ghost predicate AttachedUpTo(log: seq<Stamp>, t: Timeline)
    requires Sized(t)
  {
    forall i | 0 <= i < |log| ::
      log[i].source < FRONTENDS &&
      (log[i].epoch < t.epoch || (log[i].epoch == t.epoch && log[i].sequence <= t.last[log[i].source]))
  }

  /**
   * Each frontend attaches to strictly increasing tokens, so no two of its
   * native IDs ever share a token.
   */
  lemma {:induction false} AttachmentsIncrease(ops: seq<Op>)
    ensures var log := AttachedLog(ops);
      && (forall i, j | 0 <= i < j < |log| && log[i].source == log[j].source :: Later(log[i], log[j]))
      && AttachedUpTo(log, Play(ops))
  {
    if ops != [] {
      var n := |ops| - 1;
      AttachmentsIncrease(ops[..n]);
      PlayKeepsInv(ops[..n]);
      StepCounters(Play(ops[..n]), ops[n]);
    }
  }

  // --------------------------------------------------------- marker acceptance

  datatype Acceptance = Acceptance(epoch: nat, sequence: nat, marker: Marker)

  function AcceptedLog(ops: seq<Op>): seq<Acceptance> {
    if ops == [] then [] else
    var n := |ops| - 1;
    var o := OutcomeAt(ops, n);
    AcceptedLog(ops[..n]) +
      if ops[n].Mark? && o.frame.Some? then [Acceptance(o.frame.value.epoch, o.frame.value.sequence, ops[n].m)] else []
  }

  /** Whether slot and mask still remember an acceptance, if its token is still alive. */
  ghost predicate Remembered(t: Timeline, a: Acceptance)
    requires Sized(t)
  {
    a.epoch < t.epoch ||
    (a.epoch == t.epoch && a.sequence <= t.latest &&
     (t.frames[a.sequence % FRAMES].sequence == a.sequence ==> a.marker in t.frames[a.sequence % FRAMES].markers))
  }

  /** The first stage of a call forgets no marker of a live frame. */
  lemma FirstStageRemembers(t: Timeline, op: Op, o: Outcome, t1: Timeline, a: Acceptance)
    requires Inv(t) && FirstStage(t, op, o, t1) && Remembered(t, a)
    ensures Remembered(t1, a)
  {
    if o.attached.Some? && !o.created {
      var k :| 0 <= k < FRAMES && t.frames[k].sequence == o.attached.value
               && t.last[IndexOf(op.f).value] < o.attached.value && t1 == Attach(t, op.f, op.id, k);
      assert t1.frames == t.frames[k := t1.frames[k]];
    }
  }

  lemma SecondStageRemembers(t1: Timeline, op: Op, o: Outcome, t': Timeline, a: Acceptance)
    requires Inv(t1) && SecondStage(t1, op, o, t') && Remembered(t1, a)
    ensures Remembered(t', a)
  {
    if o.frame.Some? && op.Mark? {
      var k :| 0 <= k < FRAMES && t' == AddMarker(t1, k, op.m);
    } else if o.presentation.Some? {
      var k :| 0 <= k < FRAMES && t' == AddPresentation(t1, k, o.presentation.value);
    }
  }

  lemma StepRemembers(t: Timeline, op: Op, a: Acceptance)
    requires Inv(t) && Remembered(t, a)
    ensures Remembered(Step(t, op).0, a)
  {
    if IsCall(op) {
      var t1 := CallStages(t, op);
      FirstStageRemembers(t, op, Step(t, op).1, t1, a);
      SecondStageRemembers(t1, op, Step(t, op).1, Step(t, op).0, a);
    }
  }

  lemma MarkingIsNew(t: Timeline, k: nat, m: Marker)
    requires Inv(t) && k < FRAMES && t.frames[k].sequence != 0 && m !in t.frames[k].markers
    ensures var a := Acceptance(t.frames[k].epoch, t.frames[k].sequence, m);
      a.epoch == t.epoch && !Remembered(t, a) && Remembered(AddMarker(t, k, m), a)
  {
    assert FrameOk(t, k);
  }

  /** An accepted marker is new to its frame, and is remembered from then on. */
  lemma AcceptanceIsNew(t: Timeline, op: Op)
    requires Inv(t) && op.Mark? && Step(t, op).1.frame.Some?
    ensures var (t', o) := Step(t, op);
      var a := Acceptance(o.frame.value.epoch, o.frame.value.sequence, op.m);
      Remembered(t', a) && a.epoch == t.epoch && !(a.sequence <= t.latest && Remembered(t, a))
  {
    var (t', o) := Step(t, op);
    hide Step, Inv, FirstStage;
    var t1 := CallStages(t, op);
    FirstStageCounters(t, op, o, t1);
    var k :| 0 <= k < FRAMES && t1.frames[k].sequence != 0 && o.frame.value == TokenFrom(t1.frames[k], op.id)
             && op.m !in t1.frames[k].markers && t' == AddMarker(t1, k, op.m);
    MarkingIsNew(t1, k, op.m);
    hide SecondStage, Remembered;
    var a := Acceptance(o.frame.value.epoch, o.frame.value.sequence, op.m);
    if a.sequence <= t.latest && Remembered(t, a) {
      FirstStageRemembers(t, op, o, t1, a);
    }
  }

  /**
   * Over any run, each (epoch, sequence, marker) is accepted at most once, even
   * after the frame's slot has been recycled.
   */
  lemma {:induction false} MarkersAcceptedOnce(ops: seq<Op>)
    ensures forall i, j | 0 <= i < j < |AcceptedLog(ops)| :: AcceptedLog(ops)[i] != AcceptedLog(ops)[j]
    ensures forall i | 0 <= i < |AcceptedLog(ops)| :: Remembered(Play(ops), AcceptedLog(ops)[i])
  {
    if ops != [] {
      var n := |ops| - 1;
      hide Step, Inv;
      var log := AcceptedLog(ops[..n]);
      var t := Play(ops[..n]);
      MarkersAcceptedOnce(ops[..n]);
      PlayKeepsInv(ops[..n]);
      forall i | 0 <= i < |log| ensures Remembered(t, log[i]) && Remembered(Play(ops), log[i]) {
        assert log[i] == AcceptedLog(ops[..n])[i];
        StepRemembers(t, ops[n], log[i]);
      }
      if ops[n].Mark? && Step(t, ops[n]).1.frame.Some? {
        AcceptanceIsNew(t, ops[n]);
      }
    }
  }

  // ------------------------------------------------------------- presentations

  function PublishedLog(ops: seq<Op>): seq<Presentation> {
    if ops == [] then [] else
    var o := OutcomeAt(ops, |ops| - 1);
    PublishedLog(ops[..|ops| - 1]) + if o.presentation.Some? then [o.presentation.value] else []
  }

  /** How many presentations of the log name this render token. */
  function CountFor(log: seq<Presentation>, epoch: nat, render: nat): nat {
    if log == [] then 0 else
    CountFor(log[..|log| - 1], epoch, render) +
      if log[|log| - 1].epoch == epoch && log[|log| - 1].render == render then 1 else 0
  }

  /** The presentations of the current epoch are the last ones, numbered 1, 2, 3, ... */
  ghost predicate Numbered(log: seq<Presentation>, t: Timeline) {
    && t.nextPresentation <= |log|
    && var base := |log| - t.nextPresentation;
       && (forall i | 0 <= i < base :: log[i].epoch < t.epoch)
       && (forall i | base <= i < |log| ::
             log[i].epoch == t.epoch && log[i].sequence == i - base + 1 && 1 <= log[i].render <= t.latest)
  }

  /** Each live frame counts its own presentations, in 32 bits. */
  ghost predicate Counted(log: seq<Presentation>, t: Timeline)
    requires Sized(t)
  {
    forall k | 0 <= k < FRAMES && t.frames[k].sequence != 0 ::
      t.frames[k].presentations == CountFor(log, t.epoch, t.frames[k].sequence) % GENERATIONS
  }

  /** The ring holds exactly the newest presentations of the log. */
  ghost predicate RingHolds(log: seq<Presentation>, t: Timeline)
    requires Sized(t) && t.nextPresentation <= |log|
  {
    forall k | 0 <= k < PRESENTATIONS && 1 <= t.presentations[k].sequence <= t.nextPresentation ::
      t.presentations[k] == log[|log| - t.nextPresentation + t.presentations[k].sequence - 1]
  }

  lemma {:induction false} CountNone(log: seq<Presentation>, epoch: nat, render: nat)
    requires forall i | 0 <= i < |log| :: log[i].epoch != epoch || log[i].render != render
    ensures CountFor(log, epoch, render) == 0
  {
    if log != [] {
      CountNone(log[..|log| - 1], epoch, render);
    }
  }

  ghost predicate LogOk(log: seq<Presentation>, t: Timeline) {
    Sized(t) && Numbered(log, t) && Counted(log, t) && RingHolds(log, t)
  }

  lemma CreateKeepsLog(t: Timeline, f: Frontend, id: nat, log: seq<Presentation>)
    requires Inv(t) && UsableId(f, id) && LogOk(log, t)
    ensures LogOk(log, Create(t, f, id))
  {
    var t' := Create(t, f, id);
    CountNone(log, t.epoch, t.latest + 1);
    assert t'.frames == t.frames[(t.latest + 1) % FRAMES := t'.frames[(t.latest + 1) % FRAMES]];
    FramesKeepLog(t, t', log, (t.latest + 1) % FRAMES);
  }

  /** Changing one frame, its count included, keeps the books if its new count is right. */
  lemma FramesKeepLog(t: Timeline, t': Timeline, log: seq<Presentation>, k: nat)
    requires LogOk(log, t) && Sized(t') && k < FRAMES && t'.frames == t.frames[k := t'.frames[k]]
    requires t'.epoch == t.epoch && t'.latest >= t.latest
    requires t'.nextPresentation == t.nextPresentation && t'.presentations == t.presentations
    requires t'.frames[k].sequence != 0 ==>
      t'.frames[k].presentations == CountFor(log, t.epoch, t'.frames[k].sequence) % GENERATIONS
    ensures LogOk(log, t')
  {
  }

  lemma FirstStageKeepsLog(t: Timeline, op: Op, o: Outcome, t1: Timeline, log: seq<Presentation>)
    requires Inv(t) && FirstStage(t, op, o, t1) && LogOk(log, t)
    ensures LogOk(log, t1)
  {
    if o.attached.Some? && o.created {
      CreateKeepsLog(t, op.f, op.id, log);
    } else if o.attached.Some? {
      var k :| 0 <= k < FRAMES && t.frames[k].sequence == o.attached.value
               && t.last[IndexOf(op.f).value] < o.attached.value && t1 == Attach(t, op.f, op.id, k);
      assert t1.frames == t.frames[k := t1.frames[k]];
      FramesKeepLog(t, t1, log, k);
    }
  }

  lemma PublishKeepsLog(t1: Timeline, k: nat, f: Frontend, id: nat, interpolated: bool, log: seq<Presentation>)
    requires Inv(t1) && k < FRAMES && t1.frames[k].sequence != 0
    requires LogOk(log, t1)
    ensures var p := NextPresentation(t1, k, f, id, interpolated);
      var t' := AddPresentation(t1, k, p);
      && LogOk(log + [p], t')
      && p.generation == (CountFor(log, p.epoch, p.render) + 1) % GENERATIONS
  {
    var p := NextPresentation(t1, k, f, id, interpolated);
    assert FrameOk(t1, k);
    PublishKeepsCounted(t1, k, p, log);
    PublishKeepsRing(t1, k, p, log);
  }

  lemma PublishKeepsCounted(t: Timeline, k: nat, p: Presentation, log: seq<Presentation>)
    requires Inv(t) && Sized(t) && k < FRAMES && t.frames[k].sequence != 0 && Counted(log, t)
    requires p.epoch == t.epoch && p.render == t.frames[k].sequence
    requires p.generation == (t.frames[k].presentations + 1) % GENERATIONS
    ensures Counted(log + [p], AddPresentation(t, k, p))
    ensures p.generation == (CountFor(log, p.epoch, p.render) + 1) % GENERATIONS
  {
    hide Inv, FrameOk;
    var t' := AddPresentation(t, k, p);
    NextOfWrapped(CountFor(log, p.epoch, p.render));
    forall j | 0 <= j < FRAMES && t'.frames[j].sequence != 0
      ensures t'.frames[j].presentations == CountFor(log + [p], t'.epoch, t'.frames[j].sequence) % GENERATIONS
    {
      CountOneMore(log, p, t.epoch, t.frames[j].sequence);
      DistinctTokens(t, j, k);
    }
  }

  lemma CountOneMore(log: seq<Presentation>, p: Presentation, epoch: nat, render: nat)
    ensures CountFor(log + [p], epoch, render)
      == CountFor(log, epoch, render) + if p.epoch == epoch && p.render == render then 1 else 0
  {
    assert (log + [p])[..|log|] == log;
  }

  lemma NextOfWrapped(n: nat)
    ensures (n % GENERATIONS + 1) % GENERATIONS == (n + 1) % GENERATIONS
  {
  }

  lemma DistinctTokens(t: Timeline, j: nat, k: nat)
    requires Inv(t) && j < FRAMES && k < FRAMES && t.frames[j].sequence != 0
    ensures t.frames[j].sequence == t.frames[k].sequence ==> j == k
  {
    assert FrameOk(t, j) && FrameOk(t, k);
  }

  lemma PublishKeepsRing(t: Timeline, k: nat, p: Presentation, log: seq<Presentation>)
    requires Sized(t) && k < FRAMES && Numbered(log, t) && RingHolds(log, t)
    requires PresentationRing(t.presentations, t.nextPresentation, t.epoch)
    requires p.epoch == t.epoch && p.sequence == t.nextPresentation + 1 && 1 <= p.render <= t.latest
    ensures Numbered(log + [p], AddPresentation(t, k, p)) && RingHolds(log + [p], AddPresentation(t, k, p))
  {
  }

  lemma MarkKeepsLog(t: Timeline, k: nat, m: Marker, log: seq<Presentation>)
    requires LogOk(log, t) && k < FRAMES
    ensures LogOk(log, AddMarker(t, k, m))
  {
    FramesKeepLog(t, AddMarker(t, k, m), log, k);
  }

  lemma StepKeepsLog(t: Timeline, op: Op, log: seq<Presentation>)
    requires Inv(t) && LogOk(log, t)
    ensures var (t', o) := Step(t, op);
      var log' := log + if o.presentation.Some? then [o.presentation.value] else [];
      && LogOk(log', t')
      && (o.presentation.Some? ==>
          o.presentation.value.generation
            == (CountFor(log, o.presentation.value.epoch, o.presentation.value.render) + 1) % GENERATIONS)
  {
    hide Step, LogOk, Inv, FirstStage, SecondStage, CountFor;
    if IsCall(op) {
      var t1 := CallStages(t, op);
      FirstStageKeepsLog(t, op, Step(t, op).1, t1, log);
      SecondStageKeepsLog(t1, op, Step(t, op).1, Step(t, op).0, log);
    } else {
      AdministrationKeepsLog(t, op, log);
    }
  }

  lemma AdministrationKeepsLog(t: Timeline, op: Op, log: seq<Presentation>)
    requires LogOk(log, t) && !IsCall(op)
    ensures Step(t, op).1.presentation.None? && LogOk(log, Step(t, op).0) && log + [] == log
  {
    hide CountFor;
    assert log + [] == log;
  }

  lemma SecondStageKeepsLog(t1: Timeline, op: Op, o: Outcome, t': Timeline, log: seq<Presentation>)
    requires Inv(t1) && SecondStage(t1, op, o, t') && LogOk(log, t1)
    ensures LogOk(log + if o.presentation.Some? then [o.presentation.value] else [], t')
    ensures o.presentation.Some? ==>
      o.presentation.value.generation
        == (CountFor(log, o.presentation.value.epoch, o.presentation.value.render) + 1) % GENERATIONS
  {
    hide Inv, LogOk, CountFor, AddMarker, AddPresentation, NextPresentation;
    assert log + [] == log;
    if o.presentation.Some? {
      var k :| 0 <= k < FRAMES && t1.frames[k].sequence != 0
             && o.presentation.value == NextPresentation(t1, k, op.f, op.id, op.interpolated)
             && t' == AddPresentation(t1, k, o.presentation.value);
      PublishKeepsLog(t1, k, op.f, op.id, op.interpolated, log);
    } else if o.frame.Some? && op.Mark? {
      var k :| 0 <= k < FRAMES && t' == AddMarker(t1, k, op.m);
      MarkKeepsLog(t1, k, op.m, log);
    }
  }

  lemma {:induction false} PlayKeepsLog(ops: seq<Op>)
    ensures LogOk(PublishedLog(ops), Play(ops))
  {
    if ops != [] {
      PlayKeepsLog(ops[..|ops| - 1]);
      PlayKeepsInv(ops[..|ops| - 1]);
      StepKeepsLog(Play(ops[..|ops| - 1]), ops[|ops| - 1], PublishedLog(ops[..|ops| - 1]));
    } else {
      ClearedIsInv(1);
    }
  }

  /**
   * The presentations that name one render token carry the generations 1, 2, 3
   * and so on, in order, counted in 32 bits: the generation is the true count
   * as long as that fits, and starts over at 0 every 2^32 presentations.
   */
  lemma GenerationsCountUp(ops: seq<Op>, i: nat)
    requires i < |PublishedLog(ops)|
    ensures var log := PublishedLog(ops);
      var count := CountFor(log[..i], log[i].epoch, log[i].render) + 1;
      log[i].generation == count % GENERATIONS && (count < GENERATIONS ==> log[i].generation == count)
  {
    hide PublishedLog;
    PublishedAreCounted(ops);
    assert CountedAt(PublishedLog(ops), i);
  }

  ghost predicate CountedAt(log: seq<Presentation>, i: nat)
    requires i < |log|
  {
    log[i].generation == (CountFor(log[..i], log[i].epoch, log[i].render) + 1) % GENERATIONS
  }

  lemma {:induction false} PublishedAreCounted(ops: seq<Op>)
    ensures forall i | 0 <= i < |PublishedLog(ops)| :: CountedAt(PublishedLog(ops), i)
  {
    hide Play, Step, LogOk, Inv, CountedAt;
    if ops != [] {
      var n := |ops| - 1;
      var log := PublishedLog(ops[..n]);
      PublishedAreCounted(ops[..n]);
      PlayKeepsLog(ops[..n]);
      PlayKeepsInv(ops[..n]);
      StepKeepsLog(Play(ops[..n]), ops[n], log);
      assert log + [] == log;
      if OutcomeAt(ops, n).presentation.Some? {
        CountedAppend(log, OutcomeAt(ops, n).presentation.value);
      }
    }
  }

  lemma CountedAppend(log: seq<Presentation>, p: Presentation)
    requires forall i | 0 <= i < |log| :: CountedAt(log, i)
    requires p.generation == (CountFor(log, p.epoch, p.render) + 1) % GENERATIONS
    ensures forall i | 0 <= i < |log + [p]| :: CountedAt(log + [p], i)
  {
    forall i | 0 <= i < |log + [p]| ensures CountedAt(log + [p], i) {
      assert i < |log| ==> CountedAt(log, i);
      assert (log + [p])[..i] == log[..i];
    }
  }

  /** Presentation sequences strictly increase within an epoch. */
  lemma PresentationsIncrease(ops: seq<Op>, i: nat, j: nat)
    requires i < j < |PublishedLog(ops)| && PublishedLog(ops)[i].epoch == PublishedLog(ops)[j].epoch
    ensures PublishedLog(ops)[i].sequence < PublishedLog(ops)[j].sequence
  {
    LogIsSorted(ops);
  }

  /** Later in the log means a later epoch, or a larger sequence in the same one. */
  ghost predicate Sorted(log: seq<Presentation>) {
    forall i, j | 0 <= i < j < |log| ::
      log[i].epoch < log[j].epoch || (log[i].epoch == log[j].epoch && log[i].sequence < log[j].sequence)
  }

  /** A published presentation takes the next number of the current epoch. */
  lemma PublishedIsNext(t: Timeline, op: Op)
    requires Inv(t) && Step(t, op).1.presentation.Some?
    ensures var p := Step(t, op).1.presentation.value; p.epoch == t.epoch && p.sequence == t.nextPresentation + 1
  {
    OnlyCallsHandOut(t, op);
    hide Step, Inv;
    var o := Step(t, op).1;
    var t1 := CallStages(t, op);
    var k :| 0 <= k < FRAMES && t1.frames[k].sequence != 0
           && o.presentation.value == NextPresentation(t1, k, op.f, op.id, op.interpolated);
    LiveFrame(t1, k);
    FirstStageCounters(t, op, o, t1);
  }

  lemma NextIsLater(log: seq<Presentation>, t: Timeline, p: Presentation)
    requires Sorted(log) && Numbered(log, t) && p.epoch == t.epoch && p.sequence == t.nextPresentation + 1
    ensures Sorted(log + [p])
  {
  }

  lemma {:induction false} LogIsSorted(ops: seq<Op>)
    ensures Sorted(PublishedLog(ops))
  {
    if ops != [] {
      var n := |ops| - 1;
      LogIsSorted(ops[..n]);
      PlayKeepsLog(ops[..n]);
      PlayKeepsInv(ops[..n]);
      if OutcomeAt(ops, n).presentation.Some? {
        PublishedIsNext(Play(ops[..n]), ops[n]);
        NextIsLater(PublishedLog(ops[..n]), Play(ops[..n]), OutcomeAt(ops, n).presentation.value);
      }
    }
  }

  /**
   * Looking up a presentation answers if and only if it was published in the
   * current epoch, fewer than 128 later ones exist and its 32-bit generation is
   * not the one that wrapped to 0; the answer is then precisely the token that
   * was published.
   */
  lemma LookupAnswersThePublished(ops: seq<Op>, epoch: nat, sequence: nat)
    ensures LookupIsExact(Play(ops), PublishedLog(ops), epoch, sequence)
  {
    RingOfPlay(ops);
    LookupReadsTheLog(Play(ops), PublishedLog(ops), epoch, sequence);
  }

  ghost predicate LookupIsExact(t: Timeline, log: seq<Presentation>, epoch: nat, sequence: nat)
    requires Sized(t)
  {
    var answer := LookupPresentation(t, epoch, sequence);
    && t.nextPresentation <= |log|
    && if epoch == t.epoch && 1 <= sequence <= t.nextPresentation < sequence + PRESENTATIONS then
         var p := log[|log| - t.nextPresentation + sequence - 1];
         && answer == (if p.generation != 0 then Some(p) else None)
         && p.epoch == epoch && p.sequence == sequence
       else answer == None
  }

  lemma RingOfPlay(ops: seq<Op>)
    ensures var t, log := Play(ops), PublishedLog(ops);
      && t.epoch >= 1 && PresentationRing(t.presentations, t.nextPresentation, t.epoch)
      && Numbered(log, t) && RingHolds(log, t)
  {
    PlayKeepsLog(ops);
    PlayKeepsInv(ops);
  }

  lemma LookupReadsTheLog(t: Timeline, log: seq<Presentation>, epoch: nat, sequence: nat)
    requires Sized(t) && t.epoch >= 1 && PresentationRing(t.presentations, t.nextPresentation, t.epoch)
    requires Numbered(log, t) && RingHolds(log, t)
    ensures LookupIsExact(t, log, epoch, sequence)
  {
    var k := sequence % PRESENTATIONS;
    assert PresentationOk(t.presentations[k], k, t.nextPresentation, t.epoch);
  }

  /** One frontend paces one frame and presents it n times. */
  function PresentedHistory(n: nat): seq<Op> {
    [FreezeOwners(map[Pacing := Reflex, FrameGeneration := Reflex]), Pace(Reflex, 1)]
    + seq(n, _ => Present(Reflex, 1, false))
  }

  ghost predicate PresentedTimes(t: Timeline, n: nat) {
    && Sized(t) && t.owners == Some(map[Pacing := Reflex, FrameGeneration := Reflex])
    && t.bindings[0][1] == Binding(1, 1, 1) && t.frames[1].sequence == t.frames[1].epoch == 1
    && t.nextPresentation == n && t.frames[1].presentations == n % GENERATIONS
    && (n > 0 ==>
        var p := t.presentations[n % PRESENTATIONS];
        p.sequence == n && p.epoch == p.render == 1 && p.generation == n % GENERATIONS)
  }

  lemma PresentedOnceMore(t: Timeline, n: nat)
    requires PresentedTimes(t, n)
    ensures PresentedTimes(Step(t, Present(Reflex, 1, false)).0, n + 1)
  {
    NextOfWrapped(n);
    assert Lookup(t, Reflex, 1) == Some(1);
  }

  lemma PacedOnce()
    ensures PresentedTimes(Play(PresentedHistory(0)), 0)
  {
    var ops := PresentedHistory(0);
    assert ops == [ops[0], ops[1]] && ops[..1] == [ops[0]] && ops[..1][..0] == [];
    var frozen := Step(Cleared(1), ops[0]).0;
    assert Play(ops[..1]) == frozen;
    assert Lookup(frozen, Reflex, 1) == None;
  }

  lemma {:induction false} HistoryPresents(n: nat)
    ensures PresentedTimes(Play(PresentedHistory(n)), n)
  {
    hide Step, PresentedTimes;
    if n == 0 {
      PacedOnce();
    } else {
      HistoryPresents(n - 1);
      PresentedOnceMore(Play(PresentedHistory(n - 1)), n - 1);
      var ops := PresentedHistory(n);
      assert ops[..|ops| - 1] == PresentedHistory(n - 1) && ops[|ops| - 1] == Present(Reflex, 1, false);
    }
  }

  /**
   * The wrap is reached: a frame presented n times in a row finds its newest
   * presentation if and only if n is not a multiple of 2^32. The history of 2^32
   * calls of one native ID ends in a presentation that cannot be looked up.
   */
  lemma GenerationWraps(n: nat)
    requires n > 0
    ensures var t := Play(PresentedHistory(n));
      t.nextPresentation == n && (LookupPresentation(t, 1, n).None? <==> n % GENERATIONS == 0)
  {
    hide Play, PresentedHistory;
    HistoryPresents(n);
  }

  // ------------------------------------------------------------- freeze, lookups

  lemma LastCall(ops: seq<Op>)
    requires ops != []
    ensures Play(ops) == Step(Play(ops[..|ops| - 1]), ops[|ops| - 1]).0
  {
    hide Step;
  }

  lemma FrozenStep(t: Timeline, op: Op)
    requires Sized(t) && t.owners.Some? && !op.Reset?
    ensures Step(t, op).0.owners == t.owners
  {
    hide Establish, Resolve, NextPresentation, TokenFrom, AspectForMarker;
  }

  /** Startup freezes once: from a state with owners, whatever is called up to the next reset, they stay the same. */
  lemma {:induction false} FrozenUntilReset(ops: seq<Op>, i: nat, j: nat)
    requires i <= j <= |ops| && Play(ops[..i]).owners.Some?
    requires forall k | i <= k < j :: !ops[k].Reset?
    ensures Play(ops[..j]).owners == Play(ops[..i]).owners
    decreases j
  {
    hide Step, Play;
    if i < j {
      FrozenUntilReset(ops, i, j - 1);
      assert ops[..j][..j - 1] == ops[..j - 1];
      LastCall(ops[..j]);
      FrozenStep(Play(ops[..j - 1]), ops[j - 1]);
    }
  }

  lemma OnlyCallsHandOut(t: Timeline, op: Op)
    requires Sized(t) && (Step(t, op).1.frame.Some? || Step(t, op).1.presentation.Some?)
    ensures IsCall(op)
  {
    hide Establish, Resolve;
  }

  lemma PacingOwnerIsSomebody(t: Timeline, k: nat)
    requires Inv(t) && k < FRAMES && t.frames[k].sequence != 0
    ensures OwnerOf(t, Pacing) != Auto
  {
    assert FrameOk(t, k);
  }

  /** Every frame token handed out names the frozen pacing owner as its pacing source. */
  lemma TokensNameThePacingOwner(ops: seq<Op>, i: nat)
    requires i < |ops| && OutcomeAt(ops, i).frame.Some?
    ensures var t, token := Play(ops[..i]), OutcomeAt(ops, i).frame.value;
      && token.pacing == OwnerOf(t, Pacing) != Auto
      && token.epoch == t.epoch && 1 <= token.sequence
  {
    hide Play, Step, Inv;
    var t, op := Play(ops[..i]), ops[i];
    PlayKeepsInv(ops[..i]);
    OnlyCallsHandOut(t, op);
    var t1 := CallStages(t, op);
    var k :| 0 <= k < FRAMES && t1.frames[k].sequence != 0
             && OutcomeAt(ops, i).frame.value == TokenFrom(t1.frames[k], op.id);
    LiveFrame(t1, k);
    PacingOwnerIsSomebody(t1, k);
  }

  /**
   * A native ID keeps its token: after any call, a lookup that answered answers
   * the same frame, unless that frame's slot or the binding's slot was reused.
   */
  lemma LookupIsStable(t: Timeline, op: Op, f: Frontend, id: nat)
    requires Inv(t) && !op.Reset? && Lookup(t, f, id).Some?
    ensures LookupKept(t, Step(t, op).0, f, id, Lookup(t, f, id).value)
  {
    if IsCall(op) {
      var t1 := CallStages(t, op);
      FirstStageKeepsLookup(t, op, Step(t, op).1, t1, f, id);
      SecondStageKeepsLookup(t1, op, Step(t, op).1, Step(t, op).0, f, id);
    }
  }

  /** What may have become of a lookup that used to answer slot k. */
  ghost predicate LookupKept(t: Timeline, t1: Timeline, f: Frontend, id: nat, k: nat)
    requires Sized(t) && Sized(t1) && IndexOf(f).Some? && k < FRAMES
  {
    || (Lookup(t1, f, id) == Some(k) && t1.frames[k].sequence == t.frames[k].sequence)
    || t1.frames[k].sequence > t.frames[k].sequence
    || t1.bindings[IndexOf(f).value][id % FRAMES].native != id
  }

  lemma FirstStageKeepsLookup(t: Timeline, op: Op, o: Outcome, t1: Timeline, f: Frontend, id: nat)
    requires Inv(t) && FirstStage(t, op, o, t1) && Lookup(t, f, id).Some?
    ensures LookupKept(t, t1, f, id, Lookup(t, f, id).value)
  {
    if o.attached.Some? && o.created {
      CreateKeepsLookup(t, op.f, op.id, f, id);
    } else if o.attached.Some? {
      var k :| 0 <= k < FRAMES && t.frames[k].sequence == o.attached.value
               && t.last[IndexOf(op.f).value] < o.attached.value && t1 == Attach(t, op.f, op.id, k);
      AttachKeepsLookup(t, op.f, op.id, k, f, id);
    }
  }

  lemma CreateKeepsLookup(t: Timeline, g: Frontend, new': nat, f: Frontend, id: nat)
    requires Inv(t) && UsableId(g, new') && Lookup(t, f, id).Some? && (g, new') != (f, id)
    ensures LookupKept(t, Create(t, g, new'), f, id, Lookup(t, f, id).value)
  {
    var k := Lookup(t, f, id).value;
    assert FrameOk(t, k);
    assert k == (t.latest + 1) % FRAMES ==> Create(t, g, new').frames[k].sequence == t.latest + 1;
  }

  lemma AttachKeepsLookup(t: Timeline, g: Frontend, new': nat, at: nat, f: Frontend, id: nat)
    requires Inv(t) && UsableId(g, new') && Lookup(t, f, id).Some? && (g, new') != (f, id) && at < FRAMES
    ensures LookupKept(t, Attach(t, g, new', at), f, id, Lookup(t, f, id).value)
  {
  }

  lemma SecondStageKeepsLookup(t1: Timeline, op: Op, o: Outcome, t': Timeline, f: Frontend, id: nat)
    requires Inv(t1) && SecondStage(t1, op, o, t')
    ensures Sized(t') && t'.bindings == t1.bindings && Lookup(t', f, id) == Lookup(t1, f, id)
    ensures forall k | 0 <= k < FRAMES :: t'.frames[k].sequence == t1.frames[k].sequence
  {
    hide Inv, NextPresentation, TokenFrom, Lookup;
    if o.frame.Some? && op.Mark? {
      var k :| 0 <= k < FRAMES && t' == AddMarker(t1, k, op.m);
    } else if o.presentation.Some? {
      var k :| 0 <= k < FRAMES && t' == AddPresentation(t1, k, o.presentation.value);
    }
    SameTokensSameLookup(t1, t', f, id);
  }

  lemma SameTokensSameLookup(t: Timeline, t': Timeline, f: Frontend, id: nat)
    requires Sized(t) && Sized(t') && t'.bindings == t.bindings
    requires forall k | 0 <= k < FRAMES ::
      t'.frames[k].sequence == t.frames[k].sequence && t'.frames[k].epoch == t.frames[k].epoch
    ensures Lookup(t', f, id) == Lookup(t, f, id)
  {
    hide Sized;
  }
}
