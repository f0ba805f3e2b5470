/**
 * The HybridFusion frame timeline in sequential runs: four frontends with
 * independent native frame IDs share one strictly increasing token sequence.
 *
 * Tokens live in a ring of 64 frames and each frontend has 64 bindings from
 * native ID to token, both indexed modulo 64; presentations live in a ring of
 * 128, and a frame counts its own in 32 bits. Native IDs are 64-bit and IDs 0 and
 * 2^64 - 1 are reserved; sequences and epochs are unbounded, so they never meet
 * the reserved value.
 */
module HybridTimeline {
  import opened Frontends
  import opened Options

  const FRAMES: nat := 64
  const PRESENTATIONS: nat := 128
  const GENERATIONS: nat := 0x1_0000_0000
  const BUSY: nat := 0xffff_ffff_ffff_ffff

  datatype Frame = Frame(
    sequence: nat, epoch: nat, transport: nat, ids: seq<nat>, markers: set<Marker>,
    pacing: Frontend, presentations: nat)

  datatype Binding = Binding(native: nat, epoch: nat, sequence: nat)

  datatype Presentation = Presentation(
    sequence: nat, epoch: nat, render: nat, generation: nat, interpolated: bool,
    source: Frontend, transport: nat, native: nat)

  datatype FrameToken = FrameToken(epoch: nat, sequence: nat, pacing: Frontend, transport: nat, native: nat)

  datatype Timeline = Timeline(
    epoch: nat, next: nat, latest: nat, nextPresentation: nat, transport: nat,
    frames: seq<Frame>, bindings: seq<seq<Binding>>, last: seq<nat>,
    presentations: seq<Presentation>, owners: Option<map<Aspect, Frontend>>)

  const EMPTY_FRAME := Frame(0, 0, 0, [0, 0, 0, 0], {}, Auto, 0)
  const EMPTY_BINDING := Binding(0, 0, 0)
  const EMPTY_PRESENTATION := Presentation(0, 0, 0, 0, false, Auto, 0, 0)

  predicate Sized(t: Timeline) {
    && |t.frames| == FRAMES && |t.presentations| == PRESENTATIONS
    && |t.bindings| == FRONTENDS && |t.last| == FRONTENDS
    && (forall i | 0 <= i < FRONTENDS :: |t.bindings[i]| == FRAMES)
    && (forall k | 0 <= k < FRAMES :: |t.frames[k].ids| == FRONTENDS)
  }

  function Cleared(epoch: nat): (t: Timeline)
    ensures Sized(t)
  {
    Timeline(epoch, 0, 0, 0, 0,
      seq(FRAMES, _ => EMPTY_FRAME), seq(FRONTENDS, _ => seq(FRAMES, _ => EMPTY_BINDING)), [0, 0, 0, 0],
      seq(PRESENTATIONS, _ => EMPTY_PRESENTATION), None)
  }

  predicate UsableId(f: Frontend, id: nat) {
    IndexOf(f).Some? && id != 0 && id != BUSY
  }

  /** The frozen owner of an aspect; Auto while nothing is frozen or nobody owns it. */
  function OwnerOf(t: Timeline, a: Aspect): Frontend {
    if t.owners.Some? && a in t.owners.value then t.owners.value[a] else Auto
  }

  // -------------------------------------------------------------- operations

  /** frame_for_token */
  function FrameFor(t: Timeline, epoch: nat, sequence: nat): (k: Option<nat>)
    requires Sized(t)
    ensures k.Some? ==> k.value < FRAMES && t.frames[k.value].sequence == sequence != 0
  {
    var k := sequence % FRAMES;
    if epoch == 0 || sequence == 0 then None
    else if t.frames[k].sequence != sequence || t.frames[k].epoch != epoch then None
    else Some(k)
  }

  /** lookup_source_frame */
  function Lookup(t: Timeline, f: Frontend, id: nat): (k: Option<nat>)
    requires Sized(t)
    ensures k.Some? ==> k.value < FRAMES && t.frames[k.value].sequence != 0
  {
    if !UsableId(f, id) then None else
    var b := t.bindings[IndexOf(f).value][id % FRAMES];
    if b.native != id then None else FrameFor(t, b.epoch, b.sequence)
  }

  /** publish_source_binding */
  function PublishBinding(t: Timeline, f: Frontend, id: nat, k: nat): (t': Timeline)
    requires Sized(t) && k < FRAMES
    ensures Sized(t') && t'.frames == t.frames && t'.owners == t.owners
  {
    var frame := t.frames[k];
    if !UsableId(f, id) || frame.epoch == 0 || frame.sequence == 0 then t else
    var i := IndexOf(f).value;
    t.(bindings := t.bindings[i := t.bindings[i][id % FRAMES := Binding(id, frame.epoch, frame.sequence)]],
       last := t.last[i := if t.last[i] < frame.sequence then frame.sequence else t.last[i]])
  }

  /** The token a not yet bound native ID of a secondary frontend should attach to. */
  function BindTarget(t: Timeline, f: Frontend, id: nat): Option<nat>
    requires Sized(t)
  {
    if !UsableId(f, id) || t.latest == 0 then None else
    var i := IndexOf(f).value;
    var last := t.last[i];
    if t.latest <= last then None else
    var gap := t.latest - last;
    if last != 0 && 1 < gap < FRAMES then
      var previous := FrameFor(t, t.epoch, last);
      if previous.None? then None else
      var native := t.frames[previous.value].ids[i];
      if native == 0 || id <= native || id - native > gap then None
      else Some(last + (id - native))
    else Some(t.latest)
  }

  /** bind_source_to_latest: the frame, and whether the frontend was newly attached to it. */
  function BindToLatest(t: Timeline, f: Frontend, id: nat): (r: (Timeline, Option<nat>, bool))
    requires Sized(t)
    ensures Sized(r.0) && r.0.owners == t.owners
    ensures r.1.Some? ==> r.1.value < FRAMES && r.0.frames[r.1.value].sequence != 0
  {
    if !UsableId(f, id) then (t, None, false) else
    var existing := Lookup(t, f, id);
    if existing.Some? then (t, existing, false) else
    var target := BindTarget(t, f, id);
    if target.None? then (t, None, false) else
    var k := FrameFor(t, t.epoch, target.value);
    if k.None? then (t, None, false) else
    var i := IndexOf(f).value;
    var frame := t.frames[k.value];
    if frame.ids[i] != 0 && frame.ids[i] != id then (t, None, false) else
    var t1 := t.(frames := t.frames[k.value := frame.(ids := frame.ids[i := id])]);
    (PublishBinding(t1, f, id, k.value), k, true)
  }

  /** establish_canonical_frame: the frame, and whether it was newly created. */
  function Establish(t: Timeline, f: Frontend, id: nat): (r: (Timeline, Option<nat>, bool))
    requires Sized(t)
    ensures Sized(r.0) && r.0.owners == t.owners
    ensures r.1.Some? ==> r.1.value < FRAMES && r.0.frames[r.1.value].sequence != 0
  {
    if !UsableId(f, id) then (t, None, false) else
    var existing := Lookup(t, f, id);
    if existing.Some? then (t, existing, false) else
    var sequence := t.next + 1;
    var k := sequence % FRAMES;
    var frame := Frame(sequence, t.epoch, t.transport, [0, 0, 0, 0][IndexOf(f).value := id], {}, f, 0);
    var t1 := PublishBinding(t.(next := sequence, frames := t.frames[k := frame]), f, id, k);
    (t1.(latest := sequence), Some(k), true)
  }

  function TokenFrom(frame: Frame, id: nat): FrameToken {
    FrameToken(frame.epoch, frame.sequence, frame.pacing, frame.transport, id)
  }

  /**
   * What one call did besides returning: `attached` when a frontend was newly
   * attached to a token, `created` when a token was created.
   */
  datatype Outcome = Outcome(
    frame: Option<FrameToken>, presentation: Option<Presentation>,
    attached: Option<nat>, created: bool)

  const NOTHING := Outcome(None, None, None, false)

  /** The frame a marker or presentation of a non-pacing frontend goes to. */
  function Resolve(t: Timeline, f: Frontend, id: nat): (r: (Timeline, Option<nat>, bool))
    requires Sized(t)
    ensures Sized(r.0) && r.0.owners == t.owners
    ensures r.1.Some? ==> r.1.value < FRAMES && r.0.frames[r.1.value].sequence != 0
  {
    var found := Lookup(t, f, id);
    if found.Some? then (t, found, false) else BindToLatest(t, f, id)
  }

  /** canonicalize_pacing_observation */
  function PacingObservation(t: Timeline, f: Frontend, id: nat): (r: (Timeline, Outcome))
    requires Sized(t)
    ensures Sized(r.0)
  {
    if f == Auto || id == 0 || id == BUSY || t.owners.None? || OwnerOf(t, Pacing) != f then (t, NOTHING) else
    var (t1, k, created) := Establish(t, f, id);
    if k.None? then (t1, NOTHING) else
    var frame := t1.frames[k.value];
    (t1, Outcome(Some(TokenFrom(frame, id)), None, if created then Some(frame.sequence) else None, created))
  }

  /** canonicalize_marker_locked */
  function CanonicalizeMarker(t: Timeline, f: Frontend, m: Marker, id: nat): (r: (Timeline, Outcome))
    requires Sized(t)
    ensures Sized(r.0)
  {
    if f == Auto || id == 0 || t.owners.None? || OwnerOf(t, Pacing) == Auto then (t, NOTHING) else
    var pacing := OwnerOf(t, Pacing);
    var (t1, k1, created) := if f == pacing then Establish(t, pacing, id) else (t, None, false);
    var made := if created then Some(t1.frames[k1.value].sequence) else None;
    if OwnerOf(t, AspectForMarker(m)) != f then (t1, Outcome(None, None, made, created)) else
    var (t2, k2, bound) := if k1.Some? then (t1, k1, false) else Resolve(t1, f, id);
    if k2.None? then (t2, Outcome(None, None, made, created)) else
    var frame := t2.frames[k2.value];
    var attached := if created || bound then Some(frame.sequence) else None;
    if m in frame.markers then (t2, Outcome(None, None, attached, created)) else
    (AddMarker(t2, k2.value, m), Outcome(Some(TokenFrom(frame, id)), None, attached, created))
  }

  function AddMarker(t: Timeline, k: nat, m: Marker): (t': Timeline)
    requires Sized(t) && k < FRAMES
    ensures Sized(t')
  {
    t.(frames := t.frames[k := t.frames[k].(markers := t.frames[k].markers + {m})])
  }

  /** canonicalize_fg_presentation_locked */
  function CanonicalizePresentation(t: Timeline, f: Frontend, id: nat, interpolated: bool): (r: (Timeline, Outcome))
    requires Sized(t)
    ensures Sized(r.0)
  {
    if f == Auto || id == 0 || t.owners.None? || OwnerOf(t, FrameGeneration) != f then (t, NOTHING) else
    var (t1, k, bound) := Resolve(t, f, id);
    if k.None? then (t1, NOTHING) else
    var frame := t1.frames[k.value];
    var attached := if bound then Some(frame.sequence) else None;
    if frame.epoch == 0 then (t1, Outcome(None, None, attached, false)) else
    var p := NextPresentation(t1, k.value, f, id, interpolated);
    (AddPresentation(t1, k.value, p), Outcome(None, Some(p), attached, false))
  }

  /** The presentation token the k-th frame produces next. */
  function NextPresentation(t: Timeline, k: nat, f: Frontend, id: nat, interpolated: bool): Presentation
    requires Sized(t) && k < FRAMES
  {
    var frame := t.frames[k];
    Presentation(t.nextPresentation + 1, frame.epoch, frame.sequence, (frame.presentations + 1) % GENERATIONS,
      interpolated, f, frame.transport, id)
  }

  function AddPresentation(t: Timeline, k: nat, p: Presentation): (t': Timeline)
    requires Sized(t) && k < FRAMES
    ensures Sized(t')
  {
    t.(nextPresentation := p.sequence,
       frames := t.frames[k := t.frames[k].(presentations := p.generation)],
       presentations := t.presentations[p.sequence % PRESENTATIONS := p])
  }

  /** lookup_presentation */
  function LookupPresentation(t: Timeline, epoch: nat, sequence: nat): Option<Presentation>
    requires Sized(t)
  {
    if epoch == 0 || sequence == 0 then None else
    var p := t.presentations[sequence % PRESENTATIONS];
    if p.sequence != sequence || p.epoch != epoch then None
    else if p.render == 0 || p.generation == 0 then None
    else Some(p)
  }

  /** latest_canonical_frame */
  function LatestFrame(t: Timeline): Option<FrameToken>
    requires Sized(t)
  {
    var k := FrameFor(t, t.epoch, t.latest);
    if k.None? then None else Some(TokenFrom(t.frames[k.value], 0))
  }

  /** Freezing takes effect once; a second attempt finds the timeline locked. */
  function Freeze(t: Timeline, owners: map<Aspect, Frontend>): Timeline {
    if t.owners.Some? then t else t.(owners := Some(owners))
  }

  datatype Op =
    | Mark(f: Frontend, m: Marker, id: nat)
    | Pace(f: Frontend, id: nat)
    | Present(f: Frontend, id: nat, interpolated: bool)
    | FreezeOwners(owners: map<Aspect, Frontend>)
    | SetTransport(transport: nat)
    | Reset

  function Step(t: Timeline, op: Op): (r: (Timeline, Outcome))
    requires Sized(t)
    ensures Sized(r.0)
  {
    match op
    case Mark(f, m, id) => CanonicalizeMarker(t, f, m, id)
    case Pace(f, id) => PacingObservation(t, f, id)
    case Present(f, id, interpolated) => CanonicalizePresentation(t, f, id, interpolated)
    case FreezeOwners(owners) => (Freeze(t, owners), NOTHING)
    case SetTransport(transport) => (t.(transport := transport), NOTHING)
    case Reset => (Cleared(t.epoch + 1), NOTHING)
  }

  // ---------------------------------------------------------------- invariant

  /** Slot k holds the newest token that is k modulo 64, of this epoch, made by the pacing owner. */
  ghost predicate FrameOk(t: Timeline, k: nat)
    requires Sized(t) && k < FRAMES
  {
    var frame := t.frames[k];
    frame.sequence != 0 ==>
      && frame.sequence % FRAMES == k && frame.sequence <= t.latest < frame.sequence + FRAMES
      && frame.epoch == t.epoch && frame.pacing == OwnerOf(t, Pacing)
      && forall i | 0 <= i < FRONTENDS && t.last[i] < frame.sequence :: frame.ids[i] == 0
  }

  /** A binding names a token its own frontend reached; if that token is still alive, it carries this ID. */
  ghost predicate BindingOk(t: Timeline, i: nat, j: nat)
    requires Sized(t) && i < FRONTENDS && j < FRAMES
  {
    var b := t.bindings[i][j];
    b.native != 0 ==>
      && b.native % FRAMES == j && b.epoch == t.epoch && 1 <= b.sequence <= t.last[i]
      && (t.frames[b.sequence % FRAMES].sequence == b.sequence ==> t.frames[b.sequence % FRAMES].ids[i] == b.native)
  }

  /** Slot k of the presentation ring holds the newest presentation that is k modulo 128. */
  ghost predicate PresentationOk(p: Presentation, k: nat, newest: nat, epoch: nat) {
    p.sequence != 0 ==>
      && p.sequence % PRESENTATIONS == k && p.sequence <= newest < p.sequence + PRESENTATIONS
      && p.epoch == epoch && p.render != 0
  }

  ghost predicate PresentationRing(ring: seq<Presentation>, newest: nat, epoch: nat) {
    && |ring| == PRESENTATIONS
    && (forall s: nat | 1 <= s <= newest < s + PRESENTATIONS :: ring[s % PRESENTATIONS].sequence == s)
    && (forall k | 0 <= k < PRESENTATIONS :: PresentationOk(ring[k], k, newest, epoch))
  }

  ghost predicate Inv(t: Timeline) {
    && Sized(t) && t.epoch >= 1 && t.latest == t.next
    && (forall s: nat | 1 <= s <= t.latest < s + FRAMES :: t.frames[s % FRAMES].sequence == s)
    && (forall k | 0 <= k < FRAMES :: FrameOk(t, k))
    && (forall i, j | 0 <= i < FRONTENDS && 0 <= j < FRAMES :: BindingOk(t, i, j))
    && (forall i | 0 <= i < FRONTENDS :: t.last[i] <= t.latest)
    && (t.latest > 0 ==> t.owners.Some? && OwnerOf(t, Pacing) != Auto)
    && (OwnerOf(t, Pacing) != Auto ==> t.last[IndexOf(OwnerOf(t, Pacing)).value] == t.latest)
    && PresentationRing(t.presentations, t.nextPresentation, t.epoch)
  }

  // ------------------------------------------------------- single-step results

  /**
   * A lookup that answers, answers a live frame of the current epoch whose
   * recorded native ID for that frontend is the one asked for.
   */
  lemma LookupIsSound(t: Timeline, f: Frontend, id: nat)
    requires Inv(t) && Lookup(t, f, id).Some?
    ensures var frame := t.frames[Lookup(t, f, id).value];
      && frame.ids[IndexOf(f).value] == id && frame.epoch == t.epoch
      && 1 <= frame.sequence <= t.latest < frame.sequence + FRAMES
  {
    assert BindingOk(t, IndexOf(f).value, id % FRAMES);
    assert FrameOk(t, Lookup(t, f, id).value);
  }

  /** Every token of the last 64 is alive in its slot, and nothing else is. */
  lemma WindowIsExact(t: Timeline, sequence: nat)
    requires Inv(t)
    ensures FrameFor(t, t.epoch, sequence).Some? <==> 1 <= sequence <= t.latest < sequence + FRAMES
  {
    assert FrameOk(t, sequence % FRAMES);
  }

  /** Behind by more than one token and less than a ring, so that native IDs can tell which token is meant. */
  predicate CatchingUp(t: Timeline, i: nat)
    requires Sized(t) && i < FRONTENDS
  {
    t.last[i] != 0 && t.last[i] + 1 < t.latest < t.last[i] + FRAMES
  }

  /** Nothing new since its last token, or a native ID that names none of the tokens it has missed. */
  predicate RefusesToBind(t: Timeline, f: Frontend, id: nat)
    requires Sized(t)
  {
    !UsableId(f, id) ||
    var i := IndexOf(f).value;
    || t.latest <= t.last[i]
    || (CatchingUp(t, i) &&
        var native := t.frames[t.last[i] % FRAMES].ids[i];
        native == 0 || id <= native || id > native + (t.latest - t.last[i]))
  }

  /**
   * A secondary frontend finds no token to attach to exactly if its ID is
   * unusable, no token came after its last one, or, when it is catching up, its
   * ID is not past its last one by 1 up to the number of tokens missed.
   * Otherwise it attaches to a token strictly after its last one and not beyond
   * the newest; when it has fallen behind by less than a ring, the token
   * distance from its last token equals the native ID distance.
   */
  lemma BindTargetIsExact(t: Timeline, f: Frontend, id: nat)
    requires Inv(t)
    ensures BindTarget(t, f, id).None? <==> RefusesToBind(t, f, id)
    ensures BindTarget(t, f, id).Some? ==>
      var i, target := IndexOf(f).value, BindTarget(t, f, id).value;
      var gap := t.latest - t.last[i];
      && t.last[i] < target <= t.latest
      && FrameFor(t, t.epoch, target).Some?
      && t.frames[target % FRAMES].ids[i] == 0
      && (t.last[i] == 0 || gap == 1 || gap >= FRAMES ==> target == t.latest)
      && (t.last[i] != 0 && 1 < gap < FRAMES ==>
            target - t.last[i] == id - t.frames[t.last[i] % FRAMES].ids[i])
  {
    if UsableId(f, id) {
      WindowIsExact(t, t.last[IndexOf(f).value]);
    }
    if BindTarget(t, f, id).Some? {
      var target := BindTarget(t, f, id).value;
      WindowIsExact(t, target);
      assert FrameOk(t, target % FRAMES);
    }
  }

  /** The pacing owner creates tokens; it never attaches to somebody else's through the catch-up path. */
  lemma PacingOwnerNeverCatchesUp(t: Timeline, id: nat)
    requires Inv(t) && OwnerOf(t, Pacing) != Auto
    ensures BindTarget(t, OwnerOf(t, Pacing), id).None?
  {
  }

  // --------------------------------------------------------- steps keep it all

  lemma BindKeepsInv(t: Timeline, f: Frontend, id: nat)
    requires Inv(t)
    ensures var (t', k, bound) := BindToLatest(t, f, id);
      && Inv(t') && t' == t.(frames := t'.frames, bindings := t'.bindings, last := t'.last)
      && (k.None? ==> t' == t)
      && (bound ==> k.Some? && t'.frames[k.value] == t.frames[k.value].(ids := t'.frames[k.value].ids)
                    && t'.frames[k.value].sequence == t'.last[IndexOf(f).value] > t.last[IndexOf(f).value]
                    && t'.last == t.last[IndexOf(f).value := t'.last[IndexOf(f).value]]
                    && t'.frames == t.frames[k.value := t'.frames[k.value]])
      && (!bound ==> t' == t)
  {
    if UsableId(f, id) && Lookup(t, f, id).None? && BindTarget(t, f, id).Some? {
      var i, target := IndexOf(f).value, BindTarget(t, f, id).value;
      BindTargetIsExact(t, f, id);
      AttachKeepsInv(t, f, id, target % FRAMES);
    }
  }

  /** The state after attaching frontend f's native ID to the frame in slot k. */
  function Attach(t: Timeline, f: Frontend, id: nat, k: nat): (t': Timeline)
    requires Sized(t) && UsableId(f, id) && k < FRAMES
    ensures Sized(t')
  {
    var frame := t.frames[k];
    PublishBinding(t.(frames := t.frames[k := frame.(ids := frame.ids[IndexOf(f).value := id])]), f, id, k)
  }

  lemma AttachKeepsInv(t: Timeline, f: Frontend, id: nat, k: nat)
    requires Inv(t) && UsableId(f, id) && k < FRAMES
    requires t.last[IndexOf(f).value] < t.frames[k].sequence
    ensures Inv(Attach(t, f, id, k))
    ensures Attach(t, f, id, k).last == t.last[IndexOf(f).value := t.frames[k].sequence]
  {
    hide FrameOk, BindingOk, PresentationRing;
    var t' := Attach(t, f, id, k);
    AttachToLive(t, f, id, k);
    forall k' | 0 <= k' < FRAMES ensures FrameOk(t', k') {
      AttachKeepsFrame(t, f, id, k, k');
    }
    forall i', j | 0 <= i' < FRONTENDS && 0 <= j < FRAMES ensures BindingOk(t', i', j) {
      AttachKeepsBinding(t, f, id, k, i', j);
    }
  }

  /** A frame with a token is of this epoch and not beyond the newest one, so attaching binds the frontend to it. */
  lemma AttachToLive(t: Timeline, f: Frontend, id: nat, k: nat)
    requires Inv(t) && UsableId(f, id) && k < FRAMES
    requires t.last[IndexOf(f).value] < t.frames[k].sequence
    ensures t.frames[k].epoch == t.epoch && t.frames[k].sequence <= t.latest
  {
    assert FrameOk(t, k);
  }

  lemma AttachKeepsFrame(t: Timeline, f: Frontend, id: nat, k: nat, k': nat)
    requires Inv(t) && UsableId(f, id) && k < FRAMES && k' < FRAMES
    requires t.last[IndexOf(f).value] < t.frames[k].sequence
    ensures FrameOk(Attach(t, f, id, k), k')
  {
    hide BindingOk, PresentationRing;
    assert FrameOk(t, k) && FrameOk(t, k');
  }

  lemma AttachKeepsBinding(t: Timeline, f: Frontend, id: nat, k: nat, i: nat, j: nat)
    requires Inv(t) && UsableId(f, id) && k < FRAMES && i < FRONTENDS && j < FRAMES
    requires t.last[IndexOf(f).value] < t.frames[k].sequence
    ensures BindingOk(Attach(t, f, id, k), i, j)
  {
    hide PresentationRing;
    assert FrameOk(t, k) && BindingOk(t, i, j);
  }

  /** The state after the pacing owner creates the next token for its native ID. */
  function Create(t: Timeline, f: Frontend, id: nat): (t': Timeline)
    requires Sized(t) && UsableId(f, id)
    ensures Sized(t')
  {
    var sequence := t.next + 1;
    var frame := Frame(sequence, t.epoch, t.transport, [0, 0, 0, 0][IndexOf(f).value := id], {}, f, 0);
    PublishBinding(t.(next := sequence, frames := t.frames[sequence % FRAMES := frame]), f, id, sequence % FRAMES)
      .(latest := sequence)
  }

  lemma CreateKeepsInv(t: Timeline, f: Frontend, id: nat)
    requires Inv(t) && UsableId(f, id) && OwnerOf(t, Pacing) == f
    ensures Inv(Create(t, f, id))
    ensures Create(t, f, id).last == t.last[IndexOf(f).value := t.latest + 1]
  {
    hide BindingOk, FrameOk, PresentationRing;
    var t' := Create(t, f, id);
    forall k | 0 <= k < FRAMES ensures FrameOk(t', k) {
      CreateKeepsFrame(t, f, id, k);
    }
    CreateKeepsWindow(t, f, id);
    forall i, j | 0 <= i < FRONTENDS && 0 <= j < FRAMES ensures BindingOk(t', i, j) {
      CreateKeepsBinding(t, f, id, i, j);
    }
  }

  lemma CreateKeepsFrame(t: Timeline, f: Frontend, id: nat, k: nat)
    requires Inv(t) && UsableId(f, id) && OwnerOf(t, Pacing) == f && k < FRAMES
    ensures FrameOk(Create(t, f, id), k)
  {
    hide BindingOk, PresentationRing;
    assert FrameOk(t, k);
  }

  lemma CreateKeepsWindow(t: Timeline, f: Frontend, id: nat)
    requires Inv(t) && UsableId(f, id)
    ensures var t' := Create(t, f, id);
      forall s: nat | 1 <= s <= t'.latest < s + FRAMES :: t'.frames[s % FRAMES].sequence == s
  {
  }

  lemma CreateKeepsBinding(t: Timeline, f: Frontend, id: nat, i: nat, j: nat)
    requires Inv(t) && UsableId(f, id) && i < FRONTENDS && j < FRAMES
    ensures BindingOk(Create(t, f, id), i, j)
  {
    assert BindingOk(t, i, j);
  }

  lemma AddMarkerKeepsInv(t: Timeline, k: nat, m: Marker)
    requires Inv(t) && k < FRAMES
    ensures Inv(AddMarker(t, k, m))
  {
    var t' := AddMarker(t, k, m);
    forall k' | 0 <= k' < FRAMES ensures FrameOk(t', k') {
      assert FrameOk(t, k');
    }
    forall i, j | 0 <= i < FRONTENDS && 0 <= j < FRAMES ensures BindingOk(t', i, j) {
      assert BindingOk(t, i, j);
    }
  }

  lemma AddPresentationKeepsInv(t: Timeline, k: nat, f: Frontend, id: nat, interpolated: bool)
    requires Inv(t) && k < FRAMES && t.frames[k].sequence != 0
    ensures Inv(AddPresentation(t, k, NextPresentation(t, k, f, id, interpolated)))
  {
    var p := NextPresentation(t, k, f, id, interpolated);
    var t' := AddPresentation(t, k, p);
    assert FrameOk(t, k);
    RingAdvances(t.presentations, t.nextPresentation, t.epoch, p);
    forall k' | 0 <= k' < FRAMES ensures FrameOk(t', k') {
      assert FrameOk(t, k');
    }
    forall i, j | 0 <= i < FRONTENDS && 0 <= j < FRAMES ensures BindingOk(t', i, j) {
      assert BindingOk(t, i, j);
    }
  }

  lemma RingAdvances(ring: seq<Presentation>, newest: nat, epoch: nat, p: Presentation)
    requires PresentationRing(ring, newest, epoch)
    requires p.sequence == newest + 1 && p.epoch == epoch && p.render != 0
    ensures PresentationRing(ring[p.sequence % PRESENTATIONS := p], newest + 1, epoch)
  {
    var ring' := ring[p.sequence % PRESENTATIONS := p];
    forall k | 0 <= k < PRESENTATIONS ensures PresentationOk(ring'[k], k, newest + 1, epoch) {
      assert PresentationOk(ring[k], k, newest, epoch);
      PresentationStays(ring[k], k, newest, epoch);
    }
    hide PresentationOk;
    forall s: nat | 1 <= s <= newest + 1 < s + PRESENTATIONS ensures ring'[s % PRESENTATIONS].sequence == s {
      OtherPresentationSlot(s, newest + 1);
    }
  }

  lemma OtherPresentationSlot(s: nat, n: nat)
    requires s <= n < s + PRESENTATIONS
    ensures s % PRESENTATIONS == n % PRESENTATIONS <==> s == n
  {
  }

  /** A slot that is not due for the next presentation keeps its own. */
  lemma PresentationStays(p: Presentation, k: nat, newest: nat, epoch: nat)
    requires PresentationOk(p, k, newest, epoch) && k < PRESENTATIONS
    ensures k != (newest + 1) % PRESENTATIONS ==> PresentationOk(p, k, newest + 1, epoch)
  {
    if p.sequence != 0 && newest + 1 == p.sequence + PRESENTATIONS {
      assert (p.sequence + PRESENTATIONS) % PRESENTATIONS == p.sequence % PRESENTATIONS;
    }
  }

  lemma ClearedIsInv(epoch: nat)
    requires epoch >= 1
    ensures Inv(Cleared(epoch))
  {
  }

  lemma FreezeKeepsInv(t: Timeline, owners: map<Aspect, Frontend>)
    requires Inv(t)
    ensures Inv(Freeze(t, owners))
  {
    var t' := Freeze(t, owners);
    forall k | 0 <= k < FRAMES ensures FrameOk(t', k) {
      assert FrameOk(t, k);
    }
    forall i, j | 0 <= i < FRONTENDS && 0 <= j < FRAMES ensures BindingOk(t', i, j) {
      assert BindingOk(t, i, j);
    }
  }
}
