/**
 * HybridFusion as the mutable object it is: slot arrays and counters updated in
 * place. Every method is proved against the timeline functions, and the object
 * always is the result of playing its own call history, so that what is proved
 * about histories holds of the object.
 */
module HybridFusion {
  import opened Frontends
  import opened HybridOwners
  import opened HybridRuns
  import opened HybridTimeline
  import HybridTokens
  import opened Options

  /** All aspects as the packed word decodes them. */
  ghost function OwnersOfWord(word: nat): map<Aspect, Frontend> {
    map a: Aspect | true :: OwnerFromWord(word, a)
  }

  /** What a marker call does after its pacing frame, if any, has been established. */
  ghost function MarkAfter(t: Timeline, established: Option<nat>, f: Frontend, m: Marker, id: nat)
    : (Timeline, Option<FrameToken>)
    requires Sized(t) && (established.Some? ==> established.value < FRAMES)
  {
    if OwnerOf(t, AspectForMarker(m)) != f then (t, None)
    else if established.Some? then MarkIn(t, established.value, m, id)
    else MarkResolved(t, f, m, id)
  }

  ghost function MarkResolved(t: Timeline, f: Frontend, m: Marker, id: nat): (Timeline, Option<FrameToken>)
    requires Sized(t)
  {
    var (t', k, _) := Resolve(t, f, id);
    if k.None? then (t', None) else MarkIn(t', k.value, m, id)
  }

  /** Sets a marker on the frame in slot k, and hands out its token if the marker is new. */
  ghost function MarkIn(t: Timeline, k: nat, m: Marker, id: nat): (Timeline, Option<FrameToken>)
    requires Sized(t) && k < FRAMES
  {
    if m in t.frames[k].markers then (t, None) else (AddMarker(t, k, m), Some(TokenFrom(t.frames[k], id)))
  }

  lemma MarkSplits(t: Timeline, f: Frontend, m: Marker, id: nat)
    requires Sized(t) && f != Auto && id != 0 && t.owners.Some? && OwnerOf(t, Pacing) != Auto
    ensures var (t1, k1, created) := if f == OwnerOf(t, Pacing) then Establish(t, f, id) else (t, None, false);
      (CanonicalizeMarker(t, f, m, id).0, CanonicalizeMarker(t, f, m, id).1.frame) == MarkAfter(t1, k1, f, m, id)
  {
    hide Establish, Resolve, AddMarker, TokenFrom, AspectForMarker;
  }

  lemma EstablishCreates(t: Timeline, f: Frontend, id: nat)
    requires Sized(t) && UsableId(f, id) && Lookup(t, f, id).None?
    ensures Establish(t, f, id) == (Create(t, f, id), Some((t.next + 1) % FRAMES), true)
  {
  }

  class HybridFusion {
    const frames: array<Frame>
    const bindings: array<seq<Binding>>
    const last: array<nat>
    const presentations: array<Presentation>
    const freeze: StartupFreeze
    var epoch: nat
    var nextToken: nat
    var latestToken: nat
    var nextPresentation: nat
    var transport: nat
    ghost var history: seq<Op>

    ghost predicate Shape()
      reads this, frames, bindings, freeze, freeze.aspectOwner
    {
      && frames.Length == FRAMES && bindings.Length == FRONTENDS && last.Length == FRONTENDS
      && presentations.Length == PRESENTATIONS
      && (forall k | 0 <= k < FRAMES :: |frames[k].ids| == FRONTENDS)
      && (forall i | 0 <= i < FRONTENDS :: |bindings[i]| == FRAMES)
      && last != freeze.aspectOwner && freeze.Valid() && freeze.startupBegin < U64
    }

    /** The abstract timeline this object stores. */
    ghost function Model(): (t: Timeline)
      reads this, frames, bindings, last, presentations, freeze, freeze.aspectOwner
      requires Shape()
      ensures Sized(t)
    {
      Timeline(epoch, nextToken, latestToken, nextPresentation, transport, frames[..], bindings[..], last[..],
        presentations[..], if freeze.lockState == 2 then Some(OwnersOfWord(freeze.frozenOwnerWord)) else None)
    }

    ghost predicate Valid()
      reads this, frames, bindings, last, presentations, freeze, freeze.aspectOwner
    {
      Shape() && freeze.Justified() && Model() == Play(history)
    }

    constructor ()
      ensures Valid() && history == []
      ensures fresh(frames) && fresh(bindings) && fresh(last) && fresh(presentations)
      ensures fresh(freeze) && fresh(freeze.aspectOwner)
    {
      hide Step, OwnersOfWord;
      frames := new Frame[FRAMES](_ => EMPTY_FRAME);
      bindings := new seq<Binding>[FRONTENDS](_ => seq(FRAMES, _ => EMPTY_BINDING));
      last := new nat[FRONTENDS](_ => 0);
      presentations := new Presentation[PRESENTATIONS](_ => EMPTY_PRESENTATION);
      freeze := new StartupFreeze();
      epoch, nextToken, latestToken, nextPresentation, transport := 1, 0, 0, 0, 0;
      history := [];
      new;
      assert Model() == Cleared(1);
    }

    method FrameForToken(epoch: nat, sequence: nat) returns (k: Option<nat>)
      requires Shape()
      ensures k == FrameFor(Model(), epoch, sequence)
    {
      if epoch == 0 || sequence == 0 {
        return None;
      }
      var slot := sequence % FRAMES;
      if frames[slot].sequence != sequence || frames[slot].epoch != epoch {
        return None;
      }
      return Some(slot);
    }

    method LookupSourceFrame(f: Frontend, id: nat) returns (k: Option<nat>)
      requires Shape()
      ensures k == Lookup(Model(), f, id)
    {
      var i := IndexOf(f);
      if i.None? || id == 0 || id == BUSY {
        return None;
      }
      var b := bindings[i.value][id % FRAMES];
      if b.native != id {
        return None;
      }
      k := FrameForToken(b.epoch, b.sequence);
    }

    method PublishSourceBinding(f: Frontend, id: nat, k: nat)
      requires Shape() && k < FRAMES
      modifies bindings, last
      ensures Shape() && Model() == PublishBinding(old(Model()), f, id, k)
    {
      var i := IndexOf(f);
      if i.None? || id == 0 || id == BUSY {
        return;
      }
      if frames[k].epoch == 0 || frames[k].sequence == 0 {
        return;
      }
      bindings[i.value] := bindings[i.value][id % FRAMES := Binding(id, frames[k].epoch, frames[k].sequence)];
      if last[i.value] < frames[k].sequence {
        last[i.value] := frames[k].sequence;
      }
    }

    /** The token a delayed or in-order frontend attaches to. */
    method FindBindTarget(i: nat, f: Frontend, id: nat) returns (target: Option<nat>)
      requires Shape() && UsableId(f, id) && IndexOf(f) == Some(i)
      ensures target == BindTarget(Model(), f, id)
    {
      if latestToken == 0 || latestToken <= last[i] {
        return None;
      }
      target := Some(latestToken);
      var gap := latestToken - last[i];
      if last[i] != 0 && gap > 1 && gap < FRAMES {
        var previous := FrameForToken(epoch, last[i]);
        if previous.None? {
          return None;
        }
        var native := frames[previous.value].ids[i];
        if native == 0 || id <= native {
          return None;
        }
        if id - native > gap {
          return None;
        }
        target := Some(last[i] + (id - native));
      }
    }

    method BindSourceToLatest(f: Frontend, id: nat) returns (k: Option<nat>, attached: bool)
      requires Shape()
      modifies frames, bindings, last
      ensures Shape() && (Model(), k, attached) == BindToLatest(old(Model()), f, id)
    {
      var i := IndexOf(f);
      if i.None? || id == 0 || id == BUSY {
        return None, false;
      }
      k := LookupSourceFrame(f, id);
      if k.Some? {
        return k, false;
      }
      k, attached := BindNew(i.value, f, id);
    }

    method BindNew(i: nat, f: Frontend, id: nat) returns (k: Option<nat>, attached: bool)
      requires Shape() && UsableId(f, id) && IndexOf(f) == Some(i) && Lookup(Model(), f, id).None?
      modifies frames, bindings, last
      ensures Shape() && (Model(), k, attached) == BindToLatest(old(Model()), f, id)
    {
      hide BindTarget, FrameFor, Lookup, PublishBinding;
      var target := FindBindTarget(i, f, id);
      if target.None? {
        return None, false;
      }
      k := FrameForToken(epoch, target.value);
      if k.None? {
        return None, false;
      }
      attached := AttachToFrame(f, id, k.value);
      if !attached {
        k := None;
      }
    }

    /** Records a native ID on a frame that has none, or has this one, for the frontend. */
    method AttachToFrame(f: Frontend, id: nat, k: nat) returns (attached: bool)
      requires Shape() && UsableId(f, id) && k < FRAMES
      modifies frames, bindings, last
      ensures Shape() && attached == (old(frames[k]).ids[IndexOf(f).value] in [0, id])
      ensures Model() == if attached then Attach(old(Model()), f, id, k) else old(Model())
    {
      var i := IndexOf(f).value;
      if frames[k].ids[i] != 0 && frames[k].ids[i] != id {
        return false;
      }
      frames[k] := frames[k].(ids := frames[k].ids[i := id]);
      PublishSourceBinding(f, id, k);
      return true;
    }

    method EstablishCanonicalFrame(f: Frontend, id: nat) returns (k: Option<nat>, ghost created: bool)
      requires Shape()
      modifies this`nextToken, this`latestToken, frames, bindings, last
      ensures Shape() && (Model(), k, created) == Establish(old(Model()), f, id)
    {
      if f == Auto || id == 0 || id == BUSY {
        return None, false;
      }
      k := LookupSourceFrame(f, id);
      if k.Some? {
        return k, false;
      }
      k, created := CreateToken(f, id);
    }

    method CreateToken(f: Frontend, id: nat) returns (k: Option<nat>, ghost created: bool)
      requires Shape() && UsableId(f, id) && Lookup(Model(), f, id).None?
      modifies this`nextToken, this`latestToken, frames, bindings, last
      ensures Shape() && (Model(), k, created) == Establish(old(Model()), f, id)
    {
      EstablishCreates(Model(), f, id);
      var slot := CreateFrame(f, id);
      return Some(slot), true;
    }

    /** The next token, in the slot it is due. */
    method CreateFrame(f: Frontend, id: nat) returns (slot: nat)
      requires Shape() && UsableId(f, id)
      modifies this`nextToken, this`latestToken, frames, bindings, last
      ensures Shape() && Model() == Create(old(Model()), f, id) && slot == (old(nextToken) + 1) % FRAMES
    {
      hide OwnersOfWord, OwnerFromWord, PublishBinding;
      var sequence := nextToken + 1;
      nextToken := sequence;
      slot := sequence % FRAMES;
      frames[slot] := Frame(sequence, epoch, transport, [0, 0, 0, 0][IndexOf(f).value := id], {}, f, 0);
      assert Model() == old(Model()).(next := sequence, frames := old(Model()).frames[slot := frames[slot]]);
      PublishSourceBinding(f, id, slot);
      latestToken := sequence;
    }

    /** The frame of a frontend's native ID: its binding, or the token it now attaches to. */
    method ResolveFrame(f: Frontend, id: nat) returns (k: Option<nat>, attached: bool)
      requires Shape()
      modifies frames, bindings, last
      ensures Shape() && (Model(), k, attached) == Resolve(old(Model()), f, id)
    {
      k := LookupSourceFrame(f, id);
      attached := false;
      if k.None? {
        k, attached := BindSourceToLatest(f, id);
      }
    }

    /** The owner routing reads for an aspect; Auto before the freeze. */
    method LockedSource(a: Aspect) returns (f: Frontend)
      requires Shape()
      ensures f == OwnerOf(Model(), a)
    {
      f := if freeze.lockState == 2 then OwnerFromWord(freeze.frozenOwnerWord, a) else Auto;
    }

    method TokenFromFrame(k: nat, id: nat) returns (token: FrameToken)
      requires Shape() && k < FRAMES
      ensures token == TokenFrom(Model().frames[k], id)
    {
      var frame := frames[k];
      token := FrameToken(frame.epoch, frame.sequence, frame.pacing, frame.transport, id);
    }

    /** Sets a marker bit and says whether it was set before. */
    method FetchOrMarker(k: nat, m: Marker) returns (already: bool)
      requires Shape() && k < FRAMES
      modifies frames
      ensures Shape() && already == (m in old(Model()).frames[k].markers)
      ensures Model() == if already then old(Model()) else AddMarker(old(Model()), k, m)
    {
      already := m in frames[k].markers;
      ghost var was := frames[..];
      assert already ==> frames[k].markers + {m} == frames[k].markers;
      frames[k] := frames[k].(markers := frames[k].markers + {m});
      assert already ==> frames[..] == was;
    }

    method StorePresentation(k: nat, f: Frontend, id: nat, interpolated: bool) returns (p: Presentation)
      requires Shape() && k < FRAMES
      modifies this`nextPresentation, frames, presentations
      ensures Shape() && p == NextPresentation(old(Model()), k, f, id, interpolated)
      ensures Model() == AddPresentation(old(Model()), k, p)
    {
      var frame := frames[k];
      nextPresentation := nextPresentation + 1;
      var generation := (frame.presentations + 1) % GENERATIONS;
      frames[k] := frame.(presentations := generation);
      p := Presentation(nextPresentation, frame.epoch, frame.sequence, generation, interpolated, f,
        frame.transport, id);
      presentations[nextPresentation % PRESENTATIONS] := p;
    }

    /** The frozen owner of an aspect, and what it showed when it was frozen. */
    lemma OwnerShowed(a: Aspect, f: Frontend)
      requires Shape() && freeze.Justified() && OwnerOf(Model(), a) == f != Auto
      ensures Complete(freeze.frozenView) && OwnerChosen(f, a, freeze.frozenPolicy, freeze.frozenView)
    {
      assert OwnerFromWord(freeze.frozenOwnerWord, a) == f;
    }

    lemma MarkerWasShown(f: Frontend, m: Marker, id: nat)
      requires Valid() && Step(Model(), Mark(f, m, id)).1.frame.Some?
      ensures f != Auto && Complete(freeze.frozenView) && m in freeze.frozenView.evidence[IndexOf(f).value].markers
    {
      hide Step, Model, OwnerChosen, AspectForMarker, OwnerOf, Play;
      if f == Auto || OwnerOf(Model(), AspectForMarker(m)) != f {
        HybridTokens.NobodyElseMarks(Model(), Mark(f, m, id));
      }
      OwnerShowed(AspectForMarker(m), f);
      OwnersShowedWhatTheyOwn(f, AspectForMarker(m), freeze.frozenPolicy, freeze.frozenView);
    }

    lemma PresentationWasShown(f: Frontend, id: nat, interpolated: bool)
      requires Valid() && Step(Model(), Present(f, id, interpolated)).1.presentation.Some?
      ensures f != Auto && Complete(freeze.frozenView) && freeze.frozenView.evidence[IndexOf(f).value].fgSeen
    {
      hide Step, Model, OwnerChosen, OwnerOf, Play;
      if f == Auto || OwnerOf(Model(), FrameGeneration) != f {
        HybridTokens.NobodyElsePresents(Model(), Present(f, id, interpolated));
      }
      OwnerShowed(FrameGeneration, f);
      OwnersShowedWhatTheyOwn(f, FrameGeneration, freeze.frozenPolicy, freeze.frozenView);
    }

    lemma PacingWasShown(f: Frontend, id: nat)
      requires Valid() && Step(Model(), Pace(f, id)).1.frame.Some?
      ensures f != Auto && Complete(freeze.frozenView)
      ensures freeze.frozenView.evidence[IndexOf(f).value].pacingSeen
        || NoPacerWasSeen(freeze.frozenPolicy, freeze.frozenView)
    {
      hide Step, Model, OwnerChosen, OwnerOf, NoPacerWasSeen, Play;
      if f == Auto || OwnerOf(Model(), Pacing) != f {
        HybridTokens.NobodyElsePaces(Model(), Pace(f, id));
      }
      OwnerShowed(Pacing, f);
      OwnersShowedWhatTheyOwn(f, Pacing, freeze.frozenPolicy, freeze.frozenView);
    }

    method CanonicalizePacingObservation(f: Frontend, id: nat) returns (token: Option<FrameToken>)
      requires Valid()
      modifies this, frames, bindings, last
      ensures Valid() && history == old(history) + [Pace(f, id)]
      ensures token == OutcomeAt(history, |old(history)|).frame
      ensures token.Some? ==>
        && f != Auto && Complete(freeze.frozenView)
        && (freeze.frozenView.evidence[IndexOf(f).value].pacingSeen
            || NoPacerWasSeen(freeze.frozenPolicy, freeze.frozenView))
    {
      hide PacingObservation, OwnersOfWord, DecodesToChoice, OwnerFromWord, NoPacerWasSeen;
      Recorded(history, Pace(f, id));
      if Step(Model(), Pace(f, id)).1.frame.Some? {
        PacingWasShown(f, id);
      }
      token := PacingObservationStep(f, id);
      history := history + [Pace(f, id)];
    }

    method PacingObservationStep(f: Frontend, id: nat) returns (token: Option<FrameToken>)
      requires Shape()
      modifies this`nextToken, this`latestToken, this`nextPresentation, frames, bindings, last
      ensures Shape()
      ensures Model() == PacingObservation(old(Model()), f, id).0
      ensures token == PacingObservation(old(Model()), f, id).1.frame
    {
      hide Establish;
      if f == Auto || id == 0 || id == BUSY || freeze.lockState != 2 {
        return None;
      }
      var pacing := LockedSource(Pacing);
      if pacing != f {
        return None;
      }
      var k, _ := EstablishCanonicalFrame(f, id);
      if k.None? {
        return None;
      }
      var issued := TokenFromFrame(k.value, id);
      return Some(issued);
    }

    method CanonicalizeMarkerLocked(f: Frontend, m: Marker, id: nat) returns (token: Option<FrameToken>)
      requires Valid()
      modifies this, frames, bindings, last
      ensures Valid() && history == old(history) + [Mark(f, m, id)]
      ensures token == OutcomeAt(history, |old(history)|).frame
      ensures token.Some? ==>
        && f != Auto && Complete(freeze.frozenView)
        && m in freeze.frozenView.evidence[IndexOf(f).value].markers
    {
      hide CanonicalizeMarker, OwnersOfWord, DecodesToChoice, OwnerFromWord;
      Recorded(history, Mark(f, m, id));
      if Step(Model(), Mark(f, m, id)).1.frame.Some? {
        MarkerWasShown(f, m, id);
      }
      token := CanonicalizeMarkerStep(f, m, id);
      history := history + [Mark(f, m, id)];
    }

    method CanonicalizeMarkerStep(f: Frontend, m: Marker, id: nat) returns (token: Option<FrameToken>)
      requires Shape()
      modifies this`nextToken, this`latestToken, this`nextPresentation, frames, bindings, last
      ensures Shape()
      ensures Model() == CanonicalizeMarker(old(Model()), f, m, id).0
      ensures token == CanonicalizeMarker(old(Model()), f, m, id).1.frame
    {
      hide Establish, MarkAfter;
      if f == Auto || id == 0 || freeze.lockState != 2 {
        return None;
      }
      var pacing := LockedSource(Pacing);
      if pacing == Auto {
        return None;
      }
      var k: Option<nat> := None;
      ghost var changed;
      if f == pacing {
        k, changed := EstablishCanonicalFrame(pacing, id);
      }
      MarkSplits(old(Model()), f, m, id);
      token := MarkEstablished(k, f, m, id);
    }

    /** The rest of a marker call, once a pacing frontend's frame is established. */
    method MarkEstablished(established: Option<nat>, f: Frontend, m: Marker, id: nat)
      returns (token: Option<FrameToken>)
      requires Shape() && (established.Some? ==> established.value < FRAMES)
      modifies frames, bindings, last
      ensures Shape() && (Model(), token) == MarkAfter(old(Model()), established, f, m, id)
    {
      hide Model, OwnerOf, Resolve, MarkIn, MarkResolved, Lookup, BindToLatest;
      var winner := LockedSource(AspectForMarker(m));
      if winner != f {
        return None;
      }
      if established.Some? {
        token := MarkOnce(established.value, m, id);
      } else {
        token := ResolveAndMark(f, m, id);
      }
    }

    method ResolveAndMark(f: Frontend, m: Marker, id: nat) returns (token: Option<FrameToken>)
      requires Shape()
      modifies frames, bindings, last
      ensures Shape() && (Model(), token) == MarkResolved(old(Model()), f, m, id)
    {
      var k, _ := ResolveFrame(f, id);
      if k.None? {
        return None;
      }
      token := MarkOnce(k.value, m, id);
    }

    method MarkOnce(k: nat, m: Marker, id: nat) returns (token: Option<FrameToken>)
      requires Shape() && k < FRAMES
      modifies frames
      ensures Shape() && (Model(), token) == MarkIn(old(Model()), k, m, id)
    {
      var issued := TokenFromFrame(k, id);
      var already := FetchOrMarker(k, m);
      return if already then None else Some(issued);
    }

    method CanonicalizeFgPresentationLocked(f: Frontend, id: nat, interpolated: bool)
      returns (token: Option<Presentation>)
      requires Valid()
      modifies this, frames, bindings, last, presentations
      ensures Valid() && history == old(history) + [Present(f, id, interpolated)]
      ensures token == OutcomeAt(history, |old(history)|).presentation
      ensures token.Some? ==>
        && f != Auto && Complete(freeze.frozenView)
        && freeze.frozenView.evidence[IndexOf(f).value].fgSeen
    {
      hide CanonicalizePresentation, OwnersOfWord, DecodesToChoice, OwnerFromWord;
      Recorded(history, Present(f, id, interpolated));
      if Step(Model(), Present(f, id, interpolated)).1.presentation.Some? {
        PresentationWasShown(f, id, interpolated);
      }
      token := CanonicalizePresentationStep(f, id, interpolated);
      history := history + [Present(f, id, interpolated)];
    }

    method CanonicalizePresentationStep(f: Frontend, id: nat, interpolated: bool)
      returns (token: Option<Presentation>)
      requires Shape()
      modifies this`nextToken, this`latestToken, this`nextPresentation, frames, bindings, last, presentations
      ensures Shape()
      ensures Model() == CanonicalizePresentation(old(Model()), f, id, interpolated).0
      ensures token == CanonicalizePresentation(old(Model()), f, id, interpolated).1.presentation
    {
      hide Resolve, AddPresentation, NextPresentation, OwnersOfWord, Lookup, BindToLatest;
      if f == Auto || id == 0 || freeze.lockState != 2 {
        return None;
      }
      var winner := LockedSource(FrameGeneration);
      if winner != f {
        return None;
      }
      var k, changed;
      k, changed := ResolveFrame(f, id);
      if k.None? {
        return None;
      }
      var frame := frames[k.value];
      if frame.epoch == 0 || frame.sequence == 0 {
        return None;
      }
      var p := StorePresentation(k.value, f, id, interpolated);
      return Some(p);
    }

    method LookupPresentationToken(epoch: nat, sequence: nat) returns (token: Option<Presentation>)
      requires Valid()
      ensures token == LookupPresentation(Model(), epoch, sequence)
      ensures LookupIsExact(Model(), PublishedLog(history), epoch, sequence)
    {
      LookupAnswersThePublished(history, epoch, sequence);
      if epoch == 0 || sequence == 0 {
        return None;
      }
      var p := presentations[sequence % PRESENTATIONS];
      if p.sequence != sequence || p.epoch != epoch || p.render == 0 || p.generation == 0 {
        return None;
      }
      return Some(p);
    }

    method LatestCanonicalFrame() returns (token: Option<FrameToken>)
      requires Valid()
      ensures token == LatestFrame(Model())
      ensures token.Some? <==> latestToken != 0
      ensures token.Some? ==> token.value.sequence == latestToken && token.value.epoch == epoch
    {
      PlayKeepsInv(history);
      if latestToken == 0 || epoch == 0 {
        return None;
      }
      var frame := frames[latestToken % FRAMES];
      assert frame == Model().frames[latestToken % FRAMES];
      assert FrameOk(Model(), latestToken % FRAMES);
      if frame.sequence != latestToken || frame.epoch != epoch {
        return None;
      }
      return Some(TokenFrom(frame, 0));
    }

    method SetFrameTransport(newTransport: nat)
      requires Valid()
      modifies this`transport, this`history
      ensures Valid() && history == old(history) + [SetTransport(newTransport)]
    {
      Recorded(history, SetTransport(newTransport));
      history := history + [SetTransport(newTransport)];
      transport := newTransport;
    }

    method Lock(policy: Policy, v: View, now: nat) returns (locked: bool, ghost newly: bool)
      requires Shape() && freeze.Justified() && Complete(v) && now < U64
      modifies freeze, freeze.aspectOwner
      ensures Shape() && freeze.Justified() && locked == (freeze.lockState == 2)
      ensures newly == (old(freeze.lockState) == 0 && locked)
      ensures old(freeze.lockState) == 2 ==>
        && freeze.frozenOwnerWord == old(freeze.frozenOwnerWord)
        && freeze.frozenPolicy == old(freeze.frozenPolicy) && freeze.frozenView == old(freeze.frozenView)
      ensures newly ==> freeze.frozenPolicy == policy && freeze.frozenView == v
      ensures Model() ==
        if newly then Freeze(old(Model()), OwnersOfWord(freeze.frozenOwnerWord)) else old(Model())
    {
      hide OwnersOfWord, DecodesToChoice, Complete;
      newly := freeze.lockState == 0;
      locked := freeze.MaybeLock(policy, v, now);
      newly := newly && locked;
    }

    /**
     * maybe_lock_startup: the timeline sees one freeze, with the owners the
     * packed word decodes to, at the call that locks; otherwise nothing. The
     * object's invariant says what those owners are: the ones chosen from the
     * evidence of that call, until the next reset.
     */
    method MaybeLockStartup(policy: Policy, v: View, now: nat) returns (locked: bool)
      requires Valid() && Complete(v) && now < U64
      modifies this`history, freeze, freeze.aspectOwner
      ensures Valid() && locked == (freeze.lockState == 2)
      ensures old(freeze.lockState) == 2 ==>
        && freeze.frozenOwnerWord == old(freeze.frozenOwnerWord)
        && freeze.frozenPolicy == old(freeze.frozenPolicy) && freeze.frozenView == old(freeze.frozenView)
      ensures old(freeze.lockState) == 0 && locked ==> freeze.frozenPolicy == policy && freeze.frozenView == v
      ensures history == old(history) +
        if old(freeze.lockState) == 0 && locked then [FreezeOwners(OwnersOfWord(freeze.frozenOwnerWord))] else []
    {
      hide Freeze, OwnersOfWord, Play, DecodesToChoice, Complete;
      ghost var newly;
      locked, newly := Lock(policy, v, now);
      ghost var owners := OwnersOfWord(freeze.frozenOwnerWord);
      FreezeRecorded(history, owners);
      history := history + if newly then [FreezeOwners(owners)] else [];
    }

    method ResetTimeline()
      requires Valid()
      modifies this, frames, bindings, last, presentations, freeze, freeze.aspectOwner
      ensures Valid() && history == old(history) + [Reset] && freeze.lockState == 0
    {
      Recorded(history, Reset);
      ClearAll();
      history := history + [Reset];
    }

    method ClearAll()
      requires Shape()
      modifies this`epoch, this`nextToken, this`latestToken, this`nextPresentation, this`transport
      modifies frames, bindings, last, presentations, freeze, freeze.aspectOwner
      ensures Shape() && freeze.Justified() && freeze.lockState == 0 && Model() == Cleared(old(epoch) + 1)
    {
      ClearFrames();
      ClearPresentations();
      ClearBindings();
      freeze.Reset();
      transport, nextToken, latestToken, nextPresentation := 0, 0, 0, 0;
      epoch := epoch + 1;
      assert Model() == Cleared(old(epoch) + 1);
    }

    method ClearFrames()
      requires frames.Length == FRAMES
      modifies frames
      ensures frames[..] == seq(FRAMES, _ => EMPTY_FRAME)
    {
      for k := 0 to FRAMES
        invariant forall j | 0 <= j < k :: frames[j] == EMPTY_FRAME
      {
        frames[k] := EMPTY_FRAME;
      }
    }

    method ClearPresentations()
      requires presentations.Length == PRESENTATIONS
      modifies presentations
      ensures presentations[..] == seq(PRESENTATIONS, _ => EMPTY_PRESENTATION)
    {
      for k := 0 to PRESENTATIONS
        invariant forall j | 0 <= j < k :: presentations[j] == EMPTY_PRESENTATION
      {
        presentations[k] := EMPTY_PRESENTATION;
      }
    }

    method ClearBindings()
      requires bindings.Length == FRONTENDS && last.Length == FRONTENDS
      modifies bindings, last
      ensures bindings[..] == seq(FRONTENDS, _ => seq(FRAMES, _ => EMPTY_BINDING)) && last[..] == [0, 0, 0, 0]
    {
      for i := 0 to FRONTENDS
        invariant forall j | 0 <= j < i :: bindings[j] == seq(FRAMES, _ => EMPTY_BINDING) && last[j] == 0
      {
        bindings[i] := seq(FRAMES, _ => EMPTY_BINDING);
        last[i] := 0;
      }
    }
  }

  lemma FreezeRecorded(history: seq<Op>, owners: map<Aspect, Frontend>)
    ensures Play(history + [FreezeOwners(owners)]) == Freeze(Play(history), owners)
    ensures history + [] == history
  {
    Recorded(history, FreezeOwners(owners));
  }

  /** Playing one more call is one more step. */
  lemma Recorded(history: seq<Op>, op: Op)
    ensures Play(history + [op]) == Step(Play(history), op).0
    ensures OutcomeAt(history + [op], |history|) == Step(Play(history), op).1
  {
    assert (history + [op])[..|history|] == history;
  }
}
