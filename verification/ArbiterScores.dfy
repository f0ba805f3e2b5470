/**
 * What a frontend's quality is made of, over whole histories: which callback
 * moves it, by how much, and how often. Read off the calls alone.
 */
module ArbiterScores {
  import opened Frontends
  import opened InputArbiter
  import opened Options

  /** The quality a history leaves a frontend with. */
  function QualityOf(ops: seq<Op>, f: Frontend): nat {
    Quality(Play(ops), f)
  }

  /** The markers a frontend has shown. */
  function MarkersSeen(ops: seq<Op>, f: Frontend): set<Marker> {
    if ops == [] then {}
    else
      var op := ops[|ops| - 1];
      MarkersSeen(ops[..|ops| - 1], f) + if op.Observe? && op.f == f then {op.m} else {}
  }

  /** The kinds of evidence a frontend has given; an observation gives its own kind. */
  function EvidenceGiven(ops: seq<Op>, f: Frontend): set<Evidence> {
    if ops == [] then {}
    else
      var op := ops[|ops| - 1];
      EvidenceGiven(ops[..|ops| - 1], f)
      + if op.f != f then {} else if op.Observe? then {MarkerSeen} else if op.e != NoEvidence then {op.e} else {}
  }

  /** A frontend's record lists what the frontend showed, and nothing else. */
  ghost predicate Books(s: Observation, markers: set<Marker>, evidence: set<Evidence>, last: Option<nat>) {
    && s.markers == markers && s.evidence == evidence && s.quality <= 100
    && (s.seen <==> last.Some?) && (s.seen ==> s.lastFrame == last.value)
    && (s.seen <==> s.markers != {}) && (s.seen ==> MarkerSeen in s.evidence)
  }

  ghost predicate BooksOk(ops: seq<Op>, f: Frontend)
    requires f != Auto
  {
    Books(Play(ops).states[IndexOf(f).value], MarkersSeen(ops, f), EvidenceGiven(ops, f), LastFrame(ops, f))
  }

  /** One more call, on the record of the frontend that made it and on the others'. */
  lemma StepOnRecord(a: Arbiter, op: Op, f: Frontend)
    requires Sized(a) && f != Auto
    ensures var s, s' := a.states[IndexOf(f).value], Step(a, op).states[IndexOf(f).value];
      if op.f != f then s' == s
      else if op.Note? then s' == Noted(s, op.e)
      else s' == Seen(Noted(s, MarkerSeen), op.m, op.frame, a.sequence)
  {
    hide Noted, Seen;
    if op.f != f && op.f != Auto {
      assert IndexOf(op.f) != IndexOf(f);
    }
  }

  lemma BooksStayOk(ops: seq<Op>, op: Op, f: Frontend)
    requires f != Auto && BooksOk(ops, f)
    ensures BooksOk(ops + [op], f)
  {
    hide Play, Step, Advances, MarkerScore, FrameScore, Bonus;
    OneMoreCall(ops, op);
    assert (ops + [op])[..|ops|] == ops;
    StepOnRecord(Play(ops), op, f);
    ScoresAreBounded(Noted(Play(ops).states[IndexOf(f).value], MarkerSeen), op);
  }

  lemma ScoresAreBounded(s: Observation, op: Op)
    requires s.quality <= 100
    ensures op.Observe? ==> MarkerScore(s, op.m, FrameScore(s, op.frame)) <= 100
  {
  }

  lemma {:induction false} BooksAreKept(ops: seq<Op>, f: Frontend)
    requires f != Auto
    ensures BooksOk(ops, f)
  {
    if ops != [] {
      BooksAreKept(ops[..|ops| - 1], f);
      BooksStayOk(ops[..|ops| - 1], ops[|ops| - 1], f);
      assert ops[..|ops| - 1] + [ops[|ops| - 1]] == ops;
    }
  }

  // ------------------------------------------------------------------ main results

  /**
   * A callback with a marker its frontend has shown before pays for progress
   * only: 4 up to 100 for a frame after the last one, 12 down to 0 for a frame
   * before it, nothing for the same frame.
   */
  lemma ProgressMovesQuality(ops: seq<Op>, f: Frontend, m: Marker, frame: nat)
    requires f != Auto && m in MarkersSeen(ops, f)
    ensures var before, after := QualityOf(ops, f), QualityOf(ops + [Observe(f, m, frame)], f);
      && LastFrame(ops, f).Some?
      && (frame > LastFrame(ops, f).value ==> after == Min(100, before + 4))
      && (frame < LastFrame(ops, f).value ==> after == Max(0, before - 12))
      && (frame == LastFrame(ops, f).value ==> after == before)
  {
    hide Play, Step, MarkersSeen, EvidenceGiven, LastFrame;
    BooksAreKept(ops, f);
    OneMoreCall(ops, Observe(f, m, frame));
    StepOnRecord(Play(ops), Observe(f, m, frame), f);
  }

  /** What a record's quality becomes when a marker is new to it. */
  lemma NewMarkerScore(s: Observation, m: Marker, frame: nat, sequence: nat, bonus: nat)
    requires m !in s.markers && s.quality <= 100 && (s.seen ==> MarkerSeen in s.evidence)
    requires bonus == if m in {SimulationStart, RenderSubmitStart, PresentStart, InputSample} then 13 else 8
    ensures var after := Seen(Noted(s, MarkerSeen), m, frame, sequence).quality;
      if !s.seen then
        after == Min(100, Max(20, if MarkerSeen in s.evidence then s.quality else s.quality + 4) + bonus)
      else
        && (frame > s.lastFrame ==> after == Min(100, s.quality + 4 + bonus))
        && (frame < s.lastFrame ==> after == Min(100, Max(0, s.quality - 12) + bonus))
        && (frame == s.lastFrame ==> after == Min(100, s.quality + bonus))
  {
    assert StartsSomething(m) <==> m in {SimulationStart, RenderSubmitStart, PresentStart, InputSample};
  }

  /**
   * A marker's first showing adds 8, or 13 for the four markers that start
   * something, up to 100, on top of what progress pays; it is paid once, because
   * from then on the marker is a known one. A frontend's very first callback
   * starts it from at least 20, its first marker evidence adding 4.
   */
  lemma NewMarkersPayOnce(ops: seq<Op>, f: Frontend, m: Marker, frame: nat)
    requires f != Auto && m !in MarkersSeen(ops, f)
    ensures var ops' := ops + [Observe(f, m, frame)];
      var before, after, last := QualityOf(ops, f), QualityOf(ops', f), LastFrame(ops, f);
      var bonus := if m in {SimulationStart, RenderSubmitStart, PresentStart, InputSample} then 13 else 8;
      && m in MarkersSeen(ops', f)
      && (last.Some? ==>
        && (frame > last.value ==> after == Min(100, before + 4 + bonus))
        && (frame < last.value ==> after == Min(100, Max(0, before - 12) + bonus))
        && (frame == last.value ==> after == Min(100, before + bonus)))
      && (last.None? ==>
        after == Min(100, Max(20, if MarkerSeen in EvidenceGiven(ops, f) then before else before + 4) + bonus))
  {
    hide Play, Step, EvidenceGiven, LastFrame, Noted, Seen, Min, Max;
    assert (ops + [Observe(f, m, frame)])[..|ops|] == ops;
    BooksAreKept(ops, f);
    OneMoreCall(ops, Observe(f, m, frame));
    StepOnRecord(Play(ops), Observe(f, m, frame), f);
    NewMarkerScore(Play(ops).states[IndexOf(f).value], m, frame, Play(ops).sequence,
      if m in {SimulationStart, RenderSubmitStart, PresentStart, InputSample} then 13 else 8);
  }

  /** Each kind of evidence adds its own bonus, up to 100, the first time and never again. */
  lemma EvidencePaysOnce(ops: seq<Op>, f: Frontend, e: Evidence)
    requires f != Auto
    ensures var ops' := ops + [Note(f, e)];
      var before, after := QualityOf(ops, f), QualityOf(ops', f);
      && (e in EvidenceGiven(ops, f) || e == NoEvidence ==> after == before)
      && (e != NoEvidence ==> e in EvidenceGiven(ops', f))
      && (e !in EvidenceGiven(ops, f) ==> after == Min(100, before +
        match e
        case NoEvidence => 0
        case Capability => 2
        case MarkerSeen => 4
        case Context => 8
        case AsyncMarker => 8
        case FrameGen => 10
        case Control => 14
        case Sleep => 18))
  {
    hide Play, Step, LastFrame;
    assert (ops + [Note(f, e)])[..|ops|] == ops;
    BooksAreKept(ops, f);
    OneMoreCall(ops, Note(f, e));
    StepOnRecord(Play(ops), Note(f, e), f);
  }

  /** Nobody's calls move anybody else's quality. */
  lemma OthersAreUntouched(ops: seq<Op>, op: Op, g: Frontend)
    requires g != op.f
    ensures QualityOf(ops + [op], g) == QualityOf(ops, g)
  {
    hide Play, Step;
    OneMoreCall(ops, op);
    if g != Auto {
      StepOnRecord(Play(ops), op, g);
    }
  }

  /** A frontend's own calls. */
  function OwnCalls(ops: seq<Op>, f: Frontend): seq<Op> {
    if ops == [] then []
    else OwnCalls(ops[..|ops| - 1], f) + if ops[|ops| - 1].f == f then [ops[|ops| - 1]] else []
  }

  ghost predicate SameStanding(s: Observation, o: Observation) {
    && s.quality == o.quality && s.markers == o.markers && s.evidence == o.evidence
    && s.seen == o.seen && s.lastFrame == o.lastFrame
  }

  /** Two records that stand the same stand the same after the same call, whatever the rest does. */
  lemma SameCallSameStanding(a: Arbiter, b: Arbiter, op: Op, f: Frontend)
    requires Sized(a) && Sized(b) && f != Auto && op.f == f
    requires SameStanding(a.states[IndexOf(f).value], b.states[IndexOf(f).value])
    ensures SameStanding(Step(a, op).states[IndexOf(f).value], Step(b, op).states[IndexOf(f).value])
  {
    hide Step, Bonus, StartsSomething;
    StepOnRecord(a, op, f);
    StepOnRecord(b, op, f);
  }

  /**
   * So quality is a frontend's own affair: in any history, interleaved with
   * others in any way, it is what the frontend's own calls alone would give.
   */
  lemma {:induction false} QualityIsItsOwn(ops: seq<Op>, f: Frontend)
    requires f != Auto
    ensures QualityOf(ops, f) == QualityOf(OwnCalls(ops, f), f)
    ensures SameStanding(Play(ops).states[IndexOf(f).value], Play(OwnCalls(ops, f)).states[IndexOf(f).value])
  {
    hide Step, SameStanding;
    if ops == [] {
      StandsAsItself(CLEARED.states[IndexOf(f).value]);
    } else {
      var init, op := ops[..|ops| - 1], ops[|ops| - 1];
      QualityIsItsOwn(init, f);
      if op.f == f {
        OneMoreCall(OwnCalls(init, f), op);
        SameCallSameStanding(Play(init), Play(OwnCalls(init, f)), op, f);
      } else {
        StepOnRecord(Play(init), op, f);
        assert OwnCalls(init, f) + [] == OwnCalls(init, f);
      }
    }
    EqualStanding(Play(ops).states[IndexOf(f).value], Play(OwnCalls(ops, f)).states[IndexOf(f).value]);
  }

  lemma StandsAsItself(s: Observation)
    ensures SameStanding(s, s)
  {
  }

  lemma EqualStanding(s: Observation, o: Observation)
    requires SameStanding(s, o)
    ensures s.quality == o.quality
  {
  }

  /** One callback per frame. */
  function Callbacks(f: Frontend, m: Marker, frames: seq<nat>): seq<Op> {
    if frames == [] then [] else Callbacks(f, m, frames[..|frames| - 1]) + [Observe(f, m, frames[|frames| - 1])]
  }

  ghost predicate Advancing(from: nat, frames: seq<nat>) {
    && (forall i | 0 <= i < |frames| :: from < frames[i])
    && (forall i, j | 0 <= i < j < |frames| :: frames[i] < frames[j])
  }

  /** A frontend that keeps advancing with a known marker gains 4 a frame until it reaches 100. */
  lemma {:induction false} SteadyProgressPays(ops: seq<Op>, f: Frontend, m: Marker, frames: seq<nat>)
    requires f != Auto && m in MarkersSeen(ops, f) && LastFrame(ops, f).Some? && Advancing(LastFrame(ops, f).value, frames)
    ensures var ops' := ops + Callbacks(f, m, frames);
      && QualityOf(ops', f) == Min(100, QualityOf(ops, f) + 4 * |frames|)
      && m in MarkersSeen(ops', f)
      && LastFrame(ops', f) == (if frames == [] then LastFrame(ops, f) else Some(frames[|frames| - 1]))
  {
    hide QualityOf, Play;
    if frames == [] {
      assert ops + [] == ops;
      BooksAreKept(ops, f);
      QualityIsBounded(ops, f);
    } else {
      var n := |frames| - 1;
      var before := ops + Callbacks(f, m, frames[..n]);
      SteadyProgressPays(ops, f, m, frames[..n]);
      ProgressMovesQuality(before, f, m, frames[n]);
      assert ops + Callbacks(f, m, frames) == before + [Observe(f, m, frames[n])];
      assert (before + [Observe(f, m, frames[n])])[..|before|] == before;
    }
  }

  lemma QualityIsBounded(ops: seq<Op>, f: Frontend)
    requires f != Auto && BooksOk(ops, f)
    ensures QualityOf(ops, f) <= 100
  {
  }
}
