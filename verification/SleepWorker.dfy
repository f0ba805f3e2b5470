/**
 * The emulated sleep worker and its producers, on top of the step-by-step ring.
 *
 * Thread 0 is the one worker; every other thread is a caller of
 * `vkLatencySleepNV`. Ring operations advance one atomic step at a time inside
 * this machine, and so do the waiting flag and the auto-reset event. Runs
 * without shutdown.
 */
module SleepWorker {
  import opened MpmcRing
  import opened Options

  const CAPACITY: nat := 64

  datatype WorkerPc<Job> =
    | StartDrain            // call try_dequeue in the drain loop
    | Drain                 // inside that call
    | Process(job: Job)     // pace and signal the job's semaphore
    | Arm                   // store waiting := true
    | StartRecheck          // call try_dequeue again
    | Recheck               // inside that call
    | Disarm(job: Job)      // the recheck found a job: store waiting := false
    | Blocked               // in WaitForSingleObject
    | Clear                 // woken: store waiting := false

  datatype CallerPc<Job> =
    | Outside
    | Offering(job: Job)    // inside try_enqueue
    | LoadWaiting
    | CasWaiting
    | SetEvent
    | Refused(job: Job)     // queue full: the caller signals for itself

  /**
   * `callers[t]` belongs to ring thread t; entry 0 is unused. `signalled` and
   * `callerSignalled` log completed signals, `offered` every job ever offered.
   */
  datatype System<Job> = System(
    ring: Ring<Job>, worker: WorkerPc<Job>, callers: seq<CallerPc<Job>>,
    waiting: bool, event: bool,
    signalled: seq<Job>, callerSignalled: multiset<Job>, offered: multiset<Job>)

  datatype Action<Job> =
    | Offer(t: nat, job: Job)
    | Caller(t: nat)
    | Worker
    | RingStep(t: nat)
    | RingSpuriousFailure(t: nat)

  function WorkerStep<Job>(s: System<Job>): System<Job>
    requires |s.ring.cells| == CAPACITY && |s.ring.threads| > 0
  {
    var result := s.ring.threads[0];
    match s.worker
    case StartDrain => s.(ring := Apply(CAPACITY, s.ring, CallDequeue(0)), worker := Drain)
    case Drain =>
      if !result.Dequeued? then s
      else if result.out'.Some? then s.(worker := Process(result.out'.value))
      else s.(worker := Arm)
    case Process(job) => s.(signalled := s.signalled + [job], worker := StartDrain)
    case Arm => s.(waiting := true, worker := StartRecheck)
    case StartRecheck => s.(ring := Apply(CAPACITY, s.ring, CallDequeue(0)), worker := Recheck)
    case Recheck =>
      if !result.Dequeued? then s
      else if result.out'.Some? then s.(worker := Disarm(result.out'.value))
      else s.(worker := Blocked)
    case Disarm(job) => s.(waiting := false, worker := Process(job))
    case Blocked => if s.event then s.(event := false, worker := Clear) else s
    case Clear => s.(waiting := false, worker := StartDrain)
  }

  function CallerStep<Job>(s: System<Job>, t: nat): System<Job>
    requires 0 < t < |s.callers| == |s.ring.threads|
  {
    match s.callers[t]
    case Outside => s
    case Offering(job) =>
      var result := s.ring.threads[t];
      if !result.Enqueued? then s
      else s.(callers := s.callers[t := if result.ok then LoadWaiting else Refused(job)])
    case LoadWaiting => s.(callers := s.callers[t := if s.waiting then CasWaiting else Outside])
    case CasWaiting =>
      if s.waiting then s.(waiting := false, callers := s.callers[t := SetEvent])
      else s.(callers := s.callers[t := Outside])
    case SetEvent => s.(event := true, callers := s.callers[t := Outside])
    case Refused(job) =>
      s.(callerSignalled := s.callerSignalled + multiset{job}, callers := s.callers[t := Outside])
  }

  function Step<Job>(s: System<Job>, a: Action<Job>): (s': System<Job>)
    requires |s.ring.cells| == CAPACITY && |s.callers| == |s.ring.threads| > 0
    ensures |s'.ring.cells| == CAPACITY && |s'.callers| == |s'.ring.threads| == |s.callers|
  {
    match a
    case Offer(t, job) =>
      if 0 < t < |s.callers| && s.callers[t] == Outside then
        s.(ring := Apply(CAPACITY, s.ring, CallEnqueue(t, job)),
           callers := s.callers[t := Offering(job)], offered := s.offered + multiset{job})
      else s
    case Caller(t) => if 0 < t < |s.callers| then CallerStep(s, t) else s
    case Worker => WorkerStep(s)
    case RingStep(t) => s.(ring := Apply(CAPACITY, s.ring, Advance(t)))
    case RingSpuriousFailure(t) => s.(ring := Apply(CAPACITY, s.ring, SpuriousFailure(t)))
  }

  ghost predicate Start<Job>(s: System<Job>) {
    && Init(CAPACITY, s.ring) && |s.callers| == |s.ring.threads| > 0
    && s.worker == StartDrain && !s.waiting && !s.event
    && (forall t | 0 <= t < |s.callers| :: s.callers[t] == Outside)
    && s.signalled == [] && s.callerSignalled == multiset{} && s.offered == multiset{}
  }

  function Run<Job>(s: System<Job>, run: seq<Action<Job>>): (s': System<Job>)
    requires |s.ring.cells| == CAPACITY && |s.callers| == |s.ring.threads| > 0
    ensures |s'.ring.cells| == CAPACITY && |s'.callers| == |s'.ring.threads| == |s.callers|
    decreases |run|
  {
    if run == [] then s else Step(Run(s, run[..|run| - 1]), run[|run| - 1])
  }

  // ---------------------------------------------------------------- invariant

  /** Only the worker dequeues and it never enqueues, so it owns dequeue_pos. */
  ghost predicate WorkerRingOk<Job>(r: Ring<Job>, pc: Pc<Job>) {
    match pc
    case Idle => true
    case DeqLoad => true
    case DeqSeq(pos) => pos == r.deq
    case DeqCas(pos) => pos == r.deq
    case DeqRead(pos) => pos + 1 == r.deq
    case DeqPublish(pos, _) => pos + 1 == r.deq
    case Dequeued(_) => true
    case _ => false
  }

  predicate Enqueuing<Job>(pc: Pc<Job>) {
    pc.EnqLoad? || pc.EnqSeq? || pc.EnqCas? || pc.EnqWrite? || pc.EnqPublish?
  }

  /** A caller's ring thread is inside try_enqueue exactly while it is offering that job. */
  ghost predicate CallerOk<Job>(caller: CallerPc<Job>, pc: Pc<Job>) {
    match caller
    case Offering(job) => (Enqueuing(pc) && pc.v == job) || pc.Enqueued?
    case _ => pc.Idle? || pc.Enqueued?
  }

  /** A caller that has made its job visible, or is about to, and has not yet looked at the flag. */
  predicate Responsible<Job>(caller: CallerPc<Job>, pc: Pc<Job>) {
    || caller.LoadWaiting? || caller.CasWaiting?
    || (caller.Offering? && (pc.EnqWrite? || pc.EnqPublish? || pc == Enqueued(true)))
  }

  ghost predicate SomeoneResponsible<Job>(s: System<Job>)
    requires |s.callers| == |s.ring.threads|
  {
    exists t :: 0 < t < |s.callers| && Responsible(s.callers[t], s.ring.threads[t])
  }

  ghost predicate SomeoneSetting<Job>(s: System<Job>) {
    exists t :: 0 < t < |s.callers| && s.callers[t] == SetEvent
  }

  predicate FoundNothing<Job>(s: System<Job>)
    requires |s.ring.threads| > 0
  {
    s.worker == Blocked || (s.worker == Recheck && s.ring.threads[0] == Dequeued(None))
  }

  predicate Armed<Job>(s: System<Job>) {
    s.worker == StartRecheck || s.worker == Recheck || s.worker == Blocked
  }

  /** The job the worker holds: dequeued from the ring and not yet signalled. */
  function InHand<Job>(s: System<Job>): seq<Job>
    requires |s.ring.threads| > 0
  {
    match s.worker
    case Process(job) => [job]
    case Disarm(job) => [job]
    case Drain => HeldByRing(s.ring, s.ring.threads[0])
    case Recheck => HeldByRing(s.ring, s.ring.threads[0])
    case _ => []
  }

  function HeldByRing<Job>(r: Ring<Job>, pc: Pc<Job>): seq<Job> {
    match pc
    case DeqRead(pos) => if pos < |r.sent| then [r.sent[pos]] else []
    case DeqPublish(pos, job) => [job]
    case Dequeued(Some(job)) => [job]
    case _ => []
  }

  /** Each thread's ring operation is the one its program counter says it is in. */
  ghost predicate Shape<Job>(s: System<Job>) {
    && |s.callers| == |s.ring.threads| > 0 && s.ring.deq <= s.ring.enq == |s.ring.sent|
    && WorkerRingOk(s.ring, s.ring.threads[0])
    && (s.worker != Drain && s.worker != Recheck ==> !InOperation(s.ring.threads[0]))
    && (forall t | 0 < t < |s.callers| :: CallerOk(s.callers[t], s.ring.threads[t]))
  }

  /**
   * Why the worker can sleep: a cleared flag means a wakeup is on its way, and
   * a set flag with work in the ring means some caller has yet to look at it.
   */
  ghost predicate Wakeable<Job>(s: System<Job>)
    requires |s.callers| == |s.ring.threads| > 0
  {
    && (Armed(s) && !s.waiting ==> s.event || SomeoneSetting(s))
    && (FoundNothing(s) && s.waiting && s.ring.deq < s.ring.enq ==> SomeoneResponsible(s))
  }

  /** Jobs leave the ring in order and none is lost on the way to its signal. */
  ghost predicate Ordered<Job>(s: System<Job>)
    requires |s.ring.threads| > 0
  {
    s.ring.deq <= |s.ring.sent| && s.signalled + InHand(s) == s.ring.sent[..s.ring.deq]
  }

  ghost predicate Protocol<Job>(s: System<Job>) {
    Shape(s) && Wakeable(s) && Ordered(s)
  }

  ghost predicate Inv<Job>(s: System<Job>) {
    MpmcRing.Inv(CAPACITY, s.ring) && Protocol(s)
  }

  // --------------------------------------------------------------- step proofs

  lemma ResponsiblePersists<Job>(s: System<Job>, s': System<Job>, t: nat)
    requires |s.callers| == |s.ring.threads| == |s'.callers| == |s'.ring.threads|
    requires t < |s.callers| && SomeoneResponsible(s)
    requires forall u | 0 < u < |s.callers| && u != t ::
      s'.callers[u] == s.callers[u] && s'.ring.threads[u] == s.ring.threads[u]
    requires t > 0 && Responsible(s.callers[t], s.ring.threads[t]) ==> Responsible(s'.callers[t], s'.ring.threads[t])
    ensures SomeoneResponsible(s')
  {
    var u :| 0 < u < |s.callers| && Responsible(s.callers[u], s.ring.threads[u]);
    assert Responsible(s'.callers[u], s'.ring.threads[u]);
  }

  lemma SettingPersists<Job>(s: System<Job>, s': System<Job>, t: nat)
    requires |s.callers| == |s'.callers| && t < |s.callers| && SomeoneSetting(s)
    requires s.callers[t] != SetEvent
    requires forall u | 0 < u < |s.callers| && u != t :: s'.callers[u] == s.callers[u]
    ensures SomeoneSetting(s')
  {
    var u :| 0 < u < |s.callers| && s.callers[u] == SetEvent;
    assert s'.callers[u] == SetEvent;
  }

  lemma OfferKeepsProtocol<Job>(s: System<Job>, t: nat, job: Job)
    requires Protocol(s) && |s.ring.cells| == CAPACITY
    ensures Protocol(Step(s, Offer(t, job)))
  {
    hide AdvanceThread;
    if 0 < t < |s.callers| && s.callers[t] == Outside {
      var s' := Step(s, Offer(t, job));
      assert CallerOk(s.callers[t], s.ring.threads[t]);
      if SomeoneSetting(s) { SettingPersists(s, s', t); }
      if SomeoneResponsible(s) { ResponsiblePersists(s, s', t); }
    }
  }

  lemma CallerKeepsProtocol<Job>(s: System<Job>, t: nat)
    requires Protocol(s) && 0 < t < |s.callers|
    ensures Protocol(CallerStep(s, t))
  {
    hide Shape, Wakeable, CallerStep, Ordered;
    CallerKeepsShape(s, t);
    CallerKeepsOrdered(s, t);
    CallerKeepsWakeable(s, t);
  }

  /** What one step of a caller does to the rest of the system. */
  lemma CallerStepEffect<Job>(s: System<Job>, t: nat)
    requires 0 < t < |s.callers| == |s.ring.threads|
    ensures var s' := CallerStep(s, t);
      && s'.ring == s.ring && s'.worker == s.worker && s'.signalled == s.signalled && |s'.callers| == |s.callers|
      && (forall u | 0 <= u < |s.callers| && u != t :: s'.callers[u] == s.callers[u])
      && (s'.waiting == s.waiting || (!s'.waiting && s'.callers[t] == SetEvent))
      && s'.event == (s.event || s.callers[t] == SetEvent)
      && (s'.waiting && Responsible(s.callers[t], s.ring.threads[t]) ==> Responsible(s'.callers[t], s.ring.threads[t]))
      && (CallerOk(s.callers[t], s.ring.threads[t]) ==> CallerOk(s'.callers[t], s.ring.threads[t]))
  {
  }

  lemma CallerKeepsShape<Job>(s: System<Job>, t: nat)
    requires Shape(s) && 0 < t < |s.callers|
    ensures Shape(CallerStep(s, t))
  {
    hide WorkerRingOk, CallerOk, CallerStep;
    CallerStepEffect(s, t);
  }

  lemma CallerKeepsOrdered<Job>(s: System<Job>, t: nat)
    requires Shape(s) && Ordered(s) && 0 < t < |s.callers|
    ensures |CallerStep(s, t).ring.threads| > 0 && Ordered(CallerStep(s, t))
  {
    hide WorkerRingOk, CallerOk, CallerStep, HeldByRing;
    CallerStepEffect(s, t);
  }

  lemma CallerKeepsWakeable<Job>(s: System<Job>, t: nat)
    requires Shape(s) && Wakeable(s) && 0 < t < |s.callers|
    ensures |CallerStep(s, t).callers| == |CallerStep(s, t).ring.threads| > 0 && Wakeable(CallerStep(s, t))
  {
    hide WorkerRingOk, CallerOk, CallerStep, Responsible;
    var s' := CallerStep(s, t);
    CallerStepEffect(s, t);
    if s'.callers[t] == SetEvent {
      assert SomeoneSetting(s');
    } else if SomeoneSetting(s) && s.callers[t] != SetEvent {
      SettingPersists(s, s', t);
    }
    if SomeoneResponsible(s) && s'.waiting { ResponsiblePersists(s, s', t); }
  }

  /** A caller's ring step: it may reserve and publish, but it never dequeues. */
  lemma CallerRingKeepsProtocol<Job>(s: System<Job>, t: nat, a: MpmcRing.Action<Job>)
    requires Protocol(s) && |s.ring.cells| == CAPACITY
    requires 0 < t < |s.callers| && (a == Advance(t) || a == SpuriousFailure(t))
    requires MpmcRing.ThreadOk(CAPACITY, s.ring, s.ring.threads[t])
    ensures Protocol(s.(ring := Apply(CAPACITY, s.ring, a)))
  {
    CallerRingKeepsShape(s, t, a);
    hide Apply, CallerOk, WorkerRingOk, Responsible, HeldByRing;
    var s' := s.(ring := Apply(CAPACITY, s.ring, a));
    assert s'.ring.sent[..s.ring.deq] == s.ring.sent[..s.ring.deq];
    WorkerViewUnchanged(s, s');
    if SomeoneResponsible(s) { ResponsiblePersists(s, s', t); }
    if SomeoneSetting(s) { SettingUnaffected(s, s'); }
  }

  /** Whoever reserves a position from then on is the one to look at the flag. */
  lemma CallerRingKeepsShape<Job>(s: System<Job>, t: nat, a: MpmcRing.Action<Job>)
    requires Shape(s) && |s.ring.cells| == CAPACITY
    requires 0 < t < |s.callers| && (a == Advance(t) || a == SpuriousFailure(t))
    requires MpmcRing.ThreadOk(CAPACITY, s.ring, s.ring.threads[t])
    ensures var s' := s.(ring := Apply(CAPACITY, s.ring, a));
      && Shape(s') && s'.ring.deq == s.ring.deq && s.ring.sent <= s'.ring.sent
      && s'.ring.threads[0] == s.ring.threads[0]
      && (s'.ring.enq != s.ring.enq || Responsible(s.callers[t], s.ring.threads[t]) ==>
            Responsible(s'.callers[t], s'.ring.threads[t]))
  {
    hide HeldByRing;
    assert CallerOk(s.callers[t], s.ring.threads[t]);
  }

  /** The worker holds the same job as long as its own ring thread has not moved. */
  lemma WorkerViewUnchanged<Job>(s: System<Job>, s': System<Job>)
    requires |s.ring.threads| > 0 && |s'.ring.threads| > 0 && s'.worker == s.worker
    requires s'.ring.threads[0] == s.ring.threads[0] && WorkerRingOk(s.ring, s.ring.threads[0])
    requires s'.ring.deq == s.ring.deq <= |s.ring.sent| && s.ring.sent <= s'.ring.sent
    ensures InHand(s') == InHand(s)
  {
  }

  lemma SettingUnaffected<Job>(s: System<Job>, s': System<Job>)
    requires s'.callers == s.callers && SomeoneSetting(s)
    ensures SomeoneSetting(s')
  {
    var u :| 0 < u < |s.callers| && s.callers[u] == SetEvent;
    assert s'.callers[u] == SetEvent;
  }

  /** What the ring's own invariant says about the worker's next ring step. */
  ghost predicate RingStepFacts<Job>(s: System<Job>, a: MpmcRing.Action<Job>)
    requires |s.ring.cells| == CAPACITY && |s.ring.threads| > 0
  {
    var pc, pc' := s.ring.threads[0], Apply(CAPACITY, s.ring, a).threads[0];
    && (pc.DeqCas? && a == Advance(0) ==> s.ring.deq < s.ring.enq)
    && (pc.DeqPublish? ==> pc.pos < |s.ring.sent| && s.ring.sent[pc.pos] == pc.out)
    && (pc.DeqRead? && pc'.DeqPublish? ==> pc.pos < |s.ring.sent| && s.ring.sent[pc.pos] == pc'.out)
    && (pc.DeqSeq? && pc' == Dequeued(None) ==>
        s.ring.deq == s.ring.enq || InFlight(s.ring, Producing(s.ring.deq)))
  }

  /** The worker's ring step: an empty-handed recheck means the ring is empty or its producer is here. */
  lemma WorkerRingKeepsProtocol<Job>(s: System<Job>, a: MpmcRing.Action<Job>)
    requires Protocol(s) && |s.ring.cells| == CAPACITY && (a == Advance(0) || a == SpuriousFailure(0))
    requires RingStepFacts(s, a)
    ensures Protocol(s.(ring := Apply(CAPACITY, s.ring, a)))
  {
    WorkerRingKeepsShape(s, a);
    WorkerRingKeepsWakeable(s, a);
    WorkerRingKeepsOrdered(s, a);
  }

  lemma WorkerRingKeepsShape<Job>(s: System<Job>, a: MpmcRing.Action<Job>)
    requires Shape(s) && |s.ring.cells| == CAPACITY && (a == Advance(0) || a == SpuriousFailure(0))
    requires RingStepFacts(s, a)
    ensures Shape(s.(ring := Apply(CAPACITY, s.ring, a)))
  {
  }

  lemma WorkerRingKeepsWakeable<Job>(s: System<Job>, a: MpmcRing.Action<Job>)
    requires Protocol(s) && |s.ring.cells| == CAPACITY && (a == Advance(0) || a == SpuriousFailure(0))
    requires RingStepFacts(s, a)
    ensures Wakeable(s.(ring := Apply(CAPACITY, s.ring, a)))
  {
    var s' := s.(ring := Apply(CAPACITY, s.ring, a));
    if s.ring.threads[0].DeqSeq? && s'.ring.threads[0] == Dequeued(None) && s.ring.deq < s.ring.enq {
      ProducerIsResponsible(s, s');
    } else if SomeoneResponsible(s) {
      ResponsiblePersists(s, s', 0);
    }
    if SomeoneSetting(s) { SettingUnaffected(s, s'); }
  }

  lemma WorkerRingKeepsOrdered<Job>(s: System<Job>, a: MpmcRing.Action<Job>)
    requires Shape(s) && Ordered(s) && |s.ring.cells| == CAPACITY && (a == Advance(0) || a == SpuriousFailure(0))
    requires RingStepFacts(s, a)
    ensures Ordered(s.(ring := Apply(CAPACITY, s.ring, a)))
  {
    if s.ring.threads[0].DeqCas? && a == Advance(0) {
      assert s.ring.sent[..s.ring.deq + 1] == s.ring.sent[..s.ring.deq] + [s.ring.sent[s.ring.deq]];
    }
  }

  lemma ProducerIsResponsible<Job>(s: System<Job>, s': System<Job>)
    requires Protocol(s) && !ClaimOf(s.ring.threads[0]).Producing? && InFlight(s.ring, Producing(s.ring.deq))
    requires s'.callers == s.callers && |s'.ring.threads| == |s.ring.threads|
    requires forall u | 0 < u < |s.ring.threads| :: s'.ring.threads[u] == s.ring.threads[u]
    ensures SomeoneResponsible(s')
  {
    var u :| 0 <= u < |s.ring.threads| && ClaimOf(s.ring.threads[u]) == Producing(s.ring.deq);
    assert CallerOk(s.callers[u], s.ring.threads[u]);
    assert Responsible(s'.callers[u], s'.ring.threads[u]);
  }

  lemma WorkerKeepsProtocol<Job>(s: System<Job>)
    requires Protocol(s) && |s.ring.cells| == CAPACITY
    ensures Protocol(WorkerStep(s))
  {
    WorkerKeepsShape(s);
    WorkerKeepsWakeable(s);
    WorkerKeepsOrdered(s);
  }

  lemma WorkerKeepsShape<Job>(s: System<Job>)
    requires Shape(s) && |s.ring.cells| == CAPACITY
    ensures Shape(WorkerStep(s))
  {
    hide AdvanceThread;
  }

  lemma WorkerKeepsWakeable<Job>(s: System<Job>)
    requires Shape(s) && Wakeable(s) && |s.ring.cells| == CAPACITY
    ensures Wakeable(WorkerStep(s))
  {
    hide CallerOk, WorkerRingOk, Responsible, AdvanceThread, HeldByRing;
    var s' := WorkerStep(s);
    if SomeoneResponsible(s) { ResponsiblePersists(s, s', 0); }
    if SomeoneSetting(s) { SettingUnaffected(s, s'); }
  }

  lemma WorkerKeepsOrdered<Job>(s: System<Job>)
    requires Shape(s) && Ordered(s) && |s.ring.cells| == CAPACITY
    ensures Ordered(WorkerStep(s))
  {
  }

  /** The facts about its own ring step that the worker's proof uses. */
  lemma WorkerRingFacts<Job>(s: System<Job>, a: MpmcRing.Action<Job>)
    requires Inv(s) && (a == Advance(0) || a == SpuriousFailure(0))
    ensures RingStepFacts(s, a)
  {
    var r' := Apply(CAPACITY, s.ring, a);
    MpmcRing.StepKeepsInv(CAPACITY, s.ring, a);
    assert MpmcRing.ThreadOk(CAPACITY, s.ring, s.ring.threads[0]);
    assert MpmcRing.ThreadOk(CAPACITY, r', r'.threads[0]);
    if s.ring.threads[0].DeqSeq? && r'.threads[0] == Dequeued(None) {
      DequeueRefusedOnlyWhenEmpty(CAPACITY, s.ring, 0);
    }
  }

  lemma StepKeepsProtocol<Job>(s: System<Job>, a: Action<Job>)
    requires Inv(s)
    ensures Protocol(Step(s, a))
  {
    match a
    case Offer(t, job) => OfferKeepsProtocol(s, t, job);
    case Caller(t) => if 0 < t < |s.callers| { CallerKeepsProtocol(s, t); }
    case Worker => WorkerKeepsProtocol(s);
    case RingStep(t) => RingKeepsProtocol(s, t, Advance(t));
    case RingSpuriousFailure(t) => RingKeepsProtocol(s, t, SpuriousFailure(t));
  }

  lemma RingKeepsProtocol<Job>(s: System<Job>, t: nat, a: MpmcRing.Action<Job>)
    requires Inv(s) && (a == Advance(t) || a == SpuriousFailure(t))
    ensures Protocol(s.(ring := Apply(CAPACITY, s.ring, a)))
  {
    if t == 0 {
      WorkerRingFacts(s, a);
      WorkerRingKeepsProtocol(s, a);
    } else if t < |s.callers| {
      CallerRingKeepsProtocol(s, t, a);
    }
  }

  lemma StepKeepsInv<Job>(s: System<Job>, a: Action<Job>)
    requires Inv(s)
    ensures Inv(Step(s, a))
  {
    hide WorkerRingOk, CallerOk, Wakeable, Ordered, MpmcRing.Inv;
    StepKeepsProtocol(s, a);
    match a
    case Offer(t, job) => MpmcRing.StepKeepsInv(CAPACITY, s.ring, CallEnqueue(t, job));
    case Caller(t) =>
    case Worker => MpmcRing.StepKeepsInv(CAPACITY, s.ring, CallDequeue(0));
    case RingStep(t) => MpmcRing.StepKeepsInv(CAPACITY, s.ring, Advance(t));
    case RingSpuriousFailure(t) => MpmcRing.StepKeepsInv(CAPACITY, s.ring, SpuriousFailure(t));
  }

  lemma {:induction false} RunKeepsInv<Job>(s: System<Job>, run: seq<Action<Job>>)
    requires Start(s)
    ensures Inv(Run(s, run))
  {
    if run == [] {
      MpmcRing.RunKeepsInv(CAPACITY, s.ring, []);
    } else {
      RunKeepsInv(s, run[..|run| - 1]);
      StepKeepsInv(Run(s, run[..|run| - 1]), run[|run| - 1]);
    }
  }

  // ------------------------------------------------------------- conservation

  /** The job a caller has offered and that is neither in the ring nor signalled yet. */
  function StillHeld<Job>(caller: CallerPc<Job>, pc: Pc<Job>): multiset<Job> {
    match caller
    case Refused(job) => multiset{job}
    case Offering(job) =>
      if Unplaced(pc) then multiset{job} else multiset{}
    case _ => multiset{}
  }

  /** Inside try_enqueue, before a position is reserved or after none was. */
  predicate Unplaced<Job>(pc: Pc<Job>) {
    pc.EnqLoad? || pc.EnqSeq? || pc.EnqCas? || pc == Enqueued(false)
  }

  function Total<Job>(parts: seq<multiset<Job>>): multiset<Job> {
    if parts == [] then multiset{} else Total(parts[..|parts| - 1]) + parts[|parts| - 1]
  }

  lemma {:induction false} TotalAfterUpdate<Job>(parts: seq<multiset<Job>>, t: nat, m: multiset<Job>)
    requires t < |parts|
    ensures Total(parts[t := m]) + parts[t] == Total(parts) + m
  {
    var last := |parts| - 1;
    if t == last {
      assert parts[t := m][..last] == parts[..last];
    } else {
      TotalAfterUpdate(parts[..last], t, m);
      var parts' := parts[t := m];
      assert parts'[..last] == parts[..last][t := m] && parts'[last] == parts[last];
      assert Total(parts') == Total(parts'[..last]) + parts'[last];
      var before, after, own := Total(parts[..last]), Total(parts[..last][t := m]), parts[last];
      assert (after + own) + parts[t] == (after + parts[t]) + own;
      assert (before + own) + m == (before + m) + own;
    }
  }

  lemma {:induction false} TotalOfNothing<Job>(parts: seq<multiset<Job>>)
    requires forall t | 0 <= t < |parts| :: parts[t] == multiset{}
    ensures Total(parts) == multiset{}
  {
    if parts != [] {
      TotalOfNothing(parts[..|parts| - 1]);
    }
  }

  /** What each caller still holds; the worker, thread 0, holds nothing of its own. */
  function Holdings<Job>(callers: seq<CallerPc<Job>>, threads: seq<Pc<Job>>): (parts: seq<multiset<Job>>)
    requires |callers| == |threads|
    ensures |parts| == |callers|
  {
    seq(|callers|, t requires 0 <= t < |callers| =>
      if t == 0 then multiset{} else StillHeld(callers[t], threads[t]))
  }

  function HeldByCallers<Job>(s: System<Job>): multiset<Job>
    requires |s.callers| == |s.ring.threads|
  {
    Total(Holdings(s.callers, s.ring.threads))
  }

  /** Every job ever offered is in exactly one place. */
  ghost predicate Conserved<Job>(s: System<Job>) {
    && |s.callers| == |s.ring.threads|
    && s.offered == multiset(s.ring.sent) + s.callerSignalled + HeldByCallers(s)
  }

  lemma StepKeepsConserved<Job>(s: System<Job>, a: Action<Job>)
    requires Shape(s) && |s.ring.cells| == CAPACITY && Conserved(s)
    ensures Conserved(Step(s, a))
  {
    match a
    case Offer(t, job) => if 0 < t < |s.callers| { OneCallerKeepsConserved(s, a, t); }
    case Caller(t) => if 0 < t < |s.callers| { OneCallerKeepsConserved(s, a, t); }
    case Worker => WorkerKeepsConserved(s, a);
    case RingStep(t) =>
      if 0 < t < |s.callers| { OneCallerKeepsConserved(s, a, t); } else { WorkerKeepsConserved(s, a); }
    case RingSpuriousFailure(t) =>
      if 0 < t < |s.callers| { OneCallerKeepsConserved(s, a, t); } else { WorkerKeepsConserved(s, a); }
  }

  lemma WorkerKeepsConserved<Job>(s: System<Job>, a: Action<Job>)
    requires Shape(s) && |s.ring.cells| == CAPACITY && Conserved(s)
    requires a == Worker || ((a.RingStep? || a.RingSpuriousFailure?) && (a.t == 0 || a.t >= |s.callers|))
    ensures Conserved(Step(s, a))
  {
    var s' := Step(s, a);
    WorkerSendsNothing(s, a);
    assert Holdings(s'.callers, s'.ring.threads) == Holdings(s.callers, s.ring.threads);
  }

  lemma OneCallerKeepsConserved<Job>(s: System<Job>, a: Action<Job>, t: nat)
    requires Shape(s) && |s.ring.cells| == CAPACITY && Conserved(s) && 0 < t < |s.callers|
    requires !a.Worker? && a.t == t
    ensures Conserved(Step(s, a))
  {
    hide Balanced, StillHeld, WorkerRingOk, CallerOk;
    var s' := Step(s, a);
    var parts := Holdings(s.callers, s.ring.threads);
    var m := StillHeld(s'.callers[t], s'.ring.threads[t]);
    OthersUntouched(s, a, t);
    assert Holdings(s'.callers, s'.ring.threads) == parts[t := m];
    TotalAfterUpdate(parts, t, m);
    MoveBalances(s, a, t);
    Rearrange(s.offered, multiset(s.ring.sent), s.callerSignalled, HeldByCallers(s), parts[t],
      s'.offered, multiset(s'.ring.sent), s'.callerSignalled, HeldByCallers(s'), m);
  }

  lemma Rearrange<Job>(
      offered: multiset<Job>, sent: multiset<Job>, signalled: multiset<Job>, held: multiset<Job>, own: multiset<Job>,
      offered': multiset<Job>, sent': multiset<Job>, signalled': multiset<Job>, held': multiset<Job>, own': multiset<Job>)
    requires offered == sent + signalled + held && held' + own == held + own'
    requires offered' + sent + signalled + own == offered + sent' + signalled' + own'
    ensures offered' == sent' + signalled' + held'
  {
    var rest := sent + signalled + held + own + own';
    assert offered' + rest == (offered' + sent + signalled + own) + (held + own');
    assert sent' + signalled' + held' + rest == (offered + sent' + signalled' + own') + (held' + own);
    Cancel(offered', sent' + signalled' + held', rest);
  }

  lemma Cancel<Job>(a: multiset<Job>, b: multiset<Job>, rest: multiset<Job>)
    requires a + rest == b + rest
    ensures a == b
  {
    assert a == (a + rest) - rest;
    assert b == (b + rest) - rest;
  }

  lemma OthersUntouched<Job>(s: System<Job>, a: Action<Job>, t: nat)
    requires Shape(s) && |s.ring.cells| == CAPACITY && 0 < t < |s.callers| && !a.Worker? && a.t == t
    ensures var s' := Step(s, a);
      forall u | 0 <= u < |s.callers| && u != t :: s'.callers[u] == s.callers[u] && s'.ring.threads[u] == s.ring.threads[u]
  {
  }

  /** What a step adds to the books is what it takes off a caller's hands. */
  ghost predicate Balanced<Job>(s: System<Job>, s': System<Job>, t: nat)
    requires t < |s.callers| == |s.ring.threads| == |s'.callers| == |s'.ring.threads|
  {
    s'.offered + multiset(s.ring.sent) + s.callerSignalled + StillHeld(s.callers[t], s.ring.threads[t])
    == s.offered + multiset(s'.ring.sent) + s'.callerSignalled + StillHeld(s'.callers[t], s'.ring.threads[t])
  }

  lemma MoveBalances<Job>(s: System<Job>, a: Action<Job>, t: nat)
    requires Shape(s) && |s.ring.cells| == CAPACITY && 0 < t < |s.callers| && !a.Worker? && a.t == t
    ensures Balanced(s, Step(s, a), t)
  {
    match a
    case Offer(_, job) => OfferMoves(s, t, job);
    case Caller(_) => CallerMoves(s, t);
    case RingStep(_) => RingMoves(s, t, Advance(t));
    case RingSpuriousFailure(_) => RingMoves(s, t, SpuriousFailure(t));
  }

  lemma OfferMoves<Job>(s: System<Job>, t: nat, job: Job)
    requires Shape(s) && |s.ring.cells| == CAPACITY && 0 < t < |s.callers|
    ensures Balanced(s, Step(s, Offer(t, job)), t)
  {
    var s' := Step(s, Offer(t, job));
    OfferBalances(s, t, job);
    Regroup(s.callerSignalled, multiset(s.ring.sent), s'.offered, StillHeld(s.callers[t], s.ring.threads[t]),
      s.offered, StillHeld(s'.callers[t], s'.ring.threads[t]));
  }

  lemma CallerMoves<Job>(s: System<Job>, t: nat)
    requires Shape(s) && |s.ring.cells| == CAPACITY && 0 < t < |s.callers|
    ensures Balanced(s, Step(s, Caller(t)), t)
  {
    var s' := Step(s, Caller(t));
    CallerBalances(s, t);
    Regroup(s.offered, multiset(s.ring.sent), s.callerSignalled, StillHeld(s.callers[t], s.ring.threads[t]),
      s'.callerSignalled, StillHeld(s'.callers[t], s'.ring.threads[t]));
  }

  lemma RingMoves<Job>(s: System<Job>, t: nat, a: MpmcRing.Action<Job>)
    requires Shape(s) && |s.ring.cells| == CAPACITY && 0 < t < |s.callers|
    requires a == Advance(t) || a == SpuriousFailure(t)
    ensures Balanced(s, s.(ring := Apply(CAPACITY, s.ring, a)), t)
  {
    var r' := Apply(CAPACITY, s.ring, a);
    RingBalances(s, t, a);
    Regroup(s.offered, s.callerSignalled, multiset(s.ring.sent), StillHeld(s.callers[t], s.ring.threads[t]),
      multiset(r'.sent), StillHeld(s.callers[t], r'.threads[t]));
  }

  /** Two unchanged parts beside two parts whose sum is unchanged, in each order they are added up. */
  lemma Regroup<Job>(
      a: multiset<Job>, b: multiset<Job>, c: multiset<Job>, own: multiset<Job>, c': multiset<Job>, own': multiset<Job>)
    requires c + own == c' + own'
    ensures a + b + c + own == a + b + c' + own'
    ensures a + c + b + own == a + c' + b + own'
    ensures c + b + a + own == c' + b + a + own'
  {
    assert a + b + c + own == (c + own) + a + b;
    assert a + b + c' + own' == (c' + own') + a + b;
    assert a + c + b + own == (c + own) + a + b;
    assert a + c' + b + own' == (c' + own') + a + b;
    assert c + b + a + own == (c + own) + a + b;
    assert c' + b + a + own' == (c' + own') + a + b;
  }

  lemma OfferBalances<Job>(s: System<Job>, t: nat, job: Job)
    requires Shape(s) && |s.ring.cells| == CAPACITY && 0 < t < |s.callers|
    ensures var s' := Step(s, Offer(t, job));
      && s'.ring.sent == s.ring.sent && s'.callerSignalled == s.callerSignalled
      && s'.offered + StillHeld(s.callers[t], s.ring.threads[t])
         == s.offered + StillHeld(s'.callers[t], s'.ring.threads[t])
  {
    assert CallerOk(s.callers[t], s.ring.threads[t]);
  }

  lemma CallerBalances<Job>(s: System<Job>, t: nat)
    requires Shape(s) && 0 < t < |s.callers|
    ensures var s' := CallerStep(s, t);
      && s'.ring == s.ring && s'.offered == s.offered
      && s.callerSignalled + StillHeld(s.callers[t], s.ring.threads[t])
         == s'.callerSignalled + StillHeld(s'.callers[t], s.ring.threads[t])
  {
    CallerSignalsItsOwn(s.callers[t], s.ring.threads[t], s, t);
    hide CallerOk, StillHeld;
  }

  lemma CallerSignalsItsOwn<Job>(caller: CallerPc<Job>, pc: Pc<Job>, s: System<Job>, t: nat)
    requires 0 < t < |s.callers| == |s.ring.threads| && s.callers[t] == caller && s.ring.threads[t] == pc
    requires CallerOk(caller, pc)
    ensures var s' := CallerStep(s, t);
      var held, held' := StillHeld(caller, pc), StillHeld(s'.callers[t], pc);
      if caller.Refused? then s'.callerSignalled == s.callerSignalled + held && held' == multiset{}
      else s'.callerSignalled == s.callerSignalled && held' == held
  {
    var s' := CallerStep(s, t);
    if caller.Refused? {
      assert s'.callers[t] == Outside && StillHeld(caller, pc) == multiset{caller.job};
      hide StillHeld;
    } else {
      assert s'.callerSignalled == s.callerSignalled;
      hide CallerStep;
    }
  }

  lemma RingBalances<Job>(s: System<Job>, t: nat, a: MpmcRing.Action<Job>)
    requires Shape(s) && |s.ring.cells| == CAPACITY && 0 < t < |s.callers|
    requires a == Advance(t) || a == SpuriousFailure(t)
    ensures var r' := Apply(CAPACITY, s.ring, a);
      multiset(s.ring.sent) + StillHeld(s.callers[t], s.ring.threads[t])
      == multiset(r'.sent) + StillHeld(s.callers[t], r'.threads[t])
  {
    RingTakesOne(s, t, a);
    hide Apply, StillHeld, Shape;
    var r' := Apply(CAPACITY, s.ring, a);
    if r'.sent != s.ring.sent {
      var v := s.ring.threads[t].v;
      assert multiset(r'.sent) == multiset(s.ring.sent) + multiset{v};
    }
  }

  /** A caller's job is in its own hands until the step that reserves a position for it. */
  lemma RingTakesOne<Job>(s: System<Job>, t: nat, a: MpmcRing.Action<Job>)
    requires Shape(s) && |s.ring.cells| == CAPACITY && 0 < t < |s.callers|
    requires a == Advance(t) || a == SpuriousFailure(t)
    ensures var r' := Apply(CAPACITY, s.ring, a);
      var held, held' := StillHeld(s.callers[t], s.ring.threads[t]), StillHeld(s.callers[t], r'.threads[t]);
      if r'.sent == s.ring.sent then held' == held
      else s.ring.threads[t].EnqCas? && r'.sent == s.ring.sent + [s.ring.threads[t].v]
           && held == multiset{s.ring.threads[t].v} && held' == multiset{}
  {
    hide WorkerRingOk, Apply, Unplaced;
    assert CallerOk(s.callers[t], s.ring.threads[t]);
    EnqueuerSteps(s.ring, t, a);
  }

  lemma EnqueuerSteps<Job>(r: Ring<Job>, t: nat, a: MpmcRing.Action<Job>)
    requires |r.cells| == CAPACITY && t < |r.threads| && (a == Advance(t) || a == SpuriousFailure(t))
    requires Enqueuing(r.threads[t]) || r.threads[t].Enqueued? || r.threads[t].Idle?
    ensures var r', pc := Apply(CAPACITY, r, a), r.threads[t];
      if r'.sent == r.sent then Unplaced(r'.threads[t]) == Unplaced(pc)
      else Enqueuing(pc) && pc.EnqCas? && r'.sent == r.sent + [pc.v] && Unplaced(pc) && !Unplaced(r'.threads[t])
  {
  }

  lemma WorkerSendsNothing<Job>(s: System<Job>, a: Action<Job>)
    requires Shape(s) && |s.ring.cells| == CAPACITY
    requires a == Worker || ((a.RingStep? || a.RingSpuriousFailure?) && (a.t == 0 || a.t >= |s.callers|))
    ensures var s' := Step(s, a);
      && s'.offered == s.offered && s'.ring.sent == s.ring.sent && s'.callerSignalled == s.callerSignalled
      && s'.callers == s.callers && (forall u | 0 < u < |s.callers| :: s'.ring.threads[u] == s.ring.threads[u])
  {
  }

  lemma {:induction false} RunKeepsConserved<Job>(s: System<Job>, run: seq<Action<Job>>)
    requires Start(s)
    ensures Conserved(Run(s, run))
  {
    if run == [] {
      TotalOfNothing(Holdings(s.callers, s.ring.threads));
    } else {
      RunKeepsConserved(s, run[..|run| - 1]);
      RunKeepsInv(s, run[..|run| - 1]);
      StepKeepsConserved(Run(s, run[..|run| - 1]), run[|run| - 1]);
    }
  }

  // ------------------------------------------------------------- main results

  /** No caller is inside enqueue_emulated_sleep. */
  ghost predicate NobodyEnqueuing<Job>(s: System<Job>) {
    forall t | 0 < t < |s.callers| :: s.callers[t].Outside? || s.callers[t].Refused?
  }

  /**
   * No lost wakeup, in every interleaving: while the worker sleeps with its
   * event unset and no caller is inside the enqueue, the ring is empty and
   * every accepted job has already been signalled.
   */
  lemma NoLostWakeup<Job>(start: System<Job>, run: seq<Action<Job>>)
    requires Start(start)
    ensures var s := Run(start, run);
      s.worker == Blocked && !s.event && NobodyEnqueuing(s) ==>
        s.ring.deq == s.ring.enq && s.signalled == s.ring.sent
  {
    RunKeepsInv(start, run);
    SleepsOnlyWhenDone(Run(start, run));
  }

  lemma SleepsOnlyWhenDone<Job>(s: System<Job>)
    requires Protocol(s)
    ensures s.worker == Blocked && !s.event && NobodyEnqueuing(s) ==>
      s.ring.deq == s.ring.enq && s.signalled == s.ring.sent
  {
    if s.worker == Blocked && !s.event && NobodyEnqueuing(s) {
      assert !SomeoneSetting(s) && !SomeoneResponsible(s);
    }
  }

  /**
   * Accepted jobs are signalled in the order they were accepted: the jobs
   * signalled, the one in the worker's hands and the queued ones together are
   * the accepted jobs. And every job ever offered is accepted, signalled by its
   * own caller after a refusal, or still with that caller.
   */
  lemma JobsAreConserved<Job>(start: System<Job>, run: seq<Action<Job>>)
    requires Start(start)
    ensures var s := Run(start, run);
      && s.ring.deq <= |s.ring.sent| && |InHand(s)| <= 1
      && s.signalled + InHand(s) + s.ring.sent[s.ring.deq..] == s.ring.sent
      && s.offered == multiset(s.signalled) + multiset(InHand(s)) + multiset(s.ring.sent[s.ring.deq..])
                      + s.callerSignalled + HeldByCallers(s)
  {
    hide Wakeable, MpmcRing.Inv, HeldByCallers, HeldByRing, WorkerRingOk, CallerOk, Run;
    RunKeepsInv(start, run);
    RunKeepsConserved(start, run);
    var s := Run(start, run);
    var queued := s.ring.sent[s.ring.deq..];
    InHandIsOne(s);
    assert s.ring.sent == s.ring.sent[..s.ring.deq] + queued;
    CountParts(s.signalled, InHand(s), queued);
  }

  lemma InHandIsOne<Job>(s: System<Job>)
    requires |s.ring.threads| > 0
    ensures |InHand(s)| <= 1
  {
  }

  lemma CountParts<Job>(a: seq<Job>, b: seq<Job>, c: seq<Job>)
    ensures multiset(a + b + c) == multiset(a) + multiset(b) + multiset(c)
  {
  }

  // ----------------------------------------------------------------- progress

  /** The one thing the worker does next: its ring operation's next step, or its own. */
  function NextAction<Job>(s: System<Job>): Action<Job>
    requires |s.ring.threads| > 0
  {
    if InOperation(s.ring.threads[0]) then RingStep(0) else Worker
  }

  /** The state after n steps of the worker, everybody else standing still. */
  function WorkerAlone<Job>(s: System<Job>, n: nat): (s': System<Job>)
    requires |s.ring.cells| == CAPACITY && |s.callers| == |s.ring.threads| > 0
    decreases n
  {
    if n == 0 then s else WorkerAlone(Step(s, NextAction(s)), n - 1)
  }

  /** A drain or recheck under way has called the ring. */
  ghost predicate Started<Job>(s: System<Job>) {
    |s.ring.threads| > 0 && (s.worker == Drain || s.worker == Recheck ==> !s.ring.threads[0].Idle?)
  }

  lemma StepKeepsStarted<Job>(s: System<Job>, a: Action<Job>)
    requires |s.ring.cells| == CAPACITY && |s.callers| == |s.ring.threads| && Started(s)
    ensures Started(Step(s, a))
  {
    if a.Worker? {
      hide AdvanceThread;
    }
  }

  lemma {:induction false} RunKeepsStarted<Job>(s: System<Job>, run: seq<Action<Job>>)
    requires Start(s)
    ensures Started(Run(s, run))
  {
    hide Step;
    if run != [] {
      RunKeepsStarted(s, run[..|run| - 1]);
      StepKeepsStarted(Run(s, run[..|run| - 1]), run[|run| - 1]);
    }
  }

  /** How many steps of a dequeue are still ahead of a thread that will find a value. */
  function StepsInside<Job>(pc: Pc<Job>): nat {
    match pc
    case DeqLoad => 5
    case DeqSeq(_) => 4
    case DeqCas(_) => 3
    case DeqRead(_) => 2
    case DeqPublish(_, _) => 1
    case _ => 0
  }

  /** How many of its steps the worker is away from signalling its next job. */
  function Distance<Job>(worker: WorkerPc<Job>, pc: Pc<Job>): (d: nat)
    ensures d < 12
  {
    match worker
    case Process(_) => 1
    case Disarm(_) => 2
    case Drain => if pc == Dequeued(None) then 11 else 2 + StepsInside(pc)
    case StartDrain => 8
    case Clear => 9
    case Blocked => 10
    case Recheck => if pc == Dequeued(None) then 11 else 3 + StepsInside(pc)
    case StartRecheck => 9
    case Arm => 10
  }

  /** Accepted jobs not signalled yet, in steps of the worker. */
  ghost function StepsToGo<Job>(s: System<Job>): int
    requires |s.ring.threads| > 0
  {
    12 * (|s.ring.sent| - |s.signalled|) + Distance(s.worker, s.ring.threads[0])
  }

  /** The worker's own step brings it nearer. */
  ghost predicate Nearer<Job>(s: System<Job>, s': System<Job>) {
    && |s.ring.threads| > 0 && |s'.ring.threads| > 0
    && s'.callers == s.callers && s'.ring.sent == s.ring.sent && StepsToGo(s') < StepsToGo(s)
  }

  lemma WorkerComesNearer<Job>(s: System<Job>)
    requires Shape(s) && Started(s) && |s.ring.cells| == CAPACITY && !InOperation(s.ring.threads[0])
    requires s.worker == Blocked ==> s.event
    ensures Nearer(s, WorkerStep(s))
  {
    hide AdvanceThread, CallerOk;
  }

  /** With work in the ring and no producer in it, every step of the worker's dequeue leads on. */
  lemma RingComesNearer<Job>(s: System<Job>)
    requires Shape(s) && |s.ring.cells| == CAPACITY && InOperation(s.ring.threads[0])
    requires s.worker == Drain || s.worker == Recheck
    requires s.ring.threads[0].DeqSeq? ==> s.ring.cells[s.ring.deq % CAPACITY].sequence == s.ring.deq + 1
    ensures Nearer(s, s.(ring := Apply(CAPACITY, s.ring, Advance(0))))
  {
    hide CallerOk;
  }

  /** Callers outside the enqueue have no reservation in the ring, and the worker never produces. */
  lemma NobodyProduces<Job>(s: System<Job>, p: nat)
    requires Shape(s) && NobodyEnqueuing(s)
    ensures !InFlight(s.ring, Producing(p))
  {
    forall t | 0 <= t < |s.ring.threads| ensures ClaimOf(s.ring.threads[t]) != Producing(p) {
      if t > 0 {
        assert CallerOk(s.callers[t], s.ring.threads[t]);
      }
    }
  }

  lemma OldestIsThere<Job>(s: System<Job>)
    requires Inv(s) && NobodyEnqueuing(s) && |s.signalled| < |s.ring.sent|
    requires s.ring.threads[0].DeqSeq? && (s.worker == Drain || s.worker == Recheck)
    ensures s.ring.cells[s.ring.deq % CAPACITY].sequence == s.ring.deq + 1
  {
    NobodyProduces(s, s.ring.deq);
    hide Wakeable, CallerOk;
    assert InHand(s) == [];
    assert |s.signalled + InHand(s)| == s.ring.deq;
    QueuedCell(CAPACITY, s.ring, s.ring.deq);
  }

  lemma NextComesNearer<Job>(s: System<Job>)
    requires Inv(s) && Started(s) && NobodyEnqueuing(s) && |s.signalled| < |s.ring.sent|
    ensures |s.ring.cells| == CAPACITY && |s.callers| == |s.ring.threads| > 0
    ensures Nearer(s, Step(s, NextAction(s)))
  {
    hide MpmcRing.Inv, Wakeable, Ordered, CallerOk, WorkerRingOk, Apply, Nearer, WorkerStep;
    CellsAreThere(s);
    if InOperation(s.ring.threads[0]) {
      if s.ring.threads[0].DeqSeq? {
        OldestIsThere(s);
      }
      RingComesNearer(s);
    } else {
      SleepsOnlyWhenDone(s);
      WorkerComesNearer(s);
    }
  }

  lemma CellsAreThere<Job>(s: System<Job>)
    requires Inv(s)
    ensures |s.ring.cells| == CAPACITY && |s.callers| == |s.ring.threads| > 0 && |s.signalled| <= |s.ring.sent|
  {
  }

  lemma SameCallersStayOut<Job>(s: System<Job>, s': System<Job>)
    requires NobodyEnqueuing(s) && s'.callers == s.callers
    ensures NobodyEnqueuing(s')
  {
  }

  /** From any such state the worker alone signals everything accepted, within the steps to go. */
  lemma {:induction false} WorkerAloneFinishes<Job>(s: System<Job>) returns (n: nat)
    requires Inv(s) && Started(s) && NobodyEnqueuing(s)
    ensures |s.ring.cells| == CAPACITY && |s.callers| == |s.ring.threads| > 0
    ensures n <= StepsToGo(s)
    ensures WorkerAlone(s, n).signalled == s.ring.sent == WorkerAlone(s, n).ring.sent
    decreases StepsToGo(s)
  {
    CellsAreThere(s);
    hide Inv, Started, NobodyEnqueuing, Step, NextAction;
    if |s.signalled| == |s.ring.sent| {
      AllSignalled(s);
      n := 0;
    } else {
      var s' := Step(s, NextAction(s));
      NextComesNearer(s);
      StepKeepsInv(s, NextAction(s));
      StepKeepsStarted(s, NextAction(s));
      SameCallersStayOut(s, s');
      CellsAreThere(s');
      n := WorkerAloneFinishes(s');
      n := n + 1;
    }
  }

  lemma AllSignalled<Job>(s: System<Job>)
    requires Inv(s) && |s.signalled| == |s.ring.sent|
    ensures s.signalled == s.ring.sent
  {
    hide MpmcRing.Inv, Wakeable, CallerOk, WorkerRingOk, InHand;
    assert |s.signalled + InHand(s)| == s.ring.deq;
    assert (s.signalled + InHand(s))[..|s.signalled|] == s.signalled;
    assert s.ring.sent[..s.ring.deq] == s.ring.sent;
  }

  /**
   * Progress: from any reachable state in which no caller is inside the enqueue,
   * the worker alone signals every accepted job, in the order they were
   * accepted, within 12 of its steps for each job and 11 more. These are steps
   * that complete; a spurious failure of its compare-exchange would be one more.
   */
  lemma AcceptedJobsAreSignalled<Job>(start: System<Job>, run: seq<Action<Job>>)
    requires Start(start) && NobodyEnqueuing(Run(start, run))
    ensures var s := Run(start, run);
      exists n: nat :: n <= 12 * (|s.ring.sent| - |s.signalled|) + 11 && WorkerAlone(s, n).signalled == s.ring.sent
  {
    hide Run;
    RunKeepsInv(start, run);
    RunKeepsStarted(start, run);
    var n := WorkerAloneFinishes(Run(start, run));
  }

  // ------------------------------------------------------------- few signals

  /** The worker has armed itself and not yet taken the flag down or found it taken. */
  predicate Resting<Job>(pc: WorkerPc<Job>) {
    pc.StartRecheck? || pc.Recheck? || pc.Disarm? || pc.Blocked? || pc.Clear?
  }

  /** The step arms the worker. */
  predicate Arms<Job>(s: System<Job>, a: Action<Job>) {
    a.Worker? && s.worker.Arm?
  }

  /** The step takes the raised flag, and so is followed by its caller setting the event. */
  predicate TakesFlag<Job>(s: System<Job>, a: Action<Job>) {
    a.Caller? && 0 < a.t < |s.callers| && s.callers[a.t].CasWaiting? && s.waiting
  }

  predicate SetsEvent<Job>(s: System<Job>, a: Action<Job>) {
    a.Caller? && 0 < a.t < |s.callers| && s.callers[a.t].SetEvent?
  }

  predicate WakesUp<Job>(s: System<Job>, a: Action<Job>) {
    a.Worker? && s.worker.Blocked? && s.event
  }

  function One(b: bool): nat {
    if b then 1 else 0
  }

  /** How often in a run the worker armed itself, callers took the flag and set the event, and the worker woke. */
  datatype Tally = Tally(armings: nat, taken: nat, set': nat, wakeups: nat)

  ghost function TallyOf<Job>(s: System<Job>, run: seq<Action<Job>>): Tally
    requires |s.ring.cells| == CAPACITY && |s.callers| == |s.ring.threads| > 0
    decreases |run|
  {
    if run == [] then Tally(0, 0, 0, 0)
    else
      var init, a := run[..|run| - 1], run[|run| - 1];
      var before, was := Run(s, init), TallyOf(s, init);
      Tally(was.armings + One(Arms(before, a)), was.taken + One(TakesFlag(before, a)),
        was.set' + One(SetsEvent(before, a)), was.wakeups + One(WakesUp(before, a)))
  }

  lemma WorkerSignals<Job>(s: System<Job>)
    requires |s.ring.cells| == CAPACITY && |s.callers| == |s.ring.threads| > 0 && (s.waiting ==> Resting(s.worker))
    ensures var s' := WorkerStep(s);
      && (s'.waiting ==> Resting(s'.worker))
      && One(s'.waiting) <= One(s.waiting) + One(s.worker.Arm?)
      && One(s'.event) + One(s.worker.Blocked? && s.event) == One(s.event)
  {
    hide Apply;
  }

  lemma CallerSignals<Job>(s: System<Job>, t: nat)
    requires 0 < t < |s.callers| == |s.ring.threads|
    ensures var s' := CallerStep(s, t);
      && s'.worker == s.worker && (s'.waiting ==> s.waiting)
      && One(s'.waiting) + One(s.callers[t].CasWaiting? && s.waiting) == One(s.waiting)
      && One(s'.event) <= One(s.event) + One(s.callers[t].SetEvent?)
  {
  }

  lemma StepSignals<Job>(s: System<Job>, a: Action<Job>)
    requires |s.ring.cells| == CAPACITY && |s.callers| == |s.ring.threads| > 0 && (s.waiting ==> Resting(s.worker))
    ensures var s' := Step(s, a);
      && (s'.waiting ==> Resting(s'.worker))
      && One(s'.waiting) + One(TakesFlag(s, a)) <= One(s.waiting) + One(Arms(s, a))
      && One(s'.event) + One(WakesUp(s, a)) <= One(s.event) + One(SetsEvent(s, a))
  {
    hide Apply, WorkerStep, CallerStep, Resting;
    if a.Worker? {
      WorkerSignals(s);
    } else if a.Caller? && 0 < a.t < |s.callers| {
      CallerSignals(s, a.t);
    }
  }

  /**
   * In every interleaving callers leave a busy worker alone: the flag is up only
   * between the worker's arming and its own lowering of the flag, each arming is
   * taken by at most one caller, and each wakeup used up an event of its own.
   */
  lemma {:induction false} BusyWorkerIsLeftAlone<Job>(s: System<Job>, run: seq<Action<Job>>)
    requires Start(s) && |s.ring.cells| == CAPACITY && |s.callers| == |s.ring.threads| > 0
    ensures var s', n := Run(s, run), TallyOf(s, run);
      && (s'.waiting ==> Resting(s'.worker))
      && n.taken + One(s'.waiting) <= n.armings && n.wakeups + One(s'.event) <= n.set'
    decreases |run|
  {
    hide Step, Init, Resting, Arms, TakesFlag, SetsEvent, WakesUp;
    if run != [] {
      var init := run[..|run| - 1];
      BusyWorkerIsLeftAlone(s, init);
      StepSignals(Run(s, init), run[|run| - 1]);
    }
  }
}
