/**
 * The bounded multi-producer multi-consumer ring, as interleaved atomic steps.
 *
 * Every atomic load, store and compare-exchange of `try_enqueue` and
 * `try_dequeue` is one step of one thread, and the payload copies are steps of
 * their own. Steps are sequentially consistent and positions are unbounded.
 * Any number of threads may run; each may call either operation at any time.
 */
module RingArithmetic {

  lemma NonNegative(a: nat, b: nat)
    ensures a * b >= 0
  {
  }

  lemma OneMoreLap(n: nat, x: nat, y: nat)
    ensures x < y ==> n * x + n <= n * y
  {
    if x < y {
      var gap: nat := y - x - 1;
      assert n * y == n * (x + 1 + gap) == n * x + n + n * gap;
      NonNegative(n, gap);
    }
  }

  /** Two positions that use the same cell are a whole number of laps apart. */
  lemma SameCell(n: nat, a: nat, b: nat)
    requires n > 0 && a % n == b % n && a < b
    ensures a + n <= b
  {
    assert a == n * (a / n) + a % n && b == n * (b / n) + b % n;
    OneMoreLap(n, a / n, b / n);
    OneMoreLap(n, b / n, a / n);
  }

  /** Positions less than one lap apart that use the same cell are equal. */
  lemma SameCellWithinLap(n: nat, a: nat, b: nat)
    requires n > 0 && a % n == b % n
    requires a < b + n && b < a + n
    ensures a == b
  {
    if a < b {
      SameCell(n, a, b);
    } else if b < a {
      SameCell(n, b, a);
    }
  }

  /** Adding one lap does not change the cell. */
  lemma LapKeepsCell(n: nat, a: nat)
    requires n > 0
    ensures (a + n) % n == a % n
  {
    var q := a / n;
    assert a + n == n * (q + 1) + a % n;
    QuotientUnique(n, a + n, q + 1, a % n);
  }

  lemma QuotientUnique(n: nat, a: nat, q: nat, m: nat)
    requires n > 0 && a == n * q + m && m < n
    ensures a / n == q && a % n == m
  {
    assert a == n * (a / n) + a % n;
    OneMoreLap(n, a / n, q);
    OneMoreLap(n, q, a / n);
  }

  /** The next position uses a different cell. */
  lemma NextCellDiffers(n: nat, a: nat)
    requires n >= 2
    ensures (a + 1) % n != a % n
  {
    if (a + 1) % n == a % n {
      SameCell(n, a, a + 1);
    }
  }
}

module MpmcRing {
  import opened Options
  import opened RingArithmetic

  datatype Cell<T> = Cell(sequence: nat, value: T)

  /** Where a thread stands: the name says which atomic action comes next. */
  datatype Pc<T> =
    | Idle
    | EnqLoad(v: T)                    // load enqueue_pos
    | EnqSeq(v: T, pos: nat)           // load the cell's sequence
    | EnqCas(v: T, pos: nat)           // compare-exchange enqueue_pos
    | EnqWrite(v: T, pos: nat)         // copy the payload into the cell
    | EnqPublish(v: T, pos: nat)       // store sequence := pos + 1
    | Enqueued(ok: bool)
    | DeqLoad                          // load dequeue_pos
    | DeqSeq(pos: nat)
    | DeqCas(pos: nat)
    | DeqRead(pos: nat)                // copy the payload out of the cell
    | DeqPublish(pos: nat, out: T)     // store sequence := pos + Capacity
    | Dequeued(out': Option<T>)

  datatype Delivery<T> = Delivery(pos: nat, value: T)

  /**
   * The ring, its threads and two histories: `sent[p]` is the value whose
   * producer reserved position p, and `delivered` logs every payload copied out.
   */
  datatype Ring<T> = Ring(
    cells: seq<Cell<T>>, enq: nat, deq: nat, threads: seq<Pc<T>>,
    sent: seq<T>, delivered: seq<Delivery<T>>)

  datatype Action<T> =
    | CallEnqueue(t: nat, v: T)
    | CallDequeue(t: nat)
    | Advance(t: nat)
    | SpuriousFailure(t: nat)          // compare_exchange_weak may fail with no change

  predicate InOperation<T>(pc: Pc<T>) {
    !pc.Idle? && !pc.Enqueued? && !pc.Dequeued?
  }

  /** One atomic action of thread t in a ring of n cells. */
  function AdvanceThread<T>(n: nat, r: Ring<T>, t: nat): (r': Ring<T>)
    requires n > 0 && |r.cells| == n && t < |r.threads|
    ensures |r'.cells| == n && |r'.threads| == |r.threads|
    ensures forall u | 0 <= u < |r.threads| && u != t :: r'.threads[u] == r.threads[u]
  {
    match r.threads[t]
    case EnqLoad(v) => r.(threads := r.threads[t := EnqSeq(v, r.enq)])
    case EnqSeq(v, pos) =>
      var s := r.cells[pos % n].sequence;
      r.(threads := r.threads[t :=
        if s == pos then EnqCas(v, pos) else if s < pos then Enqueued(false) else EnqLoad(v)])
    case EnqCas(v, pos) =>
      if r.enq == pos then
        r.(enq := pos + 1, sent := r.sent + [v], threads := r.threads[t := EnqWrite(v, pos)])
      else r.(threads := r.threads[t := EnqSeq(v, r.enq)])
    case EnqWrite(v, pos) =>
      r.(cells := r.cells[pos % n := r.cells[pos % n].(value := v)],
         threads := r.threads[t := EnqPublish(v, pos)])
    case EnqPublish(v, pos) =>
      r.(cells := r.cells[pos % n := r.cells[pos % n].(sequence := pos + 1)],
         threads := r.threads[t := Enqueued(true)])
    case DeqLoad => r.(threads := r.threads[t := DeqSeq(r.deq)])
    case DeqSeq(pos) =>
      var s := r.cells[pos % n].sequence;
      r.(threads := r.threads[t :=
        if s == pos + 1 then DeqCas(pos) else if s < pos + 1 then Dequeued(None) else DeqLoad])
    case DeqCas(pos) =>
      if r.deq == pos then
        r.(deq := pos + 1, threads := r.threads[t := DeqRead(pos)])
      else r.(threads := r.threads[t := DeqSeq(r.deq)])
    case DeqRead(pos) =>
      var x := r.cells[pos % n].value;
      r.(delivered := r.delivered + [Delivery(pos, x)],
         threads := r.threads[t := DeqPublish(pos, x)])
    case DeqPublish(pos, x) =>
      r.(cells := r.cells[pos % n := r.cells[pos % n].(sequence := pos + n)],
         threads := r.threads[t := Dequeued(Some(x))])
    case _ => r
  }

  /** One step of the system; an action that is not enabled changes nothing. */
  function Apply<T>(n: nat, r: Ring<T>, a: Action<T>): (r': Ring<T>)
    requires n > 0 && |r.cells| == n
    ensures |r'.cells| == n && |r'.threads| == |r.threads|
    ensures forall u | 0 <= u < |r.threads| && u != a.t :: r'.threads[u] == r.threads[u]
  {
    if a.t >= |r.threads| then r else
    match a
    case CallEnqueue(t, v) =>
      if InOperation(r.threads[t]) then r else r.(threads := r.threads[t := EnqLoad(v)])
    case CallDequeue(t) =>
      if InOperation(r.threads[t]) then r else r.(threads := r.threads[t := DeqLoad])
    case Advance(t) => AdvanceThread(n, r, t)
    case SpuriousFailure(t) =>
      match r.threads[t]
      case EnqCas(v, pos) => r.(threads := r.threads[t := EnqSeq(v, r.enq)])
      case DeqCas(pos) => r.(threads := r.threads[t := DeqSeq(r.deq)])
      case _ => r
  }

  ghost predicate Init<T>(n: nat, r: Ring<T>) {
    && |r.cells| == n && r.enq == 0 && r.deq == 0 && r.sent == [] && r.delivered == []
    && (forall i | 0 <= i < n :: r.cells[i].sequence == i)
    && (forall t | 0 <= t < |r.threads| :: r.threads[t] == Idle)
  }

  /** The state after a whole run of any interleaving. */
  function Execute<T>(n: nat, r: Ring<T>, run: seq<Action<T>>): (r': Ring<T>)
    requires n > 0 && |r.cells| == n
    ensures |r'.cells| == n
    decreases |run|
  {
    if run == [] then r else Apply(n, Execute(n, r, run[..|run| - 1]), run[|run| - 1])
  }

  // ---------------------------------------------------------------- invariant

  /** The reservation a thread holds between its compare-exchange and its publication. */
  datatype Claim = NoClaim | Producing(p: nat) | Consuming(p: nat)

  function ClaimOf<T>(pc: Pc<T>): Claim {
    match pc
    case EnqWrite(_, pos) => Producing(pos)
    case EnqPublish(_, pos) => Producing(pos)
    case DeqRead(pos) => Consuming(pos)
    case DeqPublish(pos, _) => Consuming(pos)
    case _ => NoClaim
  }

  ghost predicate InFlight<T>(r: Ring<T>, c: Claim) {
    exists t :: 0 <= t < |r.threads| && ClaimOf(r.threads[t]) == c
  }

  /** The position a cell currently serves, read off its sequence number. */
  function Position(n: nat, i: nat, sequence: nat): int
    requires n > 0
  {
    if sequence % n == i then sequence else sequence - 1
  }

  /**
   * A cell serving position p either awaits its producer (sequence p) or holds
   * its value (sequence p + 1), and its reservations agree with both counters.
   */
  ghost predicate CellOk<T>(n: nat, r: Ring<T>, i: nat)
    requires n > 0 && |r.cells| == n && i < n
  {
    var s := r.cells[i].sequence;
    var p := Position(n, i, s);
    && 0 <= p && p % n == i
    && (s == p ==> r.deq <= p < r.deq + n && (p < r.enq ==> InFlight(r, Producing(p))))
    && (s == p + 1 ==>
        && p < r.enq <= p + n && p < |r.sent| && r.cells[i].value == r.sent[p]
        && (p < r.deq ==> InFlight(r, Consuming(p))))
  }

  ghost predicate ThreadOk<T>(n: nat, r: Ring<T>, pc: Pc<T>)
    requires n > 0 && |r.cells| == n
  {
    match pc
    case EnqSeq(_, pos) => pos <= r.enq
    case EnqCas(_, pos) => pos <= r.enq && (pos == r.enq ==> r.cells[pos % n].sequence == pos)
    case EnqWrite(v, pos) =>
      pos < r.enq && r.cells[pos % n].sequence == pos && pos < |r.sent| && r.sent[pos] == v
    case EnqPublish(v, pos) =>
      && pos < r.enq && r.cells[pos % n].sequence == pos && pos < |r.sent| && r.sent[pos] == v
      && r.cells[pos % n].value == v
    case DeqSeq(pos) => pos <= r.deq
    case DeqCas(pos) => pos <= r.deq && (pos == r.deq ==> r.cells[pos % n].sequence == pos + 1)
    case DeqRead(pos) => pos < r.deq && r.cells[pos % n].sequence == pos + 1
    case DeqPublish(pos, x) =>
      && pos < r.deq && r.cells[pos % n].sequence == pos + 1 && pos < |r.sent| && x == r.sent[pos]
      && Delivery(pos, x) in r.delivered
    case _ => true
  }

  ghost predicate ClaimsDistinct<T>(threads: seq<Pc<T>>) {
    forall t, u | 0 <= t < |threads| && 0 <= u < |threads| && t != u ::
      ClaimOf(threads[t]) == NoClaim || ClaimOf(threads[t]) != ClaimOf(threads[u])
  }

  ghost predicate Delivered<T>(log: seq<Delivery<T>>, p: nat) {
    exists i :: 0 <= i < |log| && log[i].pos == p
  }

  ghost predicate AwaitingRead<T>(r: Ring<T>, p: nat) {
    exists t :: 0 <= t < |r.threads| && r.threads[t] == DeqRead(p)
  }

  /** Every dequeued position was copied out exactly once, with the value sent there. */
  ghost predicate DeliveriesOk<T>(r: Ring<T>) {
    && (forall i | 0 <= i < |r.delivered| ::
          r.delivered[i].pos < r.deq && r.delivered[i].pos < |r.sent| &&
          r.delivered[i].value == r.sent[r.delivered[i].pos])
    && (forall i, j | 0 <= i < j < |r.delivered| :: r.delivered[i].pos != r.delivered[j].pos)
    && (forall t, i | 0 <= t < |r.threads| && r.threads[t].DeqRead? && 0 <= i < |r.delivered| ::
          r.delivered[i].pos != r.threads[t].pos)
    && (forall p: nat | p < r.deq :: Delivered(r.delivered, p) || AwaitingRead(r, p))
  }

  ghost predicate Inv<T>(n: nat, r: Ring<T>) {
    && n >= 2 && |r.cells| == n && |r.sent| == r.enq
    && r.deq <= r.enq <= r.deq + n
    && (forall i | 0 <= i < n :: CellOk(n, r, i))
    && (forall t | 0 <= t < |r.threads| :: ThreadOk(n, r, r.threads[t]))
    && ClaimsDistinct(r.threads)
    && DeliveriesOk(r)
  }

  // ------------------------------------------------- facts about single cells

  /** A reservation that is in flight stays so while other threads move. */
  lemma OtherThreadsKeepFlying<T>(r: Ring<T>, r': Ring<T>, t: nat, c: Claim)
    requires t < |r.threads| && InFlight(r, c) && ClaimOf(r.threads[t]) != c
    requires |r'.threads| == |r.threads|
    requires forall u | 0 <= u < |r.threads| && u != t :: r'.threads[u] == r.threads[u]
    ensures InFlight(r', c)
  {
    var u :| 0 <= u < |r.threads| && ClaimOf(r.threads[u]) == c;
    assert ClaimOf(r'.threads[u]) == c;
  }

  /** The cell of a position that is next to be reserved, once seen free, really serves it. */
  lemma CellServes<T>(n: nat, r: Ring<T>, pos: nat)
    requires Inv(n, r)
    requires r.cells[pos % n].sequence == pos || r.cells[pos % n].sequence == pos + 1
    ensures Position(n, pos % n, r.cells[pos % n].sequence) == pos
  {
    NextCellDiffers(n, pos);
  }

  // --------------------------------------------------------- the step lemmas

  /** A step that only moves a thread between points where it holds no reservation. */
  lemma MoveKeepsInv<T>(n: nat, r: Ring<T>, t: nat, pc: Pc<T>)
    requires Inv(n, r) && t < |r.threads|
    requires ClaimOf(r.threads[t]) == NoClaim && ClaimOf(pc) == NoClaim && ThreadOk(n, r, pc)
    ensures Inv(n, r.(threads := r.threads[t := pc]))
  {
    hide CellOk;
    var r' := r.(threads := r.threads[t := pc]);
    forall i | 0 <= i < n ensures CellOk(n, r', i) {
      CellKept(n, r, r', t, i);
    }
    forall p: nat | p < r.deq ensures Delivered(r'.delivered, p) || AwaitingRead(r', p) {
      if !Delivered(r.delivered, p) {
        var u :| 0 <= u < |r.threads| && r.threads[u] == DeqRead(p);
        assert r'.threads[u] == DeqRead(p);
      }
    }
  }

  lemma CellKept<T>(n: nat, r: Ring<T>, r': Ring<T>, t: nat, i: nat)
    requires Inv(n, r) && t < |r.threads| && i < n
    requires |r'.cells| == n && r'.cells[i] == r.cells[i]
    requires r'.enq == r.enq && r'.deq == r.deq && r'.sent == r.sent
    requires |r'.threads| == |r.threads|
    requires forall u | 0 <= u < |r.threads| && u != t :: r'.threads[u] == r.threads[u]
    requires ClaimOf(r.threads[t]) == NoClaim || ClaimOf(r'.threads[t]) == ClaimOf(r.threads[t])
    ensures CellOk(n, r', i)
  {
    assert CellOk(n, r, i);
    var s := r.cells[i].sequence;
    var p := Position(n, i, s);
    if s == p && p < r.enq {
      Persist(r, r', t, Producing(p));
    }
    if s == p + 1 && p < r.deq {
      Persist(r, r', t, Consuming(p));
    }
  }

  lemma Persist<T>(r: Ring<T>, r': Ring<T>, t: nat, c: Claim)
    requires t < |r.threads| && InFlight(r, c) && c != NoClaim
    requires |r'.threads| == |r.threads|
    requires forall u | 0 <= u < |r.threads| && u != t :: r'.threads[u] == r.threads[u]
    requires ClaimOf(r.threads[t]) == NoClaim || ClaimOf(r'.threads[t]) == ClaimOf(r.threads[t])
    ensures InFlight(r', c)
  {
    var u :| 0 <= u < |r.threads| && ClaimOf(r.threads[u]) == c;
    assert ClaimOf(r'.threads[u]) == c;
  }

  lemma ReserveForEnqueueKeepsInv<T>(n: nat, r: Ring<T>, t: nat)
    requires Inv(n, r) && t < |r.threads| && r.threads[t].EnqCas? && r.threads[t].pos == r.enq
    ensures Inv(n, AdvanceThread(n, r, t))
  {
    var r' := AdvanceThread(n, r, t);
    assert ThreadOk(n, r, r.threads[t]);
    CellServes(n, r, r.enq);
    assert r'.enq <= r'.deq + n by { assert CellOk(n, r, r.enq % n); }
    forall i | 0 <= i < n ensures CellOk(n, r', i) {
      ReserveKeepsCell(n, r, t, i);
    }
    forall u | 0 <= u < |r.threads| ensures ThreadOk(n, r', r'.threads[u]) {
      assert ThreadOk(n, r, r.threads[u]);
    }
    DeliveriesSurvive(r, r', t);
  }

  lemma ReserveKeepsCell<T>(n: nat, r: Ring<T>, t: nat, i: nat)
    requires Inv(n, r) && t < |r.threads| && r.threads[t].EnqCas? && r.threads[t].pos == r.enq
    requires i < n
    ensures CellOk(n, AdvanceThread(n, r, t), i)
  {
    var pos := r.enq;
    var r' := AdvanceThread(n, r, t);
    assert ThreadOk(n, r, r.threads[t]);
    assert CellOk(n, r, i);
    CellServes(n, r, pos);
    assert ClaimOf(r'.threads[t]) == Producing(pos);
    var s := r.cells[i].sequence;
    var p := Position(n, i, s);
    if i != pos % n {
      if s == p && p < pos {
        Persist(r, r', t, Producing(p));
      }
      if s == p + 1 {
        if p < r.deq {
          Persist(r, r', t, Consuming(p));
        }
        LapKeepsCell(n, p);
        assert pos != p + n;
      }
    }
  }

  /** Steps that neither dequeue nor read leave the delivery log good. */
  lemma DeliveriesSurvive<T>(r: Ring<T>, r': Ring<T>, t: nat)
    requires DeliveriesOk(r) && t < |r.threads|
    requires r'.delivered == r.delivered && r'.deq == r.deq && r.sent <= r'.sent
    requires |r'.threads| == |r.threads|
    requires forall u | 0 <= u < |r.threads| && u != t :: r'.threads[u] == r.threads[u]
    requires !r.threads[t].DeqRead? && !r'.threads[t].DeqRead?
    ensures DeliveriesOk(r')
  {
    forall p: nat | p < r.deq ensures Delivered(r'.delivered, p) || AwaitingRead(r', p) {
      if !Delivered(r.delivered, p) {
        var u :| 0 <= u < |r.threads| && r.threads[u] == DeqRead(p);
        assert r'.threads[u] == DeqRead(p);
      }
    }
  }

  lemma WriteKeepsInv<T>(n: nat, r: Ring<T>, t: nat)
    requires Inv(n, r) && t < |r.threads| && r.threads[t].EnqWrite?
    ensures Inv(n, AdvanceThread(n, r, t))
  {
    var pos, v := r.threads[t].pos, r.threads[t].v;
    var r' := AdvanceThread(n, r, t);
    assert ThreadOk(n, r, r.threads[t]);
    CellServes(n, r, pos);
    forall i | 0 <= i < n ensures CellOk(n, r', i) {
      if i != pos % n {
        CellKept(n, r, r', t, i);
      } else {
        assert CellOk(n, r, i);
        assert ClaimOf(r'.threads[t]) == Producing(pos);
      }
    }
    forall u | 0 <= u < |r.threads| ensures ThreadOk(n, r', r'.threads[u]) {
      assert ThreadOk(n, r, r.threads[u]);
      if u != t {
        assert ClaimOf(r.threads[u]) != ClaimOf(r.threads[t]);
      }
    }
    DeliveriesSurvive(r, r', t);
  }

  lemma PublishKeepsInv<T>(n: nat, r: Ring<T>, t: nat)
    requires Inv(n, r) && t < |r.threads| && r.threads[t].EnqPublish?
    ensures Inv(n, AdvanceThread(n, r, t))
  {
    var pos := r.threads[t].pos;
    var r' := AdvanceThread(n, r, t);
    forall i | 0 <= i < n ensures CellOk(n, r', i) {
      if i != pos % n {
        KeptByOther(n, r, r', t, i, Producing(pos));
      } else {
        PublishedCell(n, r, t);
      }
    }
    forall u | 0 <= u < |r.threads| ensures ThreadOk(n, r', r'.threads[u]) {
      PublishKeepsThread(n, r, t, u);
    }
    DeliveriesSurvive(r, r', t);
  }

  lemma PublishedCell<T>(n: nat, r: Ring<T>, t: nat)
    requires Inv(n, r) && t < |r.threads| && r.threads[t].EnqPublish?
    ensures CellOk(n, AdvanceThread(n, r, t), r.threads[t].pos % n)
  {
    var pos := r.threads[t].pos;
    assert ThreadOk(n, r, r.threads[t]);
    assert CellOk(n, r, pos % n);
    CellServes(n, r, pos);
    NextCellDiffers(n, pos);
  }

  lemma PublishKeepsThread<T>(n: nat, r: Ring<T>, t: nat, u: nat)
    requires Inv(n, r) && t < |r.threads| && r.threads[t].EnqPublish? && u < |r.threads|
    ensures ThreadOk(n, AdvanceThread(n, r, t), AdvanceThread(n, r, t).threads[u])
  {
    assert ThreadOk(n, r, r.threads[t]) && ThreadOk(n, r, r.threads[u]);
    if u != t {
      assert ClaimOf(r.threads[u]) != ClaimOf(r.threads[t]);
      match r.threads[u]
      case DeqCas(q) => NextCellDiffers(n, q);
      case DeqRead(q) => NextCellDiffers(n, q);
      case DeqPublish(q, _) => NextCellDiffers(n, q);
      case _ =>
    }
  }

  /** A cell other than the one the stepping thread holds keeps its reservations. */
  lemma KeptByOther<T>(n: nat, r: Ring<T>, r': Ring<T>, t: nat, i: nat, c: Claim)
    requires Inv(n, r) && t < |r.threads| && i < n
    requires ClaimOf(r.threads[t]) == c && (c.Producing? || c.Consuming?) && c.p % n != i
    requires |r'.cells| == n && r'.cells[i] == r.cells[i]
    requires r'.enq == r.enq && r'.deq == r.deq && r'.sent == r.sent
    requires |r'.threads| == |r.threads|
    requires forall u | 0 <= u < |r.threads| && u != t :: r'.threads[u] == r.threads[u]
    ensures CellOk(n, r', i)
  {
    var s := r.cells[i].sequence;
    var p := Position(n, i, s);
    assert CellOk(n, r, i);
    if s == p && p < r.enq {
      OtherThreadsKeepFlying(r, r', t, Producing(p));
    }
    if s == p + 1 && p < r.deq {
      OtherThreadsKeepFlying(r, r', t, Consuming(p));
    }
  }

  lemma ReserveForDequeueKeepsInv<T>(n: nat, r: Ring<T>, t: nat)
    requires Inv(n, r) && t < |r.threads| && r.threads[t].DeqCas? && r.threads[t].pos == r.deq
    ensures Inv(n, AdvanceThread(n, r, t))
  {
    hide CellOk, ThreadOk, DeliveriesOk, ClaimsDistinct;
    var r' := AdvanceThread(n, r, t);
    OldestIsQueued(n, r, t);
    TakeKeepsClaims(n, r, t);
    forall i | 0 <= i < n ensures CellOk(n, r', i) {
      TakeKeepsCell(n, r, t, i);
    }
    forall u | 0 <= u < |r.threads| ensures ThreadOk(n, r', r'.threads[u]) {
      TakeKeepsThread(n, r, t, u);
    }
    TakeKeepsDeliveries(n, r, t);
  }

  lemma OldestIsQueued<T>(n: nat, r: Ring<T>, t: nat)
    requires Inv(n, r) && t < |r.threads| && r.threads[t].DeqCas? && r.threads[t].pos == r.deq
    ensures r.deq < r.enq && r.cells[r.deq % n].sequence == r.deq + 1
  {
    assert ThreadOk(n, r, r.threads[t]);
    CellServes(n, r, r.deq);
    assert CellOk(n, r, r.deq % n);
  }

  lemma TakeKeepsThread<T>(n: nat, r: Ring<T>, t: nat, u: nat)
    requires Inv(n, r) && t < |r.threads| && r.threads[t].DeqCas? && r.threads[t].pos == r.deq
    requires u < |r.threads|
    ensures ThreadOk(n, AdvanceThread(n, r, t), AdvanceThread(n, r, t).threads[u])
  {
    hide CellOk, DeliveriesOk;
    assert ThreadOk(n, r, r.threads[u]);
  }

  lemma TakeKeepsClaims<T>(n: nat, r: Ring<T>, t: nat)
    requires Inv(n, r) && t < |r.threads| && r.threads[t].DeqCas? && r.threads[t].pos == r.deq
    ensures ClaimsDistinct(AdvanceThread(n, r, t).threads)
  {
    hide CellOk, DeliveriesOk;
    forall u | 0 <= u < |r.threads| && u != t
      ensures ClaimOf(r.threads[u]) != Consuming(r.deq)
    {
      assert ThreadOk(n, r, r.threads[u]);
    }
  }

  /** The taken position is the one more that awaits its read. */
  lemma TakeKeepsDeliveries<T>(n: nat, r: Ring<T>, t: nat)
    requires Inv(n, r) && t < |r.threads| && r.threads[t].DeqCas? && r.threads[t].pos == r.deq
    ensures DeliveriesOk(AdvanceThread(n, r, t))
  {
    hide CellOk, ThreadOk;
    var r' := AdvanceThread(n, r, t);
    OldestIsQueued(n, r, t);
    forall p: nat | p < r'.deq ensures Delivered(r'.delivered, p) || AwaitingRead(r', p) {
      if p == r.deq {
        assert r'.threads[t] == DeqRead(p);
      } else if !Delivered(r.delivered, p) {
        var u :| 0 <= u < |r.threads| && r.threads[u] == DeqRead(p);
        assert r'.threads[u] == DeqRead(p);
      }
    }
  }

  lemma TakeKeepsCell<T>(n: nat, r: Ring<T>, t: nat, i: nat)
    requires Inv(n, r) && t < |r.threads| && r.threads[t].DeqCas? && r.threads[t].pos == r.deq
    requires i < n
    ensures CellOk(n, AdvanceThread(n, r, t), i)
  {
    var pos := r.deq;
    var r' := AdvanceThread(n, r, t);
    assert ThreadOk(n, r, r.threads[t]);
    assert CellOk(n, r, i);
    CellServes(n, r, pos);
    assert ClaimOf(r'.threads[t]) == Consuming(pos);
    var s := r.cells[i].sequence;
    var p := Position(n, i, s);
    if i != pos % n {
      if s == p && p < r.enq {
        Persist(r, r', t, Producing(p));
      }
      if s == p + 1 && p < r.deq {
        Persist(r, r', t, Consuming(p));
      }
    }
  }

  lemma ReadKeepsInv<T>(n: nat, r: Ring<T>, t: nat)
    requires Inv(n, r) && t < |r.threads| && r.threads[t].DeqRead?
    ensures Inv(n, AdvanceThread(n, r, t))
  {
    hide DeliveriesOk;
    var pos := r.threads[t].pos;
    var r' := AdvanceThread(n, r, t);
    assert ThreadOk(n, r, r.threads[t]);
    CellServes(n, r, pos);
    assert CellOk(n, r, pos % n);
    forall i | 0 <= i < n ensures CellOk(n, r', i) {
      CellKept(n, r, r', t, i);
    }
    forall u | 0 <= u < |r.threads| ensures ThreadOk(n, r', r'.threads[u]) {
      assert ThreadOk(n, r, r.threads[u]);
    }
    ReadKeepsDeliveries(n, r, t);
  }

  lemma ReadKeepsDeliveries<T>(n: nat, r: Ring<T>, t: nat)
    requires Inv(n, r) && t < |r.threads| && r.threads[t].DeqRead?
    ensures DeliveriesOk(AdvanceThread(n, r, t))
  {
    var pos := r.threads[t].pos;
    var r' := AdvanceThread(n, r, t);
    var k := |r.delivered|;
    assert ThreadOk(n, r, r.threads[t]);
    CellServes(n, r, pos);
    assert CellOk(n, r, pos % n);
    assert r'.delivered[k].pos == pos && r'.delivered[..k] == r.delivered;
    forall u, i | 0 <= u < |r'.threads| && r'.threads[u].DeqRead? && 0 <= i < |r'.delivered|
      ensures r'.delivered[i].pos != r'.threads[u].pos
    {
      assert ClaimOf(r.threads[u]) != ClaimOf(r.threads[t]);
    }
    forall p: nat | p < r.deq ensures Delivered(r'.delivered, p) || AwaitingRead(r', p) {
      if p != pos {
        if Delivered(r.delivered, p) {
          var i :| 0 <= i < k && r.delivered[i].pos == p;
          assert r'.delivered[i].pos == p;
        } else {
          var u :| 0 <= u < |r.threads| && r.threads[u] == DeqRead(p);
          assert r'.threads[u] == DeqRead(p);
        }
      }
    }
  }

  lemma ReleaseKeepsInv<T>(n: nat, r: Ring<T>, t: nat)
    requires Inv(n, r) && t < |r.threads| && r.threads[t].DeqPublish?
    ensures Inv(n, AdvanceThread(n, r, t))
  {
    var pos := r.threads[t].pos;
    var r' := AdvanceThread(n, r, t);
    forall i | 0 <= i < n ensures CellOk(n, r', i) {
      if i != pos % n {
        KeptByOther(n, r, r', t, i, Consuming(pos));
      } else {
        ReleasedCell(n, r, t);
      }
    }
    forall u | 0 <= u < |r.threads| ensures ThreadOk(n, r', r'.threads[u]) {
      ReleaseKeepsThread(n, r, t, u);
    }
    DeliveriesSurvive(r, r', t);
  }

  lemma ReleasedCell<T>(n: nat, r: Ring<T>, t: nat)
    requires Inv(n, r) && t < |r.threads| && r.threads[t].DeqPublish?
    ensures CellOk(n, AdvanceThread(n, r, t), r.threads[t].pos % n)
  {
    var pos := r.threads[t].pos;
    assert ThreadOk(n, r, r.threads[t]);
    assert CellOk(n, r, pos % n);
    CellServes(n, r, pos);
    LapKeepsCell(n, pos);
  }

  lemma ReleaseKeepsThread<T>(n: nat, r: Ring<T>, t: nat, u: nat)
    requires Inv(n, r) && t < |r.threads| && r.threads[t].DeqPublish? && u < |r.threads|
    ensures ThreadOk(n, AdvanceThread(n, r, t), AdvanceThread(n, r, t).threads[u])
  {
    assert ThreadOk(n, r, r.threads[t]) && ThreadOk(n, r, r.threads[u]);
    if u != t {
      assert ClaimOf(r.threads[u]) != ClaimOf(r.threads[t]);
      NextCellDiffers(n, r.threads[t].pos);
    }
  }

  /** Every atomic step of every thread keeps the invariant. */
  lemma StepKeepsInv<T>(n: nat, r: Ring<T>, a: Action<T>)
    requires Inv(n, r)
    ensures Inv(n, Apply(n, r, a))
  {
    if a.t < |r.threads| {
      assert ThreadOk(n, r, r.threads[a.t]);
      match a
      case CallEnqueue(t, v) => if !InOperation(r.threads[t]) { MoveKeepsInv(n, r, t, EnqLoad(v)); }
      case CallDequeue(t) => if !InOperation(r.threads[t]) { MoveKeepsInv(n, r, t, DeqLoad); }
      case Advance(t) => AdvanceKeepsInv(n, r, t);
      case SpuriousFailure(t) =>
        match r.threads[t]
        case EnqCas(v, pos) => MoveKeepsInv(n, r, t, EnqSeq(v, r.enq));
        case DeqCas(pos) => MoveKeepsInv(n, r, t, DeqSeq(r.deq));
        case _ =>
    }
  }

  lemma AdvanceKeepsInv<T>(n: nat, r: Ring<T>, t: nat)
    requires Inv(n, r) && t < |r.threads|
    ensures Inv(n, AdvanceThread(n, r, t))
  {
    hide CellOk, ClaimsDistinct, DeliveriesOk;
    assert ThreadOk(n, r, r.threads[t]);
    match r.threads[t]
    case EnqLoad(v) => MoveKeepsInv(n, r, t, EnqSeq(v, r.enq));
    case EnqSeq(v, pos) => MoveKeepsInv(n, r, t, AdvanceThread(n, r, t).threads[t]);
    case EnqCas(v, pos) =>
      if pos == r.enq { ReserveForEnqueueKeepsInv(n, r, t); } else { MoveKeepsInv(n, r, t, EnqSeq(v, r.enq)); }
    case EnqWrite(v, pos) => WriteKeepsInv(n, r, t);
    case EnqPublish(v, pos) => PublishKeepsInv(n, r, t);
    case DeqLoad => MoveKeepsInv(n, r, t, DeqSeq(r.deq));
    case DeqSeq(pos) => MoveKeepsInv(n, r, t, AdvanceThread(n, r, t).threads[t]);
    case DeqCas(pos) =>
      if pos == r.deq { ReserveForDequeueKeepsInv(n, r, t); } else { MoveKeepsInv(n, r, t, DeqSeq(r.deq)); }
    case DeqRead(pos) => ReadKeepsInv(n, r, t);
    case DeqPublish(pos, x) => ReleaseKeepsInv(n, r, t);
    case _ =>
  }

  lemma {:induction false} RunKeepsInv<T>(n: nat, r: Ring<T>, run: seq<Action<T>>)
    requires n >= 2 && Init(n, r)
    ensures Inv(n, Execute(n, r, run))
  {
    if run == [] {
      forall i | 0 <= i < n ensures CellOk(n, r, i) {
        assert i % n == i;
      }
    } else {
      RunKeepsInv(n, r, run[..|run| - 1]);
      StepKeepsInv(n, Execute(n, r, run[..|run| - 1]), run[|run| - 1]);
    }
  }

  // ------------------------------------------------------------ main results

  /** The values accepted and not yet handed to a consumer, oldest first. */
  ghost function Contents<T>(r: Ring<T>): seq<T>
    requires r.deq <= r.enq <= |r.sent|
  {
    r.sent[r.deq..r.enq]
  }

  /** Position p's value is published in its cell and not yet overwritten. */
  ghost predicate Holds<T>(n: nat, r: Ring<T>, p: nat)
    requires n > 0 && |r.cells| == n
  {
    p < |r.sent| && r.cells[p % n] == Cell(p + 1, r.sent[p])
  }

  /**
   * Safety over every run of any number of producers and consumers. The
   * counters never drift more than one lap apart; what a consumer copies out at
   * position p is what the producer of p sent; no position is delivered twice;
   * every dequeued position has been delivered or still waits in its cell for
   * the one consumer that reserved it; and every other accepted value is in its
   * cell or about to be written there by its producer.
   */
  lemma FifoInEveryRun<T>(n: nat, start: Ring<T>, run: seq<Action<T>>)
    requires n >= 2 && Init(n, start)
    ensures var r := Execute(n, start, run);
      && r.deq <= r.enq <= r.deq + n && |r.sent| == r.enq
      && (forall i | 0 <= i < |r.delivered| ::
            r.delivered[i].pos < r.deq && r.delivered[i].value == r.sent[r.delivered[i].pos])
      && (forall i, j | 0 <= i < j < |r.delivered| :: r.delivered[i].pos != r.delivered[j].pos)
      && (forall p: nat | p < r.deq :: Delivered(r.delivered, p) || (AwaitingRead(r, p) && Holds(n, r, p)))
      && (forall p: nat | r.deq <= p < r.enq :: Holds(n, r, p) || InFlight(r, Producing(p)))
  {
    RunKeepsInv(n, start, run);
    var r := Execute(n, start, run);
    forall p: nat | p < r.deq ensures Delivered(r.delivered, p) || (AwaitingRead(r, p) && Holds(n, r, p)) {
      if !Delivered(r.delivered, p) {
        var u :| 0 <= u < |r.threads| && r.threads[u] == DeqRead(p);
        assert ThreadOk(n, r, r.threads[u]);
        CellServes(n, r, p);
        assert CellOk(n, r, p % n);
      }
    }
    forall p: nat | r.deq <= p < r.enq ensures Holds(n, r, p) || InFlight(r, Producing(p)) {
      QueuedCell(n, r, p);
    }
  }

  /** The cell of a queued position serves that position and no other. */
  lemma QueuedCell<T>(n: nat, r: Ring<T>, p: nat)
    requires Inv(n, r) && r.deq <= p < r.enq
    ensures Holds(n, r, p) || (r.cells[p % n].sequence == p && InFlight(r, Producing(p)))
  {
    var i := p % n;
    assert CellOk(n, r, i);
    SameCellWithinLap(n, p, Position(n, i, r.cells[i].sequence));
  }

  /**
   * A refused enqueue is justified: at the load that decides it, either the
   * ring is full, or the very cell asked for is still held by a consumer that
   * has reserved it and not yet released it.
   */
  lemma EnqueueRefusedOnlyWhenFull<T>(n: nat, r: Ring<T>, t: nat)
    requires Inv(n, r) && t < |r.threads| && r.threads[t].EnqSeq?
    requires AdvanceThread(n, r, t).threads[t] == Enqueued(false)
    ensures r.threads[t].pos == r.enq >= n
    ensures r.enq == r.deq + n || InFlight(r, Consuming(r.enq - n))
  {
    var pos := r.threads[t].pos;
    var i := pos % n;
    assert ThreadOk(n, r, r.threads[t]) && CellOk(n, r, i);
    SameCell(n, Position(n, i, r.cells[i].sequence), pos);
  }

  /**
   * A refused dequeue is justified: the ring is empty, or the oldest queued
   * value is still being written by its producer.
   */
  lemma DequeueRefusedOnlyWhenEmpty<T>(n: nat, r: Ring<T>, t: nat)
    requires Inv(n, r) && t < |r.threads| && r.threads[t].DeqSeq?
    requires AdvanceThread(n, r, t).threads[t] == Dequeued(None)
    ensures r.threads[t].pos == r.deq
    ensures r.deq == r.enq || InFlight(r, Producing(r.deq))
  {
    var pos := r.threads[t].pos;
    var i := pos % n;
    var p := Position(n, i, r.cells[i].sequence);
    assert ThreadOk(n, r, r.threads[t]) && CellOk(n, r, i);
    if p < pos {
      SameCell(n, p, pos);
    }
  }

  ghost predicate Quiescent<T>(r: Ring<T>) {
    forall t | 0 <= t < |r.threads| :: !InOperation(r.threads[t])
  }

  /** Cell contents when no operation is in flight: a window of full cells, then free ones. */
  ghost predicate QuiescentCells(n: nat, sequences: seq<nat>, enq: nat, deq: nat) {
    && 0 < n == |sequences| && deq <= enq <= deq + n
    && (forall p | deq <= p < enq :: sequences[p % n] == p + 1)
    && (forall p | enq <= p < deq + n :: sequences[p % n] == p)
  }

  ghost function Sequences<T>(cells: seq<Cell<T>>): (s: seq<nat>)
    ensures |s| == |cells| && forall i | 0 <= i < |s| :: s[i] == cells[i].sequence
  {
    seq(|cells|, i requires 0 <= i < |cells| => cells[i].sequence)
  }

  /** With no operation in flight the cells hold exactly the queued values. */
  lemma QuiescentRing<T>(n: nat, r: Ring<T>)
    requires Inv(n, r) && Quiescent(r)
    ensures QuiescentCells(n, Sequences(r.cells), r.enq, r.deq)
    ensures forall p: nat | r.deq <= p < r.enq :: Holds(n, r, p)
    ensures forall p: nat | p < r.deq :: Delivered(r.delivered, p)
  {
    forall p: nat | p < r.deq ensures Delivered(r.delivered, p) {
    }
    forall p: nat | r.deq <= p < r.enq ensures Holds(n, r, p) {
      NothingInFlight(r, Producing(p));
      QueuedCell(n, r, p);
    }
    forall p: nat | r.enq <= p < r.deq + n ensures r.cells[p % n].sequence == p {
      FreeCell(n, r, p);
      if p >= n {
        NothingInFlight(r, Consuming(p - n));
      }
    }
    QuiescentSequences(n, r);
  }

  lemma NothingInFlight<T>(r: Ring<T>, c: Claim)
    requires Quiescent(r) && c != NoClaim
    ensures !InFlight(r, c)
  {
  }

  lemma QuiescentSequences<T>(n: nat, r: Ring<T>)
    requires n > 0 && |r.cells| == n && r.deq <= r.enq <= r.deq + n
    requires forall p: nat | r.deq <= p < r.enq :: Holds(n, r, p)
    requires forall p: nat | r.enq <= p < r.deq + n :: r.cells[p % n].sequence == p
    ensures QuiescentCells(n, Sequences(r.cells), r.enq, r.deq)
  {
    forall p | r.deq <= p < r.enq ensures Sequences(r.cells)[p % n] == p + 1 {
      assert Holds(n, r, p);
    }
  }

  /** A position within one lap of the consumers is free, unless the previous lap is being read. */
  lemma FreeCell<T>(n: nat, r: Ring<T>, p: nat)
    requires Inv(n, r) && r.enq <= p < r.deq + n
    ensures r.cells[p % n].sequence == p || (p >= n && InFlight(r, Consuming(p - n)))
  {
    var i := p % n;
    var q := Position(n, i, r.cells[i].sequence);
    assert CellOk(n, r, i);
    if r.cells[i].sequence == q {
      SameCellWithinLap(n, p, q);
    } else {
      SameCell(n, q, p);
      if q + n < p {
        LapKeepsCell(n, q);
        SameCell(n, q + n, p);
      }
    }
  }

  /** k uninterrupted steps of one thread. */
  function Solo<T>(n: nat, r: Ring<T>, t: nat, k: nat): (r': Ring<T>)
    requires n > 0 && |r.cells| == n && t < |r.threads|
    ensures |r'.cells| == n && |r'.threads| == |r.threads|
  {
    if k == 0 then r else AdvanceThread(n, Solo(n, r, t, k - 1), t)
  }

  lemma SoloKeepsInv<T>(n: nat, r: Ring<T>, t: nat, k: nat)
    requires Inv(n, r) && t < |r.threads|
    ensures Inv(n, Solo(n, r, t, k))
  {
    if k > 0 {
      SoloKeepsInv(n, r, t, k - 1);
      AdvanceKeepsInv(n, Solo(n, r, t, k - 1), t);
    }
  }

  /** Undisturbed, an enqueue is a bounded queue's: it appends, and refuses exactly when full. */
  lemma SoloEnqueue<T>(n: nat, r: Ring<T>, t: nat, v: T)
    requires Inv(n, r) && Quiescent(r) && t < |r.threads|
    ensures var r' := Solo(n, Apply(n, r, CallEnqueue(t, v)), t, 5);
      && Inv(n, r') && Quiescent(r')
      && r'.threads[t] == Enqueued(|Contents(r)| < n)
      && Contents(r') == if |Contents(r)| < n then Contents(r) + [v] else Contents(r)
  {
    hide CellOk, ThreadOk, ClaimsDistinct, DeliveriesOk;
    var r0 := Apply(n, r, CallEnqueue(t, v));
    StepKeepsInv(n, r, CallEnqueue(t, v));
    SoloKeepsInv(n, r0, t, 5);
    QuiescentRing(n, r);
    assert Solo(n, r0, t, 0) == r0;
    var r1 := Solo(n, r0, t, 1);
    var r2 := Solo(n, r0, t, 2);
    assert r1.threads[t] == EnqSeq(v, r.enq);
    if r.enq < r.deq + n {
      assert r2.threads[t] == EnqCas(v, r.enq);
    } else {
      LapKeepsCell(n, r.deq);
      assert r.cells[r.deq % n].sequence == r.deq + 1;
      assert r2.threads[t] == Enqueued(false);
    }
    var r3 := Solo(n, r0, t, 3);
    var r4 := Solo(n, r0, t, 4);
  }

  /** Undisturbed, a dequeue hands out the oldest value, and refuses exactly when empty. */
  lemma SoloDequeue<T>(n: nat, r: Ring<T>, t: nat)
    requires Inv(n, r) && Quiescent(r) && t < |r.threads|
    ensures var r' := Solo(n, Apply(n, r, CallDequeue(t)), t, 5);
      && Inv(n, r') && Quiescent(r')
      && r'.threads[t] == Dequeued(if Contents(r) == [] then None else Some(Contents(r)[0]))
      && Contents(r') == if Contents(r) == [] then [] else Contents(r)[1..]
  {
    hide CellOk, ThreadOk, ClaimsDistinct, DeliveriesOk;
    var r0 := Apply(n, r, CallDequeue(t));
    StepKeepsInv(n, r, CallDequeue(t));
    SoloKeepsInv(n, r0, t, 5);
    QuiescentRing(n, r);
    assert Solo(n, r0, t, 0) == r0;
    var r1 := Solo(n, r0, t, 1);
    var r2 := Solo(n, r0, t, 2);
    assert r1.threads[t] == DeqSeq(r.deq);
    if r.deq < r.enq {
      assert Holds(n, r, r.deq);
      assert r2.threads[t] == DeqCas(r.deq);
      var r3 := Solo(n, r0, t, 3);
      assert r3.threads[t] == DeqRead(r.deq);
      var r4 := Solo(n, r0, t, 4);
      assert r4.threads[t] == DeqPublish(r.deq, r.sent[r.deq]);
    } else {
      assert r2.threads[t] == Dequeued(None);
      assert Solo(n, r0, t, 3) == r2 && Solo(n, r0, t, 4) == r2;
    }
  }
}

/** The same ring used by one thread at a time, on its real arrays. */
module FixedRing {
  import MpmcRing
  import opened Options
  import opened RingArithmetic

  class FixedMpmcRing<T(0)> {
    const capacity: nat
    const sequences: array<nat>
    const values: array<T>
    var enqueuePos: nat
    var dequeuePos: nat

    ghost predicate Valid()
      reads this, sequences, values
    {
      && values as object != sequences && values.Length == capacity >= 2
      && MpmcRing.QuiescentCells(capacity, sequences[..], enqueuePos, dequeuePos)
    }

    /** The queued values, oldest first. */
    ghost function Contents(): (s: seq<T>)
      requires Valid()
      reads this, sequences, values
      ensures |s| == enqueuePos - dequeuePos <= capacity
    {
      Window(values[..], enqueuePos, dequeuePos)
    }

    constructor (capacity: nat, zero: T)
      requires capacity >= 2
      ensures Valid() && Contents() == [] && this.capacity == capacity
      ensures fresh(sequences) && fresh(values)
    {
      this.capacity := capacity;
      sequences := new nat[capacity];
      values := new T[capacity](_ => zero);
      enqueuePos, dequeuePos := 0, 0;
      new;
      Reset();
    }

    method Reset()
      requires 2 <= capacity == sequences.Length == values.Length && values as object != sequences
      modifies this, sequences
      ensures Valid() && Contents() == []
    {
      enqueuePos := 0;
      dequeuePos := 0;
      for i := 0 to capacity
        invariant enqueuePos == 0 && dequeuePos == 0
        invariant forall j | 0 <= j < i :: sequences[j] == j
      {
        sequences[i] := i;
      }
      FreshCells(capacity, sequences[..]);
    }

    method TryEnqueue(value: T) returns (ok: bool)
      requires Valid()
      modifies this`enqueuePos, sequences, values
      ensures Valid()
      ensures ok == (|old(Contents())| < capacity)
      ensures Contents() == if ok then old(Contents()) + [value] else old(Contents())
    {
      var pos := enqueuePos;
      var sequence := sequences[pos % capacity];
      FreeLooksFree(capacity, sequences[..], enqueuePos, dequeuePos);
      if sequence == pos {
        FillCell(sequences[..], values[..], enqueuePos, dequeuePos, value);
        enqueuePos := pos + 1;
        values[pos % capacity] := value;
        sequences[pos % capacity] := pos + 1;
        assert sequences[..] == old(sequences[..])[pos % capacity := pos + 1];
        assert values[..] == old(values[..])[pos % capacity := value];
        return true;
      }
      return false;
    }

    method TryDequeue() returns (out: Option<T>)
      requires Valid()
      modifies this`dequeuePos, sequences
      ensures Valid()
      ensures out == if old(Contents()) == [] then None else Some(old(Contents())[0])
      ensures Contents() == if old(Contents()) == [] then [] else old(Contents())[1..]
    {
      var pos := dequeuePos;
      var sequence := sequences[pos % capacity];
      if sequence == pos + 1 {
        assert pos < enqueuePos;
        DrainCell(sequences[..], values[..], enqueuePos, dequeuePos);
        dequeuePos := pos + 1;
        out := Some(values[pos % capacity]);
        sequences[pos % capacity] := pos + capacity;
        assert sequences[..] == old(sequences[..])[pos % capacity := pos + capacity];
      } else {
        out := None;
      }
    }
  }

  lemma FreshCells(n: nat, sequences: seq<nat>)
    requires 0 < n == |sequences| && forall j | 0 <= j < n :: sequences[j] == j
    ensures MpmcRing.QuiescentCells(n, sequences, 0, 0)
  {
    forall p | 0 <= p < n ensures sequences[p % n] == p {
      QuotientUnique(n, p, 0, p);
    }
  }

  /** The values at positions deq up to enq, oldest first. */
  ghost function Window<T>(values: seq<T>, enq: nat, deq: nat): (w: seq<T>)
    requires |values| > 0 && deq <= enq
    ensures |w| == enq - deq
    decreases enq
  {
    if enq == deq then [] else Window(values, enq - 1, deq) + [values[(enq - 1) % |values|]]
  }

  lemma FillCell<T>(sequences: seq<nat>, values: seq<T>, enq: nat, deq: nat, value: T)
    requires |values| == |sequences| && MpmcRing.QuiescentCells(|values|, sequences, enq, deq)
    requires enq < deq + |values|
    ensures MpmcRing.QuiescentCells(|values|, sequences[enq % |values| := enq + 1], enq + 1, deq)
    ensures Window(values[enq % |values| := value], enq + 1, deq) == Window(values, enq, deq) + [value]
  {
    var n := |values|;
    forall p: nat | deq <= p < deq + n && p != enq ensures p % n != enq % n {
      if p % n == enq % n {
        SameCellWithinLap(n, p, enq);
      }
    }
    WindowUntouched(values, enq % n, value, enq, deq);
  }

  lemma WindowUntouched<T>(values: seq<T>, i: nat, value: T, enq: nat, deq: nat)
    requires i < |values| && deq <= enq
    requires forall p: nat | deq <= p < enq :: p % |values| != i
    ensures Window(values[i := value], enq, deq) == Window(values, enq, deq)
    decreases enq
  {
    if deq < enq {
      WindowUntouched(values, i, value, enq - 1, deq);
      assert (enq - 1) % |values| != i;
    }
  }

  lemma DrainCell<T>(sequences: seq<nat>, values: seq<T>, enq: nat, deq: nat)
    requires |values| == |sequences| && MpmcRing.QuiescentCells(|values|, sequences, enq, deq)
    requires deq < enq
    ensures MpmcRing.QuiescentCells(|values|, sequences[deq % |values| := deq + |values|], enq, deq + 1)
    ensures Window(values, enq, deq) == [values[deq % |values|]] + Window(values, enq, deq + 1)
  {
    var n := |values|;
    LapKeepsCell(n, deq);
    forall p: nat | deq < p < deq + n ensures p % n != deq % n {
      if p % n == deq % n {
        SameCellWithinLap(n, p, deq);
      }
    }
    WindowOldest(values, enq, deq);
  }

  lemma WindowOldest<T>(values: seq<T>, enq: nat, deq: nat)
    requires |values| > 0 && deq < enq
    ensures Window(values, enq, deq) == [values[deq % |values|]] + Window(values, enq, deq + 1)
    decreases enq
  {
    if deq + 1 < enq {
      WindowOldest(values, enq - 1, deq);
    }
  }

  /** The cell a producer would use shows its own position exactly when there is room. */
  lemma FreeLooksFree(n: nat, sequences: seq<nat>, enq: nat, deq: nat)
    requires MpmcRing.QuiescentCells(n, sequences, enq, deq) && n >= 2
    ensures sequences[enq % n] == enq <==> enq < deq + n
  {
    if enq == deq + n {
      assert sequences[deq % n] == deq + 1;
      LapKeepsCell(n, deq);
    }
  }
}
