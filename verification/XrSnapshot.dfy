/**
 * The publication protocol of one OpenXR session's frame records, as
 * interleaved atomic steps: one waiting thread, one begin/end thread and any
 * number of readers, over 16 slots.
 *
 * A wait takes the next sequence, marks its slot busy, clears the revision,
 * stores every field and publishes the sequence. A begin, discard or end loads
 * the revision, makes it odd, stores its fields and makes it even again. A
 * reader loads sequence and revision, then the fields one at a time, and accepts
 * if both words are unchanged. The one assumption about callers is that no wait
 * recycles the slot an unfinished begin or end is updating; waits fewer than 16
 * ahead guarantee it.
 *
 * Every load or store of a sequence or revision word is a step of its own, and
 * so is every field store and every reader's field load. What a step also does
 * is private to its thread: the counters only the waiting thread or only the
 * begin/end thread touches move with the neighbouring step, and the fields an
 * update computes its own values from are read together with its odd store,
 * nobody else writing them until the record is recycled.
 */
module XrSnapshot {
  import opened Options
  import opened XrFrames

  datatype Word = Busy | At(sequence: nat)

  datatype Slot = Slot(word: Word, revision: nat, fields: Fields)

  datatype Waiter =
    | NotWaiting
    | MarkBusy(n: nat, record: Fields)
    | ClearRevision(n: nat, record: Fields)
    | StoreFields(n: nat, record: Fields, i: nat)

  datatype Updater =
    | NotUpdating
    | LoadOld(target: nat, update: Update)
    | MakeOdd(target: nat, update: Update, revision: nat)
    | StoreUpdate(target: nat, update: Update, revision: nat, stores: seq<FieldStore>, i: nat)

  datatype Reader =
    | NotReading
    | LoadRevision(slot: nat, s: nat)
    | LoadFields(slot: nat, s: nat, r: nat, got: Fields)
    | RecheckRevision(slot: nat, s: nat, r: nat, got: Fields)
    | RecheckSequence(slot: nat, s: nat, r: nat, got: Fields)
    | Accepted(s: nat, r: nat, got: Fields)

  /**
   * `published[s]` lists the complete states the record of sequence s has had,
   * `updates[s]` what led from each to the next.
   */
  datatype Session = Session(
    epoch: nat, slots: seq<Slot>, next: nat, waiter: Waiter, nextBegin: nat, active: nat, updater: Updater,
    readers: seq<Reader>, published: map<nat, seq<Fields>>, calls: map<nat, WaitCall>, updates: map<nat, seq<Update>>)

  datatype Action =
    | StartWait(call: WaitCall)
    | WaitStep
    | StartUpdate(update: Update)
    | UpdateStep
    | StartRead(t: nat, slot: nat)
    | ReadStep(t: nat)

  /** The caller's obligation: a wait does not recycle a record that is being updated. */
  predicate MayRecycle(x: Session) {
    x.updater.NotUpdating? || x.next < x.updater.target + SLOTS
  }

  function WaitAdvance(x: Session): Session
    requires |x.slots| == SLOTS
  {
    match x.waiter
    case NotWaiting => x
    case MarkBusy(n, record) =>
      if !MayRecycle(x) then x else
      x.(slots := x.slots[n % SLOTS := x.slots[n % SLOTS].(word := Busy)], waiter := ClearRevision(n, record))
    case ClearRevision(n, record) =>
      x.(slots := x.slots[n % SLOTS := x.slots[n % SLOTS].(revision := 0)], waiter := StoreFields(n, record, 0))
    case StoreFields(n, record, i) =>
      var slot := x.slots[n % SLOTS];
      if i < |record| && i < |slot.fields| then
        x.(slots := x.slots[n % SLOTS := slot.(fields := slot.fields[i := record[i]])],
           waiter := StoreFields(n, record, i + 1))
      else
        x.(slots := x.slots[n % SLOTS := slot.(word := At(n))], waiter := NotWaiting,
           published := x.published[n := [slot.fields]], updates := x.updates[n := []])
  }

  /** The record a begin/end call works on: the next one to begin, or the active one. */
  function Target(x: Session, u: Update): nat {
    if u.Begin? then x.nextBegin + 1 else x.active
  }

  function UpdateStart(x: Session, u: Update): Session
    requires |x.slots| == SLOTS
  {
    var target := Target(x, u);
    var x1 := if u.Begin? then x.(nextBegin := target) else x.(active := 0);
    if target == 0 || x.slots[target % SLOTS].word != At(target) then x1 else x1.(updater := LoadOld(target, u))
  }

  function UpdateAdvance(x: Session): Session
    requires |x.slots| == SLOTS
  {
    match x.updater
    case NotUpdating => x
    case LoadOld(target, u) => x.(updater := MakeOdd(target, u, x.slots[target % SLOTS].revision))
    case MakeOdd(target, u, revision) =>
      var slot := x.slots[target % SLOTS];
      if |slot.fields| != FIELDS then x else
      x.(slots := x.slots[target % SLOTS := slot.(revision := revision + 1)],
         updater := StoreUpdate(target, u, revision, Stores(slot.fields, u), 0))
    case StoreUpdate(target, u, revision, stores, i) =>
      var slot := x.slots[target % SLOTS];
      if i < |stores| then
        if stores[i].field >= |slot.fields| then x else
        x.(slots := x.slots[target % SLOTS := slot.(fields := slot.fields[stores[i].field := stores[i].value])],
           updater := StoreUpdate(target, u, revision, stores, i + 1))
      else
        x.(slots := x.slots[target % SLOTS := slot.(revision := revision + 2)], updater := NotUpdating,
           active := if u.Begin? then target else x.active,
           published := if target in x.published then
             x.published[target := x.published[target] + [slot.fields]] else x.published,
           updates := if target in x.updates then x.updates[target := x.updates[target] + [u]] else x.updates)
  }

  function ReadAdvance(slots: seq<Slot>, r: Reader): Reader
    requires |slots| == SLOTS
  {
    match r
    case LoadRevision(k, s) =>
      if slots[k % SLOTS].revision % 2 != 0 then NotReading
      else LoadFields(k, s, slots[k % SLOTS].revision, [])
    case LoadFields(k, s, revision, got) =>
      if |got| < |slots[k % SLOTS].fields| then
        LoadFields(k, s, revision, got + [slots[k % SLOTS].fields[|got|]])
      else RecheckRevision(k, s, revision, got)
    case RecheckRevision(k, s, revision, got) =>
      if slots[k % SLOTS].revision == revision then RecheckSequence(k, s, revision, got) else NotReading
    case RecheckSequence(k, s, revision, got) =>
      if slots[k % SLOTS].word == At(s) then Accepted(s, revision, got) else NotReading
    case _ => r
  }

  function Step(x: Session, a: Action): (x': Session)
    requires |x.slots| == SLOTS
    ensures |x'.slots| == SLOTS && |x'.readers| == |x.readers|
  {
    match a
    case StartWait(call) =>
      if !x.waiter.NotWaiting? then x else
      var n := x.next + 1;
      x.(next := n, calls := x.calls[n := call], waiter := MarkBusy(n, WaitRecord(x.epoch, call)))
    case WaitStep => WaitAdvance(x)
    case StartUpdate(u) => if x.updater.NotUpdating? then UpdateStart(x, u) else x
    case UpdateStep => UpdateAdvance(x)
    case StartRead(t, k) =>
      if t >= |x.readers| || k >= SLOTS then x else
      var word := x.slots[k].word;
      x.(readers := x.readers[t := if word.Busy? || word.sequence == 0 then NotReading else LoadRevision(k, word.sequence)])
    case ReadStep(t) =>
      if t >= |x.readers| then x else x.(readers := x.readers[t := ReadAdvance(x.slots, x.readers[t])])
  }

  ghost predicate Start(x: Session) {
    && x.slots == seq(SLOTS, _ => Slot(At(0), 0, seq(FIELDS, _ => Number(0))))
    && x.next == 0 && x.waiter == NotWaiting && x.nextBegin == 0 && x.active == 0 && x.updater == NotUpdating
    && (forall t | 0 <= t < |x.readers| :: x.readers[t] == NotReading)
    && x.published == map[] && x.calls == map[] && x.updates == map[]
  }

  function Run(x: Session, run: seq<Action>): (x': Session)
    requires |x.slots| == SLOTS
    ensures |x'.slots| == SLOTS && |x'.readers| == |x.readers|
    decreases |run|
  {
    if run == [] then x else Step(Run(x, run[..|run| - 1]), run[|run| - 1])
  }

  // ---------------------------------------------------------------- invariant

  /** The record of sequence s began as its wait left it and changed only by whole updates. */
  ghost predicate RecordOk(x: Session, s: nat) {
    s in x.published ==>
      && 1 <= s <= x.next && s in x.calls && s in x.updates
      && |x.published[s]| == |x.updates[s]| + 1
      && x.published[s][0] == WaitRecord(x.epoch, x.calls[s])
      && (forall j | 0 <= j < |x.published[s]| :: |x.published[s][j]| == FIELDS)
      && (forall j | 0 <= j < |x.updates[s]| :: x.published[s][j + 1] == Updated(x.published[s][j], x.updates[s][j]))
  }

  /** A published slot shows the newest complete state of its record, unless it is being updated. */
  ghost predicate SlotOk(x: Session, k: nat)
    requires |x.slots| == SLOTS && k < SLOTS
  {
    var slot := x.slots[k];
    && |slot.fields| == FIELDS
    && (slot.word.At? && slot.word.sequence != 0 ==>
        && slot.word.sequence % SLOTS == k && slot.word.sequence in x.published
        && slot.revision / 2 == |x.published[slot.word.sequence]| - 1
        && (slot.revision % 2 == 0 ==> slot.fields == x.published[slot.word.sequence][slot.revision / 2])
        && (slot.revision % 2 == 1 ==> x.updater.StoreUpdate? && x.updater.target == slot.word.sequence))
    && (slot.word.Busy? ==> (x.waiter.ClearRevision? || x.waiter.StoreFields?) && x.waiter.n % SLOTS == k)
  }

  ghost predicate WaiterOk(x: Session)
    requires |x.slots| == SLOTS
  {
    match x.waiter
    case NotWaiting => true
    case MarkBusy(n, record) =>
      n == x.next && n >= 1 && n !in x.published && n in x.calls && record == WaitRecord(x.epoch, x.calls[n])
    case ClearRevision(n, record) =>
      && n == x.next && n >= 1 && n !in x.published && x.slots[n % SLOTS].word == Busy
      && n in x.calls && record == WaitRecord(x.epoch, x.calls[n])
    case StoreFields(n, record, i) =>
      && n == x.next && n >= 1 && n !in x.published && x.slots[n % SLOTS].word == Busy
      && n in x.calls && record == WaitRecord(x.epoch, x.calls[n])
      && x.slots[n % SLOTS].revision == 0
      && i <= FIELDS && |x.slots[n % SLOTS].fields| == FIELDS && x.slots[n % SLOTS].fields[..i] == record[..i]
  }

  ghost predicate UpdaterOk(x: Session)
    requires |x.slots| == SLOTS
  {
    match x.updater
    case NotUpdating => true
    case LoadOld(target, u) => target != 0 && x.slots[target % SLOTS].word == At(target)
    case MakeOdd(target, u, revision) =>
      target != 0 && x.slots[target % SLOTS].word == At(target) && x.slots[target % SLOTS].revision == revision
    case StoreUpdate(target, u, revision, stores, i) =>
      && target != 0 && x.slots[target % SLOTS].word == At(target)
      && x.slots[target % SLOTS].revision == revision + 1 && revision % 2 == 0
      && target in x.published && x.published[target] != []
      && var r := x.published[target][|x.published[target]| - 1];
         && |r| == FIELDS && stores == Stores(r, u) && i <= |stores|
         && x.slots[target % SLOTS].fields == StoreAll(r, stores[..i])
  }

  /** The slot still shows sequence s at revision r. */
  predicate Unchanged(slot: Slot, s: nat, r: nat) {
    slot.word == At(s) && slot.revision == r
  }

  /** A complete state of the record of sequence s. */
  predicate IsState(x: Session, s: nat, r: nat, got: Fields) {
    s in x.published && r / 2 < |x.published[s]| && got == x.published[s][r / 2]
  }

  ghost predicate ReaderOk(x: Session, r: Reader)
    requires |x.slots| == SLOTS
  {
    match r
    case NotReading => true
    case LoadRevision(k, s) => k < SLOTS && s in x.published
    case LoadFields(k, s, revision, got) =>
      && k < SLOTS && s in x.published && revision % 2 == 0
      && (x.slots[k].word == At(s) ==> x.slots[k].revision >= revision)
      && |got| <= FIELDS && |x.slots[k].fields| == FIELDS
      && (Unchanged(x.slots[k], s, revision) ==> got == x.slots[k].fields[..|got|])
    case RecheckRevision(k, s, revision, got) =>
      && k < SLOTS && s in x.published && revision % 2 == 0
      && (x.slots[k].word == At(s) ==> x.slots[k].revision >= revision)
      && (Unchanged(x.slots[k], s, revision) ==> got == x.slots[k].fields)
    case RecheckSequence(k, s, revision, got) =>
      && k < SLOTS && s in x.published
      && (x.slots[k].word == At(s) ==> IsState(x, s, revision, got))
    case Accepted(s, revision, got) => IsState(x, s, revision, got)
  }

  ghost predicate Inv(x: Session) {
    && |x.slots| == SLOTS
    && (forall s :: s in x.published ==> RecordOk(x, s))
    && (forall k | 0 <= k < SLOTS :: SlotOk(x, k))
    && WaiterOk(x) && UpdaterOk(x)
    && (forall t | 0 <= t < |x.readers| :: ReaderOk(x, x.readers[t]))
  }

  // ------------------------------------------------------------------- proofs

  /** What a step must keep for readers in flight: no word comes back, revisions grow, states stay put. */
  ghost predicate Keeps(x: Session, y: Session) {
    && |x.slots| == SLOTS && |y.slots| == SLOTS
    && (forall s :: s in x.published ==> s in y.published && x.published[s] <= y.published[s])
    && (forall k | 0 <= k < SLOTS :: SlotKeeps(x, x.slots[k], y.slots[k]))
  }

  ghost predicate SlotKeeps(x: Session, a: Slot, b: Slot) {
    && |a.fields| == FIELDS && |b.fields| == FIELDS
    && (b.word.At? && b.word.sequence in x.published ==>
        && a.word == b.word && a.revision <= b.revision
        && (a.revision == b.revision && a.revision % 2 == 0 ==> a.fields == b.fields))
  }

  lemma ReaderStays(x: Session, y: Session, r: Reader)
    requires Keeps(x, y) && ReaderOk(x, r)
    ensures ReaderOk(y, r)
  {
    match r
    case NotReading =>
    case Accepted(_, _, _) =>
    case LoadRevision(k, s) =>
    case LoadFields(k, s, revision, got) => assert SlotKeeps(x, x.slots[k], y.slots[k]);
    case RecheckRevision(k, s, revision, got) => assert SlotKeeps(x, x.slots[k], y.slots[k]);
    case RecheckSequence(k, s, revision, got) => assert SlotKeeps(x, x.slots[k], y.slots[k]);
  }

  lemma ReadersStay(x: Session, y: Session)
    requires Keeps(x, y) && x.readers == y.readers
    requires forall t | 0 <= t < |x.readers| :: ReaderOk(x, x.readers[t])
    ensures forall t | 0 <= t < |y.readers| :: ReaderOk(y, y.readers[t])
  {
    forall t | 0 <= t < |y.readers| ensures ReaderOk(y, y.readers[t]) {
      ReaderStays(x, y, x.readers[t]);
    }
  }

  lemma ReadFieldKeepsInv(x: Session, r: Reader)
    requires |x.slots| == SLOTS && (r.LoadRevision? || r.LoadFields?)
    requires ReaderOk(x, r) && SlotOk(x, r.slot)
    ensures ReaderOk(x, ReadAdvance(x.slots, r))
  {
    if r.LoadFields? && |r.got| < FIELDS {
      var fields := x.slots[r.slot].fields;
      assert fields[..|r.got| + 1] == fields[..|r.got|] + [fields[|r.got|]];
    } else if r.LoadFields? {
      assert x.slots[r.slot].fields[..FIELDS] == x.slots[r.slot].fields;
    }
  }

  lemma RecheckKeepsInv(x: Session, r: Reader)
    requires |x.slots| == SLOTS && (r.RecheckRevision? || r.RecheckSequence?)
    requires ReaderOk(x, r) && (r.RecheckRevision? ==> r.s != 0 && SlotOk(x, r.slot))
    ensures ReaderOk(x, ReadAdvance(x.slots, r))
  {
  }

  lemma ReadKeepsInv(x: Session, r: Reader)
    requires Inv(x) && ReaderOk(x, r)
    ensures ReaderOk(x, ReadAdvance(x.slots, r))
  {
    if r.LoadRevision? || r.LoadFields? {
      assert SlotOk(x, r.slot);
      ReadFieldKeepsInv(x, r);
    } else if r.RecheckRevision? || r.RecheckSequence? {
      assert RecordOk(x, r.s);
      assert r.RecheckRevision? ==> SlotOk(x, r.slot);
      RecheckKeepsInv(x, r);
    }
  }

  lemma StartWaitKeepsInv(x: Session, call: WaitCall)
    requires Inv(x)
    ensures Inv(Step(x, StartWait(call)))
  {
    hide RecordOk, ReaderOk, Stores, StoreAll, Updated, WaitRecord;
    if x.waiter.NotWaiting? {
      var y := Step(x, StartWait(call));
      PublishedArePast(x);
      forall k | 0 <= k < SLOTS ensures SlotOk(y, k) && SlotKeeps(x, x.slots[k], y.slots[k]) {
        assert SlotOk(x, k);
      }
      NewCallKeepsRecords(x, y, call);
      ReadersStay(x, y);
    }
  }

  lemma MarkBusyKeepsInv(x: Session)
    requires Inv(x) && x.waiter.MarkBusy?
    ensures Inv(WaitAdvance(x))
  {
    hide RecordOk, ReaderOk, Stores, StoreAll, Updated, WaitRecord;
    if MayRecycle(x) {
      var y := WaitAdvance(x);
      PublishedArePast(x);
      if !x.updater.NotUpdating? {
        assert SlotOk(x, x.updater.target % SLOTS);
        DifferentSlots(x.updater.target, x.next);
      }
      forall k | 0 <= k < SLOTS ensures SlotOk(y, k) && SlotKeeps(x, x.slots[k], y.slots[k]) {
        assert SlotOk(x, k);
      }
      RecordsStay(x, y);
      ReadersStay(x, y);
    }
  }

  lemma PublishedArePast(x: Session)
    requires forall s :: s in x.published ==> RecordOk(x, s)
    ensures forall s :: s in x.published ==> 1 <= s <= x.next
  {
    hide Updated, WaitRecord;
    forall s | s in x.published ensures 1 <= s <= x.next {
      assert RecordOk(x, s);
    }
  }

  lemma NewCallKeepsRecords(x: Session, y: Session, call: WaitCall)
    requires forall s :: s in x.published ==> RecordOk(x, s)
    requires y.published == x.published && y.updates == x.updates && y.calls == x.calls[x.next + 1 := call]
    requires y.epoch == x.epoch && y.next == x.next + 1
    ensures forall s :: s in y.published ==> RecordOk(y, s)
  {
    hide Updated, WaitRecord;
    forall s | s in y.published ensures RecordOk(y, s) {
      assert RecordOk(x, s);
    }
  }

  /** A step that publishes nothing leaves every record as it is. */
  lemma RecordsStay(x: Session, y: Session)
    requires forall s :: s in x.published ==> RecordOk(x, s)
    requires x.published == y.published && x.updates == y.updates && x.calls == y.calls
    requires x.epoch == y.epoch && x.next <= y.next
    ensures forall s :: s in y.published ==> RecordOk(y, s)
  {
    forall s | s in y.published ensures RecordOk(y, s) {
      assert RecordOk(x, s);
    }
  }

  lemma ClearRevisionKeepsInv(x: Session)
    requires Inv(x) && x.waiter.ClearRevision?
    ensures Inv(WaitAdvance(x))
  {
    hide RecordOk, ReaderOk, Stores, StoreAll, Updated, WaitRecord;
    var y := WaitAdvance(x);
    assert SlotOk(x, x.waiter.n % SLOTS);
    forall k | 0 <= k < SLOTS ensures SlotOk(y, k) && SlotKeeps(x, x.slots[k], y.slots[k]) {
      assert SlotOk(x, k);
    }
    RecordsStay(x, y);
    ReadersStay(x, y);
  }

  lemma StoreFieldKeepsInv(x: Session)
    requires Inv(x) && x.waiter.StoreFields? && x.waiter.i < FIELDS
    ensures Inv(WaitAdvance(x))
  {
    hide RecordOk, ReaderOk, Stores, StoreAll, Updated, WaitRecord;
    var y := WaitAdvance(x);
    var n, record, i := x.waiter.n, x.waiter.record, x.waiter.i;
    assert SlotOk(x, n % SLOTS);
    assert record[..i + 1] == record[..i] + [record[i]];
    assert y.slots[n % SLOTS].fields[..i + 1] == x.slots[n % SLOTS].fields[..i] + [record[i]];
    forall k | 0 <= k < SLOTS ensures SlotOk(y, k) && SlotKeeps(x, x.slots[k], y.slots[k]) {
      assert SlotOk(x, k);
    }
    RecordsStay(x, y);
    ReadersStay(x, y);
  }

  lemma PublishKeepsRecords(x: Session)
    requires Inv(x) && x.waiter.StoreFields? && x.waiter.i == FIELDS
    ensures forall s :: s in WaitAdvance(x).published ==> RecordOk(WaitAdvance(x), s)
  {
    hide Updated, SlotOk, ReaderOk, UpdaterOk;
    var y := WaitAdvance(x);
    var n, record := x.waiter.n, x.waiter.record;
    assert x.slots[n % SLOTS].fields == x.slots[n % SLOTS].fields[..FIELDS] == record[..FIELDS] == record;
    forall s | s in y.published ensures RecordOk(y, s) {
      assert s != n ==> RecordOk(x, s);
    }
  }

  lemma PublishKeepsInv(x: Session)
    requires Inv(x) && x.waiter.StoreFields? && x.waiter.i == FIELDS
    ensures Inv(WaitAdvance(x))
  {
    hide RecordOk, ReaderOk, Stores, StoreAll, Updated, WaitRecord;
    var y := WaitAdvance(x);
    assert SlotOk(x, x.waiter.n % SLOTS);
    PublishKeepsRecords(x);
    forall k | 0 <= k < SLOTS ensures SlotOk(y, k) && SlotKeeps(x, x.slots[k], y.slots[k]) {
      assert SlotOk(x, k);
    }
    ReadersStay(x, y);
  }

  lemma WaitStepKeepsInv(x: Session)
    requires Inv(x)
    ensures Inv(WaitAdvance(x))
  {
    match x.waiter {
      case NotWaiting =>
      case MarkBusy(_, _) => MarkBusyKeepsInv(x);
      case ClearRevision(_, _) => ClearRevisionKeepsInv(x);
      case StoreFields(_, _, i) => if i < FIELDS { StoreFieldKeepsInv(x); } else { PublishKeepsInv(x); }
    }
  }

  /** Private variables of the begin/end thread do not matter to anybody else. */
  lemma PrivateStepKeepsInv(x: Session, y: Session)
    requires Inv(x) && !x.updater.StoreUpdate? && y == x.(nextBegin := y.nextBegin, active := y.active, updater := y.updater)
    requires UpdaterOk(y)
    ensures Inv(y)
  {
    hide RecordOk, ReaderOk, Stores, StoreAll, Updated, WaitRecord;
    forall k | 0 <= k < SLOTS ensures SlotOk(y, k) && SlotKeeps(x, x.slots[k], y.slots[k]) {
      assert SlotOk(x, k);
    }
    RecordsStay(x, y);
    ReadersStay(x, y);
  }

  lemma StartUpdateKeepsInv(x: Session, u: Update)
    requires Inv(x) && x.updater.NotUpdating?
    ensures Inv(UpdateStart(x, u))
  {
    var y := UpdateStart(x, u);
    assert SlotOk(x, Target(x, u) % SLOTS);
    PrivateStepKeepsInv(x, y);
  }

  lemma MakeOddKeepsInv(x: Session)
    requires Inv(x) && x.updater.MakeOdd?
    ensures Inv(UpdateAdvance(x))
  {
    hide ReaderOk, Stores, Updated, WaitRecord;
    var y := UpdateAdvance(x);
    var target := x.updater.target;
    assert SlotOk(x, target % SLOTS) && RecordOk(x, target);
    forall k | 0 <= k < SLOTS ensures SlotOk(y, k) && SlotKeeps(x, x.slots[k], y.slots[k]) {
      assert SlotOk(x, k);
    }
    RecordsStay(x, y);
    ReadersStay(x, y);
  }

  lemma StoreUpdateKeepsInv(x: Session)
    requires Inv(x) && x.updater.StoreUpdate? && x.updater.i < |x.updater.stores|
    ensures Inv(UpdateAdvance(x))
  {
    hide RecordOk, ReaderOk, Stores, StoreAll, Updated, WaitRecord;
    var y := UpdateAdvance(x);
    var target := x.updater.target;
    StoreOneMore(x.published[target][|x.published[target]| - 1], x.updater.stores, x.updater.i);
    forall k | 0 <= k < SLOTS ensures SlotOk(y, k) && SlotKeeps(x, x.slots[k], y.slots[k]) {
      assert SlotOk(x, k);
    }
    RecordsStay(x, y);
    ReadersStay(x, y);
  }

  lemma OneMoreState(x: Session, y: Session, s: nat, u: Update, r: Fields)
    requires s in x.published && RecordOk(x, s)
    requires r == Updated(x.published[s][|x.published[s]| - 1], u)
    requires s in y.published && y.published[s] == x.published[s] + [r]
    requires s in y.updates && y.updates[s] == x.updates[s] + [u]
    requires y.calls == x.calls && y.epoch == x.epoch && y.next == x.next
    ensures RecordOk(y, s)
  {
    hide Updated, WaitRecord;
    forall j | 0 <= j < |y.updates[s]| ensures y.published[s][j + 1] == Updated(y.published[s][j], y.updates[s][j]) {
      if j < |x.updates[s]| {
        assert y.published[s][j] == x.published[s][j] && y.updates[s][j] == x.updates[s][j];
      }
    }
  }

  lemma FinishUpdateRecords(x: Session)
    requires Inv(x) && x.updater.StoreUpdate? && x.updater.i == |x.updater.stores|
    ensures forall s :: s in UpdateAdvance(x).published ==> RecordOk(UpdateAdvance(x), s)
  {
    hide SlotOk, ReaderOk, WaiterOk, StoreAll, Stores;
    var y := UpdateAdvance(x);
    var target, u := x.updater.target, x.updater.update;
    assert x.updater.stores[..x.updater.i] == x.updater.stores;
    assert RecordOk(x, target);
    OneMoreState(x, y, target, u, x.slots[target % SLOTS].fields);
    forall s | s in y.published ensures RecordOk(y, s) {
      if s != target {
        assert RecordOk(x, s);
      }
    }
  }

  lemma FinishUpdateKeepsInv(x: Session)
    requires Inv(x) && x.updater.StoreUpdate? && x.updater.i == |x.updater.stores|
    ensures Inv(UpdateAdvance(x))
  {
    hide RecordOk, ReaderOk, Stores, StoreAll, Updated, WaitRecord;
    var y := UpdateAdvance(x);
    var target := x.updater.target;
    assert SlotOk(x, target % SLOTS) && RecordOk(x, target);
    FinishUpdateRecords(x);
    forall k | 0 <= k < SLOTS ensures SlotOk(y, k) && SlotKeeps(x, x.slots[k], y.slots[k]) {
      assert SlotOk(x, k);
    }
    ReadersStay(x, y);
  }

  lemma UpdateStepKeepsInv(x: Session)
    requires Inv(x)
    ensures Inv(UpdateAdvance(x))
  {
    match x.updater {
      case NotUpdating =>
      case LoadOld(_, _) => PrivateStepKeepsInv(x, UpdateAdvance(x));
      case MakeOdd(_, _, _) => MakeOddKeepsInv(x);
      case StoreUpdate(_, _, _, stores, i) => if i < |stores| { StoreUpdateKeepsInv(x); } else { FinishUpdateKeepsInv(x); }
    }
  }

  lemma SetReaderKeepsInv(x: Session, t: nat, r: Reader)
    requires Inv(x) && t < |x.readers| && ReaderOk(x, r)
    ensures Inv(x.(readers := x.readers[t := r]))
  {
    hide RecordOk, ReaderOk, Stores, StoreAll, Updated, WaitRecord;
    var y := x.(readers := x.readers[t := r]);
    forall k | 0 <= k < SLOTS ensures SlotOk(y, k) && SlotKeeps(x, x.slots[k], y.slots[k]) {
      assert SlotOk(x, k);
    }
    RecordsStay(x, y);
    forall i | 0 <= i < |y.readers| ensures ReaderOk(y, y.readers[i]) {
      ReaderStays(x, y, y.readers[i]);
    }
  }

  lemma StepKeepsInv(x: Session, a: Action)
    requires Inv(x)
    ensures Inv(Step(x, a))
  {
    match a {
      case StartWait(call) => StartWaitKeepsInv(x, call);
      case WaitStep => WaitStepKeepsInv(x);
      case StartUpdate(u) => if x.updater.NotUpdating? { StartUpdateKeepsInv(x, u); }
      case UpdateStep => UpdateStepKeepsInv(x);
      case StartRead(t, k) =>
        if t < |x.readers| && k < SLOTS {
          assert SlotOk(x, k);
          SetReaderKeepsInv(x, t, Step(x, a).readers[t]);
        }
      case ReadStep(t) =>
        if t < |x.readers| {
          ReadKeepsInv(x, x.readers[t]);
          SetReaderKeepsInv(x, t, ReadAdvance(x.slots, x.readers[t]));
        }
    }
  }

  lemma {:induction false} RunKeepsInv(x: Session, run: seq<Action>)
    requires Start(x)
    ensures Inv(Run(x, run))
    decreases |run|
  {
    if run != [] {
      RunKeepsInv(x, run[..|run| - 1]);
      StepKeepsInv(Run(x, run[..|run| - 1]), run[|run| - 1]);
    }
  }

  // ------------------------------------------------------------- one life a record

  /** A record is begun at most once, and then ended or discarded at most once. */
  predicate OneLife(updates: seq<Update>) {
    && |updates| <= 2
    && (|updates| >= 1 ==> updates[0].Begin?)
    && (|updates| == 2 ==> !updates[1].Begin?)
  }

  /** The active record has been begun and no more; one not reached by the begins has not been touched. */
  ghost predicate LifeOf(x: Session, s: nat) {
    s in x.updates ==>
      && OneLife(x.updates[s])
      && (s > x.nextBegin ==> x.updates[s] == [])
      && (s == x.active && s != 0 ==> |x.updates[s]| == 1)
  }

  /** What an unfinished update finds: a begin the record it has reached, untouched; the others the one that was active. */
  ghost predicate UpdateDue(x: Session) {
    x.updater.NotUpdating? ||
    var target := x.updater.target;
    && target in x.updates && target <= x.nextBegin
    && (if x.updater.update.Begin? then target == x.nextBegin && x.updates[target] == [] && x.active < target
        else |x.updates[target]| == 1 && x.active == 0)
  }

  ghost predicate LivesOk(x: Session) {
    && x.active <= x.nextBegin && (x.active != 0 ==> x.active in x.updates)
    && x.updates.Keys == x.published.Keys
    && (forall s :: s in x.updates ==> LifeOf(x, s))
    && UpdateDue(x)
  }

  /** A record that is being waited for has not been published yet. */
  lemma WaitedIsNew(x: Session)
    requires Inv(x) && !x.waiter.NotWaiting?
    ensures x.waiter.n !in x.published
  {
    hide SlotOk, RecordOk, ReaderOk, UpdaterOk, WaitRecord;
  }

  lemma WaitKeepsLives(x: Session)
    requires Inv(x) && |x.slots| == SLOTS && LivesOk(x)
    ensures LivesOk(WaitAdvance(x))
  {
    hide Inv, MayRecycle, LivesOk;
    var y := WaitAdvance(x);
    if y.updates == x.updates && y.published == x.published {
      SameLives(x, y);
    } else {
      WaitedIsNew(x);
      NewLife(x, y, x.waiter.n);
    }
  }

  lemma SameLives(x: Session, y: Session)
    requires LivesOk(x) && y.updates == x.updates && y.published == x.published
    requires y.nextBegin == x.nextBegin && y.active == x.active && y.updater == x.updater
    ensures LivesOk(y)
  {
    hide OneLife;
    forall s | s in y.updates ensures LifeOf(y, s) {
      assert LifeOf(x, s);
    }
  }

  lemma NewLife(x: Session, y: Session, n: nat)
    requires LivesOk(x) && n !in x.published && y.updates == x.updates[n := []] && y.published.Keys == x.published.Keys + {n}
    requires y.nextBegin == x.nextBegin && y.active == x.active && y.updater == x.updater
    ensures LivesOk(y)
  {
    forall s | s in y.updates ensures LifeOf(y, s) {
      assert s in x.updates ==> LifeOf(x, s);
    }
  }

  /** A slot that shows a sequence other than 0 shows a published record. */
  lemma ShownIsPublished(x: Session, s: nat)
    requires Inv(x) && |x.slots| == SLOTS && s != 0 && x.slots[s % SLOTS].word == At(s)
    ensures s in x.published
  {
    assert SlotOk(x, s % SLOTS);
  }

  lemma StartKeepsLives(x: Session, u: Update)
    requires Inv(x) && |x.slots| == SLOTS && LivesOk(x) && x.updater.NotUpdating?
    ensures LivesOk(UpdateStart(x, u))
  {
    hide Inv;
    var y, target := UpdateStart(x, u), Target(x, u);
    if target != 0 && x.slots[target % SLOTS].word == At(target) {
      ShownIsPublished(x, target);
      assert LifeOf(x, target);
    }
    forall s | s in y.updates ensures LifeOf(y, s) {
      assert LifeOf(x, s);
    }
  }

  lemma UpdateKeepsLives(x: Session)
    requires Inv(x) && |x.slots| == SLOTS && LivesOk(x)
    ensures LivesOk(UpdateAdvance(x))
  {
    hide Inv, Stores;
    var y := UpdateAdvance(x);
    forall s | s in y.updates ensures LifeOf(y, s) {
      assert LifeOf(x, s);
    }
  }

  lemma StepKeepsLives(x: Session, a: Action)
    requires Inv(x) && |x.slots| == SLOTS && LivesOk(x)
    ensures LivesOk(Step(x, a))
  {
    hide Inv, WaitAdvance, UpdateStart, UpdateAdvance, ReadAdvance, WaitRecord, OneLife;
    match a {
      case StartWait(_) =>
        forall s | s in x.updates ensures LifeOf(Step(x, a), s) { assert LifeOf(x, s); }
      case WaitStep => WaitKeepsLives(x);
      case StartUpdate(u) => if x.updater.NotUpdating? { StartKeepsLives(x, u); }
      case UpdateStep => UpdateKeepsLives(x);
      case StartRead(_, _) =>
        forall s | s in x.updates ensures LifeOf(Step(x, a), s) { assert LifeOf(x, s); }
      case ReadStep(_) =>
        forall s | s in x.updates ensures LifeOf(Step(x, a), s) { assert LifeOf(x, s); }
    }
  }

  lemma {:induction false} RunKeepsLives(x: Session, run: seq<Action>)
    requires Start(x)
    ensures LivesOk(Run(x, run))
    decreases |run|
  {
    hide Step, Inv;
    if run != [] {
      RunKeepsLives(x, run[..|run| - 1]);
      RunKeepsInv(x, run[..|run| - 1]);
      StepKeepsLives(Run(x, run[..|run| - 1]), run[|run| - 1]);
    }
  }

  /**
   * Every token a concurrent reader accepts is one complete state its record
   * really had: what its wait published, followed by whole updates, and never a
   * mix of two frames or of the states before and after an update. A record has
   * one life: at most one begin and then at most one end or discard.
   */
  lemma AcceptedTokenIsOneState(x: Session, run: seq<Action>, t: nat)
    requires Start(x) && t < |x.readers| && Run(x, run).readers[t].Accepted?
    ensures var y := Run(x, run);
      var token := y.readers[t];
      && token.s in y.calls && token.s in y.updates && token.r / 2 <= |y.updates[token.s]|
      && token.got == Evolved(WaitRecord(y.epoch, y.calls[token.s]), y.updates[token.s][..token.r / 2])
      && OneLife(y.updates[token.s])
  {
    hide Run, Stores, StoreAll, OneLife;
    var y := Run(x, run);
    var token := y.readers[t];
    RunKeepsInv(x, run);
    RunKeepsLives(x, run);
    assert ReaderOk(y, token) && RecordOk(y, token.s);
    assert LifeOf(y, token.s);
    StatesEvolve(y.published[token.s], y.updates[token.s], token.r / 2);
  }

  /** The state a record reaches from its first one by whole updates. */
  function Evolved(r: Fields, updates: seq<Update>): (r': Fields)
    requires |r| == FIELDS
    ensures |r'| == FIELDS
  {
    if updates == [] then r else Updated(Evolved(r, updates[..|updates| - 1]), updates[|updates| - 1])
  }

  lemma {:induction false} StatesEvolve(states: seq<Fields>, updates: seq<Update>, j: nat)
    requires j < |states| == |updates| + 1 && forall i | 0 <= i < |states| :: |states[i]| == FIELDS
    requires forall i | 0 <= i < |updates| :: states[i + 1] == Updated(states[i], updates[i])
    ensures states[j] == Evolved(states[0], updates[..j])
  {
    if j > 0 {
      StatesEvolve(states, updates, j - 1);
      assert updates[..j][..j - 1] == updates[..j - 1];
      assert states[j - 1 + 1] == Updated(states[j - 1], updates[j - 1]);
    }
  }

  // ------------------------------------------------------------- undisturbed readers

  /** n steps of a reader while nobody else moves. */
  function ReadAlone(slots: seq<Slot>, r: Reader, n: nat): Reader
    requires |slots| == SLOTS
    decreases n
  {
    if n == 0 then r else ReadAlone(slots, ReadAdvance(slots, r), n - 1)
  }

  lemma {:induction false} AcceptedStays(slots: seq<Slot>, r: Reader, n: nat)
    requires |slots| == SLOTS && r.Accepted?
    ensures ReadAlone(slots, r, n) == r
  {
    if n > 0 {
      AcceptedStays(slots, r, n - 1);
    }
  }

  lemma {:induction false} FieldsAreRead(slots: seq<Slot>, r: Reader, n: nat)
    requires |slots| == SLOTS && r.LoadFields? && slots[r.slot % SLOTS].word == At(r.s)
    requires slots[r.slot % SLOTS].revision == r.r && |r.got| <= |slots[r.slot % SLOTS].fields|
    requires r.got == slots[r.slot % SLOTS].fields[..|r.got|] && n >= |slots[r.slot % SLOTS].fields| - |r.got| + 3
    ensures ReadAlone(slots, r, n) == Accepted(r.s, r.r, slots[r.slot % SLOTS].fields)
    decreases n
  {
    var fields := slots[r.slot % SLOTS].fields;
    var next := ReadAdvance(slots, r);
    if |r.got| < |fields| {
      FieldsAreRead(slots, next, n - 1);
    } else {
      assert r.got == fields;
      var last := ReadAdvance(slots, next);
      AcceptedStays(slots, ReadAdvance(slots, last), n - 3);
      assert ReadAlone(slots, next, n - 1) == ReadAlone(slots, last, n - 2);
    }
  }

  /** A reader of a record nobody is updating accepts it within four steps more than it has fields, as it stands. */
  lemma UndisturbedReadAccepts(slots: seq<Slot>, k: nat, s: nat, n: nat)
    requires |slots| == SLOTS && slots[k % SLOTS].word == At(s) && slots[k % SLOTS].revision % 2 == 0
    requires n >= |slots[k % SLOTS].fields| + 4
    ensures ReadAlone(slots, LoadRevision(k, s), n) == Accepted(s, slots[k % SLOTS].revision, slots[k % SLOTS].fields)
  {
    var r := LoadRevision(k, s);
    var next := ReadAdvance(slots, r);
    assert slots[k % SLOTS].fields[..0] == [];
    FieldsAreRead(slots, next, n - 1);
  }
}
