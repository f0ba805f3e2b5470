/**
 * The registry's generation seqlock and its thread-local snapshot caches, as
 * interleaved atomic steps.
 *
 * The tables are one sequence of keyed rows, the device rows first and the
 * queue rows after them; a lookup scans the rows of its own table. Writers are
 * serialised by a mutex: a mutation bumps the generation to odd, performs its
 * stores one at a time and bumps it to even. Any number of readers load the
 * generation, scan, load the fields one at a time, and accept only if
 * generation and row key are unchanged. Key 0 is the null handle. A thread that
 * uses both tables is two readers, as it has one cache for each.
 */
module RegistrySnapshot {
  import opened Options

  datatype Row<V> = Row(key: nat, fields: seq<V>)

  type Table<V> = seq<Row<V>>

  datatype Store<V> = SetKey(row: nat, key: nat) | SetField(row: nat, field: nat, value: V)

  function Perform<V>(t: Table<V>, s: Store<V>): (t': Table<V>)
    ensures |t'| == |t| && forall i | 0 <= i < |t| :: |t'[i].fields| == |t[i].fields|
  {
    if s.row >= |t| then t else
    match s
    case SetKey(i, key) => t[i := t[i].(key := key)]
    case SetField(i, f, value) =>
      if f < |t[i].fields| then t[i := t[i].(fields := t[i].fields[f := value])] else t
  }

  function PerformAll<V>(t: Table<V>, stores: seq<Store<V>>): (t': Table<V>)
    ensures |t'| == |t| && forall i | 0 <= i < |t| :: |t'[i].fields| == |t[i].fields|
    decreases |stores|
  {
    if stores == [] then t else PerformAll(Perform(t, stores[0]), stores[1..])
  }

  /** What a lookup asks for: a key, among the rows of one table. */
  datatype Query = Query(key: nat, from: nat, to: nat)

  predicate Fits<V>(t: Table<V>, q: Query) {
    q.from <= q.to <= |t|
  }

  /** The first row at or after `from` and before `to` holding the key, or `to`. */
  function FindRow<V>(t: Table<V>, key: nat, from: nat, to: nat): (i: nat)
    requires from <= to <= |t|
    ensures from <= i <= to && (i < to ==> t[i].key == key)
    ensures forall j | from <= j < i :: t[j].key != key
    decreases (to - from)
  {
    if from == to || t[from].key == key then from else FindRow(t, key, from + 1, to)
  }

  /** What one undisturbed scan answers. */
  function Scanned<V>(t: Table<V>, q: Query): Option<seq<V>>
    requires Fits(t, q)
  {
    var i := FindRow(t, q.key, q.from, q.to);
    if i < q.to then Some(t[i].fields) else None
  }

  // ---------------------------------------------------------------- protocol

  datatype Reader<V> =
    | Idle
    | LoadGeneration(q: Query)
    | Scan(q: Query, g: nat, i: nat)
    | LoadFields(q: Query, g: nat, i: nat, got: seq<V>)
    | RecheckGeneration(q: Query, g: nat, i: nat, got: seq<V>)
    | RecheckKey(q: Query, g: nat, i: nat, got: seq<V>)
    | RecheckAbsent(q: Query, g: nat)
    | Accepted(q: Query, g: nat, answer: Option<seq<V>>)

  datatype Cache<V> = Cache(q: Query, g: nat, answer: Option<seq<V>>)

  /** A reader, and after how many steps it was called, last loaded the generation, and returned. */
  datatype Thread<V> = Thread(pc: Reader<V>, cache: Option<Cache<V>>, called: nat, loaded: nat, returned: nat)

  /**
   * `history[k]` is the table as published by generation 2 + 2k, `generations[i]`
   * the generation after i steps.
   */
  datatype System<V> = System(
    table: Table<V>, generation: nat, pending: seq<Store<V>>, generations: seq<nat>,
    history: seq<Table<V>>, mutations: seq<seq<Store<V>>>, threads: seq<Thread<V>>)

  datatype Action<V> =
    | BeginMutation(stores: seq<Store<V>>)
    | WriteNext
    | EndMutation
    | Call(t: nat, q: Query)
    | Advance(t: nat)

  function AdvanceReader<V>(s: System<V>, thread: Thread<V>): Thread<V> {
    var now := |s.generations|;
    match thread.pc
    case LoadGeneration(q) =>
      var g := s.generation;
      if g % 2 == 1 then thread
      else if thread.cache.Some? && thread.cache.value.q == q && thread.cache.value.g == g then
        thread.(pc := Accepted(q, g, thread.cache.value.answer), loaded := now, returned := now)
      else thread.(pc := Scan(q, g, q.from), loaded := now)
    case Scan(q, g, i) =>
      if i >= q.to || i >= |s.table| then thread.(pc := RecheckAbsent(q, g))
      else if s.table[i].key == q.key then thread.(pc := LoadFields(q, g, i, []))
      else thread.(pc := Scan(q, g, i + 1))
    case LoadFields(q, g, i, got) =>
      if i < |s.table| && |got| < |s.table[i].fields| then
        thread.(pc := LoadFields(q, g, i, got + [s.table[i].fields[|got|]]))
      else thread.(pc := RecheckGeneration(q, g, i, got))
    case RecheckGeneration(q, g, i, got) =>
      thread.(pc := if s.generation == g then RecheckKey(q, g, i, got) else LoadGeneration(q))
    case RecheckKey(q, g, i, got) =>
      if i < |s.table| && s.table[i].key == q.key then
        thread.(pc := Accepted(q, g, Some(got)), cache := Some(Cache(q, g, Some(got))), returned := now)
      else thread.(pc := LoadGeneration(q))
    case RecheckAbsent(q, g) =>
      if s.generation == g then
        thread.(pc := Accepted(q, g, None), cache := Some(Cache(q, g, None)), returned := now)
      else thread.(pc := LoadGeneration(q))
    case _ => thread
  }

  predicate MayCall<V>(s: System<V>, t: nat, q: Query) {
    t < |s.threads| && q.key != 0 && Fits(s.table, q) && (s.threads[t].pc.Idle? || s.threads[t].pc.Accepted?)
  }

  function Act<V>(s: System<V>, a: Action<V>): System<V> {
    match a
    case BeginMutation(stores) =>
      if s.generation % 2 == 0 then
        s.(generation := s.generation + 1, pending := stores, mutations := s.mutations + [stores])
      else s
    case WriteNext =>
      if s.pending != [] then
        s.(table := Perform(s.table, s.pending[0]), pending := s.pending[1..])
      else s
    case EndMutation =>
      if s.generation % 2 == 1 && s.pending == [] then
        s.(generation := s.generation + 1, history := s.history + [s.table])
      else s
    case Call(t, q) =>
      if MayCall(s, t, q) then
        s.(threads := s.threads[t := s.threads[t].(pc := LoadGeneration(q), called := |s.generations|)])
      else s
    case Advance(t) =>
      if t < |s.threads| then s.(threads := s.threads[t := AdvanceReader(s, s.threads[t])]) else s
  }

  /** One step, and the generation it leaves recorded. */
  function Step<V>(s: System<V>, a: Action<V>): System<V> {
    var s1 := Act(s, a);
    s1.(generations := s1.generations + [s1.generation])
  }

  ghost predicate Start<V>(s: System<V>) {
    && s.generation == 2 && s.pending == [] && s.history == [s.table] && s.mutations == [] && s.generations == [2]
    && forall t | 0 <= t < |s.threads| :: s.threads[t] == Thread(Idle, None, 0, 0, 0)
  }

  function Run<V>(s: System<V>, run: seq<Action<V>>): System<V>
    decreases |run|
  {
    if run == [] then s else Step(Run(s, run[..|run| - 1]), run[|run| - 1])
  }

  // ---------------------------------------------------------------- invariant

  /** An answer is right for generation g if an undisturbed scan of that table gives it. */
  ghost predicate RightAnswer<V>(history: seq<Table<V>>, q: Query, g: nat, answer: Option<seq<V>>) {
    && g >= 2 && g % 2 == 0 && (g - 2) / 2 < |history|
    && Fits(history[(g - 2) / 2], q) && answer == Scanned(history[(g - 2) / 2], q)
  }

  /** A scan that has come to row i has not met the key. */
  ghost predicate Passed<V>(t: Table<V>, q: Query, i: nat) {
    q.from <= i <= q.to <= |t| && forall j | q.from <= j < i :: t[j].key != q.key
  }

  /** What a reader between its generation load and its recheck knows, as long as the generation stands. */
  ghost predicate Knows<V>(t: Table<V>, pc: Reader<V>) {
    match pc
    case Scan(q, g, i) => Passed(t, q, i)
    case LoadFields(q, g, i, got) =>
      Passed(t, q, i) && i < q.to && t[i].key == q.key && got <= t[i].fields
    case RecheckGeneration(q, g, i, got) =>
      Passed(t, q, i) && i < q.to && t[i].key == q.key && got == t[i].fields
    case RecheckAbsent(q, g) => Passed(t, q, q.to)
    case _ => true
  }

  ghost predicate ReaderOk<V>(s: System<V>, pc: Reader<V>) {
    match pc
    case Idle => true
    case LoadGeneration(q) => Fits(s.table, q)
    case RecheckKey(q, g, i, got) => Fits(s.table, q) && RightAnswer(s.history, q, g, Some(got))
    case Accepted(q, g, answer) => RightAnswer(s.history, q, g, answer)
    case _ =>
      && Fits(s.table, pc.q) && 2 <= pc.g <= s.generation && pc.g % 2 == 0
      && (pc.g == s.generation ==> Knows(s.table, pc))
  }

  ghost predicate ThreadOk<V>(s: System<V>, thread: Thread<V>) {
    && ReaderOk(s, thread.pc)
    && (thread.cache.Some? ==>
        RightAnswer(s.history, thread.cache.value.q, thread.cache.value.g, thread.cache.value.answer))
  }

  /** The table is what the mutations so far, the running one's stores as far as performed, make of the first. */
  ghost predicate WriterOk<V>(s: System<V>) {
    && |s.history| >= 1
    && (s.generation % 2 == 0 ==>
        && s.generation == 2 * |s.history| && s.pending == [] && |s.mutations| == |s.history| - 1
        && s.table == s.history[|s.history| - 1])
    && (s.generation % 2 == 1 ==>
        && s.generation == 2 * |s.history| + 1 && |s.mutations| == |s.history|
        && PerformAll(s.table, s.pending) == PerformAll(s.history[|s.history| - 1], s.mutations[|s.history| - 1]))
    && (forall k | 0 <= k < |s.history| - 1 :: s.history[k + 1] == PerformAll(s.history[k], s.mutations[k]))
  }

  ghost predicate Inv<V>(s: System<V>) {
    WriterOk(s) && forall t | 0 <= t < |s.threads| :: ThreadOk(s, s.threads[t])
  }

  lemma FirstMatch<V>(t: Table<V>, q: Query, i: nat)
    requires Passed(t, q, i) && (i < q.to ==> t[i].key == q.key)
    ensures FindRow(t, q.key, q.from, q.to) == i
  {
  }

  /** A recheck that finds the generation unchanged has an answer of the published table in hand. */
  lemma RecheckIsRight<V>(s: System<V>, pc: Reader<V>)
    requires WriterOk(s) && ReaderOk(s, pc) && (pc.RecheckGeneration? || pc.RecheckAbsent?) && s.generation == pc.g
    ensures RightAnswer(s.history, pc.q, pc.g, if pc.RecheckAbsent? then None else Some(pc.got))
  {
    FirstMatch(s.table, pc.q, if pc.RecheckAbsent? then pc.q.to else pc.i);
  }

  lemma ScanIsOk<V>(s: System<V>, thread: Thread<V>)
    requires ThreadOk(s, thread) && (thread.pc.Scan? || thread.pc.LoadFields?)
    ensures ThreadOk(s, AdvanceReader(s, thread))
  {
  }

  lemma AdvanceKeepsThread<V>(s: System<V>, thread: Thread<V>)
    requires WriterOk(s) && ThreadOk(s, thread)
    ensures ThreadOk(s, AdvanceReader(s, thread))
  {
    hide FindRow, PerformAll, RightAnswer;
    var pc := thread.pc;
    if pc.Scan? || pc.LoadFields? {
      ScanIsOk(s, thread);
    } else if (pc.RecheckGeneration? || pc.RecheckAbsent?) && s.generation == pc.g {
      RecheckIsRight(s, pc);
    }
  }

  /** Steps that change no table, or change it while the generation is odd, leave what a reader knows true. */
  lemma WriterKeepsThread<V>(s: System<V>, s': System<V>, thread: Thread<V>)
    requires ThreadOk(s, thread) && |s'.table| == |s.table|
    requires s.history <= s'.history && s.generation <= s'.generation
    requires s'.generation == s.generation ==> s'.table == s.table || s.generation % 2 == 1
    ensures ThreadOk(s', thread)
  {
  }

  lemma WriteKeepsTables<V>(s: System<V>)
    requires WriterOk(s)
    ensures WriterOk(Act(s, WriteNext))
  {
  }

  lemma EndKeepsTables<V>(s: System<V>)
    requires WriterOk(s)
    ensures WriterOk(Act(s, EndMutation))
  {
    assert PerformAll(s.table, []) == s.table;
  }

  lemma WriterKeepsTables<V>(s: System<V>, a: Action<V>)
    requires WriterOk(s)
    ensures WriterOk(Step(s, a))
  {
    hide Act, PerformAll;
    match a
    case WriteNext => WriteKeepsTables(s);
    case EndMutation => EndKeepsTables(s);
    case BeginMutation(stores) => BeginKeepsTables(s, stores);
    case _ => ReadingKeepsTables(s, a);
  }

  lemma ReadingKeepsTables<V>(s: System<V>, a: Action<V>)
    requires WriterOk(s) && (a.Call? || a.Advance?)
    ensures WriterOk(Act(s, a))
  {
    hide PerformAll, AdvanceReader;
  }

  lemma BeginKeepsTables<V>(s: System<V>, stores: seq<Store<V>>)
    requires WriterOk(s)
    ensures WriterOk(Act(s, BeginMutation(stores)))
  {
    hide PerformAll;
  }

  lemma StepKeepsInv<V>(s: System<V>, a: Action<V>)
    requires Inv(s)
    ensures Inv(Step(s, a))
  {
    var s' := Step(s, a);
    WriterKeepsTables(s, a);
    forall t | 0 <= t < |s'.threads| ensures ThreadOk(s', s'.threads[t]) {
      StepKeepsThread(s, a, t);
    }
  }

  lemma StepKeepsThread<V>(s: System<V>, a: Action<V>, t: nat)
    requires Inv(s) && t < |s.threads|
    ensures |Step(s, a).threads| == |s.threads| && ThreadOk(Step(s, a), Step(s, a).threads[t])
  {
    var s' := Step(s, a);
    assert ThreadOk(s, s.threads[t]);
    if a == Advance(t) {
      AdvanceKeepsThread(s, s.threads[t]);
    }
    assert ThreadOk(s, s'.threads[t]);
    WriterKeepsThread(s, s', s'.threads[t]);
  }

  lemma {:induction false} RunKeepsInv<V>(s: System<V>, run: seq<Action<V>>)
    requires Start(s)
    ensures Inv(Run(s, run))
  {
    if run != [] {
      RunKeepsInv(s, run[..|run| - 1]);
      StepKeepsInv(Run(s, run[..|run| - 1]), run[|run| - 1]);
    }
  }

  // ------------------------------------------------------------------- instants

  predicate InCall<V>(pc: Reader<V>) {
    !pc.Idle? && !pc.LoadGeneration?
  }

  /** The generation a reader works with was current when it loaded it, after its call and before its return. */
  ghost predicate Timed<V>(generations: seq<nat>, thread: Thread<V>) {
    && (!thread.pc.Idle? ==> thread.called < |generations|)
    && (InCall(thread.pc) ==>
        thread.called <= thread.loaded < |generations| && generations[thread.loaded] == thread.pc.g)
    && (thread.pc.Accepted? ==> thread.loaded <= thread.returned < |generations|)
  }

  ghost predicate AllTimed<V>(s: System<V>) {
    forall t | 0 <= t < |s.threads| :: Timed(s.generations, s.threads[t])
  }

  lemma StepKeepsTimed<V>(s: System<V>, a: Action<V>)
    requires AllTimed(s)
    ensures AllTimed(Step(s, a))
  {
    hide FindRow;
    var s' := Step(s, a);
    forall t | 0 <= t < |s'.threads| ensures Timed(s'.generations, s'.threads[t]) {
      assert Timed(s.generations, s.threads[t]);
    }
  }

  lemma {:induction false} RunKeepsTimed<V>(s: System<V>, run: seq<Action<V>>)
    requires Start(s)
    ensures AllTimed(Run(s, run))
  {
    if run != [] {
      RunKeepsTimed(s, run[..|run| - 1]);
      StepKeepsTimed(Run(s, run[..|run| - 1]), run[|run| - 1]);
    }
  }

  /** The generation was current at some instant between the call and its return. */
  ghost predicate CurrentWithin(generations: seq<nat>, g: nat, called: nat, returned: nat) {
    exists i :: called <= i <= returned < |generations| && generations[i] == g
  }

  // ------------------------------------------------------------- main results

  /**
   * In every interleaving an accepted answer, found or not found, is what one
   * undisturbed scan of the table published at the accepted generation gives,
   * and that generation was current at some instant within the call.
   */
  lemma AcceptedSnapshotIsAtomic<V>(start: System<V>, run: seq<Action<V>>, t: nat)
    requires Start(start) && t < |Run(start, run).threads|
    ensures var s := Run(start, run);
      var thread := s.threads[t];
      thread.pc.Accepted? ==>
        && RightAnswer(s.history, thread.pc.q, thread.pc.g, thread.pc.answer)
        && CurrentWithin(s.generations, thread.pc.g, thread.called, thread.returned)
  {
    RunKeepsInv(start, run);
    RunKeepsTimed(start, run);
    var s := Run(start, run);
    assert ThreadOk(s, s.threads[t]) && Timed(s.generations, s.threads[t]);
  }

  /**
   * A thread-local cache hit answers what a fresh scan would, at the very
   * instant its generation load is made.
   */
  lemma CacheHitIsFresh<V>(start: System<V>, run: seq<Action<V>>, t: nat)
    requires Start(start)
    ensures var s := Run(start, run);
      t < |s.threads| && s.threads[t].pc.LoadGeneration? && AdvanceReader(s, s.threads[t]).pc.Accepted? ==>
        && s.generation % 2 == 0 && Fits(s.table, s.threads[t].pc.q)
        && AdvanceReader(s, s.threads[t]).pc.answer == Scanned(s.table, s.threads[t].pc.q)
  {
    hide Run, PerformAll, FindRow;
    RunKeepsInv(start, run);
    var s := Run(start, run);
    if t < |s.threads| {
      assert ThreadOk(s, s.threads[t]);
    }
  }

  // ------------------------------------------------------------ undisturbed lookups

  /** n steps of reader t alone. */
  function Alone<V>(s: System<V>, t: nat, n: nat): System<V>
    decreases n
  {
    if n == 0 then s else Alone(Step(s, Advance(t)), t, n - 1)
  }

  ghost predicate Answered<V>(s: System<V>, t: nat, q: Query, g: nat, answer: Option<seq<V>>) {
    t < |s.threads| && s.threads[t].pc == Accepted(q, g, answer)
  }

  lemma {:induction false} AnswerStays<V>(s: System<V>, t: nat, q: Query, g: nat, answer: Option<seq<V>>, n: nat)
    requires Answered(s, t, q, g, answer)
    ensures Answered(Alone(s, t, n), t, q, g, answer)
    decreases n
  {
    if n > 0 {
      AnswerStays(Step(s, Advance(t)), t, q, g, answer, n - 1);
    }
  }

  lemma RechecksPass<V>(s: System<V>, t: nat, n: nat)
    requires t < |s.threads| && n >= 2 && s.threads[t].pc.RecheckGeneration?
    requires var pc := s.threads[t].pc;
      s.generation == pc.g && pc.i < |s.table| && s.table[pc.i].key == pc.q.key
    ensures var pc := s.threads[t].pc; Answered(Alone(s, t, n), t, pc.q, pc.g, Some(pc.got))
  {
    var pc := s.threads[t].pc;
    var s1 := Step(s, Advance(t));
    var s2 := Step(s1, Advance(t));
    AnswerStays(s2, t, pc.q, pc.g, Some(pc.got), n - 2);
  }

  lemma {:induction false} FieldsAreLoaded<V>(s: System<V>, t: nat, n: nat)
    requires t < |s.threads| && s.threads[t].pc.LoadFields?
    requires var pc := s.threads[t].pc;
      && s.generation == pc.g && pc.i < |s.table| && s.table[pc.i].key == pc.q.key
      && |pc.got| <= |s.table[pc.i].fields| && pc.got == s.table[pc.i].fields[..|pc.got|]
      && n >= |s.table[pc.i].fields| - |pc.got| + 3
    ensures var pc := s.threads[t].pc; Answered(Alone(s, t, n), t, pc.q, pc.g, Some(s.table[pc.i].fields))
    decreases n
  {
    var pc := s.threads[t].pc;
    var next := Step(s, Advance(t));
    if |pc.got| < |s.table[pc.i].fields| {
      FieldsAreLoaded(next, t, n - 1);
    } else {
      assert pc.got == s.table[pc.i].fields;
      RechecksPass(next, t, n - 1);
    }
  }

  /** Steps an undisturbed scan from row i takes to its answer. */
  function ScanSteps<V>(table: Table<V>, q: Query, i: nat): nat
    requires q.from <= i <= q.to <= |table|
  {
    var found := FindRow(table, q.key, i, q.to);
    found - i + if found < q.to then |table[found].fields| + 4 else 2
  }

  lemma {:induction false} ScanAnswers<V>(s: System<V>, t: nat, n: nat)
    requires t < |s.threads| && s.threads[t].pc.Scan?
    requires var pc := s.threads[t].pc;
      s.generation == pc.g && pc.q.from <= pc.i <= pc.q.to <= |s.table| && n >= ScanSteps(s.table, pc.q, pc.i)
    ensures var pc := s.threads[t].pc;
      var found := FindRow(s.table, pc.q.key, pc.i, pc.q.to);
      Answered(Alone(s, t, n), t, pc.q, pc.g, if found < pc.q.to then Some(s.table[found].fields) else None)
    decreases n
  {
    var pc := s.threads[t].pc;
    var next := Step(s, Advance(t));
    if pc.i >= pc.q.to {
      var done := Step(next, Advance(t));
      AnswerStays(done, t, pc.q, pc.g, None, n - 2);
    } else if s.table[pc.i].key == pc.q.key {
      FieldsAreLoaded(next, t, n - 1);
    } else {
      ScanAnswers(next, t, n - 1);
    }
  }

  /**
   * Between mutations a lookup nobody disturbs is answered, within its rows, its
   * fields and five more steps, and with what the table holds: the fields of the
   * first row with its key, or not found. (A cache hit is answered at once.)
   */
  lemma UndisturbedLookupAnswers<V>(s: System<V>, t: nat, q: Query, n: nat)
    requires t < |s.threads| && s.threads[t].pc == LoadGeneration(q) && Fits(s.table, q) && s.generation % 2 == 0
    requires s.threads[t].cache.Some? ==> s.threads[t].cache.value.q != q || s.threads[t].cache.value.g != s.generation
    requires n >= 1 + ScanSteps(s.table, q, q.from)
    ensures Answered(Alone(s, t, n), t, q, s.generation, Scanned(s.table, q))
  {
    hide ScanSteps, FindRow;
    ScanAnswers(Step(s, Advance(t)), t, n - 1);
  }
}
