/**
 * The store sequences the registry's writers really perform, on device rows and
 * on the queue rows that duplicate their dispatch, and the device and queue maps
 * they maintain under concurrent readers. Handles, pointers and flag words are
 * naturals, 0 is null.
 */
module RegistryPrograms {
  import DeviceRegistry
  import opened Options
  import opened RegistrySnapshot

  /**
   * Where things are: the number of device rows, the number of fields of one,
   * and the four fields that queues or the writers refer to. A queue row has the
   * fields device, present and notify.
   */
  datatype Layout = Layout(devices: nat, width: nat, present: nat, notify: nat, semaphore: nat, flags: nat)

  predicate Sound(l: Layout) {
    && l.present < l.width && l.notify < l.width && l.semaphore < l.width && l.flags < l.width
    && l.semaphore != l.present && l.semaphore != l.notify && l.semaphore != l.flags
  }

  const QUEUE_WIDTH: nat := 3

  datatype Mutation =
    | Register(device: nat, fields: seq<nat>)        // register_device
    | Unregister(device: nat)                        // unregister_device
    | SetSemaphore(device: nat, value: nat)          // semaphore installed or destroyed
    | RegisterQueue(device: nat, queue: nat)         // register_queue
    | Elsewhere                                      // a swapchain mutation

  type Rows = Table<nat>

  function DeviceRows(t: Rows, l: Layout): Rows
    requires l.devices <= |t|
  {
    t[..l.devices]
  }

  function QueueRows(t: Rows, l: Layout): Rows
    requires l.devices <= |t|
  {
    t[l.devices..]
  }

  function Find(rows: Rows, key: nat): (i: nat)
    ensures i <= |rows| && (i < |rows| ==> rows[i].key == key)
    ensures forall j | 0 <= j < i :: rows[j].key != key
  {
    FindRow(rows, key, 0, |rows|)
  }

  /** The row a registration uses: the handle's own, or the first free one. */
  function TargetRow(rows: Rows, key: nat): (i: nat)
    ensures i <= |rows| && (i < |rows| ==> rows[i].key in [key, 0])
  {
    var own := Find(rows, key);
    if own < |rows| then own else Find(rows, 0)
  }

  // ------------------------------------------------------------- the programs

  function StoreFields(i: nat, fields: seq<nat>, from: nat): seq<Store<nat>>
    requires from <= |fields|
    decreases |fields| - from
  {
    if from == |fields| then [] else [SetField(i, from, fields[from])] + StoreFields(i, fields, from + 1)
  }

  /** Unpublish the key, store every field, publish the key last. */
  function PublishRow(i: nat, key: nat, fields: seq<nat>): seq<Store<nat>> {
    [SetKey(i, 0)] + StoreFields(i, fields, 0) + [SetKey(i, key)]
  }

  function ClearRow(i: nat, width: nat): seq<Store<nat>> {
    [SetKey(i, 0)] + StoreFields(i, Zeros(width), 0)
  }

  function Zeros(n: nat): (z: seq<nat>)
    ensures |z| == n && forall i | 0 <= i < n :: z[i] == 0
  {
    seq(n, _ => 0)
  }

  predicate Native(flags: nat) {
    flags / 4 % 2 == 1
  }

  /** What a queue row caches of its device. */
  function EntryFields(device: nat, fields: seq<nat>, l: Layout): (e: seq<nat>)
    requires Sound(l) && |fields| == l.width
    ensures |e| == QUEUE_WIDTH && e[0] == device
  {
    [device, fields[l.present], if Native(fields[l.flags]) then fields[l.notify] else 0]
  }

  /** A walk over all queue rows that rewrites or frees those of one device. */
  datatype Sweep = Refresh(device: nat, entry: seq<nat>) | Erase(device: nat)

  predicate Hits(row: Row<nat>, sweep: Sweep) {
    |row.fields| == QUEUE_WIDTH && row.fields[0] == sweep.device
  }

  function RowStores(r: nat, row: Row<nat>, sweep: Sweep): seq<Store<nat>>
    requires sweep.Refresh? ==> |sweep.entry| == QUEUE_WIDTH
  {
    if !Hits(row, sweep) then [] else
    match sweep
    case Refresh(_, entry) => [SetField(r, 1, entry[1]), SetField(r, 2, entry[2])]
    case Erase(_) => [SetKey(r, 0), SetField(r, 0, 0), SetField(r, 1, 0), SetField(r, 2, 0)]
  }

  function SweepStores(t: Rows, sweep: Sweep, r: nat): seq<Store<nat>>
    requires sweep.Refresh? ==> |sweep.entry| == QUEUE_WIDTH
    decreases |t| - r
  {
    if r >= |t| then [] else RowStores(r, t[r], sweep) + SweepStores(t, sweep, r + 1)
  }

  /** Whether the writer finds the rows to work on; if not it returns before touching the generation. */
  predicate Enabled(t: Rows, m: Mutation, l: Layout) {
    && Sound(l) && l.devices <= |t|
    && var devices, queues := DeviceRows(t, l), QueueRows(t, l);
       match m
       case Register(device, fields) =>
         device != 0 && |fields| == l.width && TargetRow(devices, device) < |devices|
       case Unregister(device) => device != 0 && Find(devices, device) < |devices|
       case SetSemaphore(device, _) => device != 0 && Find(devices, device) < |devices|
       case RegisterQueue(device, queue) =>
         && device != 0 && queue != 0 && Find(devices, device) < |devices|
         && |devices[Find(devices, device)].fields| == l.width && TargetRow(queues, queue) < |queues|
       case Elsewhere => true
  }

  /** The stores of a mutation, in program order. */
  function Program(t: Rows, m: Mutation, l: Layout): seq<Store<nat>>
    requires Enabled(t, m, l)
  {
    var devices, queues := DeviceRows(t, l), QueueRows(t, l);
    match m
    case Register(device, fields) =>
      PublishRow(TargetRow(devices, device), device, fields)
      + SweepStores(t, Refresh(device, EntryFields(device, fields, l)), l.devices)
    case Unregister(device) =>
      ClearRow(Find(devices, device), l.width) + SweepStores(t, Erase(device), l.devices)
    case SetSemaphore(device, value) => [SetField(Find(devices, device), l.semaphore, value)]
    case RegisterQueue(device, queue) =>
      PublishRow(l.devices + TargetRow(queues, queue), queue,
        EntryFields(device, devices[Find(devices, device)].fields, l))
    case Elsewhere => []
  }

  // ------------------------------------------------------ what they do to rows

  lemma {:induction false} PerformAppend(t: Rows, first: seq<Store<nat>>, second: seq<Store<nat>>)
    ensures PerformAll(t, first + second) == PerformAll(PerformAll(t, first), second)
    decreases |first|
  {
    if first == [] {
      assert first + second == second;
    } else {
      assert (first + second)[1..] == first[1..] + second;
      PerformAppend(Perform(t, first[0]), first[1..], second);
    }
  }

  lemma OneStore(t: Rows, s: Store<nat>)
    ensures PerformAll(t, [s]) == Perform(t, s)
  {
    assert [s][1..] == [];
    assert PerformAll(Perform(t, s), []) == Perform(t, s);
  }

  /** Storing the fields one by one replaces the row's fields. */
  lemma {:induction false} StoreFieldsReplaces(t: Rows, i: nat, fields: seq<nat>, from: nat)
    requires i < |t| && |t[i].fields| == |fields| && from <= |fields| && t[i].fields[..from] == fields[..from]
    ensures PerformAll(t, StoreFields(i, fields, from)) == t[i := t[i].(fields := fields)]
    decreases |fields| - from
  {
    if from == |fields| {
      assert t[i].fields == fields;
    } else {
      var stores := StoreFields(i, fields, from);
      var t' := Perform(t, stores[0]);
      assert stores[1..] == StoreFields(i, fields, from + 1);
      assert t'[i].fields[..from + 1] == t[i].fields[..from] + [fields[from]];
      StoreFieldsReplaces(t', i, fields, from + 1);
    }
  }

  lemma ClearedRow(t: Rows, i: nat, fields: seq<nat>)
    requires i < |t| && |t[i].fields| == |fields|
    ensures PerformAll(t, [SetKey(i, 0)] + StoreFields(i, fields, 0)) == t[i := Row(0, fields)]
  {
    var t0 := t[i := t[i].(key := 0)];
    PerformAppend(t, [SetKey(i, 0)], StoreFields(i, fields, 0));
    OneStore(t, SetKey(i, 0));
    StoreFieldsReplaces(t0, i, fields, 0);
  }

  lemma PublishedRow(t: Rows, i: nat, key: nat, fields: seq<nat>)
    requires i < |t| && |t[i].fields| == |fields|
    ensures PerformAll(t, PublishRow(i, key, fields)) == t[i := Row(key, fields)]
  {
    ClearedRow(t, i, fields);
    PerformAppend(t, [SetKey(i, 0)] + StoreFields(i, fields, 0), [SetKey(i, key)]);
    OneStore(t[i := Row(0, fields)], SetKey(i, key));
  }

  function SweptRow(row: Row<nat>, sweep: Sweep): (row': Row<nat>)
    ensures Hits(row, sweep) && sweep.Erase? ==> row' == Row(0, Zeros(QUEUE_WIDTH))
    ensures !Hits(row, sweep) ==> row' == row
  {
    if !Hits(row, sweep) then row
    else if sweep.Erase? then Row(0, Zeros(QUEUE_WIDTH))
    else row.(fields := sweep.entry)
  }

  ghost predicate SweepOk(sweep: Sweep) {
    sweep.Refresh? ==> |sweep.entry| == QUEUE_WIDTH && sweep.entry[0] == sweep.device
  }

  function StoreRow(row: Row<nat>, s: Store<nat>): Row<nat> {
    match s
    case SetKey(_, key) => row.(key := key)
    case SetField(_, f, value) => if f < |row.fields| then row.(fields := row.fields[f := value]) else row
  }

  function StoreAllRow(row: Row<nat>, stores: seq<Store<nat>>): Row<nat>
    decreases |stores|
  {
    if stores == [] then row else StoreAllRow(StoreRow(row, stores[0]), stores[1..])
  }

  /** Stores to one row are stores to that row. */
  lemma {:induction false} OnlyThatRow(t: Rows, r: nat, stores: seq<Store<nat>>)
    requires r < |t| && forall k | 0 <= k < |stores| :: stores[k].row == r
    ensures PerformAll(t, stores) == t[r := StoreAllRow(t[r], stores)]
    decreases |stores|
  {
    if stores == [] {
      assert t[r := t[r]] == t;
    } else {
      var t' := Perform(t, stores[0]);
      assert t' == t[r := StoreRow(t[r], stores[0])];
      OnlyThatRow(t', r, stores[1..]);
      assert t'[r := StoreAllRow(t'[r], stores[1..])] == t[r := StoreAllRow(t'[r], stores[1..])];
    }
  }

  lemma StoreTwo(row: Row<nat>, a: Store<nat>, b: Store<nat>)
    ensures StoreAllRow(row, [a, b]) == StoreRow(StoreRow(row, a), b)
  {
    assert [a, b][1..] == [b] && [b][1..] == [];
    assert StoreAllRow(StoreRow(row, a), [b]) == StoreAllRow(StoreRow(StoreRow(row, a), b), []);
  }

  lemma StoreFour(row: Row<nat>, a: Store<nat>, b: Store<nat>, c: Store<nat>, d: Store<nat>)
    ensures StoreAllRow(row, [a, b, c, d]) == StoreRow(StoreRow(StoreRow(StoreRow(row, a), b), c), d)
  {
    assert [a, b, c, d][1..] == [b, c, d] && [b, c, d][1..] == [c, d];
    assert StoreAllRow(StoreRow(row, a), [b, c, d]) == StoreAllRow(StoreRow(StoreRow(row, a), b), [c, d]);
    StoreTwo(StoreRow(StoreRow(row, a), b), c, d);
  }

  lemma ThreeFields(old': seq<nat>, x: nat, y: nat, z: nat)
    requires |old'| == QUEUE_WIDTH
    ensures old'[0 := x][1 := y][2 := z] == [x, y, z]
    ensures old'[0] == x ==> old'[1 := y][2 := z] == [x, y, z]
  {
  }

  lemma RowStored(r: nat, row: Row<nat>, sweep: Sweep)
    requires SweepOk(sweep) && Hits(row, sweep)
    ensures StoreAllRow(row, RowStores(r, row, sweep)) == SweptRow(row, sweep)
  {
    match sweep {
      case Refresh(_, entry) =>
        StoreTwo(row, SetField(r, 1, entry[1]), SetField(r, 2, entry[2]));
        ThreeFields(row.fields, entry[0], entry[1], entry[2]);
        assert entry == [entry[0], entry[1], entry[2]];
      case Erase(_) =>
        StoreFour(row, SetKey(r, 0), SetField(r, 0, 0), SetField(r, 1, 0), SetField(r, 2, 0));
        ThreeFields(row.fields, 0, 0, 0);
        assert Zeros(QUEUE_WIDTH) == [0, 0, 0];
    }
  }

  lemma RowSwept(t: Rows, r: nat, sweep: Sweep)
    requires r < |t| && SweepOk(sweep)
    ensures PerformAll(t, RowStores(r, t[r], sweep)) == t[r := SweptRow(t[r], sweep)]
  {
    OnlyThatRow(t, r, RowStores(r, t[r], sweep));
    if Hits(t[r], sweep) {
      RowStored(r, t[r], sweep);
    }
  }

  /** Every row from r on swept. */
  function Swept(t: Rows, sweep: Sweep, r: nat): (t': Rows)
    ensures |t'| == |t| && forall k | 0 <= k < |t| :: t'[k] == if k < r then t[k] else SweptRow(t[k], sweep)
  {
    seq(|t|, k requires 0 <= k < |t| => if k < r then t[k] else SweptRow(t[k], sweep))
  }

  lemma SweptOneMore(u: Rows, sweep: Sweep, r: nat)
    requires r < |u|
    ensures Swept(u[r := SweptRow(u[r], sweep)], sweep, r + 1) == Swept(u, sweep, r)
  {
  }

  lemma Combine(u: Rows, first: seq<Store<nat>>, u1: Rows, second: seq<Store<nat>>, u2: Rows)
    requires PerformAll(u, first) == u1 && PerformAll(u1, second) == u2
    ensures PerformAll(u, first + second) == u2
  {
    PerformAppend(u, first, second);
  }

  lemma SweepStep(t: Rows, u: Rows, sweep: Sweep, r: nat, rest: seq<Store<nat>>)
    requires SweepOk(sweep) && r < |u| == |t| && u[r] == t[r]
    requires var u1 := u[r := SweptRow(u[r], sweep)]; PerformAll(u1, rest) == Swept(u1, sweep, r + 1)
    ensures PerformAll(u, RowStores(r, t[r], sweep) + rest) == Swept(u, sweep, r)
  {
    RowSwept(u, r, sweep);
    SweptOneMore(u, sweep, r);
    Combine(u, RowStores(r, t[r], sweep), u[r := SweptRow(u[r], sweep)], rest, Swept(u, sweep, r));
  }

  lemma SweepSplits(t: Rows, sweep: Sweep, r: nat)
    requires SweepOk(sweep) && r < |t|
    ensures SweepStores(t, sweep, r) == RowStores(r, t[r], sweep) + SweepStores(t, sweep, r + 1)
  {
  }

  /** The walk rewrites exactly the rows it is after, whatever happened to rows before it. */
  lemma {:induction false} SweepWorks(t: Rows, u: Rows, sweep: Sweep, r: nat)
    requires SweepOk(sweep) && |u| == |t| && forall k | r <= k < |t| :: u[k] == t[k]
    ensures PerformAll(u, SweepStores(t, sweep, r)) == Swept(u, sweep, r)
    decreases |t| - r
  {
    if r >= |t| {
      assert Swept(u, sweep, r) == u;
    } else {
      SweepWorks(t, u[r := SweptRow(u[r], sweep)], sweep, r + 1);
      SweepStep(t, u, sweep, r, SweepStores(t, sweep, r + 1));
      SweepSplits(t, sweep, r);
    }
  }

  ghost predicate RowsOfWidth(rows: Rows, width: nat) {
    forall i | 0 <= i < |rows| :: |rows[i].fields| == width
  }

  ghost predicate Shaped(t: Rows, l: Layout) {
    l.devices <= |t| && RowsOfWidth(DeviceRows(t, l), l.width) && RowsOfWidth(QueueRows(t, l), QUEUE_WIDTH)
  }

  /** The rows a mutation is meant to leave behind. */
  function Effect(t: Rows, m: Mutation, l: Layout): Rows
    requires Enabled(t, m, l)
  {
    var devices, queues := DeviceRows(t, l), QueueRows(t, l);
    match m
    case Register(device, fields) =>
      Swept(t[TargetRow(devices, device) := Row(device, fields)],
        Refresh(device, EntryFields(device, fields, l)), l.devices)
    case Unregister(device) =>
      Swept(t[Find(devices, device) := Row(0, Zeros(l.width))], Erase(device), l.devices)
    case SetSemaphore(device, value) =>
      var i := Find(devices, device);
      if |t[i].fields| == l.width then t[i := t[i].(fields := t[i].fields[l.semaphore := value])] else t
    case RegisterQueue(device, queue) =>
      t[l.devices + TargetRow(queues, queue) :=
        Row(queue, EntryFields(device, devices[Find(devices, device)].fields, l))]
    case Elsewhere => t
  }

  lemma WidthAt(t: Rows, l: Layout, i: nat)
    requires Shaped(t, l) && i < |t|
    ensures |t[i].fields| == if i < l.devices then l.width else QUEUE_WIDTH
  {
    if i < l.devices {
      assert DeviceRows(t, l)[i] == t[i];
    } else {
      assert QueueRows(t, l)[i - l.devices] == t[i];
    }
  }

  lemma RegisterEffect(t: Rows, device: nat, fields: seq<nat>, l: Layout)
    requires Shaped(t, l) && Enabled(t, Register(device, fields), l)
    ensures PerformAll(t, Program(t, Register(device, fields), l)) == Effect(t, Register(device, fields), l)
  {
    var i := TargetRow(DeviceRows(t, l), device);
    var sweep := Refresh(device, EntryFields(device, fields, l));
    WidthAt(t, l, i);
    PublishedRow(t, i, device, fields);
    PerformAppend(t, PublishRow(i, device, fields), SweepStores(t, sweep, l.devices));
    SweepWorks(t, t[i := Row(device, fields)], sweep, l.devices);
  }

  lemma UnregisterEffect(t: Rows, device: nat, l: Layout)
    requires Shaped(t, l) && Enabled(t, Unregister(device), l)
    ensures PerformAll(t, Program(t, Unregister(device), l)) == Effect(t, Unregister(device), l)
  {
    var i := Find(DeviceRows(t, l), device);
    WidthAt(t, l, i);
    ClearedRow(t, i, Zeros(l.width));
    PerformAppend(t, ClearRow(i, l.width), SweepStores(t, Erase(device), l.devices));
    SweepWorks(t, t[i := Row(0, Zeros(l.width))], Erase(device), l.devices);
  }

  lemma QueueEffect(t: Rows, device: nat, queue: nat, l: Layout)
    requires Shaped(t, l) && Enabled(t, RegisterQueue(device, queue), l)
    ensures PerformAll(t, Program(t, RegisterQueue(device, queue), l)) == Effect(t, RegisterQueue(device, queue), l)
  {
    hide PerformAll, Find, EntryFields;
    var devices, r := DeviceRows(t, l), l.devices + TargetRow(QueueRows(t, l), queue);
    WidthAt(t, l, r);
    PublishedRow(t, r, queue, EntryFields(device, devices[Find(devices, device)].fields, l));
  }

  /** Performing a mutation's stores one by one has exactly the intended effect. */
  lemma ProgramEffect(t: Rows, m: Mutation, l: Layout)
    requires Shaped(t, l) && Enabled(t, m, l)
    ensures PerformAll(t, Program(t, m, l)) == Effect(t, m, l)
  {
    match m
    case Register(device, fields) => RegisterEffect(t, device, fields, l);
    case Unregister(device) => UnregisterEffect(t, device, l);
    case SetSemaphore(device, value) =>
      var i := Find(DeviceRows(t, l), device);
      WidthAt(t, l, i);
      OneStore(t, SetField(i, l.semaphore, value));
    case RegisterQueue(device, queue) => QueueEffect(t, device, queue, l);
    case Elsewhere =>
  }

  // ------------------------------------------------------------ the two maps

  /** What is registered: each device's fields, and what each queue caches. */
  datatype Registered = Registered(devices: map<nat, seq<nat>>, queues: map<nat, seq<nat>>)

  /** The queue map after a sweep. */
  function SweptMap(m: map<nat, seq<nat>>, sweep: Sweep): map<nat, seq<nat>>
    requires forall q | q in m :: |m[q]| == QUEUE_WIDTH
  {
    if sweep.Refresh? then map q | q in m :: if m[q][0] == sweep.device then sweep.entry else m[q]
    else map q | q in m && m[q][0] != sweep.device :: m[q]
  }

  ghost predicate Widths(r: Registered, l: Layout) {
    && (forall d | d in r.devices :: |r.devices[d]| == l.width)
    && (forall q | q in r.queues :: |r.queues[q]| == QUEUE_WIDTH)
  }

  /** The effect of a mutation on what is registered. */
  ghost function Apply(r: Registered, m: Mutation, l: Layout): Registered
    requires Sound(l) && Widths(r, l)
  {
    match m
    case Register(device, fields) =>
      if |fields| != l.width then r else
      Registered(r.devices[device := fields],
        SweptMap(r.queues, Refresh(device, EntryFields(device, fields, l))))
    case Unregister(device) => Registered(r.devices - {device}, SweptMap(r.queues, Erase(device)))
    case SetSemaphore(device, value) =>
      if device !in r.devices then r else
      var fields: seq<nat> := r.devices[device][l.semaphore := value];
      r.(devices := r.devices[device := fields])
    case RegisterQueue(device, queue) =>
      if device in r.devices then r.(queues := r.queues[queue := EntryFields(device, r.devices[device], l)]) else r
    case Elsewhere => r
  }

  lemma ApplyKeepsWidths(r: Registered, m: Mutation, l: Layout)
    requires Sound(l) && Widths(r, l)
    ensures Widths(Apply(r, m, l), l)
  {
  }

  ghost function ApplyAll(mutations: seq<Mutation>, l: Layout): (r: Registered)
    requires Sound(l)
    ensures Widths(r, l)
  {
    if mutations == [] then Registered(map[], map[])
    else
      var before := ApplyAll(mutations[..|mutations| - 1], l);
      ApplyKeepsWidths(before, mutations[|mutations| - 1], l);
      Apply(before, mutations[|mutations| - 1], l)
  }

  /** Every queue belongs to a registered device and caches exactly what that device's fields say. */
  ghost predicate Coherent(r: Registered, l: Layout)
    requires Sound(l) && Widths(r, l)
  {
    forall q | q in r.queues ::
      r.queues[q][0] in r.devices && r.queues[q] == EntryFields(r.queues[q][0], r.devices[r.queues[q][0]], l)
  }

  lemma {:induction false} AlwaysCoherent(mutations: seq<Mutation>, l: Layout)
    requires Sound(l)
    ensures Coherent(ApplyAll(mutations, l), l)
  {
    if mutations != [] {
      AlwaysCoherent(mutations[..|mutations| - 1], l);
    }
  }

  /** Row i is free, or holds one key with the map's fields and no other row holds it. */
  ghost predicate RowOk(rows: Rows, m: map<nat, seq<nat>>, width: nat, i: nat)
    requires i < |rows|
  {
    && |rows[i].fields| == width
    && (rows[i].key != 0 ==>
        && rows[i].key in m && m[rows[i].key] == rows[i].fields
        && forall j | 0 <= j < |rows| && j != i :: rows[j].key != rows[i].key)
  }

  ghost predicate HasRow(rows: Rows, key: nat) {
    exists i :: 0 <= i < |rows| && rows[i].key == key
  }

  /** Stable rows are the map: distinct keys, one row per key, the key's own fields. */
  ghost predicate Represents(rows: Rows, m: map<nat, seq<nat>>, width: nat) {
    && 0 !in m
    && (forall i | 0 <= i < |rows| :: RowOk(rows, m, width, i))
    && (forall key | key in m :: HasRow(rows, key))
  }

  ghost predicate RepresentsAll(t: Rows, r: Registered, l: Layout) {
    && l.devices <= |t|
    && Represents(DeviceRows(t, l), r.devices, l.width) && Represents(QueueRows(t, l), r.queues, QUEUE_WIDTH)
  }

  lemma FindFinds(rows: Rows, key: nat)
    ensures Find(rows, key) < |rows| <==> HasRow(rows, key)
  {
    if Find(rows, key) < |rows| {
      assert rows[Find(rows, key)].key == key;
    }
  }

  /** Replacing one row swaps the old key of that row for the new one. */
  lemma ReplaceRow(rows: Rows, m: map<nat, seq<nat>>, width: nat, i: nat, row: Row<nat>, m': map<nat, seq<nat>>)
    requires Represents(rows, m, width) && i < |rows| && |row.fields| == width
    requires row.key == 0 || row.key == rows[i].key || !HasRow(rows, row.key)
    requires forall k :: k in m' <==> (k in m && k != rows[i].key) || (k == row.key && k != 0)
    requires forall k | k in m' :: m'[k] == if k == row.key then row.fields else m[k]
    ensures Represents(rows[i := row], m', width)
  {
    var rows' := rows[i := row];
    assert RowOk(rows, m, width, i);
    forall k | 0 <= k < |rows'| ensures RowOk(rows', m', width, k) {
      assert RowOk(rows, m, width, k);
      assert rows[k].key == row.key ==> HasRow(rows, row.key);
    }
    forall key | key in m' ensures HasRow(rows', key) {
      if key == row.key {
        assert rows'[i].key == key;
      } else {
        var k :| 0 <= k < |rows| && rows[k].key == key;
        assert rows'[k].key == key;
      }
    }
  }

  /** A key's own or first free row, published with new fields, updates the map at the key. */
  lemma PublishUpdates(rows: Rows, m: map<nat, seq<nat>>, width: nat, key: nat, fields: seq<nat>)
    requires Represents(rows, m, width) && key != 0 && |fields| == width && TargetRow(rows, key) < |rows|
    ensures Represents(rows[TargetRow(rows, key) := Row(key, fields)], m[key := fields], width)
  {
    var i := TargetRow(rows, key);
    FindFinds(rows, key);
    assert RowOk(rows, m, width, i);
    ReplaceRow(rows, m, width, i, Row(key, fields), m[key := fields]);
  }

  lemma ClearRemoves(rows: Rows, m: map<nat, seq<nat>>, width: nat, key: nat)
    requires Represents(rows, m, width) && key != 0 && Find(rows, key) < |rows|
    ensures Represents(rows[Find(rows, key) := Row(0, Zeros(width))], m - {key}, width)
  {
    ReplaceRow(rows, m, width, Find(rows, key), Row(0, Zeros(width)), m - {key});
  }

  lemma SweepUpdates(rows: Rows, m: map<nat, seq<nat>>, sweep: Sweep)
    requires Represents(rows, m, QUEUE_WIDTH) && SweepOk(sweep)
    requires forall q | q in m :: |m[q]| == QUEUE_WIDTH
    ensures Represents(Swept(rows, sweep, 0), SweptMap(m, sweep), QUEUE_WIDTH)
  {
    var rows', m' := Swept(rows, sweep, 0), SweptMap(m, sweep);
    forall k | 0 <= k < |rows'| ensures RowOk(rows', m', QUEUE_WIDTH, k) {
      assert RowOk(rows, m, QUEUE_WIDTH, k);
    }
    forall key | key in m' ensures HasRow(rows', key) {
      var k :| 0 <= k < |rows| && rows[k].key == key;
      assert RowOk(rows, m, QUEUE_WIDTH, k);
      assert rows'[k].key == key;
    }
  }

  lemma RegisterPublishes(t: Rows, r: Registered, device: nat, fields: seq<nat>, l: Layout)
    requires RepresentsAll(t, r, l) && Widths(r, l) && Enabled(t, Register(device, fields), l)
    ensures RepresentsAll(Effect(t, Register(device, fields), l), Apply(r, Register(device, fields), l), l)
  {
    var i := TargetRow(DeviceRows(t, l), device);
    var sweep := Refresh(device, EntryFields(device, fields, l));
    var t' := Effect(t, Register(device, fields), l);
    PublishUpdates(DeviceRows(t, l), r.devices, l.width, device, fields);
    SweepUpdates(QueueRows(t, l), r.queues, sweep);
    assert DeviceRows(t', l) == DeviceRows(t, l)[i := Row(device, fields)];
    assert QueueRows(t', l) == Swept(QueueRows(t, l), sweep, 0);
  }

  lemma UnregisterPublishes(t: Rows, r: Registered, device: nat, l: Layout)
    requires RepresentsAll(t, r, l) && Widths(r, l) && Enabled(t, Unregister(device), l)
    ensures RepresentsAll(Effect(t, Unregister(device), l), Apply(r, Unregister(device), l), l)
  {
    var i := Find(DeviceRows(t, l), device);
    var t' := Effect(t, Unregister(device), l);
    ClearRemoves(DeviceRows(t, l), r.devices, l.width, device);
    SweepUpdates(QueueRows(t, l), r.queues, Erase(device));
    assert DeviceRows(t', l) == DeviceRows(t, l)[i := Row(0, Zeros(l.width))];
    assert QueueRows(t', l) == Swept(QueueRows(t, l), Erase(device), 0);
  }

  lemma SemaphorePublishes(t: Rows, r: Registered, device: nat, value: nat, l: Layout)
    requires RepresentsAll(t, r, l) && Widths(r, l) && Enabled(t, SetSemaphore(device, value), l)
    ensures RepresentsAll(Effect(t, SetSemaphore(device, value), l), Apply(r, SetSemaphore(device, value), l), l)
  {
    var rows := DeviceRows(t, l);
    var i := Find(rows, device);
    var t' := Effect(t, SetSemaphore(device, value), l);
    assert RowOk(rows, r.devices, l.width, i);
    var fields := rows[i].fields[l.semaphore := value];
    ReplaceRow(rows, r.devices, l.width, i, Row(device, fields), r.devices[device := fields]);
    assert DeviceRows(t', l) == rows[i := Row(device, fields)];
    assert QueueRows(t', l) == QueueRows(t, l);
  }

  lemma QueuePublishes(t: Rows, r: Registered, device: nat, queue: nat, l: Layout)
    requires RepresentsAll(t, r, l) && Widths(r, l) && Enabled(t, RegisterQueue(device, queue), l)
    ensures RepresentsAll(Effect(t, RegisterQueue(device, queue), l), Apply(r, RegisterQueue(device, queue), l), l)
  {
    var devices, queues := DeviceRows(t, l), QueueRows(t, l);
    var t' := Effect(t, RegisterQueue(device, queue), l);
    assert RowOk(devices, r.devices, l.width, Find(devices, device));
    var entry := EntryFields(device, r.devices[device], l);
    PublishUpdates(queues, r.queues, QUEUE_WIDTH, queue, entry);
    assert DeviceRows(t', l) == devices;
    assert QueueRows(t', l) == queues[TargetRow(queues, queue) := Row(queue, entry)];
  }

  lemma RepresentedIsShaped(t: Rows, r: Registered, l: Layout)
    requires RepresentsAll(t, r, l)
    ensures Shaped(t, l)
  {
    forall i | 0 <= i < l.devices ensures |DeviceRows(t, l)[i].fields| == l.width {
      assert RowOk(DeviceRows(t, l), r.devices, l.width, i);
    }
    forall i | 0 <= i < |t| - l.devices ensures |QueueRows(t, l)[i].fields| == QUEUE_WIDTH {
      assert RowOk(QueueRows(t, l), r.queues, QUEUE_WIDTH, i);
    }
  }

  /** Every mutation moves the tables from representing r to representing the new state of registration. */
  lemma ProgramPublishes(t: Rows, r: Registered, m: Mutation, l: Layout)
    requires RepresentsAll(t, r, l) && Widths(r, l) && Enabled(t, m, l)
    ensures RepresentsAll(PerformAll(t, Program(t, m, l)), Apply(r, m, l), l)
  {
    RepresentedIsShaped(t, r, l);
    ProgramEffect(t, m, l);
    match m
    case Register(device, fields) => RegisterPublishes(t, r, device, fields, l);
    case Unregister(device) => UnregisterPublishes(t, r, device, l);
    case SetSemaphore(device, value) => SemaphorePublishes(t, r, device, value, l);
    case RegisterQueue(device, queue) => QueuePublishes(t, r, device, queue, l);
    case Elsewhere =>
  }

  // -------------------------------------------------------------- main results

  /** Every mutation of the run was one of the registry's own programs. */
  ghost predicate RunsPrograms(s: System<nat>, mutations: seq<Mutation>, l: Layout) {
    && |mutations| == |s.mutations| && |s.history| <= |mutations| + 1
    && forall k | 0 <= k < |mutations| && k < |s.history| ::
         Enabled(s.history[k], mutations[k], l) && s.mutations[k] == Program(s.history[k], mutations[k], l)
  }

  /** Every row free and null. */
  ghost predicate Empty(t: Rows, l: Layout) {
    && l.devices <= |t|
    && forall i | 0 <= i < |t| :: t[i] == Row(0, Zeros(if i < l.devices then l.width else QUEUE_WIDTH))
  }

  lemma EmptyRepresentsNothing(t: Rows, l: Layout)
    requires Sound(l) && Empty(t, l)
    ensures RepresentsAll(t, ApplyAll([], l), l)
  {
  }

  lemma {:induction false} HistoryRepresentsRegistry(
      s: System<nat>, mutations: seq<Mutation>, l: Layout, k: nat)
    requires Sound(l) && RegistrySnapshot.Inv(s) && k < |s.history| && RunsPrograms(s, mutations, l)
    requires Empty(s.history[0], l)
    ensures RepresentsAll(s.history[k], ApplyAll(mutations[..k], l), l)
  {
    hide RepresentsAll, Program, Enabled;
    if k == 0 {
      assert mutations[..0] == [];
      EmptyRepresentsNothing(s.history[0], l);
    } else {
      HistoryRepresentsRegistry(s, mutations, l, k - 1);
      assert mutations[..k][..k - 1] == mutations[..k - 1] && mutations[..k][k - 1] == mutations[k - 1];
      assert s.history[k - 1 + 1] == PerformAll(s.history[k - 1], s.mutations[k - 1]);
      ProgramPublishes(s.history[k - 1], ApplyAll(mutations[..k - 1], l), mutations[k - 1], l);
    }
  }

  function DeviceQuery(device: nat, l: Layout): Query {
    Query(device, 0, l.devices)
  }

  function QueueQuery(queue: nat, l: Layout, rows: nat): Query {
    Query(queue, l.devices, rows)
  }

  /** What a finite map answers. */
  function Answer(m: map<nat, seq<nat>>, key: nat): Option<seq<nat>> {
    if key in m then Some(m[key]) else None
  }

  lemma RowsLookup(rows: Rows, m: map<nat, seq<nat>>, width: nat, key: nat)
    requires Represents(rows, m, width) && key != 0
    ensures Find(rows, key) < |rows| <==> key in m
    ensures key in m ==> rows[Find(rows, key)].fields == m[key]
  {
    FindFinds(rows, key);
    if Find(rows, key) < |rows| {
      assert RowOk(rows, m, width, Find(rows, key));
    }
  }

  /** Scanning a table's own rows is searching its slice. */
  lemma ScanOfSlice(t: Rows, l: Layout, key: nat)
    requires l.devices <= |t|
    ensures FindRow(t, key, 0, l.devices) == Find(DeviceRows(t, l), key)
    ensures FindRow(t, key, l.devices, |t|) == l.devices + Find(QueueRows(t, l), key)
  {
    hide FindRow;
    FirstRow(t, key, 0, l.devices, Find(DeviceRows(t, l), key));
    var q := Find(QueueRows(t, l), key);
    assert forall j | l.devices <= j < l.devices + q :: t[j] == QueueRows(t, l)[j - l.devices];
    FirstRow(t, key, l.devices, |t|, l.devices + q);
  }

  lemma FirstRow(t: Rows, key: nat, from: nat, to: nat, i: nat)
    requires from <= i <= to <= |t| && (i < to ==> t[i].key == key) && forall j | from <= j < i :: t[j].key != key
    ensures FindRow(t, key, from, to) == i
  {
  }

  lemma RepresentedLookup(t: Rows, r: Registered, l: Layout, key: nat)
    requires RepresentsAll(t, r, l) && key != 0
    ensures Scanned(t, DeviceQuery(key, l)) == Answer(r.devices, key)
    ensures Scanned(t, QueueQuery(key, l, |t|)) == Answer(r.queues, key)
  {
    ScanOfSlice(t, l, key);
    RowsLookup(DeviceRows(t, l), r.devices, l.width, key);
    RowsLookup(QueueRows(t, l), r.queues, QUEUE_WIDTH, key);
  }

  /**
   * Linearisability of lookups in both tables: whatever the interleaving, a
   * lookup accepted at even generation g answers exactly the abstract map after
   * the first (g - 2) / 2 mutations, the not-found answer included, and g was
   * current at some instant between the lookup's call and its return.
   */
  lemma LookupAnswersTheRegistry(start: System<nat>, run: seq<Action<nat>>, t: nat, mutations: seq<Mutation>, l: Layout)
    requires Start(start) && t < |Run(start, run).threads| && Sound(l) && Empty(start.table, l)
    requires RunsPrograms(Run(start, run), mutations, l)
    ensures var s := Run(start, run);
      LookupIsRight(s, s.threads[t], mutations, l, |start.table|)
  {
    RunKeepsInv(start, run);
    AcceptedSnapshotIsAtomic(start, run, t);
    FirstTableStays(start, run);
    RightAnswersAreTheMaps(Run(start, run), Run(start, run).threads[t], mutations, l, |start.table|);
  }

  lemma RightAnswersAreTheMaps(s: System<nat>, thread: Thread<nat>, mutations: seq<Mutation>, l: Layout, rows: nat)
    requires Sound(l) && RegistrySnapshot.Inv(s) && RunsPrograms(s, mutations, l)
    requires Empty(s.history[0], l) && |s.history[0]| == rows
    requires thread.pc.Accepted? ==>
      && RightAnswer(s.history, thread.pc.q, thread.pc.g, thread.pc.answer)
      && CurrentWithin(s.generations, thread.pc.g, thread.called, thread.returned)
    ensures LookupIsRight(s, thread, mutations, l, rows)
  {
    hide ApplyAll, RepresentsAll, Program, Enabled, Scanned, PerformAll, Answer, Empty;
    if thread.pc.Accepted? && thread.pc.q.key != 0 {
      var k := (thread.pc.g - 2) / 2;
      HistoryRepresentsRegistry(s, mutations, l, k);
      TablesKeepTheirSize(s, k);
      RepresentedLookup(s.history[k], ApplyAll(mutations[..k], l), l, thread.pc.q.key);
    }
  }

  ghost predicate LookupIsRight(s: System<nat>, thread: Thread<nat>, mutations: seq<Mutation>, l: Layout, rows: nat)
    requires Sound(l)
  {
    thread.pc.Accepted? && thread.pc.q.key != 0 ==>
      var q, g, answer := thread.pc.q, thread.pc.g, thread.pc.answer;
      && g % 2 == 0 && 2 <= g <= 2 + 2 * |mutations|
      && CurrentWithin(s.generations, g, thread.called, thread.returned)
      && var r := ApplyAll(mutations[..(g - 2) / 2], l);
         && (q == DeviceQuery(q.key, l) ==> answer == Answer(r.devices, q.key))
         && (q == QueueQuery(q.key, l, rows) ==> answer == Answer(r.queues, q.key))
  }

  /**
   * Queue and device tables agree for every concurrent reader: a queue lookup
   * that answers names a device registered at the accepted generation, with
   * exactly the pointers that device had at that generation.
   */
  lemma QueueLookupIsCoherent(start: System<nat>, run: seq<Action<nat>>, t: nat, mutations: seq<Mutation>, l: Layout)
    requires Start(start) && t < |Run(start, run).threads| && Sound(l) && Empty(start.table, l)
    requires RunsPrograms(Run(start, run), mutations, l)
    ensures var pc := Run(start, run).threads[t].pc;
      pc.Accepted? && pc.q.key != 0 && pc.q == QueueQuery(pc.q.key, l, |start.table|) && pc.answer.Some? ==>
        && 2 <= pc.g <= 2 + 2 * |mutations| && |pc.answer.value| == QUEUE_WIDTH
        && var devices, device := ApplyAll(mutations[..(pc.g - 2) / 2], l).devices, pc.answer.value[0];
           device in devices && pc.answer.value == EntryFields(device, devices[device], l)
  {
    hide RegistrySnapshot.Run, RegistrySnapshot.Step, ApplyAll;
    LookupAnswersTheRegistry(start, run, t, mutations, l);
    var s := Run(start, run);
    var pc := s.threads[t].pc;
    if pc.Accepted? && pc.q.key != 0 {
      assert LookupIsRight(s, s.threads[t], mutations, l, |start.table|);
      AlwaysCoherent(mutations[..(pc.g - 2) / 2], l);
    }
  }

  lemma {:induction false} FirstTableStays(start: System<nat>, run: seq<Action<nat>>)
    requires Start(start)
    ensures start.history <= Run(start, run).history
  {
    if run != [] {
      FirstTableStays(start, run[..|run| - 1]);
    }
  }

  lemma {:induction false} TablesKeepTheirSize(s: System<nat>, k: nat)
    requires RegistrySnapshot.Inv(s) && k < |s.history|
    ensures |s.history[k]| == |s.history[0]|
  {
    if k > 0 {
      TablesKeepTheirSize(s, k - 1);
      assert s.history[k - 1 + 1] == PerformAll(s.history[k - 1], s.mutations[k - 1]);
    }
  }

  // --------------------------------------------- the abstract registry, refined

  function DispatchOf(fields: seq<nat>, l: Layout): DeviceRegistry.Dispatch
    requires Sound(l) && |fields| == l.width
  {
    DeviceRegistry.Dispatch(fields[l.present], fields[l.notify], Native(fields[l.flags]))
  }

  ghost function View(r: Registered, l: Layout): DeviceRegistry.Registry
    requires Sound(l) && Widths(r, l)
  {
    DeviceRegistry.Registry(map d | d in r.devices :: DispatchOf(r.devices[d], l),
      map q | q in r.queues :: DeviceRegistry.QueueEntry(r.queues[q][0], r.queues[q][1], r.queues[q][2]))
  }

  function OpOf(m: Mutation, l: Layout): (ops: seq<DeviceRegistry.Op>)
    requires Sound(l)
    ensures |ops| <= 1
  {
    match m
    case Register(device, fields) =>
      if |fields| == l.width then [DeviceRegistry.OpRegisterDevice(device, DispatchOf(fields, l))] else []
    case Unregister(device) => [DeviceRegistry.OpUnregisterDevice(device)]
    case RegisterQueue(device, queue) => [DeviceRegistry.OpRegisterQueue(device, queue)]
    case _ => []
  }

  function OpsOf(mutations: seq<Mutation>, l: Layout): seq<DeviceRegistry.Op>
    requires Sound(l)
  {
    if mutations == [] then []
    else OpsOf(mutations[..|mutations| - 1], l) + OpOf(mutations[|mutations| - 1], l)
  }

  lemma RegisterRefines(r: Registered, device: nat, fields: seq<nat>, l: Layout)
    requires Sound(l) && Widths(r, l) && |fields| == l.width && Widths(Apply(r, Register(device, fields), l), l)
    ensures View(Apply(r, Register(device, fields), l), l)
      == DeviceRegistry.RegisterDevice(View(r, l), device, DispatchOf(fields, l))
  {
  }

  lemma UnregisterRefines(r: Registered, device: nat, l: Layout)
    requires Sound(l) && Widths(r, l) && Widths(Apply(r, Unregister(device), l), l)
    ensures View(Apply(r, Unregister(device), l), l) == DeviceRegistry.UnregisterDevice(View(r, l), device)
  {
  }

  lemma QueueRefines(r: Registered, device: nat, queue: nat, l: Layout)
    requires Sound(l) && Widths(r, l) && Widths(Apply(r, RegisterQueue(device, queue), l), l)
    requires device in r.devices
    ensures View(Apply(r, RegisterQueue(device, queue), l), l)
      == DeviceRegistry.RegisterQueue(View(r, l), device, queue)
  {
  }

  lemma SemaphoreRefines(r: Registered, device: nat, value: nat, l: Layout)
    requires Sound(l) && Widths(r, l) && Widths(Apply(r, SetSemaphore(device, value), l), l)
    ensures View(Apply(r, SetSemaphore(device, value), l), l) == View(r, l)
  {
  }

  lemma MutationRefines(r: Registered, m: Mutation, l: Layout)
    requires Sound(l) && Widths(r, l) && !(m.Register? && m.device == 0) && !(m.RegisterQueue? && m.queue == 0)
    ensures Widths(Apply(r, m, l), l)
    ensures View(Apply(r, m, l), l)
      == if OpOf(m, l) == [] then View(r, l) else DeviceRegistry.Apply(View(r, l), OpOf(m, l)[0])
  {
    ApplyKeepsWidths(r, m, l);
    match m
    case Register(device, fields) => if |fields| == l.width { RegisterRefines(r, device, fields, l); }
    case Unregister(device) => UnregisterRefines(r, device, l);
    case SetSemaphore(device, value) => SemaphoreRefines(r, device, value, l);
    case RegisterQueue(device, queue) => if device in r.devices { QueueRefines(r, device, queue, l); }
    case Elsewhere =>
  }

  lemma RunMore(ops: seq<DeviceRegistry.Op>, op: seq<DeviceRegistry.Op>)
    requires |op| <= 1
    ensures DeviceRegistry.Run(ops + op)
      == if op == [] then DeviceRegistry.Run(ops) else DeviceRegistry.Apply(DeviceRegistry.Run(ops), op[0])
  {
    hide DeviceRegistry.Apply;
    if op == [] {
      assert ops + op == ops;
    } else {
      assert (ops + op)[..|ops|] == ops;
    }
  }

  lemma NothingRegistered(l: Layout)
    requires Sound(l)
    ensures View(ApplyAll([], l), l) == DeviceRegistry.Run(OpsOf([], l))
  {
  }

  /** The store programs refine the abstract registry: same operations, same maps. */
  lemma {:induction false} ProgramsRefineTheRegistry(mutations: seq<Mutation>, l: Layout)
    requires Sound(l)
    requires forall k | 0 <= k < |mutations| ::
      !(mutations[k].Register? && mutations[k].device == 0) && !(mutations[k].RegisterQueue? && mutations[k].queue == 0)
    ensures View(ApplyAll(mutations, l), l) == DeviceRegistry.Run(OpsOf(mutations, l))
  {
    hide View, OpOf, Apply, DeviceRegistry.Apply, DeviceRegistry.Run;
    if mutations == [] {
      NothingRegistered(l);
    } else {
      var n := |mutations| - 1;
      ProgramsRefineTheRegistry(mutations[..n], l);
      MutationRefines(ApplyAll(mutations[..n], l), mutations[n], l);
      RunMore(OpsOf(mutations[..n], l), OpOf(mutations[n], l));
    }
  }
}
