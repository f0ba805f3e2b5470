/**
 * The registry's device and queue tables as the mutex-holding writers see them.
 *
 * A queue row caches the dispatch pointers of its device, so that a present
 * never follows queue to device to device state. The tables are the real fixed
 * arrays; the maps they stand for are kept beside them. Handle and pointer 0
 * are null.
 */
module DeviceRegistry {

  /** The part of a device's state that queues cache. */
  datatype Dispatch = Dispatch(present: nat, notify: nat, native: bool) {
    /** Only a native VK_NV_low_latency2 device hands its notify entry point to queues. */
    function QueueNotify(): nat {
      if native then notify else 0
    }
  }

  datatype QueueEntry = QueueEntry(device: nat, present: nat, notify: nat)

  function EntryFor(device: nat, d: Dispatch): QueueEntry {
    QueueEntry(device, d.present, d.QueueNotify())
  }

  // ------------------------------------------------------------ abstract maps

  datatype Registry = Registry(devices: map<nat, Dispatch>, queues: map<nat, QueueEntry>)

  function RegisterDevice(r: Registry, device: nat, d: Dispatch): Registry {
    Registry(r.devices[device := d],
      map q | q in r.queues :: if r.queues[q].device == device then EntryFor(device, d) else r.queues[q])
  }

  function UnregisterDevice(r: Registry, device: nat): Registry {
    Registry(r.devices - {device}, map q | q in r.queues && r.queues[q].device != device :: r.queues[q])
  }

  function RegisterQueue(r: Registry, device: nat, queue: nat): Registry
    requires device in r.devices
  {
    r.(queues := r.queues[queue := EntryFor(device, r.devices[device])])
  }

  /** What a queue's cached entry must be: what following its device would give. */
  ghost predicate Coherent(r: Registry) {
    forall q | q in r.queues ::
      var e := r.queues[q];
      && e.device in r.devices && e.present == r.devices[e.device].present
      && e.notify == if r.devices[e.device].native then r.devices[e.device].notify else 0
  }

  datatype Op =
    | OpRegisterDevice(device: nat, d: Dispatch)
    | OpUnregisterDevice(device: nat)
    | OpRegisterQueue(device: nat, queue: nat)

  function Apply(r: Registry, op: Op): Registry {
    match op
    case OpRegisterDevice(device, d) => if device == 0 then r else RegisterDevice(r, device, d)
    case OpUnregisterDevice(device) => UnregisterDevice(r, device)
    case OpRegisterQueue(device, queue) =>
      if queue != 0 && device in r.devices then RegisterQueue(r, device, queue) else r
  }

  function Run(ops: seq<Op>): Registry {
    if ops == [] then Registry(map[], map[]) else Apply(Run(ops[..|ops| - 1]), ops[|ops| - 1])
  }

  /**
   * After any history of registrations, re-registrations and removals, every
   * queue belongs to a registered device and caches exactly that device's
   * current dispatch.
   */
  lemma {:induction false} CoherentInEveryRun(ops: seq<Op>)
    ensures Coherent(Run(ops))
  {
    if ops != [] {
      CoherentInEveryRun(ops[..|ops| - 1]);
    }
  }

  // ------------------------------------------------------------- real tables

  datatype DeviceSlot = DeviceSlot(device: nat, dispatch: Dispatch)
  datatype QueueSlot = QueueSlot(queue: nat, entry: QueueEntry)

  const FREE_DEVICE := DeviceSlot(0, Dispatch(0, 0, false))
  const FREE_QUEUE := QueueSlot(0, QueueEntry(0, 0, 0))

  ghost predicate DeviceRowOk(slots: seq<DeviceSlot>, m: map<nat, Dispatch>, i: nat)
    requires i < |slots|
  {
    slots[i].device != 0 ==>
      && slots[i].device in m && m[slots[i].device] == slots[i].dispatch
      && forall j | 0 <= j < |slots| && j != i :: slots[j].device != slots[i].device
  }

  ghost predicate HasDevice(slots: seq<DeviceSlot>, device: nat) {
    exists i :: 0 <= i < |slots| && slots[i].device == device
  }

  ghost predicate DevicesAre(slots: seq<DeviceSlot>, m: map<nat, Dispatch>) {
    && 0 !in m
    && (forall i | 0 <= i < |slots| :: DeviceRowOk(slots, m, i))
    && (forall d | d in m :: HasDevice(slots, d))
  }

  ghost predicate QueueRowOk(slots: seq<QueueSlot>, m: map<nat, QueueEntry>, i: nat)
    requires i < |slots|
  {
    && (slots[i].queue == 0 ==> slots[i].entry.device == 0)
    && (slots[i].queue != 0 ==>
        && slots[i].queue in m && m[slots[i].queue] == slots[i].entry
        && forall j | 0 <= j < |slots| && j != i :: slots[j].queue != slots[i].queue)
  }

  ghost predicate HasQueue(slots: seq<QueueSlot>, queue: nat) {
    exists i :: 0 <= i < |slots| && slots[i].queue == queue
  }

  ghost predicate QueuesAre(slots: seq<QueueSlot>, m: map<nat, QueueEntry>) {
    && 0 !in m
    && (forall i | 0 <= i < |slots| :: QueueRowOk(slots, m, i))
    && (forall q | q in m :: HasQueue(slots, q))
  }

  /** Every row of the device rewritten in place. */
  function Refreshed(slots: seq<QueueSlot>, device: nat, entry: QueueEntry): (s: seq<QueueSlot>)
    ensures |s| == |slots|
  {
    seq(|slots|, i requires 0 <= i < |slots| =>
      if slots[i].entry.device == device then slots[i].(entry := entry) else slots[i])
  }

  /** Every row of the device freed. */
  function Erased(slots: seq<QueueSlot>, device: nat): (s: seq<QueueSlot>)
    ensures |s| == |slots|
  {
    seq(|slots|, i requires 0 <= i < |slots| => if slots[i].entry.device == device then FREE_QUEUE else slots[i])
  }

  class VulkanDeviceRegistry {
    const devices: array<DeviceSlot>
    const queues: array<QueueSlot>
    ghost var model: Registry

    ghost predicate Valid()
      reads this, devices, queues
    {
      && devices.Length == 16 && queues.Length == 64
      && DevicesAre(devices[..], model.devices) && QueuesAre(queues[..], model.queues) && Coherent(model)
    }

    constructor ()
      ensures Valid() && model == Registry(map[], map[])
      ensures fresh(devices) && fresh(queues)
    {
      devices := new DeviceSlot[16](_ => FREE_DEVICE);
      queues := new QueueSlot[64](_ => FREE_QUEUE);
      model := Registry(map[], map[]);
    }

    /** First row holding the handle, or the table's length. */
    method FindDeviceSlot(device: nat) returns (i: nat)
      ensures i <= devices.Length && (i < devices.Length ==> devices[i].device == device)
      ensures forall j | 0 <= j < i :: devices[j].device != device
    {
      i := 0;
      while i < devices.Length && devices[i].device != device
        invariant i <= devices.Length && forall j | 0 <= j < i :: devices[j].device != device
      {
        i := i + 1;
      }
    }

    method FindQueueSlot(queue: nat) returns (i: nat)
      ensures i <= queues.Length && (i < queues.Length ==> queues[i].queue == queue)
      ensures forall j | 0 <= j < i :: queues[j].queue != queue
    {
      i := 0;
      while i < queues.Length && queues[i].queue != queue
        invariant i <= queues.Length && forall j | 0 <= j < i :: queues[j].queue != queue
      {
        i := i + 1;
      }
    }

    method RefreshQueuesForDevice(device: nat, entry: QueueEntry)
      modifies queues
      ensures queues[..] == Refreshed(old(queues[..]), device, entry)
    {
      for i := 0 to queues.Length
        invariant forall j | 0 <= j < i :: queues[j] == Refreshed(old(queues[..]), device, entry)[j]
        invariant forall j | i <= j < queues.Length :: queues[j] == old(queues[j])
      {
        if queues[i].entry.device == device {
          queues[i] := queues[i].(entry := entry);
        }
      }
    }

    method EraseQueuesForDevice(device: nat)
      modifies queues
      ensures queues[..] == Erased(old(queues[..]), device)
    {
      for i := 0 to queues.Length
        invariant forall j | 0 <= j < i :: queues[j] == Erased(old(queues[..]), device)[j]
        invariant forall j | i <= j < queues.Length :: queues[j] == old(queues[j])
      {
        if queues[i].entry.device == device {
          queues[i] := FREE_QUEUE;
        }
      }
    }

    /** Fails only for the null handle, or when the device is new and no row is free. */
    method Register(device: nat, d: Dispatch) returns (ok: bool)
      requires Valid()
      modifies this`model, devices, queues
      ensures Valid()
      ensures ok == (device != 0 && (device in old(model.devices) || HasDevice(old(devices[..]), 0)))
      ensures model == if ok then RegisterDevice(old(model), device, d) else old(model)
    {
      hide QueueRowOk, HasQueue, Refreshed;
      if device == 0 {
        return false;
      }
      var i := FindDeviceSlot(device);
      if i == devices.Length {
        i := FindDeviceSlot(0);
        assert device !in model.devices;
      }
      if i == devices.Length {
        return false;
      }
      assert DeviceRowOk(devices[..], model.devices, i);
      assert HasDevice(devices[..], devices[..][i].device);
      DeviceReplaced(devices[..], model.devices, i, DeviceSlot(device, d));
      devices[i] := DeviceSlot(device, d);
      assert devices[..] == old(devices[..])[i := DeviceSlot(device, d)];
      QueuesRefreshed(queues[..], model.queues, device, EntryFor(device, d));
      RefreshQueuesForDevice(device, EntryFor(device, d));
      model := RegisterDevice(model, device, d);
      return true;
    }

    method Unregister(device: nat)
      requires Valid()
      modifies this`model, devices, queues
      ensures Valid()
      ensures model == UnregisterDevice(old(model), device)
    {
      if device == 0 {
        assert UnregisterDevice(model, device) == model;
        return;
      }
      var i := FindDeviceSlot(device);
      if i == devices.Length {
        assert device !in model.devices;
        assert UnregisterDevice(model, device) == model;
        return;
      }
      DeviceFreed(devices[..], model.devices, i);
      devices[i] := FREE_DEVICE;
      assert devices[..] == old(devices[..])[i := FREE_DEVICE];
      QueuesErased(queues[..], model.queues, device);
      EraseQueuesForDevice(device);
      model := UnregisterDevice(model, device);
    }

    /** Fails for a null handle, an unregistered device, or a new queue with no row free. */
    method AddQueue(device: nat, queue: nat) returns (ok: bool)
      requires Valid()
      modifies this`model, queues
      ensures Valid()
      ensures ok == (queue != 0 && device in old(model.devices)
                     && (queue in old(model.queues) || HasQueue(old(queues[..]), 0)))
      ensures model == if ok then RegisterQueue(old(model), device, queue) else old(model)
    {
      if device == 0 || queue == 0 {
        return false;
      }
      var d := FindDeviceSlot(device);
      if d == devices.Length {
        assert device !in model.devices;
        return false;
      }
      assert DeviceRowOk(devices[..], model.devices, d);
      var i := FindQueueSlot(queue);
      if i == queues.Length {
        i := FindQueueSlot(0);
        assert queue !in model.queues;
      }
      if i == queues.Length {
        return false;
      }
      var entry := EntryFor(device, devices[d].dispatch);
      assert QueueRowOk(queues[..], model.queues, i);
      assert HasQueue(queues[..], queues[..][i].queue);
      QueueReplaced(queues[..], model.queues, i, QueueSlot(queue, entry));
      queues[i] := QueueSlot(queue, entry);
      assert queues[..] == old(queues[..])[i := QueueSlot(queue, entry)];
      model := RegisterQueue(model, device, queue);
      return true;
    }

    /** The present hook's lookup: the queue row alone gives the device and its present pointer. */
    method QueuePresentDispatch(queue: nat) returns (found: bool, device: nat, present: nat)
      requires Valid()
      ensures found == (queue in model.queues)
      ensures found ==>
        device in model.devices && model.queues[queue].device == device && present == model.devices[device].present
    {
      var i := FindQueueSlot(queue);
      if queue == 0 || i == queues.Length {
        return false, 0, 0;
      }
      assert QueueRowOk(queues[..], model.queues, i);
      return true, queues[i].entry.device, queues[i].entry.present;
    }
  }

  // --------------------------------------------------------------- row proofs

  lemma DeviceReplaced(slots: seq<DeviceSlot>, m: map<nat, Dispatch>, i: nat, slot: DeviceSlot)
    requires DevicesAre(slots, m) && i < |slots| && slot.device != 0
    requires slots[i].device == slot.device || (slots[i].device == 0 && !HasDevice(slots, slot.device))
    ensures DevicesAre(slots[i := slot], m[slot.device := slot.dispatch])
  {
    var slots', m' := slots[i := slot], m[slot.device := slot.dispatch];
    assert DeviceRowOk(slots, m, i);
    forall k | 0 <= k < |slots| ensures DeviceRowOk(slots', m', k) {
      assert DeviceRowOk(slots, m, k);
    }
    forall d | d in m' ensures HasDevice(slots', d) {
      if d == slot.device {
        assert slots'[i].device == d;
      } else {
        var k :| 0 <= k < |slots| && slots[k].device == d;
        assert slots'[k].device == d;
      }
    }
  }

  lemma DeviceFreed(slots: seq<DeviceSlot>, m: map<nat, Dispatch>, i: nat)
    requires DevicesAre(slots, m) && i < |slots| && slots[i].device != 0
    ensures DevicesAre(slots[i := FREE_DEVICE], m - {slots[i].device})
  {
    var slots', m' := slots[i := FREE_DEVICE], m - {slots[i].device};
    forall k | 0 <= k < |slots| ensures DeviceRowOk(slots', m', k) {
      assert DeviceRowOk(slots, m, k) && DeviceRowOk(slots, m, i);
    }
    forall d | d in m' ensures HasDevice(slots', d) {
      var k :| 0 <= k < |slots| && slots[k].device == d;
      assert slots'[k].device == d;
    }
  }

  lemma QueueReplaced(slots: seq<QueueSlot>, m: map<nat, QueueEntry>, i: nat, slot: QueueSlot)
    requires QueuesAre(slots, m) && i < |slots| && slot.queue != 0
    requires slots[i].queue == slot.queue || (slots[i].queue == 0 && !HasQueue(slots, slot.queue))
    ensures QueuesAre(slots[i := slot], m[slot.queue := slot.entry])
  {
    var slots', m' := slots[i := slot], m[slot.queue := slot.entry];
    assert QueueRowOk(slots, m, i);
    forall k | 0 <= k < |slots| ensures QueueRowOk(slots', m', k) {
      assert QueueRowOk(slots, m, k);
    }
    forall q | q in m' ensures HasQueue(slots', q) {
      if q == slot.queue {
        assert slots'[i].queue == q;
      } else {
        var k :| 0 <= k < |slots| && slots[k].queue == q;
        assert slots'[k].queue == q;
      }
    }
  }

  lemma QueuesRefreshed(slots: seq<QueueSlot>, m: map<nat, QueueEntry>, device: nat, entry: QueueEntry)
    requires QueuesAre(slots, m) && device != 0 && entry.device == device
    ensures QueuesAre(Refreshed(slots, device, entry),
                      map q | q in m :: if m[q].device == device then entry else m[q])
  {
    var slots' := Refreshed(slots, device, entry);
    var m' := map q | q in m :: if m[q].device == device then entry else m[q];
    forall k | 0 <= k < |slots| ensures QueueRowOk(slots', m', k) {
      assert QueueRowOk(slots, m, k);
    }
    forall q | q in m' ensures HasQueue(slots', q) {
      var k :| 0 <= k < |slots| && slots[k].queue == q;
      assert slots'[k].queue == q;
    }
  }

  lemma QueuesErased(slots: seq<QueueSlot>, m: map<nat, QueueEntry>, device: nat)
    requires QueuesAre(slots, m) && device != 0
    ensures QueuesAre(Erased(slots, device), map q | q in m && m[q].device != device :: m[q])
  {
    var slots' := Erased(slots, device);
    var m' := map q | q in m && m[q].device != device :: m[q];
    forall k | 0 <= k < |slots| ensures QueueRowOk(slots', m', k) {
      assert QueueRowOk(slots, m, k);
    }
    forall q | q in m' ensures HasQueue(slots', q) {
      var k :| 0 <= k < |slots| && slots[k].queue == q;
      assert QueueRowOk(slots, m, k);
      assert slots'[k].queue == q;
    }
  }
}
