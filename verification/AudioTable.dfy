/**
 * The 32-slot open-addressing tables of the audio timeline (clients and clock
 * bindings) in sequential runs. Slots are claimed by linear probing and never
 * freed, so a search may stop at the first slot never used.
 */
module AudioTable {
  import opened Options

  const CAPACITY: nat := 32

  datatype Entry<V> = Entry(key: nat, value: V)

  // --------------------------------------------------------------------- probing

  function Xor(a: nat, b: nat): nat {
    if a == 0 && b == 0 then 0 else (a + b) % 2 + 2 * Xor(a / 2, b / 2)
  }

  /** slot_start */
  function SlotStart(key: nat): (s: nat)
    ensures s < CAPACITY
  {
    Xor(key / 16, key / 8192) % CAPACITY
  }

  /** The slot a key's p-th probe looks at. */
  function Probe(key: nat, p: nat): (k: nat)
    ensures k < CAPACITY
  {
    (SlotStart(key) + p) % CAPACITY
  }

  /** How many probes it takes a key to reach a slot. */
  function Distance(key: nat, k: nat): (d: nat)
    requires k < CAPACITY
    ensures d < CAPACITY && Probe(key, d) == k
  {
    var start := SlotStart(key);
    if k >= start then k - start else k + CAPACITY - start
  }

  lemma DistanceIsUnique(key: nat, p: nat)
    requires p < CAPACITY
    ensures Distance(key, Probe(key, p)) == p
  {
  }

  // -------------------------------------------------------------------- the table

  /** A key sits where its probing first ran into a free slot: every slot before it is used. */
  ghost predicate Reachable<V>(t: seq<Entry<V>>, k: nat)
    requires |t| == CAPACITY && k < CAPACITY
  {
    t[k].key != 0 ==> forall p: nat | p < Distance(t[k].key, k) :: t[Probe(t[k].key, p)].key != 0
  }

  ghost predicate Unique<V>(t: seq<Entry<V>>) {
    forall j, k | 0 <= j < k < |t| && t[j].key == t[k].key :: t[j].key == 0
  }

  ghost predicate TableOk<V>(t: seq<Entry<V>>) {
    |t| == CAPACITY && Unique(t) && AllReachable(t)
  }

  ghost predicate AllReachable<V>(t: seq<Entry<V>>)
    requires |t| == CAPACITY
  {
    forall k | 0 <= k < CAPACITY :: Reachable(t, k)
  }

  ghost predicate Full<V>(t: seq<Entry<V>>) {
    forall k | 0 <= k < |t| :: t[k].key != 0
  }

  ghost predicate HasKey<V>(t: seq<Entry<V>>, key: nat) {
    key != 0 && exists k :: 0 <= k < |t| && t[k].key == key
  }

  ghost function SlotOf<V>(t: seq<Entry<V>>, key: nat): (k: nat)
    requires HasKey(t, key)
    ensures k < |t| && t[k].key == key
  {
    var k :| 0 <= k < |t| && t[k].key == key;
    k
  }

  ghost function KeySet<V>(t: seq<Entry<V>>): (keys: set<nat>)
    ensures forall key :: key in keys <==> HasKey(t, key)
  {
    set k | 0 <= k < |t| && t[k].key != 0 :: t[k].key
  }

  /** The finite map the table stands for. */
  ghost function Contents<V>(t: seq<Entry<V>>): map<nat, V> {
    map key | key in KeySet(t) :: t[SlotOf(t, key)].value
  }

  lemma ContentsAt<V>(t: seq<Entry<V>>, k: nat)
    requires Unique(t) && k < |t| && t[k].key != 0
    ensures t[k].key in Contents(t) && Contents(t)[t[k].key] == t[k].value
  {
    assert HasKey(t, t[k].key);
    assert SlotOf(t, t[k].key) == k;
  }

  /** Writing an entry over a free slot, or over its own old value, updates the map at that key. */
  lemma ContentsUpdate<V>(t: seq<Entry<V>>, k: nat, e: Entry<V>)
    requires Unique(t) && k < |t| && e.key != 0
    requires t[k].key == e.key || (t[k].key == 0 && !HasKey(t, e.key))
    ensures Unique(t[k := e]) && Contents(t[k := e]) == Contents(t)[e.key := e.value]
  {
    var t' := t[k := e];
    assert Unique(t');
    forall key ensures HasKey(t', key) <==> HasKey(t, key) || key == e.key {
      if HasKey(t, key) && key != e.key {
        assert t'[SlotOf(t, key)].key == key;
      }
      assert t'[k].key == e.key;
      if HasKey(t', key) && key != e.key {
        assert t[SlotOf(t', key)].key == key;
      }
    }
    forall key | key in Contents(t') ensures Contents(t')[key] == Contents(t)[e.key := e.value][key] {
      ContentsAt(t', SlotOf(t', key));
      if key != e.key {
        ContentsAt(t, SlotOf(t', key));
      }
    }
  }

  lemma FreeSlotIsBeyond<V>(t: seq<Entry<V>>, k: nat, p: nat)
    requires TableOk(t) && k < CAPACITY && t[k].key != 0 && p < CAPACITY && t[Probe(t[k].key, p)].key == 0
    ensures Distance(t[k].key, k) < p
  {
    assert Reachable(t, k);
  }

  /** A registered key is met before its probing meets a free slot. */
  lemma RegisteredKeyIsReached<V>(t: seq<Entry<V>>, key: nat, p: nat)
    requires TableOk(t) && p < CAPACITY && key != 0 && t[Probe(key, p)].key == 0
    requires forall q: nat | q < p :: t[Probe(key, q)].key != key
    ensures !HasKey(t, key)
  {
    if HasKey(t, key) {
      var k := SlotOf(t, key);
      FreeSlotIsBeyond(t, k, p);
    }
  }

  lemma NotFoundAnywhere<V>(t: seq<Entry<V>>, key: nat)
    requires |t| == CAPACITY && forall q: nat | q < CAPACITY :: t[Probe(key, q)].key != key
    ensures !HasKey(t, key)
  {
    if HasKey(t, key) {
      var d := Distance(key, SlotOf(t, key));
    }
  }

  /** Claiming the first free slot on the probe path keeps every key reachable. */
  lemma ClaimKeepsReachable<V>(t: seq<Entry<V>>, p: nat, e: Entry<V>)
    requires TableOk(t) && p < CAPACITY && e.key != 0 && t[Probe(e.key, p)].key == 0
    requires forall q: nat | q < p :: t[Probe(e.key, q)].key != 0
    ensures AllReachable(t[Probe(e.key, p) := e])
  {
    var at := Probe(e.key, p);
    var t' := t[at := e];
    DistanceIsUnique(e.key, p);
    forall k | 0 <= k < CAPACITY ensures Reachable(t', k) {
      assert k != at ==> Reachable(t, k);
    }
  }

  /** Rewriting an entry under its own key keeps every key reachable. */
  lemma RewriteKeepsReachable<V>(t: seq<Entry<V>>, k: nat, e: Entry<V>)
    requires TableOk(t) && k < CAPACITY && t[k].key == e.key
    ensures AllReachable(t[k := e])
  {
    var t' := t[k := e];
    forall j | 0 <= j < CAPACITY ensures Reachable(t', j) {
      assert Reachable(t, j);
    }
  }

  lemma NoFreeSlot<V>(t: seq<Entry<V>>, key: nat)
    requires |t| == CAPACITY && forall q: nat | q < CAPACITY :: t[Probe(key, q)].key != 0
    ensures Full(t)
  {
    forall k | 0 <= k < CAPACITY ensures t[k].key != 0 {
      assert Probe(key, Distance(key, k)) == k;
    }
  }

  lemma {:induction false} PrefixKeys<V>(t: seq<Entry<V>>, n: nat)
    requires n <= |t| && Unique(t) && Full(t)
    ensures |KeySet(t[..n])| == n
  {
    if n > 0 {
      PrefixKeys(t, n - 1);
      var key := t[n - 1].key;
      assert t[..n][n - 1] == t[n - 1];
      forall x ensures x in KeySet(t[..n]) <==> x in KeySet(t[..n - 1]) + {key} {
        if HasKey(t[..n], x) && x != key {
          assert t[..n - 1][SlotOf(t[..n], x)].key == x;
        }
        if HasKey(t[..n - 1], x) {
          assert t[..n][SlotOf(t[..n - 1], x)].key == x;
        }
      }
      assert KeySet(t[..n]) == KeySet(t[..n - 1]) + {key};
    }
  }

  /** A table without a free slot holds exactly 32 keys. */
  lemma FullTableHoldsAll<V>(t: seq<Entry<V>>)
    requires TableOk(t) && Full(t)
    ensures |Contents(t)| == CAPACITY
  {
    PrefixKeys(t, CAPACITY);
    assert t[..CAPACITY] == t;
    assert Contents(t).Keys == KeySet(t);
  }

  // --------------------------------------------------------------- the two tables

  datatype Flow = UnknownFlow | Render | Capture

  /** The part of a client's state the table operations touch. */
  datatype Client = Client(epoch: nat, flow: Flow, bufferFrames: nat, paddingFrames: nat, clockFrequency: nat)

  const NO_CLIENT := Client(0, UnknownFlow, 0, 0, 0)

  class AudioFlexTimeline {
    const clients: array<Entry<Client>>
    const clocks: array<Entry<nat>>
    var clientsCount: nat
    var clockBindings: nat
    var dropped: nat

    ghost predicate Valid()
      reads this, clients, clocks
    {
      && TableOk(clients[..]) && TableOk(clocks[..])
      && forall k | 0 <= k < CAPACITY && clients[k].key == 0 :: clients[k].value == NO_CLIENT
    }

    constructor ()
      ensures Valid() && fresh(clients) && fresh(clocks)
      ensures Contents(clients[..]) == map[] && Contents(clocks[..]) == map[]
      ensures clientsCount == 0 && clockBindings == 0 && dropped == 0
    {
      clients := new Entry<Client>[CAPACITY](_ => Entry(0, NO_CLIENT));
      clocks := new Entry<nat>[CAPACITY](_ => Entry(0, 0));
      clientsCount, clockBindings, dropped := 0, 0, 0;
    }

    method Find(client: nat) returns (slot: Option<nat>)
      requires Valid()
      ensures slot.Some? <==> client in Contents(clients[..])
      ensures slot.Some? ==> slot.value < CAPACITY && clients[slot.value].key == client
    {
      if client == 0 {
        return None;
      }
      for p := 0 to CAPACITY
        invariant forall q: nat | q < p :: clients[Probe(client, q)].key != client
      {
        var k := Probe(client, p);
        if clients[k].key == client {
          ContentsAt(clients[..], k);
          return Some(k);
        }
        if clients[k].key == 0 {
          RegisteredKeyIsReached(clients[..], client, p);
          return None;
        }
      }
      NotFoundAnywhere(clients[..], client);
      return None;
    }

    /** The client's slot, claimed if need be; it fails exactly for the null client or a full table. */
    method FindOrClaim(client: nat, flow: Flow) returns (slot: Option<nat>)
      requires Valid()
      modifies this`clientsCount, this`dropped, clients
      ensures Valid()
      ensures slot.Some? ==> slot.value < CAPACITY && clients[slot.value].key == client
      ensures slot.Some? <==> client != 0 && (client in old(Contents(clients[..])) || !Full(old(clients[..])))
      ensures slot.None? ==> clients[..] == old(clients[..]) && clientsCount == old(clientsCount)
      ensures dropped == old(dropped) + if slot.None? && client != 0 then 1 else 0
      ensures slot.Some? ==>
        var was := old(Contents(clients[..]));
        && Contents(clients[..]) == was[client :=
             if client !in was then Client(1, flow, 0, 0, 0)
             else if flow == UnknownFlow then was[client]
             else was[client].(flow := flow)]
        && clientsCount == old(clientsCount) + if client in was then 0 else 1
    {
      if client == 0 {
        return None;
      }
      ghost var t := clients[..];
      slot := Find(client);
      if slot.Some? {
        var k := slot.value;
        ContentsAt(t, k);
        var e := Entry(client, Retagged(clients[k].value, flow));
        ContentsUpdate(t, k, e);
        RewriteKeepsReachable(t, k, e);
        clients[k] := e;
        assert clients[..] == t[k := e];
        return;
      }
      for p := 0 to CAPACITY
        invariant clients[..] == t && clientsCount == old(clientsCount) && dropped == old(dropped)
        invariant forall q: nat | q < p :: t[Probe(client, q)].key != 0
      {
        var k := Probe(client, p);
        if clients[k].key == 0 {
          var e := Entry(client, NO_CLIENT.(epoch := clients[k].value.epoch + 1, flow := flow));
          assert client !in KeySet(t);
          ContentsUpdate(t, k, e);
          ClaimKeepsReachable(t, p, e);
          clients[k] := e;
          assert clients[..] == t[k := e];
          clientsCount := clientsCount + 1;
          return Some(k);
        }
      }
      NoFreeSlot(t, client);
      dropped := dropped + 1;
      return None;
    }

    /** A store through find: it reaches the client's entry, and nothing if there is none. */
    method OnBufferSize(client: nat, frames: nat)
      requires Valid()
      modifies clients
      ensures Valid()
      ensures var was := old(Contents(clients[..]));
        Contents(clients[..]) == if client in was then was[client := was[client].(bufferFrames := frames)] else was
    {
      ghost var t := clients[..];
      var slot := Find(client);
      if slot.Some? {
        var k := slot.value;
        ContentsAt(t, k);
        var e := Entry(client, clients[k].value.(bufferFrames := frames));
        ContentsUpdate(t, k, e);
        RewriteKeepsReachable(t, k, e);
        clients[k] := e;
        assert clients[..] == t[k := e];
      }
    }

    /** Binds a clock to a client, re-binding it if it is known; it is dropped only by a full table. */
    method BindClock(clock: nat, client: nat)
      requires Valid()
      modifies this`clockBindings, this`dropped, clocks
      ensures Valid()
      ensures var was := old(Contents(clocks[..]));
        if clock == 0 || client == 0 then
          clocks[..] == old(clocks[..]) && dropped == old(dropped) && clockBindings == old(clockBindings)
        else if clock in was || !Full(old(clocks[..])) then
          && Contents(clocks[..]) == was[clock := client] && dropped == old(dropped)
          && clockBindings == old(clockBindings) + if clock in was then 0 else 1
        else clocks[..] == old(clocks[..]) && dropped == old(dropped) + 1 && clockBindings == old(clockBindings)
    {
      if clock == 0 || client == 0 {
        return;
      }
      ghost var t := clocks[..];
      for p := 0 to CAPACITY
        invariant clocks[..] == t && dropped == old(dropped) && clockBindings == old(clockBindings)
        invariant forall q: nat | q < p :: t[Probe(clock, q)].key != 0 && t[Probe(clock, q)].key != clock
      {
        var k := Probe(clock, p);
        var e := Entry(clock, client);
        if clocks[k].key == clock {
          ContentsAt(t, k);
          ContentsUpdate(t, k, e);
          RewriteKeepsReachable(t, k, e);
          clocks[k] := e;
          assert clocks[..] == t[k := e];
          return;
        }
        if clocks[k].key == 0 {
          RegisteredKeyIsReached(t, clock, p);
          ContentsUpdate(t, k, e);
          ClaimKeepsReachable(t, p, e);
          clocks[k] := e;
          assert clocks[..] == t[k := e];
          clockBindings := clockBindings + 1;
          return;
        }
      }
      NoFreeSlot(t, clock);
      NotFoundAnywhere(t, clock);
      dropped := dropped + 1;
    }

    /**
     * The bound client, or 0. A thread may come with any slot it cached before:
     * the slot's key decides whether it is used.
     */
    method ClientForClock(clock: nat, cached: Option<nat>) returns (client: nat)
      requires Valid() && (cached.Some? ==> cached.value < CAPACITY)
      ensures client == if clock in Contents(clocks[..]) then Contents(clocks[..])[clock] else 0
    {
      if clock == 0 {
        return 0;
      }
      if cached.Some? && clocks[cached.value].key == clock {
        ContentsAt(clocks[..], cached.value);
        return clocks[cached.value].value;
      }
      for p := 0 to CAPACITY
        invariant forall q: nat | q < p :: clocks[Probe(clock, q)].key != clock
      {
        var k := Probe(clock, p);
        if clocks[k].key == clock {
          ContentsAt(clocks[..], k);
          return clocks[k].value;
        }
        if clocks[k].key == 0 {
          RegisteredKeyIsReached(clocks[..], clock, p);
          return 0;
        }
      }
      NotFoundAnywhere(clocks[..], clock);
      return 0;
    }
  }

  /** An unknown flow leaves the recorded one. */
  function Retagged(c: Client, flow: Flow): Client {
    if flow == UnknownFlow then c else c.(flow := flow)
  }
}
