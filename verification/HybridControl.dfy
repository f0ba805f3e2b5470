/**
 * Control packets as published 64-bit words, the resolved control assembled
 * from the frozen owners, and its signature. Words are naturals: an `or` of
 * disjoint bit fields is a sum.
 */
module HybridControl {
  import opened Frontends
  import opened HybridOwners
  import opened Options

  const U32: nat := 0x1_0000_0000

  function Bit(b: bool): nat {
    if b then 1 else 0
  }

  /** The four named bits of a field mask. */
  function NamedBits(f: Fields): (bits: nat)
    ensures bits < 16
  {
    Bit(f.enabled) + 2 * Bit(f.boost) + 4 * Bit(f.interval) + 8 * Bit(f.markers)
  }

  /** The whole 8-bit mask. */
  function MaskBits(f: Fields): (bits: nat)
    ensures bits < 256
  {
    NamedBits(f) + 16 * f.upper
  }

  function FieldsFromBits(bits: nat): Fields {
    Fields(bits % 2 == 1, (bits / 2) % 2 == 1, (bits / 4) % 2 == 1, (bits / 8) % 2 == 1, (bits / 16) % 16)
  }

  /** pack_control: flags in bits 0 to 2, valid fields from bit 8, interval from bit 32. */
  function PackControl(p: Packet): nat {
    Bit(p.enabled) + 2 * Bit(p.boost) + 4 * Bit(p.useMarkers) + 256 * MaskBits(p.valid) + U32 * p.intervalUs
  }

  function UnpackControl(word: nat): Packet {
    Packet(word % 2 == 1, (word / 2) % 2 == 1, word / U32, (word / 4) % 2 == 1,
      FieldsFromBits((word / 256) % 256))
  }

  lemma HighPart(low: nat, high: nat)
    requires low < U32
    ensures (low + U32 * high) / U32 == high
  {
  }

  lemma DropByte(low: nat, rest: nat)
    requires low < 256
    ensures (low + 256 * rest) / 256 == rest && (low + 256 * rest) % 256 == low
  {
  }

  /** The bits below 8, the byte above them and the rest do not disturb each other. */
  lemma MiddlePart(low: nat, bits: nat, high: nat)
    requires low < 8 && bits < 256
    ensures (low + 256 * bits + U32 * high) / 256 % 256 == bits
  {
    var rest := bits + 256 * (0x1_0000 * high);
    DropByte(bits, 0x1_0000 * high);
    DropByte(low, rest);
    assert low + 256 * bits + U32 * high == low + 256 * rest;
  }

  /** The three lowest bits of a word above which everything is a multiple of 8. */
  lemma LowBits(r: nat, q: nat)
    requires r < 8
    ensures (r + 8 * q) % 2 == r % 2
    ensures (r + 8 * q) / 2 == r / 2 + 4 * q && (r / 2 + 4 * q) % 2 == r / 2 % 2
    ensures (r + 8 * q) / 4 == r / 4 + 2 * q && (r / 4 + 2 * q) % 2 == r / 4
  {
  }

  lemma NamedRoundTrip(f: Fields)
    ensures var n := NamedBits(f);
      && (n % 2 == 1) == f.enabled && (n / 2 % 2 == 1) == f.boost
      && (n / 4 % 2 == 1) == f.interval && (n / 8 % 2 == 1) == f.markers
  {
  }

  lemma UpperBits(n: nat, upper: nat)
    requires n < 16 && upper < 16
    ensures (n + 16 * upper) % 2 == n % 2 && (n + 16 * upper) / 2 % 2 == n / 2 % 2
    ensures (n + 16 * upper) / 4 % 2 == n / 4 % 2 && (n + 16 * upper) / 8 % 2 == n / 8 % 2
    ensures (n + 16 * upper) / 16 % 16 == upper
  {
    LowerBits(n, upper);
    DropOctal(n, upper);
  }

  lemma LowerBits(n: nat, upper: nat)
    requires n < 16
    ensures (n + 16 * upper) % 2 == n % 2 && (n + 16 * upper) / 2 % 2 == n / 2 % 2
    ensures (n + 16 * upper) / 4 % 2 == n / 4 % 2
  {
    LowBits(n % 8, n / 8 + 2 * upper);
    assert n + 16 * upper == n % 8 + 8 * (n / 8 + 2 * upper);
    LowBits(n % 8, n / 8);
  }

  lemma DropOctal(n: nat, upper: nat)
    requires n < 16 && upper < 16
    ensures (n + 16 * upper) / 8 == n / 8 + 2 * upper && (n / 8 + 2 * upper) % 2 == n / 8 % 2
    ensures (n + 16 * upper) / 16 == upper
  {
  }

  lemma FieldsRoundTrip(f: Fields)
    ensures FieldsFromBits(MaskBits(f)) == f
  {
    NamedRoundTrip(f);
    UpperBits(NamedBits(f), f.upper);
  }

  /** A published packet is read back unchanged, and fits its 64-bit word. */
  lemma ControlRoundTrip(p: Packet)
    requires p.intervalUs < U32
    ensures UnpackControl(PackControl(p)) == p
    ensures PackControl(p) < U64
  {
    hide MaskBits, FieldsFromBits;
    var low := Bit(p.enabled) + 2 * Bit(p.boost) + 4 * Bit(p.useMarkers);
    HighPart(low + 256 * MaskBits(p.valid), p.intervalUs);
    MiddlePart(low, MaskBits(p.valid), p.intervalUs);
    var q := 32 * MaskBits(p.valid) + 0x2000_0000 * p.intervalUs;
    assert PackControl(p) == low + 8 * q;
    LowBits(low, q);
    FieldsRoundTrip(p.valid);
  }

  datatype Resolved = Resolved(
    value: Packet, pacing: Frontend, enabledSource: Frontend, boostSource: Frontend,
    intervalSource: Frontend, markersSource: Frontend)

  /**
   * A control field is valid exactly if some frontend supplied it, and the
   * enabled field always is; its value is the one its source published, and
   * false or 0 without a source.
   */
  predicate FieldsHaveSources(r: Resolved, words: seq<nat>)
    requires |words| == FRONTENDS
  {
    && r.pacing != Auto && r.enabledSource != Auto && r.value.valid.enabled && r.value.valid.upper == 0
    && (r.value.valid.boost <==> r.boostSource != Auto)
    && (r.value.valid.interval <==> r.intervalSource != Auto)
    && (r.value.valid.markers <==> r.markersSource != Auto)
    && r.value.enabled == PacketOf(words, r.enabledSource).enabled
    && r.value.boost == (r.boostSource != Auto && PacketOf(words, r.boostSource).boost)
    && r.value.useMarkers == (r.markersSource != Auto && PacketOf(words, r.markersSource).useMarkers)
    && r.value.intervalUs == (if r.intervalSource != Auto then PacketOf(words, r.intervalSource).intervalUs else 0)
  }

  function PacketOf(words: seq<nat>, f: Frontend): Packet
    requires |words| == FRONTENDS
  {
    if f == Auto then Packet(false, false, 0, false, Fields(false, false, false, false, 0))
    else UnpackControl(words[IndexOf(f).value])
  }

  /** resolve_control after the freeze: each control field comes from its aspect's owner. */
  function ResolveControl(ownerWord: nat, words: seq<nat>): (r: Option<Resolved>)
    requires |words| == FRONTENDS
    ensures r.Some? ==> FieldsHaveSources(r.value, words)
  {
    var pacing := OwnerFromWord(ownerWord, Pacing);
    if pacing == Auto then None else
    var eo, bo := OwnerFromWord(ownerWord, Enabled), OwnerFromWord(ownerWord, Boost);
    var mo, io := OwnerFromWord(ownerWord, MarkerOptimization), OwnerFromWord(ownerWord, MinimumInterval);
    var hasE := eo != Auto && PacketOf(words, eo).valid.enabled;
    var hasB := bo != Auto && PacketOf(words, bo).valid.boost;
    var hasM := mo != Auto && PacketOf(words, mo).valid.markers;
    var hasI := io != Auto && PacketOf(words, io).valid.interval;
    if !hasE && !PacketOf(words, pacing).valid.enabled then None else
    var enabledSource := if hasE then eo else pacing;
    Some(Resolved(
      Packet(PacketOf(words, enabledSource).enabled,
             hasB && PacketOf(words, bo).boost,
             if hasI then PacketOf(words, io).intervalUs else 0,
             hasM && PacketOf(words, mo).useMarkers,
             Fields(true, hasB, hasI, hasM, 0)),
      pacing, enabledSource, if hasB then bo else Auto, if hasI then io else Auto, if hasM then mo else Auto))
  }

  /** The published words are exactly the packets the owners were chosen from. */
  ghost predicate PublishedFrom(words: seq<nat>, v: View) {
    && Complete(v) && |words| == FRONTENDS
    && forall i | 0 <= i < FRONTENDS ::
         words[i] == PackControl(v.evidence[i].control) && v.evidence[i].control.intervalUs < U32
  }

  lemma ChosenOwnerCarriesItsField(f: Frontend, a: Aspect, policy: Policy, v: View, words: seq<nat>)
    requires PublishedFrom(words, v) && OwnerChosen(f, a, policy, v) && f != Auto
    ensures f in policy.priority && exists startup: bool :: Eligible(f, a, policy, v, startup)
    ensures PacketOf(words, f) == v.evidence[IndexOf(f).value].control && CarriesControl(PacketOf(words, f), a)
  {
    hide FieldsFromBits, PackControl, UnpackControl;
    var first: Option<Frontend> :| IsChoice(first, a, policy, v, true) && (
        if a == Pacing && first.None? then
          exists second: Option<Frontend> :: IsChoice(second, Pacing, policy, v, false) && f == OrAuto(second)
        else f == OrAuto(first));
    if first.Some? {
      assert Eligible(f, a, policy, v, true);
    } else {
      assert Eligible(f, a, policy, v, false);
    }
    ControlRoundTrip(v.evidence[IndexOf(f).value].control);
  }

  /** Whoever can pace can own the Enabled aspect, so a frozen pacing owner implies an Enabled owner. */
  lemma PacerImpliesEnabledOwner(pacer: Frontend, owner: Frontend, policy: Policy, v: View, words: seq<nat>)
    requires PublishedFrom(words, v) && pacer != Auto
    requires OwnerChosen(pacer, Pacing, policy, v) && OwnerChosen(owner, Enabled, policy, v)
    ensures owner != Auto
  {
    ChosenOwnerCarriesItsField(pacer, Pacing, policy, v, words);
    assert Eligible(pacer, Enabled, policy, v, true);
    var p :| 0 <= p < |policy.priority| && policy.priority[p] == pacer;
    var first: Option<Frontend> :| IsChoice(first, Enabled, policy, v, true) && owner == OrAuto(first);
    assert first.Some?;
  }

  /**
   * With the controls the owners were frozen from, a frozen pacing owner always
   * resolves to a control, and every field comes from exactly the owner chosen
   * for its aspect: no owner is dropped and no field is borrowed.
   */
  lemma FrozenControlResolves(word: nat, words: seq<nat>, policy: Policy, v: View)
    requires PublishedFrom(words, v) && DecodesToChoice(word, policy, v) && OwnerFromWord(word, Pacing) != Auto
    ensures ResolveControl(word, words).Some?
    ensures var r := ResolveControl(word, words).value;
      && r.enabledSource == OwnerFromWord(word, Enabled) != Auto && r.boostSource == OwnerFromWord(word, Boost)
      && r.intervalSource == OwnerFromWord(word, MinimumInterval)
      && r.markersSource == OwnerFromWord(word, MarkerOptimization)
      && r.value.enabled == v.evidence[IndexOf(r.enabledSource).value].control.enabled
      && (r.intervalSource != Auto ==>
          r.value.intervalUs == v.evidence[IndexOf(r.intervalSource).value].control.intervalUs)
  {
    var pacing, eo := OwnerFromWord(word, Pacing), OwnerFromWord(word, Enabled);
    var bo, io := OwnerFromWord(word, Boost), OwnerFromWord(word, MinimumInterval);
    var mo := OwnerFromWord(word, MarkerOptimization);
    assert OwnerChosen(pacing, Pacing, policy, v) && OwnerChosen(eo, Enabled, policy, v);
    assert OwnerChosen(bo, Boost, policy, v) && OwnerChosen(io, MinimumInterval, policy, v);
    assert OwnerChosen(mo, MarkerOptimization, policy, v);
    PacerImpliesEnabledOwner(pacing, eo, policy, v, words);
    ChosenOwnerCarriesItsField(eo, Enabled, policy, v, words);
    if bo != Auto { ChosenOwnerCarriesItsField(bo, Boost, policy, v, words); }
    if io != Auto { ChosenOwnerCarriesItsField(io, MinimumInterval, policy, v, words); }
    if mo != Auto { ChosenOwnerCarriesItsField(mo, MarkerOptimization, policy, v, words); }
  }

  /** The words hold these packets, as the frontends published them last. */
  ghost predicate HoldsPackets(words: seq<nat>, packets: seq<Packet>) {
    && |words| == |packets| == FRONTENDS
    && forall i | 0 <= i < FRONTENDS :: packets[i].intervalUs < U32 && words[i] == PackControl(packets[i])
  }

  /** What a frontend published last; nothing for Auto. */
  ghost function PublishedBy(packets: seq<Packet>, f: Frontend): Option<Packet>
    requires |packets| == FRONTENDS
  {
    if f == Auto then None else Some(packets[IndexOf(f).value])
  }

  lemma ReadAsPublished(words: seq<nat>, packets: seq<Packet>, f: Frontend)
    requires HoldsPackets(words, packets) && f != Auto
    ensures PublishedBy(packets, f) == Some(PacketOf(words, f))
  {
    hide PackControl, UnpackControl;
    ControlRoundTrip(packets[IndexOf(f).value]);
  }

  /**
   * Whatever the frontends have published since the freeze: a control resolves
   * exactly if there is a frozen pacing owner and it or the frozen Enabled owner
   * now publishes an enabled field; and every other field is there, with its
   * owner's current value, exactly if its frozen owner now publishes it.
   */
  lemma ResolvesToThePublished(word: nat, words: seq<nat>, packets: seq<Packet>)
    requires HoldsPackets(words, packets)
    ensures var r := ResolveControl(word, words);
      var pacing := PublishedBy(packets, OwnerFromWord(word, Pacing));
      var enabled := PublishedBy(packets, OwnerFromWord(word, Enabled));
      var boost := PublishedBy(packets, OwnerFromWord(word, Boost));
      var markers := PublishedBy(packets, OwnerFromWord(word, MarkerOptimization));
      var interval := PublishedBy(packets, OwnerFromWord(word, MinimumInterval));
      && (r.Some? <==>
        pacing.Some? && (pacing.value.valid.enabled || (enabled.Some? && enabled.value.valid.enabled)))
      && (r.Some? ==>
        var c := r.value;
        && c.pacing == OwnerFromWord(word, Pacing)
        && (if enabled.Some? && enabled.value.valid.enabled
            then c.enabledSource == OwnerFromWord(word, Enabled) && c.value.enabled == enabled.value.enabled
            else c.enabledSource == c.pacing && c.value.enabled == pacing.value.enabled)
        && (if boost.Some? && boost.value.valid.boost
            then c.boostSource == OwnerFromWord(word, Boost) && c.value.boost == boost.value.boost
            else c.boostSource == Auto)
        && (if markers.Some? && markers.value.valid.markers
            then c.markersSource == OwnerFromWord(word, MarkerOptimization)
                 && c.value.useMarkers == markers.value.useMarkers
            else c.markersSource == Auto)
        && (if interval.Some? && interval.value.valid.interval
            then c.intervalSource == OwnerFromWord(word, MinimumInterval)
                 && c.value.intervalUs == interval.value.intervalUs
            else c.intervalSource == Auto))
  {
    hide HoldsPackets, OwnerFromWord, PackControl, UnpackControl, PacketOf, PublishedBy;
    assert |words| == |packets| == FRONTENDS by { PacketsAreFour(words, packets); }
    forall f: Frontend | f != Auto ensures PublishedBy(packets, f) == Some(PacketOf(words, f)) {
      ReadAsPublished(words, packets, f);
    }
    assert PublishedBy(packets, Auto) == None by { NobodyPublishesAuto(packets); }
  }

  lemma PacketsAreFour(words: seq<nat>, packets: seq<Packet>)
    requires HoldsPackets(words, packets)
    ensures |words| == |packets| == FRONTENDS
  {
  }

  lemma NobodyPublishesAuto(packets: seq<Packet>)
    requires |packets| == FRONTENDS
    ensures PublishedBy(packets, Auto) == None
  {
  }

  /** control_signature */
  function Signature(r: Resolved): nat {
    Bit(r.value.enabled) + 2 * Bit(r.value.boost) + 4 * Bit(r.value.useMarkers) + 8 * NamedBits(r.value.valid)
    + 0x80 * Code(r.pacing) + 0x400 * Code(r.enabledSource) + 0x2000 * Code(r.boostSource)
    + 0x1_0000 * Code(r.intervalSource) + 0x8_0000 * Code(r.markersSource) + U32 * r.value.intervalUs
  }

  lemma AtLeastOnce(n: nat, d: nat)
    requires d >= 1
    ensures n * d >= n
  {
    assert n * d == n + n * (d - 1);
    assert n * (d - 1) >= 0;
  }

  /** The low part and the rest of a mixed-radix number are unique. */
  lemma SplitUnique(n: nat, lowA: nat, restA: nat, lowB: nat, restB: nat)
    requires lowA < n && lowB < n && lowA + n * restA == lowB + n * restB
    ensures lowA == lowB && restA == restB
  {
    assert n * (restB - restA) == n * restB - n * restA == lowA - lowB;
    assert n * (restA - restB) == n * restA - n * restB == lowB - lowA;
    if restA < restB {
      AtLeastOnce(n, restB - restA);
    } else if restB < restA {
      AtLeastOnce(n, restA - restB);
    }
  }

  lemma CodeIsInjective(f: Frontend, g: Frontend)
    requires Code(f) == Code(g)
    ensures f == g
  {
    assert FromCode(Code(f)) == f && FromCode(Code(g)) == g;
  }

  /** The control without the mask bits the signature does not look at. */
  function Named(r: Resolved): Resolved {
    r.(value := r.value.(valid := r.value.valid.(upper := 0)))
  }

  /**
   * The signature is collision-free up to the upper mask bits: two signatures
   * are equal if and only if the controls are, those bits aside. A resolved
   * control never has any, so there equal signatures mean equal controls.
   */
  lemma SignatureIsCollisionFree(a: Resolved, b: Resolved)
    ensures Signature(a) == Signature(b) <==> Named(a) == Named(b)
    ensures a.value.valid.upper == b.value.valid.upper == 0 && Signature(a) == Signature(b) ==> a == b
  {
    hide Signature;
    if Signature(a) == Signature(b) {
      SignatureTellsApart(a, b);
    }
    SignatureOfNamed(a);
    SignatureOfNamed(b);
  }

  lemma SignatureOfNamed(r: Resolved)
    ensures Signature(Named(r)) == Signature(r)
  {
    hide Code;
    assert NamedBits(Named(r).value.valid) == NamedBits(r.value.valid);
  }

  lemma SignatureTellsApart(a: Resolved, b: Resolved)
    requires Signature(a) == Signature(b)
    ensures Named(a) == Named(b)
  {
    SplitUnique(2, Bit(a.value.enabled), SigAfterEnabled(a), Bit(b.value.enabled), SigAfterEnabled(b));
    SplitUnique(2, Bit(a.value.boost), SigAfterBoost(a), Bit(b.value.boost), SigAfterBoost(b));
    SplitUnique(2, Bit(a.value.useMarkers), SigAfterMarkers(a), Bit(b.value.useMarkers), SigAfterMarkers(b));
    SplitUnique(16, NamedBits(a.value.valid), SigAfterFields(a), NamedBits(b.value.valid), SigAfterFields(b));
    SourcesAreUnique(a, b);
    NamedRoundTrip(a.value.valid);
    NamedRoundTrip(b.value.valid);
  }

  function SigAfterEnabled(r: Resolved): nat { Bit(r.value.boost) + 2 * SigAfterBoost(r) }
  function SigAfterBoost(r: Resolved): nat { Bit(r.value.useMarkers) + 2 * SigAfterMarkers(r) }
  function SigAfterMarkers(r: Resolved): nat { NamedBits(r.value.valid) + 16 * SigAfterFields(r) }
  function SigAfterFields(r: Resolved): nat { Code(r.pacing) + 8 * SigAfterPacing(r) }
  function SigAfterPacing(r: Resolved): nat { Code(r.enabledSource) + 8 * SigAfterEnabledSource(r) }
  function SigAfterEnabledSource(r: Resolved): nat { Code(r.boostSource) + 8 * SigAfterBoostSource(r) }
  function SigAfterBoostSource(r: Resolved): nat { Code(r.intervalSource) + 8 * SigAfterInterval(r) }
  function SigAfterInterval(r: Resolved): nat { Code(r.markersSource) + 0x2000 * r.value.intervalUs }

  /** Reads the five sources off the rest of the signature, lowest first. */
  lemma SourcesAreUnique(a: Resolved, b: Resolved)
    requires SigAfterFields(a) == SigAfterFields(b)
    ensures a.pacing == b.pacing && a.enabledSource == b.enabledSource && a.boostSource == b.boostSource
    ensures a.intervalSource == b.intervalSource && a.markersSource == b.markersSource
    ensures a.value.intervalUs == b.value.intervalUs
  {
    SplitUnique(8, Code(a.pacing), SigAfterPacing(a), Code(b.pacing), SigAfterPacing(b));
    SplitUnique(8, Code(a.enabledSource), SigAfterEnabledSource(a), Code(b.enabledSource), SigAfterEnabledSource(b));
    SplitUnique(8, Code(a.boostSource), SigAfterBoostSource(a), Code(b.boostSource), SigAfterBoostSource(b));
    SplitUnique(8, Code(a.intervalSource), SigAfterInterval(a), Code(b.intervalSource), SigAfterInterval(b));
    SplitUnique(0x2000, Code(a.markersSource), a.value.intervalUs, Code(b.markersSource), b.value.intervalUs);
    CodeIsInjective(a.pacing, b.pacing);
    CodeIsInjective(a.enabledSource, b.enabledSource);
    CodeIsInjective(a.boostSource, b.boostSource);
    CodeIsInjective(a.intervalSource, b.intervalSource);
    CodeIsInjective(a.markersSource, b.markersSource);
  }
}
