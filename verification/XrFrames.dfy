/**
 * One OpenXR frame record: sixteen separately stored fields, in the order the
 * wait hook stores them, and the stores a begin, a discard or an end performs.
 */
module XrFrames {
  import opened Options

  datatype Flag = ShouldRender | Begun | Ended | Discarded | PredictedClockValid | SubmittedClockValid

  datatype Value = Number(n: int) | Flags(flags: set<Flag>)

  type Fields = seq<Value>

  /** Frame records per session; a sequence lives in the slot it is congruent to. */
  const SLOTS: nat := 16

  /** Two sequences fewer than 16 apart live in different slots. */
  lemma DifferentSlots(a: nat, b: nat)
    requires a < b < a + SLOTS
    ensures a % SLOTS != b % SLOTS
  {
  }

  const FIELDS: nat := 16
  const EPOCH: nat := 0
  const PREDICTED_TIME: nat := 1
  const PREDICTED_PERIOD: nat := 2
  const SUBMITTED_TIME: nat := 3
  const WAIT_RETURN: nat := 4
  const BEGIN_RETURN: nat := 5
  const END_RETURN: nat := 6
  const PREDICTED_HOST: nat := 7
  const SUBMITTED_HOST: nat := 8
  const WAIT_TO_DISPLAY: nat := 9
  const END_TO_DISPLAY: nat := 10
  const WATERMARK: nat := 11
  const WATERMARK_EPOCH: nat := 12
  const RENDER_EPOCH: nat := 13
  const RENDER_SEQUENCE: nat := 14
  const FLAGS: nat := 15

  const I64_MAX: int := 0x7fff_ffff_ffff_ffff

  /** signed_delta_ns: the difference, saturated to a signed 64-bit value. */
  function SignedDelta(target: nat, reference: nat): (d: int)
    ensures -I64_MAX <= target - reference <= I64_MAX ==> d == target - reference
    ensures target - reference > I64_MAX ==> d == I64_MAX
    ensures target - reference < -I64_MAX ==> d == -I64_MAX - 1
  {
    if target >= reference then
      if target - reference > I64_MAX then I64_MAX else target - reference
    else if reference - target > I64_MAX then -I64_MAX - 1 else target - reference
  }

  /** A slot's sequence below a newer one of another slot is within its own lap. */
  lemma StillInWindow(s: nat, n: nat)
    requires s <= n - 1 < s + SLOTS && s % SLOTS != n % SLOTS
    ensures s <= n < s + SLOTS
  {
    assert (s + SLOTS) % SLOTS == s % SLOTS;
  }

  datatype WaitCall = WaitCall(
    predictedTime: int, period: int, shouldRender: bool, returned: nat,
    watermark: nat, watermarkEpoch: nat, predictedHost: Option<nat>)

  function WaitRecord(epoch: nat, w: WaitCall): (r: Fields)
    ensures |r| == FIELDS
  {
    [Number(epoch), Number(w.predictedTime), Number(w.period), Number(0), Number(w.returned), Number(0), Number(0),
     Number(if w.predictedHost.Some? then w.predictedHost.value else 0), Number(0),
     Number(if w.predictedHost.Some? then SignedDelta(w.predictedHost.value, w.returned) else 0), Number(0),
     Number(w.watermark), Number(w.watermarkEpoch), Number(0), Number(0),
     Flags((if w.shouldRender then {ShouldRender} else {})
           + (if w.predictedHost.Some? then {PredictedClockValid} else {}))]
  }

  function NumberAt(r: Fields, i: nat): int
    requires |r| == FIELDS && i < FIELDS
  {
    if r[i].Number? then r[i].n else 0
  }

  function FlagsOf(r: Fields): set<Flag>
    requires |r| == FIELDS
  {
    if r[FLAGS].Flags? then r[FLAGS].flags else {}
  }

  datatype RenderToken = RenderToken(epoch: nat, sequence: nat)

  datatype Update =
    | Begin(returned: nat)
    | Discard
    | End(submittedTime: int, returned: nat, render: Option<RenderToken>, submittedHost: Option<nat>)

  datatype FieldStore = FieldStore(field: nat, value: Value)

  /** Whether an ended frame is correlated with the latest render token. */
  predicate Correlates(r: Fields, render: Option<RenderToken>)
    requires |r| == FIELDS
  {
    && ShouldRender in FlagsOf(r) && render.Some? && render.value.sequence > NumberAt(r, WATERMARK)
    && (NumberAt(r, WATERMARK) == 0 || NumberAt(r, WATERMARK_EPOCH) == 0
        || render.value.epoch == NumberAt(r, WATERMARK_EPOCH))
  }

  function CorrelatedSequence(r: Fields, render: RenderToken): int
    requires |r| == FIELDS
  {
    if NumberAt(r, WATERMARK) != 0 then NumberAt(r, WATERMARK) + 1 else render.sequence
  }

  /** What an end stores about the submission itself. */
  function Submission(time: int, returned: nat, host: Option<nat>): (s: seq<FieldStore>)
    ensures forall j | 0 <= j < |s| :: s[j].field in [SUBMITTED_TIME, END_RETURN, SUBMITTED_HOST, END_TO_DISPLAY]
  {
    [FieldStore(SUBMITTED_TIME, Number(time)), FieldStore(END_RETURN, Number(returned)),
     FieldStore(SUBMITTED_HOST, Number(if host.Some? then host.value else 0))]
    + if host.Some? then [FieldStore(END_TO_DISPLAY, Number(SignedDelta(host.value, returned)))] else []
  }

  function Correlation(r: Fields, render: Option<RenderToken>): (s: seq<FieldStore>)
    requires |r| == FIELDS
    ensures forall j | 0 <= j < |s| :: s[j].field in [RENDER_EPOCH, RENDER_SEQUENCE]
  {
    if Correlates(r, render) then
      [FieldStore(RENDER_EPOCH, Number(render.value.epoch)),
       FieldStore(RENDER_SEQUENCE, Number(CorrelatedSequence(r, render.value)))]
    else []
  }

  /** The stores of an update, in program order, computed from the record it finds. */
  function Stores(r: Fields, u: Update): (s: seq<FieldStore>)
    requires |r| == FIELDS
    ensures forall j | 0 <= j < |s| :: s[j].field < FIELDS
  {
    match u
    case Begin(returned) =>
      [FieldStore(BEGIN_RETURN, Number(returned)), FieldStore(FLAGS, Flags(FlagsOf(r) + {Begun}))]
    case Discard => [FieldStore(FLAGS, Flags(FlagsOf(r) + {Discarded}))]
    case End(time, returned, render, host) =>
      Submission(time, returned, host) + Correlation(r, render)
      + [FieldStore(FLAGS, Flags(FlagsOf(r) + {Ended} + (if host.Some? then {SubmittedClockValid} else {})))]
  }

  function StoreAll(r: Fields, stores: seq<FieldStore>): (r': Fields)
    requires forall j | 0 <= j < |stores| :: stores[j].field < |r|
    ensures |r'| == |r|
  {
    if stores == [] then r
    else
      var before := StoreAll(r, stores[..|stores| - 1]);
      var last := stores[|stores| - 1];
      before[last.field := last.value]
  }

  function Updated(r: Fields, u: Update): (r': Fields)
    requires |r| == FIELDS
    ensures |r'| == FIELDS
  {
    StoreAll(r, Stores(r, u))
  }

  /** One more store after the first n of them. */
  lemma StoreOneMore(r: Fields, stores: seq<FieldStore>, n: nat)
    requires n < |stores| && forall j | 0 <= j < |stores| :: stores[j].field < |r|
    ensures StoreAll(r, stores[..n + 1]) == StoreAll(r, stores[..n])[stores[n].field := stores[n].value]
  {
    assert stores[..n + 1][..n] == stores[..n];
  }

  lemma {:induction false} FieldUntouched(r: Fields, stores: seq<FieldStore>, i: nat)
    requires i < |r| && forall j | 0 <= j < |stores| :: stores[j].field < |r| && stores[j].field != i
    ensures StoreAll(r, stores)[i] == r[i]
  {
    if stores != [] {
      FieldUntouched(r, stores[..|stores| - 1], i);
    }
  }

  lemma {:induction false} FieldStoredLast(r: Fields, stores: seq<FieldStore>, j: nat)
    requires j < |stores| && forall k | 0 <= k < |stores| :: stores[k].field < |r|
    requires forall k | j < k < |stores| :: stores[k].field != stores[j].field
    ensures StoreAll(r, stores)[stores[j].field] == stores[j].value
  {
    if j < |stores| - 1 {
      FieldStoredLast(r, stores[..|stores| - 1], j);
    }
  }

  lemma AppendStore(r: Fields, stores: seq<FieldStore>, s: FieldStore)
    requires s.field < |r| && forall j | 0 <= j < |stores| :: stores[j].field < |r|
    ensures StoreAll(r, stores + [s]) == StoreAll(r, stores)[s.field := s.value]
  {
    assert (stores + [s])[..|stores|] == stores;
  }

  // ------------------------------------------------- the stores, one by one

  /** What a wait leaves in a slot, whatever was there before. */
  method StoreWait(before: Fields, epoch: nat, w: WaitCall) returns (f: Fields)
    requires |before| == FIELDS
    ensures f == WaitRecord(epoch, w)
  {
    f := before[EPOCH := Number(epoch)];
    f := f[PREDICTED_TIME := Number(w.predictedTime)][PREDICTED_PERIOD := Number(w.period)];
    f := f[SUBMITTED_TIME := Number(0)][WAIT_RETURN := Number(w.returned)];
    f := f[BEGIN_RETURN := Number(0)][END_RETURN := Number(0)];
    var host, delta := 0, 0;
    var flags := if w.shouldRender then {ShouldRender} else {};
    if w.predictedHost.Some? {
      host, delta := w.predictedHost.value, SignedDelta(w.predictedHost.value, w.returned);
      flags := flags + {PredictedClockValid};
    }
    f := f[PREDICTED_HOST := Number(host)][SUBMITTED_HOST := Number(0)];
    f := f[WAIT_TO_DISPLAY := Number(delta)][END_TO_DISPLAY := Number(0)];
    f := f[WATERMARK := Number(w.watermark)][WATERMARK_EPOCH := Number(w.watermarkEpoch)];
    f := f[RENDER_EPOCH := Number(0)][RENDER_SEQUENCE := Number(0)];
    f := f[FLAGS := Flags(flags)];
    assert flags == (if w.shouldRender then {ShouldRender} else {})
                    + (if w.predictedHost.Some? then {PredictedClockValid} else {});
    assert f == WaitRecord(epoch, w);
  }

  lemma NothingStored(r: Fields)
    ensures StoreAll(r, []) == r
  {
  }

  /** One more store of an update, recorded beside the fields. */
  method Store(r: Fields, f: Fields, ghost done: seq<FieldStore>, i: nat, v: Value)
      returns (f': Fields, ghost done': seq<FieldStore>)
    requires |r| == |f| == FIELDS && i < FIELDS && (forall j | 0 <= j < |done| :: done[j].field < FIELDS)
    requires f == StoreAll(r, done)
    ensures done' == done + [FieldStore(i, v)] && |f'| == FIELDS && f' == StoreAll(r, done')
  {
    AppendStore(r, done, FieldStore(i, v));
    f' := f[i := v];
    done' := done + [FieldStore(i, v)];
  }

  method StoreBegin(r: Fields, returned: nat) returns (f: Fields)
    requires |r| == FIELDS
    ensures f == Updated(r, Begin(returned))
  {
    ghost var done := [];
    f, done := Store(r, r, [], BEGIN_RETURN, Number(returned));
    f, done := Store(r, f, done, FLAGS, Flags(FlagsOf(r) + {Begun}));
    assert done == Stores(r, Begin(returned));
  }

  method StoreDiscard(r: Fields) returns (f: Fields)
    requires |r| == FIELDS
    ensures f == Updated(r, Discard)
  {
    ghost var done := [];
    f, done := Store(r, r, [], FLAGS, Flags(FlagsOf(r) + {Discarded}));
    assert done == Stores(r, Discard);
  }

  method StoreSubmission(r: Fields, time: int, returned: nat, host: Option<nat>) returns (f: Fields)
    requires |r| == FIELDS
    ensures |f| == FIELDS && f == StoreAll(r, Submission(time, returned, host))
  {
    hide StoreAll;
    ghost var done := [];
    assert r == StoreAll(r, done) by { NothingStored(r); }
    f, done := Store(r, r, done, SUBMITTED_TIME, Number(time));
    f, done := Store(r, f, done, END_RETURN, Number(returned));
    f, done := Store(r, f, done, SUBMITTED_HOST, Number(if host.Some? then host.value else 0));
    if host.Some? {
      f, done := Store(r, f, done, END_TO_DISPLAY, Number(SignedDelta(host.value, returned)));
    }
    assert done == Submission(time, returned, host);
  }

  method StoreCorrelation(r: Fields, before: Fields, ghost done: seq<FieldStore>, render: Option<RenderToken>)
      returns (f: Fields, correlated: bool)
    requires |r| == |before| == FIELDS && (forall j | 0 <= j < |done| :: done[j].field < FIELDS)
    requires before == StoreAll(r, done)
    ensures |f| == FIELDS && f == StoreAll(r, done + Correlation(r, render)) && correlated == Correlates(r, render)
  {
    hide StoreAll;
    f := before;
    ghost var done' := done;
    var watermark, watermarkEpoch := NumberAt(r, WATERMARK), NumberAt(r, WATERMARK_EPOCH);
    correlated := ShouldRender in FlagsOf(r) && render.Some? && render.value.sequence > watermark
      && (watermark == 0 || watermarkEpoch == 0 || render.value.epoch == watermarkEpoch);
    if correlated {
      f, done' := Store(r, f, done', RENDER_EPOCH, Number(render.value.epoch));
      f, done' := Store(r, f, done', RENDER_SEQUENCE,
        Number(if watermark != 0 then watermark + 1 else render.value.sequence));
    }
    assert done' == done + Correlation(r, render);
  }

  method StoreEnd(r: Fields, time: int, returned: nat, render: Option<RenderToken>, host: Option<nat>)
      returns (f: Fields, correlated: bool)
    requires |r| == FIELDS
    ensures f == Updated(r, End(time, returned, render, host)) && correlated == Correlates(r, render)
  {
    hide StoreAll, Correlates, Submission, Correlation;
    f := StoreSubmission(r, time, returned, host);
    f, correlated := StoreCorrelation(r, f, Submission(time, returned, host), render);
    var flags := FlagsOf(r) + {Ended} + if host.Some? then {SubmittedClockValid} else {};
    ghost var done;
    f, done := Store(r, f, Submission(time, returned, host) + Correlation(r, render), FLAGS, Flags(flags));
    assert done == Stores(r, End(time, returned, render, host));
  }

  /** The fields only a wait stores. */
  const WAIT_FIELDS: seq<nat> := [
    EPOCH, PREDICTED_TIME, PREDICTED_PERIOD, WAIT_RETURN, PREDICTED_HOST, WAIT_TO_DISPLAY, WATERMARK, WATERMARK_EPOCH]

  /** The flags an update adds. */
  function AddedFlags(u: Update): set<Flag> {
    match u
    case Begin(_) => {Begun}
    case Discard => {Discarded}
    case End(_, _, _, host) => {Ended} + if host.Some? then {SubmittedClockValid} else {}
  }

  /** An update adds its flags, and leaves the identity and the wait side of the record alone. */
  lemma UpdateKeepsTheWait(r: Fields, u: Update)
    requires |r| == FIELDS
    ensures FlagsOf(Updated(r, u)) == FlagsOf(r) + AddedFlags(u)
    ensures forall i :: i in WAIT_FIELDS ==> Updated(r, u)[i] == r[i]
  {
    hide StoreAll, Submission, Correlation;
    var stores := Stores(r, u);
    FieldStoredLast(r, stores, |stores| - 1);
    forall i | i in WAIT_FIELDS ensures StoreAll(r, stores)[i] == r[i] {
      FieldUntouched(r, stores, i);
    }
  }

  /**
   * The render identity an end leaves. With a watermark it is the very next
   * render sequence, in the newest token's epoch, if that token is past the
   * watermark and in its epoch as far as the epoch is known; without one it is
   * the newest token itself, if there is any; a frame that was not to render,
   * and every other frame, keeps the identity it had.
   */
  lemma EndCorrelation(r: Fields, time: int, returned: nat, render: Option<RenderToken>, host: Option<nat>)
    requires |r| == FIELDS && NumberAt(r, WATERMARK) >= 0
    ensures var r' := Updated(r, End(time, returned, render, host));
      var watermark, epoch := NumberAt(r, WATERMARK), NumberAt(r, WATERMARK_EPOCH);
      var wanted := ShouldRender in FlagsOf(r) && render.Some? && render.value.sequence > watermark;
      if wanted && watermark != 0 && (epoch == 0 || epoch == render.value.epoch) then
        r'[RENDER_SEQUENCE] == Number(watermark + 1) && r'[RENDER_EPOCH] == Number(render.value.epoch)
      else if wanted && watermark == 0 then
        r'[RENDER_SEQUENCE] == Number(render.value.sequence) && r'[RENDER_EPOCH] == Number(render.value.epoch)
      else r'[RENDER_SEQUENCE] == r[RENDER_SEQUENCE] && r'[RENDER_EPOCH] == r[RENDER_EPOCH]
  {
    hide StoreAll, Submission;
    var stores := Stores(r, End(time, returned, render, host));
    var n := |stores|;
    if Correlates(r, render) {
      assert stores[n - 2].field == RENDER_SEQUENCE && stores[n - 3].field == RENDER_EPOCH;
      FieldStoredLast(r, stores, n - 2);
      FieldStoredLast(r, stores, n - 3);
    } else {
      FieldUntouched(r, stores, RENDER_SEQUENCE);
      FieldUntouched(r, stores, RENDER_EPOCH);
    }
  }

  /** What an end says of the submission: its times, its clock if there is one, and nothing about the begin. */
  lemma EndSubmits(r: Fields, time: int, returned: nat, render: Option<RenderToken>, host: Option<nat>)
    requires |r| == FIELDS
    ensures var r' := Updated(r, End(time, returned, render, host));
      && r'[SUBMITTED_TIME] == Number(time) && r'[END_RETURN] == Number(returned)
      && r'[SUBMITTED_HOST] == Number(if host.Some? then host.value else 0)
      && r'[END_TO_DISPLAY] ==
         (if host.Some? then Number(SignedDelta(host.value, returned)) else r[END_TO_DISPLAY])
      && r'[BEGIN_RETURN] == r[BEGIN_RETURN]
  {
    hide StoreAll, Correlation, SignedDelta;
    var stores := Stores(r, End(time, returned, render, host));
    FieldStoredLast(r, stores, 0);
    FieldStoredLast(r, stores, 1);
    FieldStoredLast(r, stores, 2);
    FieldUntouched(r, stores, BEGIN_RETURN);
    if host.Some? {
      FieldStoredLast(r, stores, 3);
    } else {
      FieldUntouched(r, stores, END_TO_DISPLAY);
    }
  }
}
