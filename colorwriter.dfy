/**
 * SetColor, the writer of the classic RGBW characteristics: one colour
 * write per characteristic UUID at a time, with the single, global
 * PendingCharacteristicPromises map holding the latest colour asked for. A
 * colour asked for while a write is in flight replaces the pending one;
 * when the write resolves, the latest colour is written unless it is the
 * very colour just written, and it is written to the characteristic the
 * resolved write went to. The map is keyed by UUID alone and shared by
 * every connected device, so devices exposing the same LED characteristic
 * share one entry.
 */
module ClassicColor {
  import opened Wrappers
  import opened Bytes
  import opened Colors

  /** A characteristic's UUID, as text. */
  type Uuid = Text

  /**
   * A colour handed to SetColor with the number of the SetColor call that
   * created it: the source compares colour objects by identity, so two
   * equal colours from two calls are different.
   */
  datatype Stamped = Stamped(color: RGBWColor, version: nat)

  /**
   * PendingCharacteristicPromises, the colour each unresolved write carries
   * (what its completion handler holds on to), and the next call number.
   */
  datatype ColorState = ColorState(pending: map<Uuid, Stamped>, inFlight: map<Uuid, Flight>, nextVersion: nat)

  /** A characteristic object: the device it belongs to (its id) and its UUID. */
  datatype Characteristic = Characteristic(device: Text, uuid: Uuid)

  /** A writeValue call on that characteristic. */
  datatype ColorWrite = ColorWrite(target: Characteristic, data: seq<byte>)

  /**
   * A write in flight: the characteristic its completion handler holds on
   * to, and the colour object it wrote.
   */
  datatype Flight = Flight(target: Characteristic, sent: Stamped)

  datatype ColorStep = ColorStep(state: ColorState, write: Option<ColorWrite>)

  /**
   * Every write in flight has a pending entry and went to a characteristic
   * of its key's UUID; every stamp was handed out.
   */
  predicate Inv(s: ColorState) {
    s.inFlight.Keys <= s.pending.Keys
    && (forall u :: u in s.pending ==> s.pending[u].version < s.nextVersion)
    && (forall u :: u in s.inFlight ==> s.inFlight[u].sent.version < s.nextVersion && s.inFlight[u].target.uuid == u)
  }

  /** The body of SetColor for a given colour object: record it, and write it when nothing was pending. */
  function Put(s: ColorState, ch: Characteristic, c: Stamped): (r: ColorStep)
    requires Inv(s) && c.version < s.nextVersion
    ensures Inv(r.state) && r.state.nextVersion == s.nextVersion
    ensures r.state.pending == s.pending[ch.uuid := c]
    ensures r.write.Some? <==> ch.uuid !in s.pending
    ensures r.write.Some? ==> r.write.value == ColorWrite(ch, ToUint8Array(c.color)) && r.state.inFlight == s.inFlight[ch.uuid := Flight(ch, c)]
    ensures r.write.None? ==> r.state.inFlight == s.inFlight
  {
    var uuid := ch.uuid;
    var updatePending := uuid in s.pending;
    var pending := s.pending[uuid := c];
    if updatePending then ColorStep(s.(pending := pending), None)
    else ColorStep(ColorState(pending, s.inFlight[uuid := Flight(ch, c)], s.nextVersion), Some(ColorWrite(ch, ToUint8Array(c.color))))
  }

  /** SetColor(characteristic, rgbw) called with a new colour object. */
  function AfterSetColor(s: ColorState, ch: Characteristic, color: RGBWColor): (r: ColorStep)
    requires Inv(s)
    ensures Inv(r.state) && r.state.nextVersion == s.nextVersion + 1
    ensures r.state.pending == s.pending[ch.uuid := Stamped(color, s.nextVersion)]
    ensures r.write.Some? <==> ch.uuid !in s.pending
    ensures r.write.Some? ==> r.write.value == ColorWrite(ch, ToUint8Array(color)) && r.state.inFlight == s.inFlight[ch.uuid := Flight(ch, Stamped(color, s.nextVersion))]
    ensures r.write.None? ==> r.state.inFlight == s.inFlight
    ensures forall u :: u != ch.uuid ==> (u in r.state.inFlight <==> u in s.inFlight)
  {
    Put(s.(nextVersion := s.nextVersion + 1), ch, Stamped(color, s.nextVersion))
  }

  /**
   * The write to a characteristic of UUID `uuid` resolved: the pending entry
   * is deleted, and the colour in it is written again (through SetColor on
   * the characteristic the handler holds) when it is not the colour that
   * was just written.
   */
  function AfterColorWritten(s: ColorState, uuid: Uuid): (r: ColorStep)
    requires Inv(s) && uuid in s.inFlight
    ensures Inv(r.state) && r.state.nextVersion == s.nextVersion
    ensures s.pending[uuid].version == s.inFlight[uuid].sent.version ==>
      r.write == None && uuid !in r.state.pending && uuid !in r.state.inFlight
    ensures s.pending[uuid].version != s.inFlight[uuid].sent.version ==>
      r.write == Some(ColorWrite(s.inFlight[uuid].target, ToUint8Array(s.pending[uuid].color)))
      && uuid in r.state.inFlight && r.state.pending[uuid] == s.pending[uuid]
      && r.state.inFlight[uuid] == Flight(s.inFlight[uuid].target, s.pending[uuid])
    ensures forall u :: u != uuid ==> (u in r.state.pending <==> u in s.pending) && (u in r.state.inFlight <==> u in s.inFlight)
  {
    var characteristic := s.inFlight[uuid].target;
    var currentSetValue := s.inFlight[uuid].sent;
    var targetValue := s.pending[uuid];
    var cleared := s.(pending := s.pending - {uuid}, inFlight := s.inFlight - {uuid});
    if targetValue.version != currentSetValue.version then Put(cleared, characteristic, targetValue)
    else ColorStep(cleared, None)
  }

  /** The write to `uuid` was rejected: nothing handles it, so the pending entry stays. */
  function AfterColorRejected(s: ColorState, uuid: Uuid): (r: ColorState)
    requires Inv(s) && uuid in s.inFlight
    ensures Inv(r) && r.pending == s.pending && r.inFlight == s.inFlight - {uuid}
  {
    s.(inFlight := s.inFlight - {uuid})
  }

  /** The writes made by a run of SetColor calls on one characteristic. */
  datatype ColorRun = ColorRun(state: ColorState, writes: seq<ColorWrite>)

  function SetColors(s: ColorState, ch: Characteristic, colors: seq<RGBWColor>): (r: ColorRun)
    requires Inv(s)
    ensures Inv(r.state) && r.state.nextVersion == s.nextVersion + |colors|
    decreases |colors|
  {
    if |colors| == 0 then ColorRun(s, [])
    else
      var step := AfterSetColor(s, ch, colors[0]);
      var rest := SetColors(step.state, ch, colors[1..]);
      ColorRun(rest.state, (if step.write.Some? then [step.write.value] else []) + rest.writes)
  }

  /**
   * Colours set on a characteristic while a write to its UUID is in flight
   * are not written; when that write resolves, exactly the last of them is,
   * to the characteristic the write in flight went to.
   */
  lemma {:induction false} BurstWritesLastColor(s: ColorState, ch: Characteristic, colors: seq<RGBWColor>)
    requires Inv(s) && ch.uuid in s.inFlight && |colors| > 0
    ensures var run := SetColors(s, ch, colors);
      run.writes == [] && run.state.inFlight == s.inFlight
      && AfterColorWritten(run.state, ch.uuid).write == Some(ColorWrite(s.inFlight[ch.uuid].target, ToUint8Array(colors[|colors| - 1])))
  {
    BurstStaysQuiet(s, ch, colors);
  }

  lemma {:induction false} BurstStaysQuiet(s: ColorState, ch: Characteristic, colors: seq<RGBWColor>)
    requires Inv(s) && ch.uuid in s.pending && |colors| > 0
    ensures var run := SetColors(s, ch, colors);
      run.writes == [] && run.state.inFlight == s.inFlight
      && ch.uuid in run.state.pending && run.state.pending[ch.uuid] == Stamped(colors[|colors| - 1], run.state.nextVersion - 1)
    decreases |colors|
  {
    if |colors| > 1 {
      var step := AfterSetColor(s, ch, colors[0]);
      BurstStaysQuiet(step.state, ch, colors[1..]);
    }
  }

  /**
   * The map is keyed by UUID alone: when two devices expose the same LED
   * characteristic and a colour is set on the second while the first one's
   * write is in flight, nothing is written to the second, and once the
   * first write resolves the second device's colour is written to the
   * first device.
   */
  lemma CrossDeviceColorGoesToFirstCaller(s: ColorState, a: Characteristic, b: Characteristic, c1: RGBWColor, c2: RGBWColor)
    requires Inv(s) && a.uuid !in s.pending && b.uuid == a.uuid
    ensures var first := AfterSetColor(s, a, c1);
      var second := AfterSetColor(first.state, b, c2);
      var resolved := AfterColorWritten(second.state, a.uuid);
      first.write == Some(ColorWrite(a, ToUint8Array(c1)))
      && second.write == None
      && resolved.write == Some(ColorWrite(a, ToUint8Array(c2)))
  {
  }

  /**
   * Once a write to a characteristic is rejected, its pending entry is
   * never deleted: no later colour is ever written to it.
   */
  lemma {:induction false} RejectionStallsCharacteristic(s: ColorState, uuid: Uuid, ch: Characteristic, colors: seq<RGBWColor>)
    requires Inv(s) && uuid in s.inFlight && ch.uuid == uuid
    ensures var run := SetColors(AfterColorRejected(s, uuid), ch, colors);
      run.writes == [] && uuid in run.state.pending && uuid !in run.state.inFlight
  {
    StalledStaysStalled(AfterColorRejected(s, uuid), ch, colors);
  }

  lemma {:induction false} StalledStaysStalled(s: ColorState, ch: Characteristic, colors: seq<RGBWColor>)
    requires Inv(s) && ch.uuid in s.pending && ch.uuid !in s.inFlight
    ensures var run := SetColors(s, ch, colors);
      run.writes == [] && ch.uuid in run.state.pending && ch.uuid !in run.state.inFlight
    decreases |colors|
  {
    if |colors| > 0 {
      var step := AfterSetColor(s, ch, colors[0]);
      StalledStaysStalled(step.state, ch, colors[1..]);
    }
  }

  /** A colour written when nothing was pending, resolved with no newer call in between, is not written again and leaves the UUID idle. */
  lemma WriteThenResolve(s: ColorState, ch: Characteristic, color: RGBWColor)
    requires Inv(s) && ch.uuid !in s.pending
    ensures var step := AfterSetColor(s, ch, color);
      step.write.Some? && AfterColorWritten(step.state, ch.uuid).write == None
      && ch.uuid !in AfterColorWritten(step.state, ch.uuid).state.pending
  {
  }

  /** PendingCharacteristicPromises and the writes in flight. */
  class ColorWriter {
    var pending: map<Uuid, Stamped>
    var inFlight: map<Uuid, Flight>
    var nextVersion: nat

    function State(): ColorState
      reads this
    {
      ColorState(pending, inFlight, nextVersion)
    }

    ghost predicate Valid()
      reads this
    {
      Inv(State())
    }

    constructor()
      ensures Valid() && State() == ColorState(map[], map[], 0)
    {
      pending := map[];
      inFlight := map[];
      nextVersion := 0;
    }

    /** SetColor: the colour's bytes, written when the characteristic has nothing pending. */
    method SetColor(characteristic: Characteristic, rgbw: RGBWColor) returns (write: Option<ColorWrite>)
      requires Valid()
      modifies this
      ensures Valid()
      ensures ColorStep(State(), write) == AfterSetColor(old(State()), characteristic, rgbw)
    {
      var c := Stamped(rgbw, nextVersion);
      nextVersion := nextVersion + 1;
      write := Record(characteristic, c);
    }

    /** The body of SetColor for a given colour object. */
    method Record(characteristic: Characteristic, c: Stamped) returns (write: Option<ColorWrite>)
      requires Valid() && c.version < nextVersion
      modifies this
      ensures Valid()
      ensures ColorStep(State(), write) == Put(old(State()), characteristic, c)
    {
      var uuid := characteristic.uuid;
      var updatePending := uuid in pending;
      pending := pending[uuid := c];
      if updatePending {
        write := None;
      } else {
        inFlight := inFlight[uuid := Flight(characteristic, c)];
        write := Some(ColorWrite(characteristic, ToUint8Array(c.color)));
      }
    }

    /** The completion handler of the write in flight on a characteristic of UUID `uuid`, which resolved. */
    method OnWriteResolved(uuid: Uuid) returns (write: Option<ColorWrite>)
      requires Valid() && uuid in inFlight
      modifies this
      ensures Valid()
      ensures ColorStep(State(), write) == AfterColorWritten(old(State()), uuid)
    {
      var characteristic := inFlight[uuid].target;
      var currentSetValue := inFlight[uuid].sent;
      var targetValue := pending[uuid];
      pending := pending - {uuid};
      inFlight := inFlight - {uuid};
      if targetValue.version != currentSetValue.version {
        write := Record(characteristic, targetValue);
      } else {
        write := None;
      }
    }

    /** A write that was rejected: there is no handler for it. */
    method OnWriteRejected(uuid: Uuid)
      requires Valid() && uuid in inFlight
      modifies this
      ensures Valid() && State() == AfterColorRejected(old(State()), uuid)
    {
      inFlight := inFlight - {uuid};
    }
  }
}
