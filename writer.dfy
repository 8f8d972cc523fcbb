/**
 * BLEDataWriter: the reliable, coalescing writer of the GUI characteristic.
 * Payloads queue up as PendingDataEntry values; a payload for the group name
 * of the head entry replaces the head's data. At most one write is in flight.
 *
 * The JavaScript compares the head's data with the payload that was sent by
 * reference (`===`); every payload handed to `sendData` is a fresh array, so
 * the model gives each one a version number and compares versions. The
 * promise returned by `writeValue` becomes the `inFlight` field, and its
 * settlement becomes an explicit success or failure event.
 */
module Writer {
  import opened Bytes
  import opened Wrappers

  /** The writer gives up once `failedRepeatCount` exceeds this. */
  const MAX_FAILED_REPEATS: nat := 10

  datatype PendingDataEntry = PendingDataEntry(groupName: Text, data: seq<byte>, version: nat)

  /** The payload of the write in flight and the version it was taken from. */
  datatype Flight = Flight(data: seq<byte>, version: nat)

  datatype WriterState = WriterState(
    pendingData: seq<PendingDataEntry>,
    failedRepeatCount: nat,
    inFlight: Option<Flight>,
    nextVersion: nat)

  /** A writer state after an event, and the payload passed to `writeValue` by that event, if any. */
  datatype Step = Step(state: WriterState, write: Option<seq<byte>>)

  /**
   * The invariant of the writer: a write in flight always belongs to the head
   * entry (taken from it now or from an earlier payload of the same group),
   * and versions are unique, so an equal version means the very same payload.
   */
  predicate Inv(s: WriterState) {
    (forall i :: 0 <= i < |s.pendingData| ==> s.pendingData[i].version < s.nextVersion)
    && (s.inFlight.Some? ==>
          |s.pendingData| > 0
          && s.inFlight.value.version <= s.pendingData[0].version
          && (s.inFlight.value.version == s.pendingData[0].version ==> s.inFlight.value.data == s.pendingData[0].data))
  }

  /** A payload for this group only replaces the head's data. */
  predicate Coalesces(s: WriterState, groupName: Text) {
    |s.pendingData| > 0 && s.pendingData[0].groupName == groupName
  }

  /**
   * sendData: replaces the head's data when the group names match; otherwise
   * appends an entry and starts a write only if the queue was empty.
   */
  function AfterSendData(s: WriterState, groupName: Text, data: seq<byte>): (r: Step)
    requires Inv(s)
    ensures Inv(r.state)
    ensures r.state.failedRepeatCount == s.failedRepeatCount && r.state.nextVersion == s.nextVersion + 1
    ensures Coalesces(s, groupName) ==>
      |r.state.pendingData| == |s.pendingData|
      && r.state.pendingData[0].groupName == groupName && r.state.pendingData[0].data == data
      && r.state.pendingData[0].version == s.nextVersion
      && r.state.pendingData[1..] == s.pendingData[1..]
      && r.state.inFlight == s.inFlight && r.write == None
    ensures !Coalesces(s, groupName) ==>
      |r.state.pendingData| == |s.pendingData| + 1
      && r.state.pendingData[..|s.pendingData|] == s.pendingData
      && r.state.pendingData[|s.pendingData|].groupName == groupName
      && r.state.pendingData[|s.pendingData|].data == data
      && r.state.pendingData[|s.pendingData|].version == s.nextVersion
    ensures r.write.Some? <==> |s.pendingData| == 0
    ensures r.write.Some? ==> r.write.value == data && r.state.inFlight.Some? && r.state.inFlight.value.data == data
    ensures |s.pendingData| > 0 ==> r.state.inFlight == s.inFlight
  {
    var entry := PendingDataEntry(groupName, data, s.nextVersion);
    var s' := s.(nextVersion := s.nextVersion + 1);
    if Coalesces(s, groupName) then
      Step(s'.(pendingData := s.pendingData[0 := entry]), None)
    else if |s.pendingData| == 0 then
      Step(s'.(pendingData := [entry], inFlight := Some(Flight(data, entry.version))), Some(data))
    else
      Step(s'.(pendingData := s.pendingData + [entry]), None)
  }

  /**
   * The write in flight succeeded: the head is removed only if its data is
   * still the payload that was sent, and then nothing further is written;
   * otherwise the current head data is written and nothing is removed.
   */
  function AfterWriteSuccess(s: WriterState): (r: Step)
    requires Inv(s) && s.inFlight.Some?
    ensures Inv(r.state)
    ensures r.state.failedRepeatCount == s.failedRepeatCount
    ensures s.inFlight.value.version == s.pendingData[0].version ==>
      s.inFlight.value.data == s.pendingData[0].data
      && r.state.pendingData == s.pendingData[1..] && r.state.inFlight == None && r.write == None
    ensures s.inFlight.value.version != s.pendingData[0].version ==>
      r.state.pendingData == s.pendingData
      && r.write == Some(s.pendingData[0].data)
      && r.state.inFlight == Some(Flight(s.pendingData[0].data, s.pendingData[0].version))
  {
    var head := s.pendingData[0];
    if head.version == s.inFlight.value.version then
      Step(s.(pendingData := s.pendingData[1..], inFlight := None), None)
    else
      Step(s.(inFlight := Some(Flight(head.data, head.version))), Some(head.data))
  }

  /**
   * The write in flight failed: the counter goes up, and the same bytes are
   * written again unless the counter now exceeds the limit, in which case the
   * writer stops with the head still queued.
   */
  function AfterWriteFailure(s: WriterState): (r: Step)
    requires Inv(s) && s.inFlight.Some?
    ensures Inv(r.state)
    ensures r.state.failedRepeatCount == s.failedRepeatCount + 1
    ensures r.state.pendingData == s.pendingData
    ensures r.state.failedRepeatCount <= MAX_FAILED_REPEATS ==>
      r.write == Some(s.inFlight.value.data) && r.state.inFlight == s.inFlight
    ensures r.state.failedRepeatCount > MAX_FAILED_REPEATS ==> r.write == None && r.state.inFlight == None
  {
    var count := s.failedRepeatCount + 1;
    if count > MAX_FAILED_REPEATS then
      Step(s.(failedRepeatCount := count, inFlight := None), None)
    else
      Step(s.(failedRepeatCount := count), Some(s.inFlight.value.data))
  }

  /** A sequence of `sendData` calls, and the payloads they pass to `writeValue`. */
  datatype Sends = Sends(state: WriterState, writes: seq<seq<byte>>)

  function SendAll(s: WriterState, groupNames: seq<Text>, payloads: seq<seq<byte>>): (r: Sends)
    requires Inv(s) && |groupNames| == |payloads|
    ensures Inv(r.state)
    decreases |payloads|
  {
    if |payloads| == 0 then Sends(s, [])
    else
      var step := AfterSendData(s, groupNames[0], payloads[0]);
      var rest := SendAll(step.state, groupNames[1..], payloads[1..]);
      Sends(rest.state, (if step.write.Some? then [step.write.value] else []) + rest.writes)
  }

  /**
   * A burst of payloads for the group at the head of a non-empty queue writes
   * nothing new and leaves one head entry holding the last payload, with the
   * rest of the queue untouched.
   */
  lemma {:induction false} BurstCoalescesIntoHead(s: WriterState, groupName: Text, payloads: seq<seq<byte>>)
    requires Inv(s) && Coalesces(s, groupName) && |payloads| > 0
    ensures var r := SendAll(s, seq(|payloads|, _ => groupName), payloads);
      r.writes == [] && r.state.inFlight == s.inFlight
      && |r.state.pendingData| == |s.pendingData| && r.state.pendingData[1..] == s.pendingData[1..]
      && r.state.pendingData[0].data == payloads[|payloads| - 1]
      && r.state.pendingData[0].version >= s.nextVersion
    decreases |payloads|
  {
    var names := seq(|payloads|, _ => groupName);
    var step := AfterSendData(s, groupName, payloads[0]);
    assert names[1..] == seq(|payloads| - 1, _ => groupName);
    if |payloads| > 1 {
      BurstCoalescesIntoHead(step.state, groupName, payloads[1..]);
    } else {
      assert SendAll(step.state, names[1..], payloads[1..]) == Sends(step.state, []);
    }
  }

  /**
   * "If the identical groupName is used multiple times then the last value is
   * ensured to be written": a burst for the group of the write in flight
   * writes nothing, and when that write succeeds exactly the last payload of
   * the burst is written next.
   */
  lemma BurstThenSuccessWritesLast(s: WriterState, groupName: Text, payloads: seq<seq<byte>>)
    requires Inv(s) && s.inFlight.Some? && s.pendingData[0].groupName == groupName && |payloads| > 0
    ensures var r := SendAll(s, seq(|payloads|, _ => groupName), payloads);
      r.writes == [] && r.state.inFlight == s.inFlight
      && AfterWriteSuccess(r.state).write == Some(payloads[|payloads| - 1])
  {
    BurstCoalescesIntoHead(s, groupName, payloads);
  }

  /**
   * A writer with queued entries and no write in flight stays silent for
   * good: whatever is sent afterwards only queues up or replaces the head.
   */
  lemma {:induction false} IdleNonEmptyQueueStaysSilent(s: WriterState, groupNames: seq<Text>, payloads: seq<seq<byte>>)
    requires Inv(s) && |groupNames| == |payloads|
    requires |s.pendingData| > 0 && s.inFlight == None
    ensures SendAll(s, groupNames, payloads).writes == []
    ensures SendAll(s, groupNames, payloads).state.inFlight == None
    ensures |SendAll(s, groupNames, payloads).state.pendingData| >= |s.pendingData|
    decreases |payloads|
  {
    if |payloads| > 0 {
      var step := AfterSendData(s, groupNames[0], payloads[0]);
      IdleNonEmptyQueueStaysSilent(step.state, groupNames[1..], payloads[1..]);
    }
  }

  /**
   * After a successful write removes the head of a queue of two or more, the
   * next entry is never written, whatever is sent later.
   */
  lemma PopStrandsNextEntry(s: WriterState, groupNames: seq<Text>, payloads: seq<seq<byte>>)
    requires Inv(s) && s.inFlight.Some? && |s.pendingData| >= 2
    requires s.inFlight.value.version == s.pendingData[0].version
    requires |groupNames| == |payloads|
    ensures AfterWriteSuccess(s).write == None
    ensures SendAll(AfterWriteSuccess(s).state, groupNames, payloads).writes == []
  {
    IdleNonEmptyQueueStaysSilent(AfterWriteSuccess(s).state, groupNames, payloads);
  }

  /** The outcome of `n` consecutive failures of the write in flight. */
  function FailTimes(s: WriterState, n: nat): (r: Sends)
    requires Inv(s) && s.inFlight.Some?
    ensures Inv(r.state)
    decreases n
  {
    if n == 0 then Sends(s, [])
    else
      var step := AfterWriteFailure(s);
      if step.state.inFlight.None? then Sends(step.state, [])
      else
        var rest := FailTimes(step.state, n - 1);
        Sends(rest.state, [step.write.value] + rest.writes)
  }

  /**
   * While the counter stays within the limit, every failure writes the very
   * same bytes again and nothing else changes but the counter.
   */
  lemma {:induction false} FailuresRetrySameBytes(s: WriterState, n: nat)
    requires Inv(s) && s.inFlight.Some?
    requires s.failedRepeatCount + n <= MAX_FAILED_REPEATS
    ensures FailTimes(s, n) == Sends(s.(failedRepeatCount := s.failedRepeatCount + n), seq(n, _ => s.inFlight.value.data))
    decreases n
  {
    if n > 0 {
      var step := AfterWriteFailure(s);
      FailuresRetrySameBytes(step.state, n - 1);
      assert [s.inFlight.value.data] + seq(n - 1, _ => s.inFlight.value.data) == seq(n, _ => s.inFlight.value.data);
    }
  }

  /**
   * The counter belongs to the writer and is never reset: a fresh writer
   * retries a write ten times and gives up on its eleventh failure, and a
   * write that starts once ten failures have accumulated is given up on its
   * first failure.
   */
  lemma FailureBudgetIsShared(s: WriterState)
    requires Inv(s) && s.inFlight.Some?
    ensures s.failedRepeatCount == 0 ==>
      FailTimes(s, MAX_FAILED_REPEATS + 1).writes == seq(MAX_FAILED_REPEATS, _ => s.inFlight.value.data)
      && FailTimes(s, MAX_FAILED_REPEATS + 1).state.inFlight == None
    ensures s.failedRepeatCount >= MAX_FAILED_REPEATS ==> AfterWriteFailure(s).write == None
  {
    if s.failedRepeatCount == 0 {
      FailuresRetrySameBytes(s, MAX_FAILED_REPEATS);
      var t := s.(failedRepeatCount := MAX_FAILED_REPEATS);
      assert AfterWriteFailure(t).state.inFlight == None;
      FailTimesSplit(s, MAX_FAILED_REPEATS);
    }
  }

  /** Failing n + 1 times is failing n times and then once more. */
  lemma {:induction false} FailTimesSplit(s: WriterState, n: nat)
    requires Inv(s) && s.inFlight.Some?
    requires s.failedRepeatCount + n <= MAX_FAILED_REPEATS
    ensures var first := FailTimes(s, n);
      first.state.inFlight.Some? &&
      FailTimes(s, n + 1) == Sends(FailTimes(first.state, 1).state, first.writes + FailTimes(first.state, 1).writes)
    decreases n
  {
    FailuresRetrySameBytes(s, n);
    if n > 0 {
      var step := AfterWriteFailure(s);
      FailTimesSplit(step.state, n - 1);
      var first := FailTimes(step.state, n - 1);
      assert [step.write.value] + (first.writes + FailTimes(first.state, 1).writes)
          == ([step.write.value] + first.writes) + FailTimes(first.state, 1).writes;
    }
  }

  class BLEDataWriter {
    var pendingData: seq<PendingDataEntry>
    var failedRepeatCount: nat
    var inFlight: Option<Flight>
    var nextVersion: nat

    function State(): WriterState
      reads this
    {
      WriterState(pendingData, failedRepeatCount, inFlight, nextVersion)
    }

    ghost predicate Valid()
      reads this
    {
      Inv(State())
    }

    constructor()
      ensures Valid() && State() == WriterState([], 0, None, 0)
    {
      pendingData := [];
      failedRepeatCount := 0;
      inFlight := None;
      nextVersion := 0;
    }

    /** sendData; the returned payload, if any, is what is passed to `writeValue`. */
    method SendData(groupName: Text, data: seq<byte>) returns (write: Option<seq<byte>>)
      requires Valid()
      modifies this
      ensures Valid()
      ensures Step(State(), write) == AfterSendData(old(State()), groupName, data)
    {
      var noOperationPending := |pendingData| == 0;
      var entry := PendingDataEntry(groupName, data, nextVersion);
      nextVersion := nextVersion + 1;
      if |pendingData| > 0 && pendingData[0].groupName == groupName {
        pendingData := pendingData[0 := entry];
        return None;
      }
      pendingData := pendingData + [entry];
      write := None;
      if noOperationPending {
        write := StartSend();
      }
    }

    /** `_sendData`: writes the head's current data. */
    method StartSend() returns (write: Option<seq<byte>>)
      requires |pendingData| > 0
      modifies this
      ensures pendingData == old(pendingData) && failedRepeatCount == old(failedRepeatCount)
      ensures nextVersion == old(nextVersion)
      ensures inFlight == Some(Flight(pendingData[0].data, pendingData[0].version))
      ensures write == Some(pendingData[0].data)
    {
      inFlight := Some(Flight(pendingData[0].data, pendingData[0].version));
      write := Some(pendingData[0].data);
    }

    /** The fulfilment handler of `writeValue`. */
    method OnWriteSuccess() returns (write: Option<seq<byte>>)
      requires Valid() && inFlight.Some?
      modifies this
      ensures Valid()
      ensures Step(State(), write) == AfterWriteSuccess(old(State()))
    {
      if pendingData[0].version == inFlight.value.version {
        pendingData := pendingData[1..];
        inFlight := None;
        write := None;
      } else {
        write := StartSend();
      }
    }

    /** The rejection handler of `writeValue`. */
    method OnWriteFailure() returns (write: Option<seq<byte>>)
      requires Valid() && inFlight.Some?
      modifies this
      ensures Valid()
      ensures Step(State(), write) == AfterWriteFailure(old(State()))
    {
      failedRepeatCount := failedRepeatCount + 1;
      if failedRepeatCount > MAX_FAILED_REPEATS {
        inFlight := None;
        return None;
      }
      write := Some(inFlight.value.data);
    }
  }
}
