/**
 * BLEDataReader: reassembles a GUI description that the device sends in
 * several notifications. The buffer has the size announced in the packet
 * header; every notification is copied in at the running offset, and the
 * message is complete when the offset equals the buffer size exactly.
 */
module Reassembly {
  import opened Bytes
  import opened Wrappers

  /** The state of a reassembly: the buffer contents and the write offset. */
  datatype Progress = Progress(buffer: seq<byte>, offset: nat)

  /** What `appendData` leaves behind and whether it reported completion. */
  datatype AppendOutcome = AppendOutcome(progress: Progress, completed: bool)

  /** `new Uint8Array(n)`. */
  function Zeros(n: nat): (r: seq<byte>)
    ensures |r| == n && forall i :: 0 <= i < n ==> r[i] == 0
  {
    seq(n, _ => 0)
  }

  /**
   * The constructor: a zeroed buffer of the expected size with the first block
   * copied to its start. It never reports completion.
   */
  function Begin(expectedSize: nat, firstBlock: seq<byte>): (p: Progress)
    ensures |p.buffer| == expectedSize && p.offset == |firstBlock|
    ensures |firstBlock| <= expectedSize ==> p.buffer[..|firstBlock|] == firstBlock
    ensures forall i :: 0 <= i < expectedSize ==> p.buffer[i] == if i < |firstBlock| then firstBlock[i] else 0
  {
    Progress(Blit(Zeros(expectedSize), 0, firstBlock), |firstBlock|)
  }

  /**
   * appendData: the chunk is copied in at the offset (bytes past the end are
   * dropped), the offset grows by the chunk length, and completion is
   * reported only when the offset lands exactly on the buffer size.
   */
  function Append(p: Progress, data: seq<byte>): (r: AppendOutcome)
    ensures |r.progress.buffer| == |p.buffer|
    ensures r.progress.offset == p.offset + |data|
    ensures r.completed <==> p.offset + |data| == |p.buffer|
    ensures p.offset + |data| <= |p.buffer| ==>
      r.progress.buffer == p.buffer[..p.offset] + data + p.buffer[p.offset + |data|..]
  {
    var offset := p.offset + |data|;
    AppendOutcome(Progress(Blit(p.buffer, p.offset, data), offset), offset == |p.buffer|)
  }

  function Concat(chunks: seq<seq<byte>>): seq<byte> {
    if |chunks| == 0 then [] else chunks[0] + Concat(chunks[1..])
  }

  function TotalLength(chunks: seq<seq<byte>>): nat {
    if |chunks| == 0 then 0 else |chunks[0]| + TotalLength(chunks[1..])
  }

  /** The outcome of feeding notifications one by one until one completes. */
  datatype FeedOutcome = FeedOutcome(progress: Progress, completedAt: Option<nat>)

  /**
   * The reassembly as the protocol handler drives it: every notification goes
   * to `appendData` until it reports completion; `completedAt` is the index of
   * that notification.
   */
  function Feed(p: Progress, chunks: seq<seq<byte>>): (r: FeedOutcome)
    ensures r.completedAt.Some? ==> r.completedAt.value < |chunks|
    ensures r.completedAt.Some? ==> r.progress.offset == |r.progress.buffer|
    ensures |r.progress.buffer| == |p.buffer|
    decreases |chunks|
  {
    if |chunks| == 0 then FeedOutcome(p, None)
    else
      var step := Append(p, chunks[0]);
      if step.completed then FeedOutcome(step.progress, Some(0))
      else
        var rest := Feed(step.progress, chunks[1..]);
        FeedOutcome(rest.progress, if rest.completedAt.Some? then Some(rest.completedAt.value + 1) else None)
  }

  lemma {:induction false} ConcatLength(chunks: seq<seq<byte>>)
    ensures |Concat(chunks)| == TotalLength(chunks)
  {
    if |chunks| > 0 {
      ConcatLength(chunks[1..]);
    }
  }

  /**
   * Notifications that are all non-empty and add up exactly to the bytes still
   * missing complete the message on the last of them and not before, and the
   * buffer then holds what was received so far followed by all of them.
   */
  lemma {:induction false} FeedDeliversWholeMessage(p: Progress, chunks: seq<seq<byte>>)
    requires |chunks| >= 1
    requires forall i :: 0 <= i < |chunks| ==> |chunks[i]| > 0
    requires p.offset + TotalLength(chunks) == |p.buffer|
    ensures Feed(p, chunks) == FeedOutcome(
      Progress(p.buffer[..p.offset] + Concat(chunks), |p.buffer|), Some(|chunks| - 1))
    decreases |chunks|
  {
    var step := Append(p, chunks[0]);
    ConcatLength(chunks);
    if |chunks| == 1 {
      assert TotalLength(chunks) == |chunks[0]|;
      assert Concat(chunks) == chunks[0];
      assert step.completed;
      assert p.buffer[p.offset + |chunks[0]|..] == [];
    } else {
      assert TotalLength(chunks[1..]) > 0 by {
        assert |chunks[1..][0]| > 0;
      }
      assert !step.completed;
      FeedDeliversWholeMessage(step.progress, chunks[1..]);
      var q := step.progress;
      assert q.buffer[..q.offset] == p.buffer[..p.offset] + chunks[0];
      assert Concat(chunks) == chunks[0] + Concat(chunks[1..]);
    }
  }

  /** A reassembly whose offset has passed the buffer size never completes. */
  lemma {:induction false} OvershootNeverCompletes(p: Progress, chunks: seq<seq<byte>>)
    requires p.offset > |p.buffer|
    ensures Feed(p, chunks).completedAt == None
    decreases |chunks|
  {
    if |chunks| > 0 {
      OvershootNeverCompletes(Append(p, chunks[0]).progress, chunks[1..]);
    }
  }

  /**
   * A first block that already fills the buffer does not complete the message:
   * only an empty notification completes it afterwards, and any non-empty one
   * overshoots for good.
   */
  lemma FullFirstBlockStalls(expectedSize: nat, firstBlock: seq<byte>, data: seq<byte>, later: seq<seq<byte>>)
    requires |firstBlock| == expectedSize
    ensures Append(Begin(expectedSize, firstBlock), data).completed <==> |data| == 0
    ensures |data| > 0 ==> Feed(Append(Begin(expectedSize, firstBlock), data).progress, later).completedAt == None
  {
    if |data| > 0 {
      OvershootNeverCompletes(Append(Begin(expectedSize, firstBlock), data).progress, later);
    }
  }

  class BLEDataReader {
    const buffer: array<byte>
    var offset: nat

    /** The abstract state of the reader. */
    ghost function State(): Progress
      reads this, buffer
    {
      Progress(buffer[..], offset)
    }

    constructor(expectedSize: nat, firstBlock: seq<byte>)
      ensures State() == Begin(expectedSize, firstBlock)
      ensures fresh(buffer)
    {
      buffer := new byte[expectedSize](_ => 0);
      offset := |firstBlock|;
      new;
      assert buffer[..] == Zeros(expectedSize);
      MemCpy(buffer, 0, firstBlock, 0, |firstBlock|);
      assert firstBlock[0..|firstBlock|] == firstBlock;
    }

    /** appendData; the completion callback is run by the caller when this returns true. */
    method AppendData(data: seq<byte>) returns (completed: bool)
      modifies this, buffer
      ensures AppendOutcome(State(), completed) == Append(old(State()), data)
    {
      MemCpy(buffer, offset, data, 0, |data|);
      assert data[0..|data|] == data;
      offset := offset + |data|;
      completed := offset == buffer.Length;
    }
  }
}
