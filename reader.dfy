/**
 * NetworkBufferReader: a bounds-checked read cursor over a received packet.
 * Each extract method does what the reading function of the same name in
 * module Codec describes, starting at the cursor, and moves the cursor to the
 * end of what it read; a read that does not fit throws before the cursor moves.
 */
module Reader {
  import opened Wrappers
  import opened Bytes
  import opened Codec

  /**
   * A cursor step that follows the reading function's outcome `p`: on success
   * the result is the item and the cursor moved to its end; on failure the
   * error is passed on and the cursor stayed where it was.
   */
  ghost predicate Follows<T>(r: Result<T>, p: Result<Parsed<T>>, before: nat, after: nat) {
    (p.Ok? ==> r == Ok(p.value.value) && after == p.value.next)
    && (p.Err? ==> r == Err(p.error) && after == before)
  }

  class NetworkBufferReader {
    const dataView: seq<byte>
    var offset: nat

    ghost predicate Valid()
      reads this
    {
      offset <= |dataView|
    }

    constructor(buffer: seq<byte>)
      ensures Valid() && dataView == buffer && offset == 0
    {
      dataView := buffer;
      offset := 0;
    }

    function GetRemainingSize(): (r: nat)
      reads this
      requires Valid()
      ensures offset + r == |dataView|
    {
      |dataView| - offset
    }

    method ExtractUint8() returns (r: Result<byte>)
      requires Valid()
      modifies this
      ensures Valid()
      ensures Follows(r, ReadUint8(dataView, old(offset)), old(offset), offset)
    {
      if 1 > GetRemainingSize() {
        return Err(BufferRange);
      }
      r := Ok(dataView[offset]);
      offset := offset + 1;
    }

    method ExtractUint32() returns (r: Result<nat>)
      requires Valid()
      modifies this
      ensures Valid()
      ensures Follows(r, ReadUint32(dataView, old(offset)), old(offset), offset)
    {
      if 4 > GetRemainingSize() {
        return Err(BufferRange);
      }
      r := Ok(GetUint32(dataView[offset..offset + 4]));
      offset := offset + 4;
    }

    method ExtractInt32() returns (r: Result<int>)
      requires Valid()
      modifies this
      ensures Valid()
      ensures Follows(r, ReadInt32(dataView, old(offset)), old(offset), offset)
    {
      if 4 > GetRemainingSize() {
        return Err(BufferRange);
      }
      r := Ok(GetInt32(dataView[offset..offset + 4]));
      offset := offset + 4;
    }

    method ExtractData(length: nat) returns (r: Result<seq<byte>>)
      requires Valid()
      modifies this
      ensures Valid()
      ensures Follows(r, ReadData(dataView, old(offset), length), old(offset), offset)
    {
      if length > GetRemainingSize() {
        return Err(BufferRange);
      }
      r := Ok(dataView[offset..offset + length]);
      offset := offset + length;
    }

    /** extractRemainingData: never throws, and leaves the cursor at the end. */
    method ExtractRemainingData() returns (r: seq<byte>)
      requires Valid()
      modifies this
      ensures Valid() && offset == |dataView|
      ensures r == old(dataView[offset..])
    {
      var d := ExtractData(GetRemainingSize());
      r := d.value;
    }

    /**
     * extractString: the length read stays consumed when the bytes after it
     * do not fit.
     */
    method ExtractString() returns (r: Result<Text>)
      requires Valid()
      modifies this
      ensures Valid()
      ensures var p := ReadString(dataView, old(offset));
        (p.Ok? ==> r == Ok(p.value.value) && offset == p.value.next)
        && (p.Err? ==> r == Err(BufferRange))
      ensures r.Err? ==> offset == old(offset) + (if old(offset) + 4 <= |dataView| then 4 else 0)
    {
      var strLength := ExtractUint32();
      if strLength.Err? {
        return Err(strLength.error);
      }
      var strData := ExtractData(strLength.value);
      if strData.Err? {
        return Err(strData.error);
      }
      r := Ok(strData.value);
    }
  }
}
