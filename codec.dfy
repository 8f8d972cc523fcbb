/**
 * The binary GUI protocol: PacketBuilder's encoders, the reading functions
 * that NetworkBufferReader and `_readDataValue` follow, and the comma-joined
 * path strings (`Array.prototype.toString` on the way out, `String.split(',')`
 * on the way in).
 */
module Codec {
  import opened Wrappers
  import opened Bytes
  import opened Colors
  import opened Values

  /** GUIClientHeader: the first byte of a packet sent to the device. */
  const REQUEST_GUI: byte := 0
  const SET_VALUE: byte := 1

  /** GUIServerHeader: the first byte of a packet received from the device. */
  const GUI_DATA: byte := 0
  const UPDATE_VALUE: byte := 1

  /** PacketBuilder.CreatePacketHeader: the kind byte, then the request id as big-endian u32. */
  function CreatePacketHeader(headByte: int, requestId: int): (r: seq<byte>)
    ensures |r| == 5 && r[0] == ToUint8(headByte)
    ensures GetUint32(r[1..5]) == ToUint32(requestId)
  {
    GetCreateUInt32(requestId);
    var r := MergeUint8Arrays(CreateUInt8(headByte), CreateUInt32(requestId));
    assert r[1..5] == CreateUInt32(requestId);
    r
  }

  /** PacketBuilder.CreateLengthPrefixedString: the byte count as big-endian u32, then the bytes. */
  function CreateLengthPrefixedString(str: Text): (r: seq<byte>)
    ensures |r| == 4 + |str|
    ensures GetUint32(r[..4]) == ToUint32(|str|)
    ensures r[4..] == str
  {
    GetCreateUInt32(|str|);
    MergeUint8Arrays(CreateUInt32(|str|), str)
  }

  /** The number of bytes CreateDynamicValue writes after the tag. */
  function PayloadSize(v: Value): nat {
    match v
    case Number(_) => 4
    case Str(s) => 4 + |s|
    case Boolean(_) => 1
    case Rgbw(_) => 4
  }

  /**
   * PacketBuilder.CreateDynamicValue: the type tag, then the value. A colour is
   * written in the order w, r, g, b.
   */
  function CreateDynamicValue(value: Value): (r: seq<byte>)
    ensures |r| == 1 + PayloadSize(value)
    ensures r[0] == value.Type()
    ensures value.Str? ==> r[1..] == CreateLengthPrefixedString(value.s)
  {
    var prefix := CreateUInt8(value.Type());
    match value
    case Number(n) => MergeUint8Arrays(prefix, CreateUInt32(n))
    case Boolean(b) => MergeUint8Arrays(prefix, CreateUInt8(if b then 1 else 0))
    case Str(s) => MergeUint8Arrays(prefix, CreateLengthPrefixedString(s))
    case Rgbw(c) =>
      MergeUint8Arrays5(prefix, CreateUInt8(c.w), CreateUInt8(c.r), CreateUInt8(c.g), CreateUInt8(c.b))
  }

  /** A decoded item and the cursor position after it. */
  datatype Parsed<T> = Parsed(value: T, next: nat)

  /** `_checkRange(readSize)`: does a read of `readSize` bytes at `offset` stay inside the view? */
  predicate InRange(data: seq<byte>, offset: nat, readSize: nat) {
    readSize <= |data| - offset
  }

  /** extractUint8 at `offset`. */
  function ReadUint8(data: seq<byte>, offset: nat): (r: Result<Parsed<byte>>)
    requires offset <= |data|
    ensures r.Ok? <==> offset + 1 <= |data|
    ensures r.Ok? ==> r.value == Parsed(data[offset], offset + 1)
    ensures r.Err? ==> r.error == BufferRange
  {
    if !InRange(data, offset, 1) then Err(BufferRange) else Ok(Parsed(data[offset], offset + 1))
  }

  /** extractUint32 at `offset`: big-endian. */
  function ReadUint32(data: seq<byte>, offset: nat): (r: Result<Parsed<nat>>)
    requires offset <= |data|
    ensures r.Ok? <==> offset + 4 <= |data|
    ensures r.Ok? ==> r.value.next == offset + 4 && r.value.value < UINT32_RANGE
    ensures r.Ok? ==> CreateUInt32(r.value.value) == data[offset..offset + 4]
    ensures r.Err? ==> r.error == BufferRange
  {
    if !InRange(data, offset, 4) then Err(BufferRange)
    else
      CreateGetUint32(data[offset..offset + 4]);
      Ok(Parsed(GetUint32(data[offset..offset + 4]), offset + 4))
  }

  /** extractInt32 at `offset`: big-endian two's complement. */
  function ReadInt32(data: seq<byte>, offset: nat): (r: Result<Parsed<int>>)
    requires offset <= |data|
    ensures r.Ok? <==> offset + 4 <= |data|
    ensures r.Ok? ==> r.value.next == offset + 4 && IsInt32(r.value.value)
    ensures r.Ok? ==> CreateUInt32(r.value.value) == data[offset..offset + 4]
    ensures r.Err? ==> r.error == BufferRange
  {
    if !InRange(data, offset, 4) then Err(BufferRange)
    else
      var s := data[offset..offset + 4];
      CreateGetUint32(s);
      assert CreateUInt32(GetInt32(s)) == CreateUInt32(GetUint32(s));
      Ok(Parsed(GetInt32(s), offset + 4))
  }

  /** extractData(length) at `offset`. */
  function ReadData(data: seq<byte>, offset: nat, length: nat): (r: Result<Parsed<seq<byte>>>)
    requires offset <= |data|
    ensures r.Ok? <==> offset + length <= |data|
    ensures r.Ok? ==> r.value == Parsed(data[offset..offset + length], offset + length)
    ensures r.Err? ==> r.error == BufferRange
  {
    if !InRange(data, offset, length) then Err(BufferRange)
    else Ok(Parsed(data[offset..offset + length], offset + length))
  }

  /** extractString at `offset`: a u32 byte count, then that many bytes. */
  function ReadString(data: seq<byte>, offset: nat): (r: Result<Parsed<Text>>)
    requires offset <= |data|
    ensures r.Ok? ==> offset + 4 <= r.value.next <= |data|
    ensures r.Ok? ==> data[offset..r.value.next] == CreateLengthPrefixedString(r.value.value)
    ensures r.Err? ==> r.error == BufferRange
  {
    match ReadUint32(data, offset)
    case Err(e) => Err(e)
    case Ok(len) =>
      match ReadData(data, len.next, len.value)
      case Err(e) => Err(e)
      case Ok(str) =>
        var r := Parsed(str.value, str.next);
        GetCreateUInt32(|str.value|);
        CreateGetUint32(data[offset..offset + 4]);
        assert data[offset..r.next] == data[offset..offset + 4] + str.value;
        Ok(r)
  }

  /**
   * `_readDataValue` at `offset`: a type tag, then its payload. A number is
   * read as int32, any non-zero boolean byte is true, a colour is unpacked by
   * ExtractPackedRGBW, and any other tag, String included, throws.
   */
  function ReadValue(data: seq<byte>, offset: nat): (r: Result<Parsed<Value>>)
    requires offset <= |data|
    ensures r.Ok? ==> offset < r.value.next <= |data| && !r.value.value.Str?
    ensures r.Ok? ==> r.value.value.Type() == data[offset]
  {
    match ReadUint8(data, offset)
    case Err(e) => Err(e)
    case Ok(tag) =>
      if tag.value == TYPE_NUMBER then
        match ReadInt32(data, tag.next)
        case Err(e) => Err(e)
        case Ok(n) => Ok(Parsed(Number(n.value), n.next))
      else if tag.value == TYPE_BOOLEAN then
        match ReadUint8(data, tag.next)
        case Err(e) => Err(e)
        case Ok(b) => Ok(Parsed(Boolean(b.value > 0), b.next))
      else if tag.value == TYPE_RGBW then
        match ReadUint32(data, tag.next)
        case Err(e) => Err(e)
        case Ok(packed) => Ok(Parsed(Rgbw(ExtractPackedRGBW(packed.value)), packed.next))
      else
        Err(UnknownValueType(tag.value))
  }

  /** A u32 written by CreateUInt32 anywhere in a buffer reads back unchanged. */
  lemma ReadUint32RoundTrip(prefix: seq<byte>, n: nat, suffix: seq<byte>)
    requires n < UINT32_RANGE
    ensures ReadUint32(prefix + CreateUInt32(n) + suffix, |prefix|) == Ok(Parsed(n, |prefix| + 4))
  {
    var data := prefix + CreateUInt32(n) + suffix;
    assert data[|prefix|..|prefix| + 4] == CreateUInt32(n);
    GetCreateUInt32(n);
  }

  /** A length-prefixed string anywhere in a buffer reads back unchanged. */
  lemma ReadStringRoundTrip(prefix: seq<byte>, s: Text, suffix: seq<byte>)
    requires |s| < UINT32_RANGE
    ensures ReadString(prefix + CreateLengthPrefixedString(s) + suffix, |prefix|)
      == Ok(Parsed(s, |prefix| + 4 + |s|))
  {
    var enc := CreateLengthPrefixedString(s);
    var data := prefix + enc + suffix;
    var p := |prefix|;
    assert data[p..p + 4] == enc[..4];
    CreateGetUint32(data[p..p + 4]);
    assert data[p + 4..p + 4 + |s|] == enc[4..];
  }

  /**
   * What `_readDataValue` gives back for a value written by CreateDynamicValue:
   * numbers wrap to int32, colour bytes are truncated to 8 bits and
   * the white channel comes back signed.
   */
  function WireImage(v: Value): Value {
    match v
    case Number(n) => Number(ToInt32(n))
    case Str(s) => Str(s)
    case Boolean(b) => Boolean(b)
    case Rgbw(c) => Rgbw(RGBWColor(ToUint8(c.r), ToUint8(c.g), ToUint8(c.b), SignExtend8(ToUint8(c.w))))
  }

  /**
   * The values that survive encoding unchanged: int32 numbers, booleans and
   * colours with byte r, g, b and a white channel in the signed byte range.
   */
  predicate WireExact(v: Value) {
    match v
    case Number(n) => IsInt32(n)
    case Str(_) => true
    case Boolean(_) => true
    case Rgbw(c) => IsByte(c.r) && IsByte(c.g) && IsByte(c.b) && -0x80 <= c.w < 0x80
  }

  /** Exactly the wire-exact values are fixed points of WireImage. */
  lemma WireImageFixedPoints(v: Value)
    ensures WireImage(v) == v <==> WireExact(v)
  {
    match v
    case Rgbw(c) =>
      if WireImage(v) == v {
        assert SignExtend8(ToUint8(c.w)) == c.w;
      }
      if WireExact(v) {
        assert ToUint8(c.w) == if c.w < 0 then c.w + 0x100 else c.w;
      }
    case _ =>
  }

  /**
   * Any number, boolean or colour written by CreateDynamicValue anywhere in a
   * buffer is read back by `_readDataValue` as its wire image, and the cursor
   * lands just after it.
   */
  lemma ValueRoundTrip(prefix: seq<byte>, v: Value, suffix: seq<byte>)
    requires !v.Str?
    ensures var data := prefix + CreateDynamicValue(v) + suffix;
      ReadValue(data, |prefix|) == Ok(Parsed(WireImage(v), |prefix| + |CreateDynamicValue(v)|))
  {
    var enc := CreateDynamicValue(v);
    var data := prefix + enc + suffix;
    var p := |prefix|;
    assert data[p] == enc[0];
    match v
    case Number(n) =>
      assert data[p + 1..p + 5] == CreateUInt32(n);
      GetInt32OfCreateUInt32(n);
    case Boolean(b) =>
      assert data[p + 1] == enc[1];
    case Rgbw(c) =>
      var w, r, g, b := ToUint8(c.w), ToUint8(c.r), ToUint8(c.g), ToUint8(c.b);
      assert data[p + 1..p + 5] == [w, r, g, b];
      ExtractPackedRGBWOfWire(w, r, g, b);
  }

  /** ValueRoundTrip for a value at the very end of the buffer. */
  lemma StringAtEnd(prefix: seq<byte>, s: Text)
    requires |s| < UINT32_RANGE
    ensures var data := prefix + CreateDynamicValue(Str(s));
      ReadUint8(data, |prefix|) == Ok(Parsed(TYPE_STRING, |prefix| + 1))
      && ReadString(data, |prefix| + 1) == Ok(Parsed(s, |data|))
  {
    StringValueLayout(prefix, s, []);
    assert prefix + CreateDynamicValue(Str(s)) + [] == prefix + CreateDynamicValue(Str(s));
  }

  lemma ValueAtEnd(prefix: seq<byte>, v: Value)
    requires !v.Str?
    ensures ReadValue(prefix + CreateDynamicValue(v), |prefix|) == Ok(Parsed(WireImage(v), |prefix + CreateDynamicValue(v)|))
  {
    ValueRoundTrip(prefix, v, []);
    assert prefix + CreateDynamicValue(v) + [] == prefix + CreateDynamicValue(v);
  }

  /** A string value is written, but reading it back throws on its tag. */
  lemma StringValueRejected(prefix: seq<byte>, s: Text, suffix: seq<byte>)
    ensures var data := prefix + CreateDynamicValue(Str(s)) + suffix;
      ReadValue(data, |prefix|) == Err(UnknownValueType(TYPE_STRING))
  {
    var data := prefix + CreateDynamicValue(Str(s)) + suffix;
    assert data[|prefix|] == TYPE_STRING;
  }

  /**
   * A string value goes out as its tag and then its length-prefixed text:
   * the tag and the text read back with extractUint8 and extractString,
   * consuming exactly what was written.
   */
  lemma StringValueLayout(prefix: seq<byte>, s: Text, suffix: seq<byte>)
    requires |s| < UINT32_RANGE
    ensures var data := prefix + CreateDynamicValue(Str(s)) + suffix;
      ReadUint8(data, |prefix|) == Ok(Parsed(TYPE_STRING, |prefix| + 1))
      && ReadString(data, |prefix| + 1) == Ok(Parsed(s, |prefix| + |CreateDynamicValue(Str(s))|))
  {
    var enc := CreateDynamicValue(Str(s));
    var data := prefix + enc + suffix;
    assert data[|prefix|] == enc[0];
    assert data == (prefix + [TYPE_STRING]) + CreateLengthPrefixedString(s) + suffix by {
      assert enc == [TYPE_STRING] + enc[1..];
    }
    ReadStringRoundTrip(prefix + [TYPE_STRING], s, suffix);
  }

  /** A boolean payload byte decodes as true exactly when it is non-zero, wherever the value sits. */
  lemma BooleanDecodesNonZero(prefix: seq<byte>, b: byte, suffix: seq<byte>)
    ensures ReadValue(prefix + [TYPE_BOOLEAN, b] + suffix, |prefix|) == Ok(Parsed(Boolean(b != 0), |prefix| + 2))
  {
    var data := prefix + [TYPE_BOOLEAN, b] + suffix;
    assert data[|prefix|] == TYPE_BOOLEAN && data[|prefix| + 1] == b;
  }

  /** A colour whose white byte is 128 or more comes back with w - 256. */
  lemma WhiteChannelSignedOnRead(c: RGBWColor)
    requires IsByteColor(c) && c.w >= 0x80
    ensures ReadValue(CreateDynamicValue(Rgbw(c)), 0) == Ok(Parsed(Rgbw(c.(w := c.w - 0x100)), 5))
  {
    ValueRoundTrip([], Rgbw(c), []);
    assert [] + CreateDynamicValue(Rgbw(c)) + [] == CreateDynamicValue(Rgbw(c));
  }

  /** The separator of path strings: the UTF-8 byte of ','. */
  const COMMA: byte := 0x2C

  /** Array.prototype.toString on an array of strings: the elements joined with ','. */
  function Join(path: seq<Text>): (r: Text)
    ensures |path| == 1 ==> r == path[0]
    ensures |path| >= 2 ==> |r| > |path[0]| && r[..|path[0]|] == path[0] && r[|path[0]|] == COMMA
  {
    if |path| == 0 then []
    else if |path| == 1 then path[0]
    else path[0] + [COMMA] + Join(path[1..])
  }

  /** String.prototype.split(','): never empty, and no piece holds a comma. */
  function Split(s: Text): (r: seq<Text>)
    ensures |r| >= 1
    ensures forall i :: 0 <= i < |r| ==> COMMA !in r[i]
    decreases |s|
  {
    if |s| == 0 then [[]]
    else
      var rest := Split(s[1..]);
      if s[0] == COMMA then [[]] + rest
      else [[s[0]] + rest[0]] + rest[1..]
  }

  /** Splitting a string and joining the pieces gives the string back. */
  lemma {:induction false} JoinSplit(s: Text)
    ensures Join(Split(s)) == s
    decreases |s|
  {
    if |s| > 0 {
      var rest := Split(s[1..]);
      JoinSplit(s[1..]);
      if s[0] == COMMA {
        assert Split(s) == [[]] + rest;
        assert Join(Split(s)) == [] + [COMMA] + Join(rest);
        assert s == [COMMA] + s[1..];
      } else if |rest| == 1 {
        assert Split(s) == [[s[0]] + rest[0]];
        assert s == [s[0]] + s[1..];
      } else {
        assert Join(rest) == rest[0] + [COMMA] + Join(rest[1..]);
        assert Split(s)[1..] == rest[1..];
        assert s == [s[0]] + s[1..];
      }
    }
  }

  /** A comma-free prefix is glued onto the first piece. */
  lemma {:induction false} SplitCommaFreePrefix(a: Text, t: Text)
    requires COMMA !in a
    ensures Split(a + t) == [a + Split(t)[0]] + Split(t)[1..]
    decreases |a|
  {
    if |a| > 0 {
      SplitCommaFreePrefix(a[1..], t);
      assert (a + t)[1..] == a[1..] + t;
      assert a + t == [a[0]] + (a[1..] + t);
      assert [a[0]] + (a[1..] + Split(t)[0]) == a + Split(t)[0];
    } else {
      assert a + t == t;
      assert a + Split(t)[0] == Split(t)[0];
      assert Split(t) == [Split(t)[0]] + Split(t)[1..];
    }
  }

  /** Joining a non-empty path of comma-free names and splitting the result gives the path back. */
  lemma {:induction false} SplitJoin(path: seq<Text>)
    requires |path| >= 1
    requires forall i :: 0 <= i < |path| ==> COMMA !in path[i]
    ensures Split(Join(path)) == path
    decreases |path|
  {
    if |path| == 1 {
      SplitCommaFreePrefix(path[0], []);
      assert path[0] + [] == path[0];
    } else {
      SplitJoin(path[1..]);
      var t := [COMMA] + Join(path[1..]);
      SplitCommaFreePrefix(path[0], t);
      assert t[0] == COMMA && t[1..] == Join(path[1..]);
      assert Split(t) == [[]] + path[1..];
      assert path[0] + [] == path[0];
      assert path[0] + t == Join(path);
      assert path == [path[0]] + path[1..];
    }
  }
}
