/**
 * Byte-level helpers of the client: the integer conversions JavaScript applies
 * when a number is stored into a Uint8Array or a DataView, big-endian 32-bit
 * encoding and decoding, array concatenation and the element-wise copy MemCpy.
 */
module Bytes {

  /** One element of a Uint8Array. */
  type byte = x: int | 0 <= x < 0x100

  /**
   * A JavaScript string as it travels: its UTF-8 encoding. TextEncoder and
   * TextDecoder are the identity on this representation.
   */
  type Text = seq<byte>

  const UINT32_RANGE: int := 0x1_0000_0000
  const INT32_MIN: int := -0x8000_0000
  const INT32_MAX: int := 0x7FFF_FFFF

  predicate IsInt32(n: int) {
    INT32_MIN <= n <= INT32_MAX
  }

  /** ECMAScript ToUint8 on an integer: what `array[i] = n` stores. */
  function ToUint8(n: int): (r: byte)
    ensures 0 <= n < 0x100 ==> r == n
    ensures (n - r) % 0x100 == 0
  {
    n % 0x100
  }

  /** ECMAScript ToUint32 on an integer. */
  function ToUint32(n: int): (r: nat)
    ensures r < UINT32_RANGE
    ensures 0 <= n < UINT32_RANGE ==> r == n
    ensures (n - r) % UINT32_RANGE == 0
  {
    n % UINT32_RANGE
  }

  /** ECMAScript ToInt32 on an integer: the two's complement reading of ToUint32. */
  function ToInt32(n: int): (r: int)
    ensures IsInt32(r)
    ensures IsInt32(n) ==> r == n
    ensures ToUint32(r) == ToUint32(n)
  {
    var u := ToUint32(n);
    if u > INT32_MAX then u - UINT32_RANGE else u
  }

  /** The signed reading of one byte, as an arithmetic `>> 24` leaves the top byte. */
  function SignExtend8(b: byte): (r: int)
    ensures -0x80 <= r < 0x80
    ensures ToUint8(r) == b
  {
    if b >= 0x80 then b - 0x100 else b
  }

  /** PacketBuilder.CreateUInt8: a one-byte array holding ToUint8(n). */
  function CreateUInt8(n: int): (r: seq<byte>)
    ensures |r| == 1 && r[0] == ToUint8(n)
  {
    [ToUint8(n)]
  }

  /** PacketBuilder.CreateUInt32: DataView.setUint32(0, n, false) on a 4-byte array. */
  function CreateUInt32(n: int): (r: seq<byte>)
    ensures |r| == 4
  {
    var u := ToUint32(n);
    [u / 0x100_0000, (u / 0x1_0000) % 0x100, (u / 0x100) % 0x100, u % 0x100]
  }

  /** DataView.getUint32(offset, false) on four bytes. */
  function GetUint32(s: seq<byte>): (r: nat)
    requires |s| == 4
    ensures r < UINT32_RANGE
  {
    (s[0] as int) * 0x100_0000 + (s[1] as int) * 0x1_0000 + (s[2] as int) * 0x100 + s[3]
  }

  /** DataView.getInt32(offset, false) on four bytes. */
  function GetInt32(s: seq<byte>): (r: int)
    requires |s| == 4
    ensures IsInt32(r) && ToUint32(r) == GetUint32(s)
  {
    ToInt32(GetUint32(s))
  }

  /** Reading back what CreateUInt32 wrote yields ToUint32 of the input. */
  lemma GetCreateUInt32(n: int)
    ensures GetUint32(CreateUInt32(n)) == ToUint32(n)
  {
    var u := ToUint32(n);
    var s := CreateUInt32(n);
    var q1 := u / 0x100;
    var q2 := q1 / 0x100;
    assert u == q1 * 0x100 + u % 0x100;
    assert q1 == q2 * 0x100 + q1 % 0x100;
    assert q2 == (q2 / 0x100) * 0x100 + q2 % 0x100;
    assert u / 0x1_0000 == q2;
    assert u / 0x100_0000 == q2 / 0x100;
    assert s[1] == q2 % 0x100 && s[2] == q1 % 0x100;
  }

  /** Writing back four bytes read with GetUint32 reproduces them. */
  lemma CreateGetUint32(s: seq<byte>)
    requires |s| == 4
    ensures CreateUInt32(GetUint32(s)) == s
  {
    var u := GetUint32(s);
    var a, b, c, d := s[0] as int, s[1] as int, s[2] as int, s[3] as int;
    assert u == (a * 0x1_0000 + b * 0x100 + c) * 0x100 + d;
    assert u / 0x100 == a * 0x1_0000 + b * 0x100 + c && u % 0x100 == d by {
      DivModByte(a * 0x1_0000 + b * 0x100 + c, d);
    }
    assert (u / 0x100) / 0x100 == a * 0x100 + b && (u / 0x100) % 0x100 == c by {
      DivModByte(a * 0x100 + b, c);
    }
    assert ((u / 0x100) / 0x100) / 0x100 == a && ((u / 0x100) / 0x100) % 0x100 == b by {
      DivModByte(a, b);
    }
    assert u / 0x1_0000 == (u / 0x100) / 0x100 by { DivDiv(u); }
    assert u / 0x100_0000 == ((u / 0x100) / 0x100) / 0x100 by { DivDiv(u); DivDiv(u / 0x100); }
    assert CreateUInt32(u) == [a, b, c, d];
  }

  /** Division of a base-256 numeral by 256: the quotient and the last digit. */
  lemma DivModByte(q: int, r: int)
    requires 0 <= r < 0x100
    ensures (q * 0x100 + r) / 0x100 == q && (q * 0x100 + r) % 0x100 == r
  {
  }

  /** Dividing twice by 256 divides by 65536. */
  lemma DivDiv(u: nat)
    ensures u / 0x1_0000 == (u / 0x100) / 0x100
    ensures u / 0x100_0000 == (u / 0x1_0000) / 0x100
  {
  }

  /** A 32-bit number round-trips through its wire form read with getInt32. */
  lemma GetInt32OfCreateUInt32(n: int)
    ensures GetInt32(CreateUInt32(n)) == ToInt32(n)
  {
    GetCreateUInt32(n);
  }

  /** MergeUint8Arrays: a fresh array holding `a` followed by `b`. */
  function MergeUint8Arrays(a: seq<byte>, b: seq<byte>): (r: seq<byte>)
    ensures |r| == |a| + |b| && r[..|a|] == a && r[|a|..] == b
  {
    a + b
  }

  function MergeUint8Arrays3(a: seq<byte>, b: seq<byte>, c: seq<byte>): (r: seq<byte>)
    ensures r == a + b + c
  {
    MergeUint8Arrays(MergeUint8Arrays(a, b), c)
  }

  function MergeUint8Arrays4(a: seq<byte>, b: seq<byte>, c: seq<byte>, d: seq<byte>): (r: seq<byte>)
    ensures r == a + b + c + d
  {
    MergeUint8Arrays(MergeUint8Arrays(a, b), MergeUint8Arrays(c, d))
  }

  function MergeUint8Arrays5(a: seq<byte>, b: seq<byte>, c: seq<byte>, d: seq<byte>, e: seq<byte>): (r: seq<byte>)
    ensures r == a + b + c + d + e
  {
    MergeUint8Arrays(MergeUint8Arrays4(a, b, c, d), e)
  }

  /**
   * The contents of a typed array after `data` is stored element by element
   * from index `at`: stores past the end of a typed array are dropped.
   */
  function Blit(buffer: seq<byte>, at: nat, data: seq<byte>): (r: seq<byte>)
    ensures |r| == |buffer|
    ensures at + |data| <= |buffer| ==> r == buffer[..at] + data + buffer[at + |data|..]
    ensures at >= |buffer| ==> r == buffer
    ensures at <= |buffer| <= at + |data| ==> r == buffer[..at] + data[..|buffer| - at]
  {
    seq(|buffer|, i requires 0 <= i < |buffer| => if at <= i < at + |data| then data[i - at] else buffer[i])
  }

  /** MemCpy: copies `length` bytes of `source` into `target` from `targetOffset` on. */
  method MemCpy(target: array<byte>, targetOffset: nat, source: seq<byte>, sourceOffset: nat, length: nat)
    requires sourceOffset + length <= |source|
    modifies target
    ensures target[..] == Blit(old(target[..]), targetOffset, source[sourceOffset..sourceOffset + length])
  {
    ghost var data := source[sourceOffset..sourceOffset + length];
    for i := 0 to length
      invariant forall k :: 0 <= k < target.Length ==>
        target[k] == if targetOffset <= k < targetOffset + i then data[k - targetOffset] else old(target[k])
    {
      if targetOffset + i < target.Length {
        target[targetOffset + i] := source[sourceOffset + i];
      }
    }
    assert target[..] == Blit(old(target[..]), targetOffset, data);
  }
}
