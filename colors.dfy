/**
 * Colour values and the pure colour helpers: the packed 32-bit RGBW reading of
 * ExtractPackedRGBW, the r,g,b,w byte order of RGBWColor.toUint8Array, the
 * channel flags of ExtractColorChannels and the "#rrggbb" strings of
 * toHexColor and ExtractRGB.
 */
module Colors {
  import opened Bytes

  datatype RGBColor = RGBColor(r: int, g: int, b: int)

  datatype RGBWColor = RGBWColor(r: int, g: int, b: int, w: int) {
    /** The RGBColor part that toHexColor reads. */
    function Rgb(): RGBColor {
      RGBColor(r, g, b)
    }
  }

  /** Which sliders of a colour selector are shown. */
  datatype ColorChannels = ColorChannels(r: bool, g: bool, b: bool, w: bool)

  predicate IsByte(n: int) {
    0 <= n < 0x100
  }

  predicate IsByteColor(c: RGBWColor) {
    IsByte(c.r) && IsByte(c.g) && IsByte(c.b) && IsByte(c.w)
  }

  /**
   * RGBWColor.toUint8Array: the bytes in the order r, g, b, w. A store into a
   * Uint8Array keeps each component modulo 256, so components outside 0..255
   * wrap around.
   */
  function ToUint8Array(c: RGBWColor): (r: seq<byte>)
    ensures |r| == 4
    ensures IsByteColor(c) ==> r == [c.r, c.g, c.b, c.w]
    ensures (r[0] - c.r) % 0x100 == 0 && (r[1] - c.g) % 0x100 == 0
      && (r[2] - c.b) % 0x100 == 0 && (r[3] - c.w) % 0x100 == 0
  {
    [ToUint8(c.r), ToUint8(c.g), ToUint8(c.b), ToUint8(c.w)]
  }

  /**
   * ExtractPackedRGBW: the bitwise operators work on ToInt32 of the number;
   * `& 0xFF000000` keeps the sign bit and `>> 24` is an arithmetic shift, so
   * the white channel comes out sign-extended.
   */
  function ExtractPackedRGBW(color: int): (c: RGBWColor)
    ensures IsByte(c.r) && IsByte(c.g) && IsByte(c.b) && -0x80 <= c.w < 0x80
  {
    var u := ToUint32(color);
    RGBWColor((u / 0x1_0000) % 0x100, (u / 0x100) % 0x100, u % 0x100, SignExtend8(u / 0x100_0000))
  }

  /**
   * Four wire bytes [w, r, g, b] read as one big-endian number and unpacked
   * give back r, g and b, and w sign-extended (w - 256 when w >= 128).
   */
  lemma ExtractPackedRGBWOfWire(w: byte, r: byte, g: byte, b: byte)
    ensures ExtractPackedRGBW(GetUint32([w, r, g, b])) == RGBWColor(r, g, b, SignExtend8(w))
  {
    CreateGetUint32([w, r, g, b]);
  }

  /** Letters of the channel string (UTF-8 bytes of 'R', 'G', 'B', 'W'). */
  const CHAR_R: byte := 0x52
  const CHAR_G: byte := 0x47
  const CHAR_B: byte := 0x42
  const CHAR_W: byte := 0x57

  /** ExtractColorChannels: a channel is shown when its letter occurs anywhere in the string. */
  function ExtractColorChannels(inputString: Text): (c: ColorChannels)
    ensures c.r <==> exists i :: 0 <= i < |inputString| && inputString[i] == CHAR_R
    ensures c.g <==> exists i :: 0 <= i < |inputString| && inputString[i] == CHAR_G
    ensures c.b <==> exists i :: 0 <= i < |inputString| && inputString[i] == CHAR_B
    ensures c.w <==> exists i :: 0 <= i < |inputString| && inputString[i] == CHAR_W
  {
    ColorChannels(CHAR_R in inputString, CHAR_G in inputString, CHAR_B in inputString, CHAR_W in inputString)
  }

  /** The canonical channel string of a set of channels, letters in the order R, G, B, W. */
  function ChannelString(c: ColorChannels): Text {
    (if c.r then [CHAR_R] else []) + (if c.g then [CHAR_G] else [])
    + (if c.b then [CHAR_B] else []) + (if c.w then [CHAR_W] else [])
  }

  /** Every subset of "RGBW" is read back as exactly that subset of channels. */
  lemma ExtractChannelString(c: ColorChannels)
    ensures ExtractColorChannels(ChannelString(c)) == c
  {
    var s := ChannelString(c);
    assert CHAR_R in s <==> c.r;
    assert CHAR_G in s <==> c.g;
    assert CHAR_B in s <==> c.b;
    assert CHAR_W in s <==> c.w;
  }

  /** The lower-case digit Number.prototype.toString(16) writes for 0..15. */
  function HexDigit(d: int): char
    requires 0 <= d < 16
  {
    if d < 10 then ('0' as int + d) as char else ('a' as int + d - 10) as char
  }

  /** The digits of Number.prototype.toString(16) for a non-negative integer. */
  function NatToHex(n: nat): (s: string)
    ensures |s| >= 1
    decreases n
  {
    if n < 16 then [HexDigit(n)] else NatToHex(n / 16) + [HexDigit(n % 16)]
  }

  /** Number.prototype.toString(16) on an integer. */
  function NumberToHex(n: int): string {
    if n < 0 then "-" + NatToHex(-n) else NatToHex(n)
  }

  /** String.prototype.padStart(2, '0'). */
  function PadStart2(s: string): (r: string)
    ensures |r| == if |s| >= 2 then |s| else 2
    ensures r[|r| - |s|..] == s
  {
    if |s| >= 2 then s else seq(2 - |s|, _ => '0') + s
  }

  /** One component of toHexColor. */
  function HexComponent(n: int): string {
    PadStart2(NumberToHex(n))
  }

  /**
   * RGBColor.toHexColor: '#' and at least two digits per component, so
   * exactly seven characters for byte components (ExtractRGBOfHexColor
   * gives their digits).
   */
  function ToHexColor(c: RGBColor): (r: string)
    ensures |r| >= 7 && r[0] == '#'
    ensures IsByte(c.r) && IsByte(c.g) && IsByte(c.b) ==> |r| == 7
  {
    var hex := "#" + HexComponent(c.r) + HexComponent(c.g) + HexComponent(c.b);
    if IsByte(c.r) && IsByte(c.g) && IsByte(c.b) then
      HexComponentOfByte(c.r); HexComponentOfByte(c.g); HexComponentOfByte(c.b);
      hex
    else hex
  }

  /** A component in 0..255 is written as exactly two lower-case hex digits. */
  lemma HexComponentOfByte(n: int)
    requires IsByte(n)
    ensures HexComponent(n) == [HexDigit(n / 16), HexDigit(n % 16)]
  {
    if n < 16 {
      assert NatToHex(n) == [HexDigit(n)];
      assert n / 16 == 0 && HexDigit(0) == '0';
    } else {
      assert NatToHex(n / 16) == [HexDigit(n / 16)];
    }
  }

  predicate IsHexDigit(ch: char) {
    ('0' <= ch <= '9') || ('a' <= ch <= 'f') || ('A' <= ch <= 'F')
  }

  predicate IsLowerHexDigit(ch: char) {
    ('0' <= ch <= '9') || ('a' <= ch <= 'f')
  }

  /** The value parseInt(…, 16) gives one hex digit. */
  function HexValue(ch: char): (v: nat)
    requires IsHexDigit(ch)
    ensures v < 16
  {
    if '0' <= ch <= '9' then ch as int - '0' as int
    else if 'a' <= ch <= 'f' then ch as int - 'a' as int + 10
    else ch as int - 'A' as int + 10
  }

  /** The value of a colour picker: '#' and six hex digits. */
  predicate IsSimpleColor(s: string) {
    |s| == 7 && s[0] == '#' && forall i :: 1 <= i < 7 ==> IsHexDigit(s[i])
  }

  /** parseInt(s, 16) on two hex digits. */
  function ParseHexPair(s: string): (v: int)
    requires |s| == 2 && IsHexDigit(s[0]) && IsHexDigit(s[1])
    ensures IsByte(v)
  {
    HexValue(s[0]) * 16 + HexValue(s[1])
  }

  /** ExtractRGB: the three hex pairs of a colour picker value. */
  function ExtractRGB(color: string): (c: RGBColor)
    requires IsSimpleColor(color)
    ensures IsByte(c.r) && IsByte(c.g) && IsByte(c.b)
  {
    RGBColor(ParseHexPair(color[1..3]), ParseHexPair(color[3..5]), ParseHexPair(color[5..7]))
  }

  lemma HexDigitValue(d: int)
    requires 0 <= d < 16
    ensures IsLowerHexDigit(HexDigit(d)) && HexValue(HexDigit(d)) == d
  {
  }

  /** Two digits written for one component parse back as that component. */
  lemma ParseHexComponent(n: int)
    requires IsByte(n)
    ensures |HexComponent(n)| == 2 && IsLowerHexDigit(HexComponent(n)[0]) && IsLowerHexDigit(HexComponent(n)[1])
    ensures ParseHexPair(HexComponent(n)) == n
  {
    HexComponentOfByte(n);
    HexDigitValue(n / 16);
    HexDigitValue(n % 16);
  }

  /** The layout of "#" followed by three two-character components. */
  lemma ColorStringLayout(a: string, b: string, c: string)
    requires |a| == 2 && |b| == 2 && |c| == 2
    ensures "#" + a + b + c == ['#', a[0], a[1], b[0], b[1], c[0], c[1]]
    ensures ("#" + a + b + c)[1..3] == a && ("#" + a + b + c)[3..5] == b && ("#" + a + b + c)[5..7] == c
  {
    assert "#" + a + b + c == ['#', a[0], a[1], b[0], b[1], c[0], c[1]];
  }

  lemma SimpleColorOfDigits(d1: char, d2: char, d3: char, d4: char, d5: char, d6: char)
    requires IsLowerHexDigit(d1) && IsLowerHexDigit(d2) && IsLowerHexDigit(d3)
    requires IsLowerHexDigit(d4) && IsLowerHexDigit(d5) && IsLowerHexDigit(d6)
    ensures IsSimpleColor(['#', d1, d2, d3, d4, d5, d6])
  {
  }

  /** A colour with byte components survives toHexColor followed by ExtractRGB. */
  lemma ExtractRGBOfHexColor(c: RGBColor)
    requires IsByte(c.r) && IsByte(c.g) && IsByte(c.b)
    ensures IsSimpleColor(ToHexColor(c)) && ExtractRGB(ToHexColor(c)) == c
  {
    var hr, hg, hb := HexComponent(c.r), HexComponent(c.g), HexComponent(c.b);
    ParseHexComponent(c.r);
    ParseHexComponent(c.g);
    ParseHexComponent(c.b);
    ColorStringLayout(hr, hg, hb);
    SimpleColorOfDigits(hr[0], hr[1], hg[0], hg[1], hb[0], hb[1]);
  }

  lemma DigitOfHexValue(ch: char)
    requires IsLowerHexDigit(ch)
    ensures HexDigit(HexValue(ch)) == ch
  {
  }

  lemma DivModSixteen(hi: nat, lo: nat)
    requires hi < 16 && lo < 16
    ensures (hi * 16 + lo) / 16 == hi && (hi * 16 + lo) % 16 == lo
  {
  }

  lemma HexPairOfValue(s: string)
    requires |s| == 2 && IsLowerHexDigit(s[0]) && IsLowerHexDigit(s[1])
    ensures HexComponent(ParseHexPair(s)) == s
  {
    var v := ParseHexPair(s);
    PairDigits(s);
    HexComponentOfByte(v);
    assert s == [s[0], s[1]];
  }

  /** The two digits of a parsed pair are the quotient and remainder by 16 of its value, written out. */
  lemma PairDigits(s: string)
    requires |s| == 2 && IsLowerHexDigit(s[0]) && IsLowerHexDigit(s[1])
    ensures HexDigit(ParseHexPair(s) / 16) == s[0] && HexDigit(ParseHexPair(s) % 16) == s[1]
  {
    var hi, lo := HexValue(s[0]), HexValue(s[1]);
    assert ParseHexPair(s) / 16 == hi && ParseHexPair(s) % 16 == lo by { DivModSixteen(hi, lo); }
    DigitOfHexValue(s[0]);
    DigitOfHexValue(s[1]);
  }

  lemma SplitColorString(s: string)
    requires |s| == 7 && s[0] == '#'
    ensures s == "#" + s[1..3] + s[3..5] + s[5..7]
  {
  }

  /** A lower-case colour picker value survives ExtractRGB followed by toHexColor. */
  lemma {:induction false} HexColorOfExtractRGB(s: string)
    requires IsSimpleColor(s) && forall i :: 1 <= i < 7 ==> IsLowerHexDigit(s[i])
    ensures ToHexColor(ExtractRGB(s)) == s
  {
    var a, b, c := s[1..3], s[3..5], s[5..7];
    assert IsLowerHexDigit(a[0]) && IsLowerHexDigit(a[1]);
    assert IsLowerHexDigit(b[0]) && IsLowerHexDigit(b[1]);
    assert IsLowerHexDigit(c[0]) && IsLowerHexDigit(c[1]);
    HexPairOfValue(a);
    HexPairOfValue(b);
    HexPairOfValue(c);
    var rgb := RGBColor(ParseHexPair(a), ParseHexPair(b), ParseHexPair(c));
    assert ExtractRGB(s) == rgb;
    assert ToHexColor(rgb) == "#" + a + b + c;
    SplitColorString(s);
  }
}
