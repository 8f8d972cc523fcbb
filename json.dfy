/**
 * The parsed GUI description as ProcessJSON reads it. JSON.parse itself is
 * not modelled: it is a function parameter from the UTF-8 bytes of the
 * description to an element, or None where JSON.parse throws.
 */
module Json {
  import opened Bytes
  import opened Wrappers

  /**
   * One node of the description. Only the fields ProcessJSON reads are kept;
   * `value` is the numeric value of ranges, check boxes, selectors, number
   * fields and packed colours, `textValue` the value of text and password
   * fields.
   */
  datatype JsonElement = JsonElement(
    typeName: Text,
    name: Text,
    elements: seq<JsonElement>,
    min: int,
    max: int,
    value: int,
    textValue: Text,
    items: seq<Text>,
    readOnly: bool,
    maxLength: int,
    channel: Text)

  /** The parser JSON.parse stands for. */
  type JsonParser = seq<byte> -> Option<JsonElement>

  predicate IsAsciiUpper(b: byte) {
    0x41 <= b <= 0x5A
  }

  /**
   * String.prototype.toLowerCase on the ASCII letters: no upper-case letter is
   * left, and every other byte is kept.
   */
  function AsciiLower(s: Text): (r: Text)
    ensures |r| == |s|
    ensures forall i :: 0 <= i < |s| ==> !IsAsciiUpper(r[i])
    ensures forall i :: 0 <= i < |s| && !IsAsciiUpper(s[i]) ==> r[i] == s[i]
    ensures forall i :: 0 <= i < |s| && IsAsciiUpper(s[i]) ==> r[i] == s[i] + 0x20
  {
    seq(|s|, i requires 0 <= i < |s| => if 0x41 <= s[i] <= 0x5A then s[i] + 0x20 else s[i])
  }

  /** The type keywords ProcessJSON recognises, as UTF-8 bytes. */
  const ROOT: Text := [0x72, 0x6F, 0x6F, 0x74]                                  // "root"
  const GROUP: Text := [0x67, 0x72, 0x6F, 0x75, 0x70]                           // "group"
  const RANGE: Text := [0x72, 0x61, 0x6E, 0x67, 0x65]                           // "range"
  const CHECKBOX: Text := [0x63, 0x68, 0x65, 0x63, 0x6B, 0x62, 0x6F, 0x78]      // "checkbox"
  const RADIO: Text := [0x72, 0x61, 0x64, 0x69, 0x6F]                           // "radio"
  const DROPDOWN: Text := [0x64, 0x72, 0x6F, 0x70, 0x64, 0x6F, 0x77, 0x6E]      // "dropdown"
  const BUTTON: Text := [0x62, 0x75, 0x74, 0x74, 0x6F, 0x6E]                    // "button"
  const NUMBERFIELD_INT32: Text :=                                              // "numberfield_int32"
    [0x6E, 0x75, 0x6D, 0x62, 0x65, 0x72, 0x66, 0x69, 0x65, 0x6C, 0x64, 0x5F, 0x69, 0x6E, 0x74, 0x33, 0x32]
  const TEXTFIELD: Text := [0x74, 0x65, 0x78, 0x74, 0x66, 0x69, 0x65, 0x6C, 0x64] // "textfield"
  const PASSWORD: Text := [0x70, 0x61, 0x73, 0x73, 0x77, 0x6F, 0x72, 0x64]      // "password"
  const RGBWRANGE: Text := [0x72, 0x67, 0x62, 0x77, 0x72, 0x61, 0x6E, 0x67, 0x65] // "rgbwrange"
}
