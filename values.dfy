/**
 * ValueWrapper: a value exchanged with the device together with its
 * ValueType tag. The JavaScript wrapper determines the tag from the runtime
 * type of the value; here each tag is a constructor, so the "unsupported
 * type" throw of `_determineType` cannot arise.
 */
module Values {
  import opened Bytes
  import opened Colors
  import opened Wrappers

  /** ValueType as numbered on the wire. */
  const TYPE_NUMBER: byte := 0
  const TYPE_STRING: byte := 1
  const TYPE_BOOLEAN: byte := 2
  const TYPE_RGBW: byte := 3

  datatype Value =
    | Number(n: int)
    | Str(s: Text)
    | Boolean(b: bool)
    | Rgbw(color: RGBWColor)
  {
    /** The `type` field of the wrapper. */
    function Type(): (t: byte)
      ensures t <= TYPE_RGBW
      ensures (t == TYPE_NUMBER <==> Number?) && (t == TYPE_STRING <==> Str?)
      ensures (t == TYPE_BOOLEAN <==> Boolean?) && (t == TYPE_RGBW <==> Rgbw?)
    {
      match this
      case Number(_) => TYPE_NUMBER
      case Str(_) => TYPE_STRING
      case Boolean(_) => TYPE_BOOLEAN
      case Rgbw(_) => TYPE_RGBW
    }

    /** getNumberValue: the number, or a wrong-data-type throw. */
    function GetNumberValue(): (r: Result<int>)
      ensures r.Ok? <==> Number?
      ensures r.Ok? ==> r.value == n
      ensures r.Err? ==> r.error == WrongDataType
    {
      if Number? then Ok(n) else Err(WrongDataType)
    }

    /** getStringValue. */
    function GetStringValue(): (r: Result<Text>)
      ensures r.Ok? <==> Str?
      ensures r.Ok? ==> r.value == s
      ensures r.Err? ==> r.error == WrongDataType
    {
      if Str? then Ok(s) else Err(WrongDataType)
    }

    /** getBooleanValue. */
    function GetBooleanValue(): (r: Result<bool>)
      ensures r.Ok? <==> Boolean?
      ensures r.Ok? ==> r.value == b
      ensures r.Err? ==> r.error == WrongDataType
    {
      if Boolean? then Ok(b) else Err(WrongDataType)
    }

    /** getRGBWValue. */
    function GetRGBWValue(): (r: Result<RGBWColor>)
      ensures r.Ok? <==> Rgbw?
      ensures r.Ok? ==> r.value == color
      ensures r.Err? ==> r.error == WrongDataType
    {
      if Rgbw? then Ok(color) else Err(WrongDataType)
    }
  }
}
