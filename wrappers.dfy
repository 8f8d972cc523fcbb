/** Option and Result, plus the conditions the client throws or logs. */
module Wrappers {

  datatype Option<+T> = None | Some(value: T)

  /** The exceptions of the client, one constructor per distinct `throw`. */
  datatype Error =
    | BufferRange                 // NetworkBufferReader: read past the end of the view
    | UnknownValueType(tag: int)  // _readDataValue: a type tag it cannot decode
    | WrongDataType               // ValueWrapper getters on the wrong tag
    | InvalidPath                 // setPathValue / checkValidPath: the path does not address this node
    | ChildNotPresent             // setPathValue: no child carries the next name
    | IncompatibleType            // a leaf is given a value of the wrong type
    | IndexOutOfBounds            // a selector is given an index outside its options
    | RangeOutOfBounds            // a range is given a value outside [min, max]
    | JsonParseError              // JSON.parse rejects a reassembled GUI description
    | RemoveFailed                // destroy: the parent does not hold the element
    | NotAColorSelector           // an input event mapped to a classic characteristic comes from another kind of element
    | NotAColorValue              // an input event mapped to a classic characteristic carries no colour

  datatype Result<+T> = Ok(value: T) | Err(error: Error)
}
