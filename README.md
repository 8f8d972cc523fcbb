# Web Bluetooth GUI client — a Dafny model

`ble/ble.js` is a browser client for LED controllers that speak Bluetooth Low
Energy. It connects to a device and walks its characteristics. For the GUI
characteristic it runs a small request/response protocol:

- It asks for a description of the device's user interface, a JSON tree of
  groups and controls that may arrive split over many notifications.
- It builds that tree out of UI elements.
- It sends every change the user makes back as a `SetValue` packet.
- It applies `UpdateValue` packets the device pushes.

Classic RGBW characteristics get one colour picker each. The picker writes its
four colour bytes straight to the characteristic. The writes go through one
global map keyed by characteristic UUID and shared by every connected device,
so at most one write is in flight per UUID across all devices. A colour set on
one device while another device's write to the same UUID is in flight is later
written to that other device (`ClassicColor.CrossDeviceColorGoesToFirstCaller`).

This project models the core of that file:

- the wire codec (`PacketBuilder`, `NetworkBufferReader`, `_readDataValue`);
- the reassembly of long messages (`BLEDataReader`);
- the write queue (`BLEDataWriter`);
- the protocol handler (`GUIProtocolHandler`);
- the element tree (`AUIElement`, `UIGroupElement` and the leaf classes) with its path addressing and input forwarding;
- `ProcessJSON`;
- the colour helpers;
- `SetColor`;
- the parts of `DeviceConnection` that route events between them.

Modules, one per file:

| module | file | models |
|---|---|---|
| `Bytes` | bytes.dfy | Uint8Array stores, DataView big-endian u32/i32, `MergeUint8Arrays*`, `MemCpy` |
| `Colors` | colors.dfy | `RGBColor`, `RGBWColor`, `ColorChannels`, `toHexColor`, `ExtractRGB`, `ExtractPackedRGBW`, `ExtractColorChannels` |
| `Values` | values.dfy | `ValueWrapper` |
| `Codec` | codec.dfy | `PacketBuilder`, the reads of `NetworkBufferReader` as functions, `_readDataValue`, path join/split |
| `Reader` | reader.dfy | `NetworkBufferReader` as a class with a cursor |
| `Reassembly` | reassembly.dfy | `BLEDataReader` over an `array` |
| `Writer` | writer.dfy | `BLEDataWriter`: its queue, the write in flight and the retry counter |
| `Json` | json.dfy | the parsed description node and the type keywords |
| `Protocol` | protocol.dfy | `GUIProtocolHandler` |
| `Tree` | tree.dfy | element trees as values: path resolution, `setPathValue`, the reaction of each control to user input |
| `Elements` | elements.dfy | `AUIElement` / `UIGroupElement` and the leaf classes, as one class whose ghost `model` is a `Tree.Node` |
| `Builder` | builder.dfy | `ProcessJSON` |
| `ClassicColor` | colorwriter.dfy | `SetColor` and `PendingCharacteristicPromises` |
| `Connection` | connection.dfy | `DeviceConnection`: characteristic mapping, event routing, GUI callbacks |

Stateful parts are classes whose methods change their fields. Each method is
proved against a pure function of the old state (for example
`Step(State(), write) == AfterSendData(old(State()), groupName, data)`). The
lemmas about the source's behaviour are stated on those functions.

JavaScript identity comparisons are modelled with version numbers:

- `===` on the queued payload in `BLEDataWriter`;
- `!=` on the colour object in `SetColor`.

Asynchronous completions (`writeValue` resolving or rejecting) are explicit
methods, called in whatever order the caller chooses.

Where the code and its documentation disagree, the model follows the code:

- **UpdateValue body.** After the request id, an `UpdateValue` body carries a
  second u32 that is read and ignored (ble/ble.js:750-768). Then come the path
  and the value.
- **Finished writes.** A write that completes removes the queue head but does
  not start the next entry (ble/ble.js:864-871).
- **Retry counter.** The failure counter belongs to the writer, not to one
  payload, and is never reset (ble/ble.js:872-882).
- **Overshoot.** A reassembly whose data overshoots the announced length
  never completes. It does not report an error (ble/ble.js:894-902).

## Model

| member | source | states |
|---|---|---|
| Bytes.ToUint8 | ble/ble.js:795-799 | storing an integer in a Uint8Array keeps it modulo 256, and a value in 0..255 unchanged |
| Bytes.ToUint32 | ble/ble.js:800-804 | the unsigned 32-bit image of an integer, congruent to it modulo 2^32 |
| Bytes.ToInt32 | ble/ble.js:924-929 | the signed 32-bit image: an int32, equal to the input when the input is an int32, with the same unsigned image |
| Bytes.GetUint32 | ble/ble.js:920 | DataView.getUint32: a value below 2^32; GetCreateUInt32 and CreateGetUint32 make it the big-endian inverse of setUint32 |
| Bytes.GetInt32 | ble/ble.js:926 | DataView.getInt32: the int32 whose unsigned 32-bit image is getUint32 of the same bytes |
| Bytes.SignExtend8 | ble/ble.js:1166-1172 | what an arithmetic `>> 24` leaves of the top byte: a value in -128..127 whose low byte is that byte |
| Bytes.CreateUInt8 | ble/ble.js:795-799 | one byte, holding the number modulo 256 |
| Bytes.CreateUInt32 | ble/ble.js:800-804 | four bytes |
| Bytes.GetCreateUInt32 | ble/ble.js:800-804 | reading back a CreateUInt32 image with getUint32 yields ToUint32 of the number |
| Bytes.CreateGetUint32 | ble/ble.js:918-923 | any four bytes read as u32 and written back are the same four bytes |
| Bytes.GetInt32OfCreateUInt32 | ble/ble.js:924-929 | the image read with getInt32 is ToInt32 of the number |
| Bytes.MergeUint8Arrays | ble/ble.js:1114-1119 | the result holds the first array and then the second, with the summed length |
| Bytes.MergeUint8Arrays3 | ble/ble.js:1120-1122 | the three arrays in order |
| Bytes.MergeUint8Arrays4 | ble/ble.js:1123-1125 | the four arrays in order |
| Bytes.MergeUint8Arrays5 | ble/ble.js:1126-1128 | the five arrays in order |
| Bytes.Blit | ble/ble.js:1129-1133 | a Uint8Array store of `data` at `at`: the bytes before and after are kept; what falls past the end is dropped, as typed-array stores do |
| Bytes.MemCpy | ble/ble.js:1129-1133 | the target array afterwards is Blit of its old contents with the copied slice of the source |
| Colors.ToUint8Array | ble/ble.js:1151-1158 | four bytes, r, g, b, w in that order, each the component modulo 256 (exactly the component when it is a byte) |
| Colors.ExtractPackedRGBW | ble/ble.js:1166-1172 | r, g, b are bytes; w is a signed byte because the shift by 24 is arithmetic |
| Colors.ExtractPackedRGBWOfWire | ble/ble.js:1166-1172 | four wire bytes w, r, g, b unpack to r, g, b and the sign-extended w |
| Colors.ExtractColorChannels | ble/ble.js:1181-1187 | a channel is on exactly when its upper-case letter occurs in the string |
| Colors.ExtractChannelString | ble/ble.js:1181-1187 | every subset of channels written as letters is read back as that subset |
| Colors.NatToHex | ble/ble.js:1140-1144 | toString(16) writes at least one digit |
| Colors.PadStart2 | ble/ble.js:1140-1144 | padStart(2,'0') keeps the string as its suffix and makes it at least two long |
| Colors.ToHexColor | ble/ble.js:1140-1144 | '#' and at least two digits per component: seven characters when the components are bytes |
| Colors.HexComponentOfByte | ble/ble.js:1140-1144 | a byte component is written as exactly two lower-case hex digits, high then low |
| Colors.HexValue | ble/ble.js:1160-1165 | a hex digit is worth less than 16 |
| Colors.ParseHexPair | ble/ble.js:1160-1165 | two hex digits parse to a byte |
| Colors.ExtractRGB | ble/ble.js:1160-1165 | a picker value "#rrggbb" gives three byte components |
| Colors.ParseHexComponent | ble/ble.js:1140-1165 | the two digits toHexColor writes for a byte parse back to that byte |
| Colors.ExtractRGBOfHexColor | ble/ble.js:1140-1165 | round trip: ExtractRGB(toHexColor(c)) == c for byte components, and the string is a valid picker value |
| Colors.HexColorOfExtractRGB | ble/ble.js:1140-1165 | the other direction: a lower-case picker value survives ExtractRGB followed by toHexColor |
| Values.Value.Type | ble/ble.js:51-65 | the type tag, one per kind of value, as numbered on the wire |
| Values.Value.GetNumberValue | ble/ble.js:27-32 | the number when the wrapper holds one, the wrong-data-type error otherwise |
| Values.Value.GetStringValue | ble/ble.js:33-38 | the string when the wrapper holds one, the wrong-data-type error otherwise |
| Values.Value.GetBooleanValue | ble/ble.js:39-44 | the boolean when the wrapper holds one, the wrong-data-type error otherwise |
| Values.Value.GetRGBWValue | ble/ble.js:45-50 | the colour when the wrapper holds one, the wrong-data-type error otherwise |
| Codec.CreatePacketHeader | ble/ble.js:792-794 | five bytes: the kind byte, then the request id that reads back as ToUint32(id) |
| Codec.CreateLengthPrefixedString | ble/ble.js:805-808 | a u32 byte count that reads back as the length, then the bytes themselves |
| Codec.CreateDynamicValue | ble/ble.js:809-825 | the type tag, then the payload of that type's size; a string's payload is its length-prefixed text |
| Codec.ReadUint8 | ble/ble.js:912-917 | the byte at the cursor and the cursor advanced by one, or the range error exactly when no byte is left |
| Codec.ReadUint32 | ble/ble.js:918-923 | a u32 whose big-endian image is the four bytes at the cursor, or the range error exactly when fewer than four are left |
| Codec.ReadInt32 | ble/ble.js:924-929 | an int32 whose image is the four bytes at the cursor, or the range error exactly when fewer than four are left |
| Codec.ReadData | ble/ble.js:930-935 | the next `length` bytes, or the range error exactly when fewer are left |
| Codec.ReadString | ble/ble.js:939-943 | a successful read consumed exactly the length-prefixed form of the string it returns |
| Codec.ReadValue | ble/ble.js:769-789 | a decoded value has the tag byte read, is never a string and lies inside the buffer |
| Codec.ReadUint32RoundTrip | ble/ble.js:918-923 | a u32 written anywhere in a buffer reads back unchanged |
| Codec.ReadStringRoundTrip | ble/ble.js:939-943 | a length-prefixed string written anywhere in a buffer reads back unchanged |
| Codec.WireImageFixedPoints | ble/ble.js:769-789 | the values that survive the wire unchanged are exactly the wire-exact ones |
| Codec.ValueRoundTrip | ble/ble.js:769-825 | every non-string value written with CreateDynamicValue reads back as its wire image, consuming exactly what was written |
| Codec.StringValueRejected | ble/ble.js:769-789 | a string value is written, but reading it back fails on its type tag |
| Codec.BooleanDecodesNonZero | ble/ble.js:776-779 | a boolean byte decodes as true exactly when it is non-zero, wherever the value sits in the buffer |
| Codec.StringValueLayout | ble/ble.js:816-817 | a string value is written as its tag followed by a length-prefixed string, which extractUint8 and extractString read back exactly, anywhere in a buffer |
| Codec.WhiteChannelSignedOnRead | ble/ble.js:780-784 | a colour whose white byte is 128 or more comes back with w - 256 |
| Codec.Join | ble/ble.js:690 | `toString()` of a path: a single name is itself; a longer path starts with its first name followed by a comma |
| Codec.Split | ble/ble.js:763 | split(',') never returns an empty array, and no piece holds a comma |
| Codec.JoinSplit | ble/ble.js:763 | joining the pieces of a split with ',' gives the string back |
| Codec.SplitJoin | ble/ble.js:687-694 | a non-empty path of comma-free names, joined as setValue does and split as UpdateValue does, is the same path |
| Reader.NetworkBufferReader.constructor | ble/ble.js:905-908 | the cursor starts at 0 on the given bytes |
| Reader.NetworkBufferReader.GetRemainingSize | ble/ble.js:909-911 | cursor plus remaining size is the buffer length |
| Reader.NetworkBufferReader.ExtractUint8 | ble/ble.js:912-917 | returns what ReadUint8 reads, moving the cursor past it; on a range error the cursor stays |
| Reader.NetworkBufferReader.ExtractUint32 | ble/ble.js:918-923 | returns what ReadUint32 reads, moving the cursor past it; on a range error the cursor stays |
| Reader.NetworkBufferReader.ExtractInt32 | ble/ble.js:924-929 | returns what ReadInt32 reads, moving the cursor past it; on a range error the cursor stays |
| Reader.NetworkBufferReader.ExtractData | ble/ble.js:930-935 | returns what ReadData reads, moving the cursor past it; on a range error the cursor stays |
| Reader.NetworkBufferReader.ExtractRemainingData | ble/ble.js:936-938 | never fails, returns every byte left and leaves the cursor at the end |
| Reader.NetworkBufferReader.ExtractString | ble/ble.js:939-943 | returns what ReadString reads; when the length word was read but the bytes are missing, the cursor stays past the length word |
| Reassembly.Begin | ble/ble.js:888-893 | a buffer of the announced size holding the first block at its start (cut at the size) and zeros after it, and the offset at the first block's length even when that block is longer |
| Reassembly.Append | ble/ble.js:894-902 | the data lands at the offset, the offset grows by its length, and completion is reported exactly when the offset hits the buffer length |
| Reassembly.Feed | ble/ble.js:894-902 | notifications up to the first that completes; a completed reassembly has filled the buffer |
| Reassembly.FeedDeliversWholeMessage | ble/ble.js:894-902 | non-empty chunks whose lengths add up to what is missing complete on the last chunk, and the buffer then holds the received bytes in order |
| Reassembly.OvershootNeverCompletes | ble/ble.js:894-902 | once the offset has passed the buffer length, no later notification completes the message |
| Reassembly.FullFirstBlockStalls | ble/ble.js:733-749 | when the first block already fills the message, only an empty notification completes it, and after any non-empty one nothing ever does |
| Reassembly.BLEDataReader.constructor | ble/ble.js:888-893 | the reader's state is Begin(expectedSize, firstBlock), in a fresh array |
| Reassembly.BLEDataReader.AppendData | ble/ble.js:894-902 | the new state and the completion flag are those of Append |
| Writer.AfterSendData | ble/ble.js:847-859 | a payload for the head's group replaces only the head's data; otherwise it is queued, and the write starts exactly when the queue was empty |
| Writer.AfterWriteSuccess | ble/ble.js:864-871 | the head is removed when its data is unchanged since the write started, and rewritten otherwise; the next entry is not started |
| Writer.AfterWriteFailure | ble/ble.js:872-882 | the counter goes up by one; the same bytes are written again while it is at most 10, and the writer stops otherwise |
| Writer.SendAll | ble/ble.js:847-859 | a run of sendData calls keeps the queue invariant |
| Writer.BurstCoalescesIntoHead | ble/ble.js:850-853 | payloads for the head's group queue nothing and write nothing, and the head ends up holding the last one, as a payload newer than any sent before the burst |
| Writer.BurstThenSuccessWritesLast | ble/ble.js:835-839 | while a write is in flight, a burst for its group writes nothing, and when the write succeeds exactly the last payload of the burst is written next |
| Writer.IdleNonEmptyQueueStaysSilent | ble/ble.js:847-859 | with entries queued but no write in flight, later sendData calls never write again |
| Writer.PopStrandsNextEntry | ble/ble.js:864-871 | a completed write with more entries behind it starts nothing, and later calls write nothing |
| Writer.FailTimes | ble/ble.js:872-882 | repeated failures keep the queue invariant |
| Writer.FailuresRetrySameBytes | ble/ble.js:872-882 | within the budget, n failures write the same bytes n more times and raise the counter by n |
| Writer.FailureBudgetIsShared | ble/ble.js:872-882 | a fresh writer retries ten times; a writer that has used up its budget on earlier payloads gives up on the first failure of a new one |
| Writer.BLEDataWriter.constructor | ble/ble.js:842-846 | an empty queue, a zero counter, nothing in flight |
| Writer.BLEDataWriter.SendData | ble/ble.js:847-859 | the new state and the write are those of AfterSendData |
| Writer.BLEDataWriter.StartSend | ble/ble.js:860-885 | the head's current data is written and becomes the write in flight; nothing else changes |
| Writer.BLEDataWriter.OnWriteSuccess | ble/ble.js:864-871 | the new state and the write are those of AfterWriteSuccess |
| Writer.BLEDataWriter.OnWriteFailure | ble/ble.js:872-882 | the new state and the write are those of AfterWriteFailure |
| Protocol.RequestId | ble/ble.js:695-700 | the id is the clock modulo 0xFFFFFFFF |
| Protocol.RequestGuiPacket | ble/ble.js:701-705 | five bytes: the RequestGUI kind, then the id |
| Protocol.SetValuePacket | ble/ble.js:688-693 | the SetValue header for the id, then 4 + the joined path's length + the value's encoded length bytes |
| Protocol.SetValuePacketLayout | ble/ble.js:687-694 | a SetValue packet reads back as its kind, the id, the comma-joined path and the value: its wire image for a number, boolean or colour, and its tag and text for a string |
| Protocol.GuiDataOutcome | ble/ble.js:733-749 | a GUIData body starts a reassembly of the announced length with the rest as first block, marked own exactly when the id is pending; a short body is a range error |
| Protocol.UpdateValueOutcome | ble/ble.js:750-768 | an UpdateValue body is ignored when its id is pending, and otherwise gives a path and a non-string value, or an error |
| Protocol.PacketBegin | ble/ble.js:718-732 | dispatch on the first byte: GUIData starts a reassembly, UpdateValue an update, anything else (or nothing) is unknown |
| Protocol.Continue | ble/ble.js:709-715 | a notification during a reassembly is appended; on completion the reassembly is dropped only when parsing succeeds, and an own request leaves the pending ids and yields the JSON |
| Protocol.Start | ble/ble.js:716-732 | a notification with nothing pending starts a message; the pending ids are unchanged and no JSON is delivered |
| Protocol.Receive | ble/ble.js:706-717 | the pending ids only shrink, and only when a GUI description is delivered |
| Protocol.ReceiveAll | ble/ble.js:706-717 | one event per notification |
| Protocol.GuiDataHeaderBegins | ble/ble.js:733-749 | a GUIData header notification starts a reassembly with its id, length and first block |
| Protocol.ForeignUpdateDelivered | ble/ble.js:750-768 | an update from another party is delivered with its path split at commas and its value's wire image |
| Protocol.OwnUpdateIgnored | ble/ble.js:754-758 | an update carrying one of our pending ids is dropped, whatever follows |
| Protocol.StringUpdateThrows | ble/ble.js:760-761 | an update carrying a string value fails when the value is read |
| Protocol.UnknownPacketChangesNothing | ble/ble.js:729-731 | an unknown first byte leaves the state unchanged |
| Protocol.OwnGuiDataDeliveredOnce | ble/ble.js:733-749 | a requested description sent in pieces is delivered exactly once, on the last piece, as the concatenated bytes, and its id leaves the pending set |
| Protocol.ReassemblyRun | ble/ble.js:706-717 | the notifications of a reassembly are quiet until the one that completes it, which delivers the parsed JSON |
| Protocol.StuckAfterParseFailure | ble/ble.js:741-748 | once a completed message fails to parse, every later non-empty notification is swallowed by the stale reassembly |
| Protocol.PendingIdsLeaveOnlyWithGuiJson | ble/ble.js:695-749 | across any run the pending ids only shrink, and stay the same when no description is delivered |
| Protocol.GUIProtocolHandler.constructor | ble/ble.js:666-686 | no pending ids, no reassembly, an empty writer |
| Protocol.GUIProtocolHandler.GenerateRequestId | ble/ble.js:695-700 | returns RequestId(now) and adds it to the pending ids |
| Protocol.GUIProtocolHandler.RequestGui | ble/ble.js:701-705 | adds the id and passes the RequestGUI packet to sendData under "RequestHeader" |
| Protocol.GUIProtocolHandler.SetValue | ble/ble.js:687-694 | adds the id and passes the SetValue packet to sendData with the joined path as group name |
| Protocol.GUIProtocolHandler.ReadDataValue | ble/ble.js:769-789 | returns what ReadValue decodes at the cursor |
| Protocol.GUIProtocolHandler.HandleGuiData | ble/ble.js:733-749 | installs the reassembly GuiDataOutcome describes |
| Protocol.GUIProtocolHandler.HandleUpdateValue | ble/ble.js:750-768 | returns UpdateValueOutcome for the body |
| Protocol.GUIProtocolHandler.OnCharacteristicChanged | ble/ble.js:706-717 | the new state and the event are those of Receive |
| Protocol.GUIProtocolHandler.HandlePacketBegin | ble/ble.js:718-732 | the new state and the event are those of Start |
| Tree.TypeOf | ble/ble.js:107-651 | each kind of control belongs to its element class (groups, selectors, text fields) |
| Tree.FirstChildNamed | ble/ble.js:234-241 | the index of the first child with that name, and none exactly when no child has it |
| Tree.Resolve | ble/ble.js:135-142 | a resolved path starts with the tree's name, ends with the leaf's name, and addresses a leaf |
| Tree.ResolveReplaceAt | ble/ble.js:135-142 | after a leaf is replaced, its path addresses the new leaf |
| Tree.ResolveReplaceAtOther | ble/ble.js:135-142 | every other path addresses what it addressed before |
| Tree.ReplaceAtSameShape | ble/ble.js:135-142 | replacing a leaf by one of the same type keeps every name and type in the tree |
| Tree.Assign | ble/ble.js:326-628 | each leaf class accepts only its own value type and throws otherwise; a button accepts anything and changes nothing; the element type never changes |
| Tree.SetPathValueSpec | ble/ble.js:80-142 | setPathValue succeeds exactly when the path resolves to a leaf that accepts the value, and then that leaf is replaced by the assigned one |
| Tree.SetPathValueFrame | ble/ble.js:80-142 | a successful setPathValue changes only the addressed leaf and keeps the tree's shape |
| Tree.GroupIsNotALeaf | ble/ble.js:135-137 | a path that ends at a group is rejected as invalid |
| Tree.WireValueNeverSetsText | ble/ble.js:622-628 | no value decoded from the wire can be stored in a text field |
| Tree.WireUpdateKeepsNumbersInt32 | ble/ble.js:572-578 | updates from the wire keep every number field within int32 |
| Tree.Clamp | ble/ble.js:592-600 | the result is an int32: the input when it is one, the nearest bound otherwise |
| Tree.Truncate | ble/ble.js:608-614 | a prefix of the text, cut to maxLength when it is not -1 |
| Tree.React | ble/ble.js:262-638 | for each control and input, the control's new state and the value forwarded to the parent, if any |
| Tree.InputKeepsNumbersInt32 | ble/ble.js:586-600 | user input keeps every number field within int32 |
| Elements.UIElement.ParentName | ble/ble.js:91-95 | one name per ancestor |
| Elements.UIElement.AbsoluteName | ble/ble.js:91-95 | the parent's absolute name followed by the element's own, or just its own name at the root |
| Elements.UIElement.constructor | ble/ble.js:68-72 | a childless element with the given name, parent and state |
| Elements.UIElement.AddChild | ble/ble.js:193-196 | the child is appended, and nothing else changes |
| Elements.UIElement.AddElement | ble/ble.js:143-196 | a fresh child with the given name and state is appended |
| Elements.UIElement.GetChildByName | ble/ble.js:234-241 | the first child with that name, or null exactly when none has it |
| Elements.UIElement.SetLeafPathValue | ble/ble.js:326-628 | a leaf accepts exactly its own one-element path and value type, as Tree.SetPathValue says |
| Elements.UIElement.SetPathValue | ble/ble.js:135-142 | the element tree changes exactly as Tree.SetPathValue says, and on an error it is unchanged |
| Elements.UIElement.SetGroupPathValue | ble/ble.js:135-142 | the group case: invalid path, missing child, or the child's result |
| Elements.UIElement.SetChildPathValue | ble/ble.js:141 | the child's subtree changes as Tree.SetPathValue says, and its siblings do not change |
| Elements.UIElement.EraseChildByRef | ble/ble.js:242-251 | reports whether the element was a child, and if so removes exactly that child |
| Elements.UIElement.SpliceChild | ble/ble.js:245 | the splice removes exactly child k from the children and from the model, drops that child's footprint, and keeps the group valid |
| Elements.UIElement.Destroy | ble/ble.js:73-79 | the element is erased from its parent; if it is not among the parent's children, the parent is unchanged and an error is raised |
| Elements.UIElement.RemoveChildByName | ble/ble.js:252-260 | removes the first child with that name, and reports whether there was one |
| Elements.UIElement.AddRGBWColorPicker | ble/ble.js:143-147 | appends a colour selector that starts black, with the given channels |
| Elements.UIElement.AddRadioGroup | ble/ble.js:148-152 | appends a radio selector whose selected index starts at 0 |
| Elements.UIElement.AddDropDown | ble/ble.js:153-157 | appends a drop-down whose selected index starts at 0 |
| Elements.UIElement.AddCheckBox | ble/ble.js:158-162 | appends a checkbox with the given state |
| Elements.UIElement.AddRange | ble/ble.js:163-167 | appends a slider with the given bounds and value |
| Elements.UIElement.AddButton | ble/ble.js:168-172 | appends a button |
| Elements.UIElement.AddNumberFieldInt32 | ble/ble.js:173-177 | appends a number field that is not read-only |
| Elements.UIElement.AddTextField | ble/ble.js:178-182 | appends a text field with the given text and length limit |
| Elements.UIElement.AddPasswordField | ble/ble.js:183-187 | appends a password field with the given text and length limit |
| Elements.UIElement.AddGroup | ble/ble.js:188-192 | appends an empty group |
| Elements.UIElement.SetColorValue | ble/ble.js:315-322 | the selector shows the new colour and keeps its channels |
| Elements.UIElement.SetReadOnly | ble/ble.js:579-582 | the number field keeps its value and takes the flag |
| Elements.UIElement.OnInput | ble/ble.js:262-638 | the leaf takes React's new state; an event is raised exactly when React forwards a value, and it carries the leaf's absolute name, type and that value |
| Elements.UIElement.DeliverInput | ble/ble.js:96-103 | input at the leaf that `path` addresses changes only that leaf, and the event carries the full path from the root |
| Elements.UIElement.DeliverGroupInput | ble/ble.js:96-103 | the group case of DeliverInput |
| Elements.UIElement.DeliverChildInput | ble/ble.js:96-103 | the step into one child, whose siblings do not change |
| Json.AsciiLower | ble/ble.js:951 | `toLowerCase` on ASCII: same length, no upper-case letter left, other characters kept, each upper-case letter mapped to its lower-case one |
| Builder.Build | ble/ble.js:950-1042 | the nodes ProcessJSON adds for a description node: a node other than a root adds at most one node, carrying the description's name |
| Builder.BuildOneElement | ble/ble.js:950-1042 | each description node other than a root adds exactly one element of the type its keyword names (matched without regard to case), and an unknown keyword adds nothing |
| Builder.BuildSelectorStartsAtZero | ble/ble.js:950-1042 | radio and drop-down selectors start at index 0 |
| Builder.BuildWellFormed | ble/ble.js:950-1042 | only groups get children |
| Builder.ProcessJson | ble/ble.js:950-1042 | the elements Build describes are appended after the group's present children, which are left as they are |
| Builder.ProcessGroup | ble/ble.js:962-974 | a group node adds one group, filled with its children's elements |
| Builder.ProcessLeaf | ble/ble.js:975-1041 | a leaf node adds what Build gives for it |
| Builder.ProcessNumberField | ble/ble.js:1007-1013 | a number field node adds a field with its value and read-only flag |
| Builder.ProcessColor | ble/ble.js:1028-1037 | a colour node adds a selector with the unpacked colour and the channels of its channel string |
| Builder.AddGroupContents | ble/ble.js:962-974 | the new group holds its children's elements |
| Builder.ProcessChildren | ble/ble.js:954-961 | the children's elements, in order |
| ClassicColor.Put | ble/ble.js:1500-1513 | the colour becomes the pending one, and a write starts exactly when nothing was pending |
| ClassicColor.AfterSetColor | ble/ble.js:1497-1514 | the new colour object is pending under the characteristic's UUID, and its bytes are written to that characteristic exactly when nothing was pending for the UUID |
| ClassicColor.AfterColorWritten | ble/ble.js:1504-1512 | when the write resolves, the pending entry is deleted; the pending colour is written again exactly when it is not the object just written, and to the characteristic the resolved write went to, whichever device set it |
| ClassicColor.AfterColorRejected | ble/ble.js:1504-1512 | a rejected write has no handler: the pending entry stays |
| ClassicColor.SetColors | ble/ble.js:1497-1514 | a run of SetColor calls keeps the invariant |
| ClassicColor.BurstWritesLastColor | ble/ble.js:1497-1514 | colours set on a characteristic of a UUID with a write in flight are not written; when it resolves, exactly the last of them is, to the characteristic of the write in flight |
| ClassicColor.CrossDeviceColorGoesToFirstCaller | ble/ble.js:1070 | with the map keyed by UUID alone, a colour set on a second device's characteristic of the same UUID during the first device's write is not written to the second device, and is written to the first one when its write resolves |
| ClassicColor.RejectionStallsCharacteristic | ble/ble.js:1503-1513 | after a rejected write, no colour is ever written to any characteristic of that UUID again |
| ClassicColor.WriteThenResolve | ble/ble.js:1497-1514 | a single colour is written once, and after it resolves its UUID is idle |
| ClassicColor.ColorWriter.constructor | ble/ble.js:1497-1514 | nothing pending and nothing in flight |
| ClassicColor.ColorWriter.SetColor | ble/ble.js:1497-1514 | the new state and the write are those of AfterSetColor |
| ClassicColor.ColorWriter.Record | ble/ble.js:1500-1513 | the new state and the write are those of Put |
| ClassicColor.ColorWriter.OnWriteResolved | ble/ble.js:1504-1512 | the new state and the write are those of AfterColorWritten: the re-send goes to the characteristic held for the write in flight |
| ClassicColor.ColorWriter.OnWriteRejected | ble/ble.js:1504-1512 | the new state is that of AfterColorRejected |
| Connection.Tail | ble/ble.js:1366 | slice(1): the path without its first name |
| Connection.WireNameRoundTrip | ble/ble.js:1361-1404 | the name sent without the device name, split on return and prefixed with the device name, is the original path when no name holds a comma |
| Connection.EchoAddressesSameLeaf | ble/ble.js:1401-1404 | an update echoing a sent path sets the same leaf the input came from |
| Connection.CommaNameComesBackSplit | ble/ble.js:1401-1404 | any element name holding a comma comes back as more than one name, whose comma-join is the original name |
| Connection.DisplayName | ble/ble.js:1283 | the device's name when it has a non-empty one, its id otherwise |
| Connection.DeviceConnection.constructor | ble/ble.js:1282-1286 | an empty root group named DisplayName of the device's name and id, no GUI handler, no mapping, and the colour writer the one shared by every connection |
| Connection.DeviceConnection.AttachGuiCharacteristic | ble/ble.js:1397-1406 | a fresh protocol handler with no pending ids and an empty writer |
| Connection.DeviceConnection.AddRGBWCharacteristicElement | ble/ble.js:1353-1357 | a colour selector is appended under the root, and its joined absolute name maps to the characteristic |
| Connection.DeviceConnection.RemoveRGBWCharacteristicElementWhenExists | ble/ble.js:1358-1360 | removes the first root child with that name, and reports whether there was one |
| Connection.DeviceConnection.OnInputValueChange | ble/ble.js:1361-1382 | a mapped source writes the colour through SetColor on the shared colour writer, to the mapped characteristic, or fails when it is not a colour selector with a colour, leaving the GUI handler and its writer untouched; otherwise the value goes to setValue without the device name (its request id pending, the colours untouched), or is unhandled and nothing changes when there is no GUI handler |
| Connection.DeviceConnection.SendClassicColor | ble/ble.js:1380 | a mapped colour goes through SetColor on the writer shared by all connections, and the element tree is left unchanged |
| Connection.DeviceConnection.OnGuiNotification | ble/ble.js:1397-1406 | the handler receives the notification; a description is built under the root, an update sets the value at the device name plus the path, and errors leave the tree unchanged |
| Connection.DeviceConnection.ReceiveGuiData | ble/ble.js:1405 | the notification goes to the handler created for the GUI characteristic; the element tree, the colour writer and the outgoing queue are unchanged |
| Connection.DeviceConnection.ApplyEvent | ble/ble.js:1398-1404 | the two callbacks: ProcessJSON on the root, or setPathValue at the device name plus the path |
| Connection.DeviceConnection.OnUserInput | ble/ble.js:1361-1382 | input at the leaf a path addresses updates that leaf; the forwarded value goes to SetColor on the shared writer, is rejected, goes to the GUI writer with its request id pending, or is unhandled, as onInputValueChange decides, and whatever is not written to keeps its state; with nothing forwarded, the colours, the GUI handler and its writer are unchanged |
| Connection.DeviceConnection.DeliverToRoot | ble/ble.js:96-103 | the leaf reacts to the input and the event carries its full path |

## Left out

- The DOM: widget construction, CSS classes, collapsing groups (`setCollapsable`, `setCollapsed`, `toggleContentVisibility`), the log panel and `Log`. State that exists only in the DOM (slider positions shown beside a colour picker) is folded into the element's control state.
- Elements.UIElement.EraseChildByRef: the model splices the child out and returns true; it leaves out the DOM `removeChild` call on the group's `container` that follows. `_addChildElement` puts every child's DOM root in `contentDiv`, never directly in `container`, so in the source that call throws for every child, after the splice.
- Elements.UIElement.Destroy: the model leaves out a group's own `destroy` override, which calls `removeChild` on its parent's `container` before the splice. Since a group child's container sits in the parent's `contentDiv`, that call throws in the source and the child is never spliced out; in the model it is.
- Elements.UIElement.RemoveChildByName: because of the two DOM calls above, in the source it throws whenever it finds a child of that name (a leaf after leaving `elements`, a group without leaving it). The model removes the child and returns true.
- Connection.DeviceConnection.RemoveRGBWCharacteristicElementWhenExists: it inherits the RemoveChildByName difference, so in the source it throws whenever the colour picker exists, where the model removes it and returns true.
- Elements.UIElement.AddRadioGroup: `selectedIndex` only checks an option in the DOM, so the model ignores it. The element's selected index starts at 0 in the source as well.
- Connection.DeviceConnection.RemoveRGBWCharacteristicElementWhenExists: like the source, it leaves the characteristic mapping entry in place.
- ClassicColor.Characteristic: a characteristic object is identified by its device id and its UUID; two objects for the same characteristic of one device are not told apart.
- Connection.DeviceConnection.OnUserInput: the exceptions of onInputValueChange are returned as errors instead of being thrown out of the DOM event handler.
- Elements.UIElement.DeliverInput: input is delivered only to a leaf that its name path resolves to, that is, through the first child of each name along the path. A widget shadowed by an earlier sibling of the same name, or one under such a sibling, still raises input in the source. Its value is sent under the shared absolute name, and the device's echo then updates the first sibling. The model does not deliver input to such a widget. The same holds for DeliverGroupInput, DeliverChildInput and DeliverToRoot.
- Connection.DeviceConnection.OnUserInput: for the same reason, input on a widget shadowed by an earlier sibling of the same name is not modelled.
- Connection.DeviceConnection.OnGuiNotification: an error in the UpdateValue callback is reported in the result. The source catches it and writes it to the log. Either way the handler state is unchanged.
- Connection.DeviceConnection.AttachGuiCharacteristic: the handler's stop/start of notifications, and the `_requestGUI` it sends once notifications are on, are asynchronous. Here the caller issues `RequestGui` itself.
- Connection, scanning and disconnection (`_connect`, `disconnect`, `destroy` of the connection, the GATT service walk), and the reading of the model-name characteristic. They are browser I/O.
- The LED info characteristic (`_handleLedInfoCharacteristic`, `SendBLERequest`) and the table of known-name LED characteristics (`_handleKnownNameCharacteristic`). They are device discovery around `AddRGBWCharacteristicElement`, which is modelled.
- `Date.now()` is a parameter (`now`). `JSON.parse` is a parameter (`parse`) returning a typed description node. UTF-8 encoding and decoding are the identity on bytes. Text is its UTF-8 bytes throughout.
- Json: a description node is a record with all fields present. Missing or ill-typed JSON fields, JSON booleans (taken as 0/1) and non-integer numbers are not modelled.
- Json.AsciiLower: `toLowerCase` is modelled for ASCII letters only.
- Tree.Truncate: the text-field length limit counts bytes, where the source counts UTF-16 code units.
- Tree.React: `parseInt` on slider and number-field text is not modelled. The input carries the integer the widget holds, so NaN never arises.
- Bytes.MemCpy: requires that the source holds `sourceOffset + length` bytes, which every call in the source satisfies. Reads past the end of a JavaScript array (giving `undefined`, stored as 0) are not modelled.
- Reassembly.Begin: `new Uint8Array(n)` for a length too large to allocate (a RangeError) is not modelled.
- DeviceConnection is a `UIGroupElement` in the source. Here it holds its root group in a `root` field, so it is modelled by composition instead of inheritance.
- Concurrency between asynchronous completions is reduced to explicit method calls in some order. Promise scheduling is not modelled.
