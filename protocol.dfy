/**
 * GUIProtocolHandler: request ids, the packets the client sends, and the
 * dispatch of notifications from the device.
 *
 * Packets sent: RequestGUI `[0][id]` and SetValue
 * `[1][id][length-prefixed path][typed value]`, ids as big-endian u32.
 * Packets received: GUIData `[0][id][length][first part of the JSON text]`,
 * followed by further notifications until `length` bytes have arrived, and
 * UpdateValue `[1][id][u32, read and not used][length-prefixed path][typed value]`.
 *
 * The handler's callbacks become events returned to the caller, which runs
 * them: nothing the handler does after a callback depends on the callback.
 */
module Protocol {
  import opened Wrappers
  import opened Bytes
  import opened Values
  import opened Codec
  import opened Reader
  import opened Reassembly
  import opened Writer
  import opened Json

  /** `_generateRequestId` takes `Date.now()` modulo this. */
  const REQUEST_ID_MODULUS: nat := 0xFFFF_FFFF

  /** The group name under which `_requestGUI` queues its packet: "RequestHeader". */
  const REQUEST_HEADER_GROUP: Text :=
    [0x52, 0x65, 0x71, 0x75, 0x65, 0x73, 0x74, 0x48, 0x65, 0x61, 0x64, 0x65, 0x72]

  /** A reassembly in progress, with what the completion closure captured. */
  datatype Reassembling = Reassembling(progress: Progress, requestId: nat, isOwnRequest: bool)

  /** The receiving state of the handler: `pendingRequestIds` and `recvPendingData`. */
  datatype HandlerState = HandlerState(pendingRequestIds: set<nat>, recv: Option<Reassembling>)

  /** What a notification leads to beyond the handler's own state. */
  datatype Event =
    | Quiet                                        // nothing: reassembly goes on, or an own update is dropped
    | GuiJson(json: JsonElement)                   // onGuiJsonCallback(object)
    | ValueUpdate(path: seq<Text>, value: Value)   // onValueUpdateCallback(key.split(','), value)
    | UnknownPacket(kind: Option<byte>)            // logged; None when the notification is empty
    | Thrown(error: Error)                         // an exception leaves the event listener

  /** What `_handlePacketBegin` makes of a notification that starts a message. */
  datatype Begun =
    | StartReassembly(requestId: nat, length: nat, firstBlock: seq<byte>, isOwnRequest: bool)
    | Update(path: seq<Text>, value: Value)
    | IgnoredOwnUpdate
    | Unknown(kind: Option<byte>)
    | Failed(error: Error)

  /** The request id `_generateRequestId` derives from the clock. */
  function RequestId(now: nat): (id: nat)
    ensures id < REQUEST_ID_MODULUS && id < UINT32_RANGE
    ensures (now - id) % REQUEST_ID_MODULUS == 0
  {
    now % REQUEST_ID_MODULUS
  }

  /** The packet `_requestGUI` queues. */
  function RequestGuiPacket(requestId: nat): (r: seq<byte>)
    ensures |r| == 5 && r[0] == REQUEST_GUI
    ensures requestId < UINT32_RANGE ==> GetUint32(r[1..5]) == requestId
  {
    CreatePacketHeader(REQUEST_GUI, requestId)
  }

  /** The packet `setValue` queues: header, the comma-joined path, the typed value. */
  function SetValuePacket(requestId: nat, absoluteName: seq<Text>, newValue: Value): (r: seq<byte>)
    ensures |r| == 9 + |Join(absoluteName)| + |CreateDynamicValue(newValue)|
    ensures r[..5] == CreatePacketHeader(SET_VALUE, requestId) && r[0] == SET_VALUE
  {
    MergeUint8Arrays3(
      CreatePacketHeader(SET_VALUE, requestId),
      CreateLengthPrefixedString(Join(absoluteName)),
      CreateDynamicValue(newValue))
  }

  /**
   * A SetValue packet read with the client's own readers gives back the id,
   * the path and the value, and nothing is left over: a number, boolean or
   * colour as its wire image, and the text of a string value (sent by text
   * and password fields) as its tag followed by a length-prefixed string.
   */
  lemma {:induction false} SetValuePacketLayout(requestId: nat, absoluteName: seq<Text>, newValue: Value)
    requires requestId < UINT32_RANGE
    requires |Join(absoluteName)| < UINT32_RANGE && (newValue.Str? ==> |newValue.s| < UINT32_RANGE)
    ensures var p := SetValuePacket(requestId, absoluteName, newValue);
      var name := Join(absoluteName);
      p[0] == SET_VALUE
      && ReadUint32(p, 1) == Ok(Parsed(requestId, 5))
      && ReadString(p, 5) == Ok(Parsed(name, 9 + |name|))
      && (!newValue.Str? ==> ReadValue(p, 9 + |name|) == Ok(Parsed(WireImage(newValue), |p|)))
      && (newValue.Str? ==>
            ReadUint8(p, 9 + |name|) == Ok(Parsed(TYPE_STRING, 10 + |name|))
            && ReadString(p, 10 + |name|) == Ok(Parsed(newValue.s, |p|)))
  {
    var name := Join(absoluteName);
    var head, str := CreatePacketHeader(SET_VALUE, requestId), CreateLengthPrefixedString(name);
    var val := CreateDynamicValue(newValue);
    var p := SetValuePacket(requestId, absoluteName, newValue);
    assert p == head + str + val;
    assert p[0] == SET_VALUE && ReadUint32(p, 1) == Ok(Parsed(requestId, 5)) && ReadString(p, 5) == Ok(Parsed(name, 9 + |name|)) by {
      HeaderStringLayout(requestId, name, val);
    }
    assert |head + str| == 9 + |name|;
    if newValue.Str? {
      StringAtEnd(head + str, newValue.s);
    } else {
      ValueAtEnd(head + str, newValue);
    }
  }

  /** A SetValue header and a length-prefixed string read back unchanged. */
  lemma HeaderStringLayout(requestId: nat, str: Text, rest: seq<byte>)
    requires requestId < UINT32_RANGE && |str| < UINT32_RANGE
    ensures var p := CreatePacketHeader(SET_VALUE, requestId) + CreateLengthPrefixedString(str) + rest;
      p[0] == SET_VALUE
      && ReadUint32(p, 1) == Ok(Parsed(requestId, 5))
      && ReadString(p, 5) == Ok(Parsed(str, 9 + |str|))
  {
    var head := CreatePacketHeader(SET_VALUE, requestId);
    var kind, id, e := CreateUInt8(SET_VALUE), CreateUInt32(requestId), CreateLengthPrefixedString(str);
    var p := head + e + rest;
    assert head == head[..1] + head[1..];
    assert head == kind + id;
    assert p == kind + id + (e + rest);
    ReadUint32RoundTrip(kind, requestId, e + rest);
    ReadStringRoundTrip(head, str, rest);
  }

  /** The body of a GUIData packet: id, length, and the first part of the text. */
  function GuiDataOutcome(content: seq<byte>, pendingRequestIds: set<nat>): (r: Begun)
    ensures r.StartReassembly? || r == Failed(BufferRange)
    ensures r.StartReassembly? ==>
      |content| >= 8 && r.firstBlock == content[8..] && r.isOwnRequest == (r.requestId in pendingRequestIds)
  {
    match ReadUint32(content, 0)
    case Err(e) => Failed(e)
    case Ok(id) =>
      match ReadUint32(content, id.next)
      case Err(e) => Failed(e)
      case Ok(length) =>
        StartReassembly(id.value, length.value, content[length.next..], id.value in pendingRequestIds)
  }

  /**
   * The body of an UpdateValue packet: an update whose id is pending is
   * dropped before its path and value are read.
   */
  function UpdateValueOutcome(content: seq<byte>, pendingRequestIds: set<nat>): (r: Begun)
    ensures r.Update? || r.IgnoredOwnUpdate? || r.Failed?
    ensures r.Update? ==> !r.value.Str?
  {
    match ReadUint32(content, 0)
    case Err(e) => Failed(e)
    case Ok(id) =>
      match ReadUint32(content, id.next)
      case Err(e) => Failed(e)
      case Ok(length) =>
        if id.value in pendingRequestIds then IgnoredOwnUpdate
        else
          match ReadString(content, length.next)
          case Err(e) => Failed(e)
          case Ok(key) =>
            match ReadValue(content, key.next)
            case Err(e) => Failed(e)
            case Ok(value) => Update(Split(key.value), value.value)
  }

  /** The bytes after the kind byte (`data.buffer.slice(1)`). */
  function Content(data: seq<byte>): seq<byte> {
    if |data| == 0 then [] else data[1..]
  }

  /** `_handlePacketBegin`: dispatch on the first byte. */
  function PacketBegin(data: seq<byte>, pendingRequestIds: set<nat>): (r: Begun)
    ensures r.Unknown? <==> |data| == 0 || (data[0] != GUI_DATA && data[0] != UPDATE_VALUE)
    ensures r.StartReassembly? ==> |data| > 0 && data[0] == GUI_DATA
    ensures r.Update? || r.IgnoredOwnUpdate? ==> |data| > 0 && data[0] == UPDATE_VALUE
  {
    if |data| == 0 then Unknown(None)
    else if data[0] == GUI_DATA then GuiDataOutcome(Content(data), pendingRequestIds)
    else if data[0] == UPDATE_VALUE then UpdateValueOutcome(Content(data), pendingRequestIds)
    else Unknown(Some(data[0]))
  }

  /** A handler state after a notification, and the event it leads to. */
  datatype Reception = Reception(state: HandlerState, event: Event)

  /**
   * A notification while a reassembly is pending is appended to it. On
   * completion the text is parsed first: a parse failure throws out of the
   * completion callback before `recvPendingData` is cleared, so the
   * reassembly stays installed.
   */
  function Continue(s: HandlerState, p: Reassembling, view: seq<byte>, parse: JsonParser): (r: Reception)
    ensures r.event.Quiet? || r.event.GuiJson? || r.event == Thrown(JsonParseError)
    ensures r.event.GuiJson? <==>
      Append(p.progress, view).completed && p.isOwnRequest && parse(Append(p.progress, view).progress.buffer).Some?
    ensures r.event.GuiJson? ==> r.event.json == parse(Append(p.progress, view).progress.buffer).value
    ensures r.state.recv.None? <==>
      Append(p.progress, view).completed && parse(Append(p.progress, view).progress.buffer).Some?
    ensures r.state.recv.Some? ==> r.state.recv.value == p.(progress := Append(p.progress, view).progress)
    ensures r.state.pendingRequestIds
      == if r.event.GuiJson? then s.pendingRequestIds - {p.requestId} else s.pendingRequestIds
  {
    var step := Append(p.progress, view);
    var kept := s.(recv := Some(p.(progress := step.progress)));
    if !step.completed then Reception(kept, Quiet)
    else
      match parse(step.progress.buffer)
      case None => Reception(kept, Thrown(JsonParseError))
      case Some(json) =>
        if p.isOwnRequest then Reception(HandlerState(s.pendingRequestIds - {p.requestId}, None), GuiJson(json))
        else Reception(s.(recv := None), Quiet)
  }

  /** A notification with no reassembly pending starts a message (`_handlePacketBegin`). */
  function Start(s: HandlerState, view: seq<byte>): (r: Reception)
    requires s.recv.None?
    ensures r.state.pendingRequestIds == s.pendingRequestIds
    ensures r.state.recv.Some? <==> PacketBegin(view, s.pendingRequestIds).StartReassembly?
    ensures !r.event.GuiJson?
  {
    match PacketBegin(view, s.pendingRequestIds)
    case StartReassembly(id, length, first, own) =>
      Reception(s.(recv := Some(Reassembling(Begin(length, first), id, own))), Quiet)
    case Update(path, value) => Reception(s, ValueUpdate(path, value))
    case IgnoredOwnUpdate => Reception(s, Quiet)
    case Unknown(kind) => Reception(s, UnknownPacket(kind))
    case Failed(e) => Reception(s, Thrown(e))
  }

  /**
   * `_onCharacteristicChanged`: while a reassembly is pending every
   * notification goes to it; otherwise the notification starts a message.
   */
  function Receive(s: HandlerState, view: seq<byte>, parse: JsonParser): (r: Reception)
    ensures r.state.pendingRequestIds <= s.pendingRequestIds
    ensures !r.event.GuiJson? ==> r.state.pendingRequestIds == s.pendingRequestIds
    ensures r.event.GuiJson? ==>
      s.recv.Some? && s.recv.value.isOwnRequest && r.state.recv.None?
      && r.state.pendingRequestIds == s.pendingRequestIds - {s.recv.value.requestId}
    ensures s.recv.Some? ==> !r.event.ValueUpdate? && !r.event.UnknownPacket?
  {
    match s.recv
    case Some(p) => Continue(s, p, view, parse)
    case None => Start(s, view)
  }

  /** A run of notifications, and the events they lead to. */
  datatype Run = Run(state: HandlerState, events: seq<Event>)

  /** A run of `n` quiet events. */
  function Quiets(n: nat): seq<Event> {
    seq(n, _ => Quiet)
  }

  function ReceiveAll(s: HandlerState, views: seq<seq<byte>>, parse: JsonParser): (r: Run)
    ensures |r.events| == |views|
    decreases |views|
  {
    if |views| == 0 then Run(s, [])
    else
      var first := Receive(s, views[0], parse);
      var rest := ReceiveAll(first.state, views[1..], parse);
      Run(rest.state, [first.event] + rest.events)
  }

  /** The header notification of a GUIData message. */
  function GuiDataHeader(requestId: nat, length: nat, firstBlock: seq<byte>): seq<byte> {
    [GUI_DATA] + (CreateUInt32(requestId) + CreateUInt32(length) + firstBlock)
  }

  /** The body of the packet the device sends when a value changed. */
  function UpdateValueContent(requestId: nat, unused: nat, path: seq<Text>, value: Value): seq<byte> {
    CreateUInt32(requestId) + CreateUInt32(unused) + CreateLengthPrefixedString(Join(path)) + CreateDynamicValue(value)
  }

  lemma GuiDataHeaderBegins(requestId: nat, length: nat, firstBlock: seq<byte>, pendingRequestIds: set<nat>)
    requires requestId < UINT32_RANGE && length < UINT32_RANGE
    ensures PacketBegin(GuiDataHeader(requestId, length, firstBlock), pendingRequestIds)
      == StartReassembly(requestId, length, firstBlock, requestId in pendingRequestIds)
  {
    var content := CreateUInt32(requestId) + CreateUInt32(length) + firstBlock;
    assert Content(GuiDataHeader(requestId, length, firstBlock)) == content;
    ReadUint32RoundTrip([], requestId, CreateUInt32(length) + firstBlock);
    assert [] + CreateUInt32(requestId) + (CreateUInt32(length) + firstBlock) == content;
    ReadUint32RoundTrip(CreateUInt32(requestId), length, firstBlock);
    assert content[8..] == firstBlock;
  }

  /** Two u32 fields and a length-prefixed string, in that order, read back unchanged. */
  lemma FieldsLayout(x: nat, y: nat, str: Text, rest: seq<byte>)
    requires x < UINT32_RANGE && y < UINT32_RANGE && |str| < UINT32_RANGE
    ensures var c := CreateUInt32(x) + CreateUInt32(y) + CreateLengthPrefixedString(str) + rest;
      ReadUint32(c, 0) == Ok(Parsed(x, 4))
      && ReadUint32(c, 4) == Ok(Parsed(y, 8))
      && ReadString(c, 8) == Ok(Parsed(str, 12 + |str|))
  {
    var a, b, e := CreateUInt32(x), CreateUInt32(y), CreateLengthPrefixedString(str);
    var c := a + b + e + rest;
    assert c == [] + a + (b + e + rest);
    ReadUint32RoundTrip([], x, b + e + rest);
    assert c == a + b + (e + rest);
    ReadUint32RoundTrip(a, y, e + rest);
    ReadStringRoundTrip(a + b, str, rest);
  }

  /**
   * An update from another party (its id is not pending) delivers the path,
   * split at the commas, and the decoded value.
   */
  lemma ForeignUpdateDelivered(requestId: nat, unused: nat, path: seq<Text>, value: Value, pendingRequestIds: set<nat>)
    requires requestId < UINT32_RANGE && unused < UINT32_RANGE && requestId !in pendingRequestIds
    requires !value.Str?
    requires |path| >= 1 && forall i :: 0 <= i < |path| ==> COMMA !in path[i]
    requires |Join(path)| < UINT32_RANGE
    ensures PacketBegin([UPDATE_VALUE] + UpdateValueContent(requestId, unused, path, value), pendingRequestIds)
      == Update(path, WireImage(value))
  {
    var c := UpdateValueContent(requestId, unused, path, value);
    var fields := CreateUInt32(requestId) + CreateUInt32(unused) + CreateLengthPrefixedString(Join(path));
    assert Content([UPDATE_VALUE] + c) == c;
    FieldsLayout(requestId, unused, Join(path), CreateDynamicValue(value));
    ValueRoundTrip(fields, value, []);
    assert fields + CreateDynamicValue(value) + [] == c;
    SplitJoin(path);
  }

  /** An update carrying one of the client's own pending ids is dropped, whatever its body. */
  lemma OwnUpdateIgnored(requestId: nat, unused: nat, body: seq<byte>, pendingRequestIds: set<nat>)
    requires requestId < UINT32_RANGE && requestId in pendingRequestIds
    ensures PacketBegin([UPDATE_VALUE] + (CreateUInt32(requestId) + CreateUInt32(unused) + body), pendingRequestIds)
      == IgnoredOwnUpdate
  {
    var c := CreateUInt32(requestId) + CreateUInt32(unused) + body;
    assert Content([UPDATE_VALUE] + c) == c;
    ReadUint32RoundTrip([], requestId, CreateUInt32(unused) + body);
    assert [] + CreateUInt32(requestId) + (CreateUInt32(unused) + body) == c;
  }

  /** An update from another party carrying a string value throws when the value is read. */
  lemma StringUpdateThrows(requestId: nat, unused: nat, path: seq<Text>, s: Text, pendingRequestIds: set<nat>)
    requires requestId < UINT32_RANGE && unused < UINT32_RANGE && requestId !in pendingRequestIds
    requires |Join(path)| < UINT32_RANGE
    ensures PacketBegin([UPDATE_VALUE] + UpdateValueContent(requestId, unused, path, Str(s)), pendingRequestIds)
      == Failed(UnknownValueType(TYPE_STRING))
  {
    var c := UpdateValueContent(requestId, unused, path, Str(s));
    var fields := CreateUInt32(requestId) + CreateUInt32(unused) + CreateLengthPrefixedString(Join(path));
    assert Content([UPDATE_VALUE] + c) == c;
    FieldsLayout(requestId, unused, Join(path), CreateDynamicValue(Str(s)));
    StringValueRejected(fields, s, []);
    assert fields + CreateDynamicValue(Str(s)) + [] == c;
  }

  /** A first byte other than GUIData and UpdateValue is logged and changes nothing. */
  lemma UnknownPacketChangesNothing(s: HandlerState, view: seq<byte>, parse: JsonParser)
    requires s.recv.None?
    requires |view| == 0 || (view[0] != GUI_DATA && view[0] != UPDATE_VALUE)
    ensures Receive(s, view, parse) == Reception(s, UnknownPacket(if |view| == 0 then None else Some(view[0])))
  {
  }

  /**
   * A GUI description answering one of the client's own requests, sent as a
   * header and then non-empty notifications that add up to the announced
   * length, is delivered exactly once, on the last notification, parsed from
   * exactly the bytes received; its id leaves the pending set and the handler
   * is ready for the next packet.
   */
  lemma OwnGuiDataDeliveredOnce(pendingRequestIds: set<nat>, requestId: nat, length: nat, firstBlock: seq<byte>,
                                chunks: seq<seq<byte>>, parse: JsonParser)
    requires requestId < UINT32_RANGE && requestId in pendingRequestIds
    requires |chunks| >= 1 && forall i :: 0 <= i < |chunks| ==> |chunks[i]| > 0
    requires length == |firstBlock| + TotalLength(chunks) && length < UINT32_RANGE
    requires parse(firstBlock + Concat(chunks)).Some?
    ensures var r := ReceiveAll(HandlerState(pendingRequestIds, None), [GuiDataHeader(requestId, length, firstBlock)] + chunks, parse);
      r.state == HandlerState(pendingRequestIds - {requestId}, None)
      && r.events == Quiets(|chunks|) + [GuiJson(parse(firstBlock + Concat(chunks)).value)]
  {
    var p := Begin(length, firstBlock);
    HeaderStartsReassembly(requestId, length, firstBlock, pendingRequestIds, chunks, parse);
    DeliveredAfterHeader(pendingRequestIds, GuiDataHeader(requestId, length, firstBlock), p, requestId, firstBlock, chunks, parse);
  }

  /** The reassembly a header installed takes the chunks and delivers their text once, on the last. */
  lemma DeliveredAfterHeader(pendingRequestIds: set<nat>, header: seq<byte>, p: Progress, requestId: nat, firstBlock: seq<byte>,
                             chunks: seq<seq<byte>>, parse: JsonParser)
    requires |chunks| >= 1 && forall i :: 0 <= i < |chunks| ==> |chunks[i]| > 0
    requires p.offset == |firstBlock| && p.offset + TotalLength(chunks) == |p.buffer| && p.buffer[..p.offset] == firstBlock
    requires parse(firstBlock + Concat(chunks)).Some?
    requires var s1 := HandlerState(pendingRequestIds, Some(Reassembling(p, requestId, true)));
      ReceiveAll(HandlerState(pendingRequestIds, None), [header] + chunks, parse)
        == Run(ReceiveAll(s1, chunks, parse).state, [Quiet] + ReceiveAll(s1, chunks, parse).events)
    ensures var r := ReceiveAll(HandlerState(pendingRequestIds, None), [header] + chunks, parse);
      r.state == HandlerState(pendingRequestIds - {requestId}, None)
      && r.events == Quiets(|chunks|) + [GuiJson(parse(firstBlock + Concat(chunks)).value)]
  {
    var s1 := HandlerState(pendingRequestIds, Some(Reassembling(p, requestId, true)));
    var json := parse(firstBlock + Concat(chunks)).value;
    FeedDeliversWholeMessage(p, chunks);
    ReassemblyRun(s1, chunks, parse);
    QuietThenRun(HandlerState(pendingRequestIds, None), header, s1, chunks, parse, HandlerState(pendingRequestIds - {requestId}, None), json);
  }

  /** A quiet first notification followed by a run that ends in a description. */
  lemma QuietThenRun(s0: HandlerState, header: seq<byte>, s1: HandlerState, chunks: seq<seq<byte>>, parse: JsonParser,
                     last: HandlerState, json: JsonElement)
    requires |chunks| >= 1
    requires ReceiveAll(s0, [header] + chunks, parse) == Run(ReceiveAll(s1, chunks, parse).state, [Quiet] + ReceiveAll(s1, chunks, parse).events)
    requires ReceiveAll(s1, chunks, parse) == Run(last, Quiets(|chunks| - 1) + [GuiJson(json)])
    ensures ReceiveAll(s0, [header] + chunks, parse) == Run(last, Quiets(|chunks|) + [GuiJson(json)])
  {
    var quiet := Quiets(|chunks| - 1);
    assert Quiets(|chunks|) == [Quiet] + quiet;
    assert [Quiet] + (quiet + [GuiJson(json)]) == ([Quiet] + quiet) + [GuiJson(json)];
  }

  /**
   * A GUIData header received with nothing pending installs its reassembly
   * quietly, and the notifications after it go to that reassembly.
   */
  lemma HeaderStartsReassembly(requestId: nat, length: nat, firstBlock: seq<byte>, pendingRequestIds: set<nat>,
                               chunks: seq<seq<byte>>, parse: JsonParser)
    requires requestId < UINT32_RANGE && length < UINT32_RANGE
    ensures var s1 := HandlerState(pendingRequestIds, Some(Reassembling(Begin(length, firstBlock), requestId, requestId in pendingRequestIds)));
      var rest := ReceiveAll(s1, chunks, parse);
      ReceiveAll(HandlerState(pendingRequestIds, None), [GuiDataHeader(requestId, length, firstBlock)] + chunks, parse)
        == Run(rest.state, [Quiet] + rest.events)
  {
    GuiDataHeaderBegins(requestId, length, firstBlock, pendingRequestIds);
    ReceiveAllCons(HandlerState(pendingRequestIds, None), GuiDataHeader(requestId, length, firstBlock), chunks, parse);
  }

  /** ReceiveAll takes the first notification, then the rest from the state it leaves. */
  lemma ReceiveAllCons(s: HandlerState, view: seq<byte>, views: seq<seq<byte>>, parse: JsonParser)
    ensures var first := Receive(s, view, parse);
      var rest := ReceiveAll(first.state, views, parse);
      ReceiveAll(s, [view] + views, parse) == Run(rest.state, [first.event] + rest.events)
  {
    assert ([view] + views)[0] == view && ([view] + views)[1..] == views;
  }

  /**
   * Feeding notifications to a pending reassembly yields quiet events until
   * the one that completes it, in step with Feed.
   */
  lemma {:induction false} ReassemblyRun(s: HandlerState, chunks: seq<seq<byte>>, parse: JsonParser)
    requires s.recv.Some? && s.recv.value.isOwnRequest
    requires Feed(s.recv.value.progress, chunks).completedAt == Some(|chunks| - 1)
    requires parse(Feed(s.recv.value.progress, chunks).progress.buffer).Some?
    ensures ReceiveAll(s, chunks, parse) == Run(
      HandlerState(s.pendingRequestIds - {s.recv.value.requestId}, None),
      Quiets(|chunks| - 1) + [GuiJson(parse(Feed(s.recv.value.progress, chunks).progress.buffer).value)])
    decreases |chunks|
  {
    var p := s.recv.value;
    var step := Append(p.progress, chunks[0]);
    if step.completed {
      assert |chunks| == 1;
      assert Feed(p.progress, chunks).progress == step.progress;
    } else {
      var s1 := s.(recv := Some(p.(progress := step.progress)));
      assert Receive(s, chunks[0], parse) == Reception(s1, Quiet);
      ReassemblyRun(s1, chunks[1..], parse);
      assert Quiets(|chunks| - 1) == [Quiet] + Quiets(|chunks| - 2);
    }
  }

  /**
   * When the completed text does not parse, the reassembly stays installed
   * with its offset at the buffer size: every later non-empty notification is
   * swallowed by it and nothing is ever parsed as a packet again.
   */
  lemma {:induction false} StuckAfterParseFailure(s: HandlerState, views: seq<seq<byte>>, parse: JsonParser)
    requires s.recv.Some? && s.recv.value.progress.offset >= |s.recv.value.progress.buffer|
    requires forall i :: 0 <= i < |views| ==> |views[i]| > 0
    ensures var r := ReceiveAll(s, views, parse);
      r.state.recv.Some? && r.state.pendingRequestIds == s.pendingRequestIds
      && forall i :: 0 <= i < |views| ==> r.events[i] == Quiet
    decreases |views|
  {
    if |views| > 0 {
      var p := s.recv.value;
      var step := Append(p.progress, views[0]);
      assert !step.completed;
      var s1 := s.(recv := Some(p.(progress := step.progress)));
      StuckAfterParseFailure(s1, views[1..], parse);
      var r := ReceiveAll(s, views, parse);
      forall i | 0 <= i < |views|
        ensures r.events[i] == Quiet
      {
        if i > 0 {
          assert r.events[i] == ReceiveAll(s1, views[1..], parse).events[i - 1];
        }
      }
    }
  }

  /**
   * Request ids leave the pending set only with a delivered GUI description:
   * over any run of notifications the set only shrinks, and a run that
   * delivers none leaves it as it was, so the ids of SetValue packets stay
   * in it for good.
   */
  lemma {:induction false} PendingIdsLeaveOnlyWithGuiJson(s: HandlerState, views: seq<seq<byte>>, parse: JsonParser)
    ensures ReceiveAll(s, views, parse).state.pendingRequestIds <= s.pendingRequestIds
    ensures (forall i :: 0 <= i < |views| ==> !ReceiveAll(s, views, parse).events[i].GuiJson?) ==>
      ReceiveAll(s, views, parse).state.pendingRequestIds == s.pendingRequestIds
    decreases |views|
  {
    if |views| > 0 {
      var first := Receive(s, views[0], parse);
      PendingIdsLeaveOnlyWithGuiJson(first.state, views[1..], parse);
      var r := ReceiveAll(s, views, parse);
      var rest := ReceiveAll(first.state, views[1..], parse);
      assert r.events == [first.event] + rest.events;
      if forall i :: 0 <= i < |views| ==> !r.events[i].GuiJson? {
        assert !first.event.GuiJson? by { assert r.events[0] == first.event; }
        forall i | 0 <= i < |views| - 1
          ensures !rest.events[i].GuiJson?
        {
          assert rest.events[i] == r.events[i + 1];
        }
      }
    }
  }

  class GUIProtocolHandler {
    const dataWriter: BLEDataWriter
    var pendingRequestIds: set<nat>
    var recvPendingData: BLEDataReader?
    /** What the completion closure of the pending reassembly captured. */
    var recvRequestId: nat
    var recvIsOwnRequest: bool
    ghost var Repr: set<object>

    ghost predicate Valid()
      reads this, Repr
    {
      this in Repr && dataWriter in Repr && dataWriter.Valid()
      && (recvPendingData != null ==> recvPendingData in Repr && recvPendingData.buffer in Repr)
    }

    /** The receiving state. */
    ghost function Model(): HandlerState
      reads this, Repr
      requires Valid()
    {
      HandlerState(pendingRequestIds,
        if recvPendingData == null then None
        else Some(Reassembling(recvPendingData.State(), recvRequestId, recvIsOwnRequest)))
    }

    /**
     * The constructor. Registering the notification listener and the
     * stop/start-notifications chain are browser plumbing; when notifications
     * have started the caller calls RequestGui.
     */
    constructor()
      ensures Valid() && fresh(Repr)
      ensures Model() == HandlerState({}, None)
      ensures dataWriter.State() == WriterState([], 0, None, 0)
    {
      dataWriter := new BLEDataWriter();
      pendingRequestIds := {};
      recvPendingData := null;
      recvRequestId := 0;
      recvIsOwnRequest := false;
      new;
      Repr := {this, dataWriter};
    }

    /** `_generateRequestId`: the id is remembered as pending. */
    method GenerateRequestId(now: nat) returns (requestId: nat)
      requires Valid()
      modifies this
      ensures Valid() && Repr == old(Repr)
      ensures requestId == RequestId(now)
      ensures Model() == old(Model()).(pendingRequestIds := old(pendingRequestIds) + {requestId})
    {
      requestId := now % REQUEST_ID_MODULUS;
      pendingRequestIds := pendingRequestIds + {requestId};
    }

    /** `_requestGUI`: returns the payload passed to `writeValue`, if the writer starts one. */
    method RequestGui(now: nat) returns (write: Option<seq<byte>>)
      requires Valid()
      modifies this, dataWriter
      ensures Valid() && Repr == old(Repr)
      ensures Model() == old(Model()).(pendingRequestIds := old(pendingRequestIds) + {RequestId(now)})
      ensures Step(dataWriter.State(), write)
        == AfterSendData(old(dataWriter.State()), REQUEST_HEADER_GROUP, RequestGuiPacket(RequestId(now)))
    {
      var requestId := GenerateRequestId(now);
      var head := CreatePacketHeader(REQUEST_GUI, requestId);
      write := dataWriter.SendData(REQUEST_HEADER_GROUP, head);
    }

    /** setValue: the group name of the queued packet is the comma-joined path. */
    method SetValue(absoluteName: seq<Text>, newValue: Value, now: nat) returns (write: Option<seq<byte>>)
      requires Valid()
      modifies this, dataWriter
      ensures Valid() && Repr == old(Repr)
      ensures Model() == old(Model()).(pendingRequestIds := old(pendingRequestIds) + {RequestId(now)})
      ensures Step(dataWriter.State(), write) == AfterSendData(old(dataWriter.State()), Join(absoluteName),
        SetValuePacket(RequestId(now), absoluteName, newValue))
    {
      var requestId := GenerateRequestId(now);
      var head := CreatePacketHeader(SET_VALUE, requestId);
      var name := CreateLengthPrefixedString(Join(absoluteName));
      var value := CreateDynamicValue(newValue);
      var packet := MergeUint8Arrays3(head, name, value);
      write := dataWriter.SendData(Join(absoluteName), packet);
    }

    /** `_readDataValue` on a reader. */
    method ReadDataValue(reader: NetworkBufferReader) returns (r: Result<Value>)
      requires reader.Valid()
      modifies reader
      ensures reader.Valid()
      ensures var p := ReadValue(reader.dataView, old(reader.offset));
        (p.Ok? ==> r == Ok(p.value.value) && reader.offset == p.value.next) && (p.Err? ==> r == Err(p.error))
    {
      var valueType := reader.ExtractUint8();
      if valueType.Err? {
        return Err(valueType.error);
      }
      if valueType.value == TYPE_NUMBER {
        var numberValue := reader.ExtractInt32();
        if numberValue.Err? {
          return Err(numberValue.error);
        }
        return Ok(Number(numberValue.value));
      } else if valueType.value == TYPE_BOOLEAN {
        var boolValue := reader.ExtractUint8();
        if boolValue.Err? {
          return Err(boolValue.error);
        }
        return Ok(Boolean(boolValue.value > 0));
      } else if valueType.value == TYPE_RGBW {
        var packedValue := reader.ExtractUint32();
        if packedValue.Err? {
          return Err(packedValue.error);
        }
        return Ok(Rgbw(Colors.ExtractPackedRGBW(packedValue.value)));
      }
      return Err(UnknownValueType(valueType.value));
    }

    /** `_handlePacket_GUIData`. */
    method HandleGuiData(content: seq<byte>)
      requires Valid() && recvPendingData == null
      modifies this
      ensures Valid() && fresh(Repr - old(Repr))
      ensures var b := GuiDataOutcome(content, old(pendingRequestIds));
        (b.StartReassembly? ==> Model() == HandlerState(old(pendingRequestIds),
          Some(Reassembling(Begin(b.length, b.firstBlock), b.requestId, b.isOwnRequest))))
        && (b.Failed? ==> Model() == old(Model()))
    {
      var reader := new NetworkBufferReader(content);
      var requestId := reader.ExtractUint32();
      if requestId.Err? {
        return;
      }
      var length := reader.ExtractUint32();
      if length.Err? {
        return;
      }
      var isOwnRequest := requestId.value in pendingRequestIds;
      var remainingContent := reader.ExtractRemainingData();
      var pending := new BLEDataReader(length.value, remainingContent);
      recvPendingData := pending;
      recvRequestId := requestId.value;
      recvIsOwnRequest := isOwnRequest;
      Repr := Repr + {pending, pending.buffer};
    }

    /** `_handlePacket_UpdateValue`. */
    method HandleUpdateValue(content: seq<byte>) returns (b: Begun)
      requires Valid()
      ensures b == UpdateValueOutcome(content, pendingRequestIds)
    {
      var reader := new NetworkBufferReader(content);
      var requestId := reader.ExtractUint32();
      if requestId.Err? {
        return Failed(requestId.error);
      }
      var length := reader.ExtractUint32();
      if length.Err? {
        return Failed(length.error);
      }
      if requestId.value in pendingRequestIds {
        return IgnoredOwnUpdate;
      }
      var key := reader.ExtractString();
      if key.Err? {
        return Failed(key.error);
      }
      var value := ReadDataValue(reader);
      if value.Err? {
        return Failed(value.error);
      }
      return Update(Split(key.value), value.value);
    }

    /** `_onCharacteristicChanged`, with JSON.parse given as `parse`. */
    method OnCharacteristicChanged(view: seq<byte>, parse: JsonParser) returns (event: Event)
      requires Valid()
      modifies this, recvPendingData, if recvPendingData != null then {recvPendingData.buffer} else {}
      ensures Valid() && fresh(Repr - old(Repr))
      ensures Reception(Model(), event) == Receive(old(Model()), view, parse)
    {
      if recvPendingData != null {
        var completed := recvPendingData.AppendData(view);
        if completed {
          var parsed := parse(recvPendingData.buffer[..]);
          if parsed.None? {
            return Thrown(JsonParseError);
          }
          event := Quiet;
          if recvIsOwnRequest {
            pendingRequestIds := pendingRequestIds - {recvRequestId};
            event := GuiJson(parsed.value);
          }
          recvPendingData := null;
          return;
        }
        return Quiet;
      }
      event := HandlePacketBegin(view);
    }

    /** `_handlePacketBegin`. */
    method HandlePacketBegin(data: seq<byte>) returns (event: Event)
      requires Valid() && recvPendingData == null
      modifies this
      ensures Valid() && fresh(Repr - old(Repr))
      ensures Reception(Model(), event) == Start(old(Model()), data)
    {
      if |data| == 0 {
        return UnknownPacket(None);
      }
      var content := data[1..];
      if data[0] == GUI_DATA {
        HandleGuiData(content);
        if recvPendingData == null {
          event := Thrown(BufferRange);
        } else {
          event := Quiet;
        }
      } else if data[0] == UPDATE_VALUE {
        var b := HandleUpdateValue(content);
        match b {
          case Update(path, value) => event := ValueUpdate(path, value);
          case IgnoredOwnUpdate => event := Quiet;
          case Failed(e) => event := Thrown(e);
        }
      } else {
        event := UnknownPacket(Some(data[0]));
      }
    }
  }
}
