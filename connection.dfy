/**
 * DeviceConnection: the root group of one device, the GUI protocol handler
 * of its GUI characteristic, and the mapping from the absolute names of
 * classic colour elements to their characteristics. The group part is held
 * in `root` rather than inherited. The colour writer is the global
 * PendingCharacteristicPromises, one object shared by every connection.
 */
module Connection {
  import opened Wrappers
  import opened Bytes
  import opened Colors
  import opened Values
  import opened Codec
  import opened Json
  import opened Tree
  import opened Elements
  import opened Builder
  import Writer
  import opened Protocol
  import ClassicColor

  /** Array.prototype.slice(1): the path without its first name. */
  function Tail<T>(s: seq<T>): (r: seq<T>)
    ensures |s| > 0 ==> [s[0]] + r == s
    ensures |s| == 0 ==> r == []
  {
    if |s| == 0 then [] else s[1..]
  }

  /** Where onInputValueChange sends an input event. */
  datatype InputOutcome =
    | ClassicWrite(colorWrite: Option<ClassicColor.ColorWrite>)   // SetColor on the mapped characteristic
    | GuiWrite(write: Option<seq<byte>>)                          // guiControl.setValue
    | Unhandled                                                   // logged
    | InputRejected(error: Error)                                 // thrown

  /** Every name of the path is free of commas. */
  predicate CommaFree(path: seq<Text>) {
    forall i :: 0 <= i < |path| ==> COMMA !in path[i]
  }

  /**
   * The root sends a path to the device without its own name, and prepends
   * its name to the path an update brings: the name sent for an element of
   * comma-free names comes back as that element's path.
   */
  lemma WireNameRoundTrip(path: seq<Text>)
    requires |path| >= 2 && CommaFree(path)
    ensures [path[0]] + Split(Join(Tail(path))) == path
  {
    SplitJoin(path[1..]);
  }

  /**
   * An update the device sends back under the name the client sent for a
   * leaf addresses that same leaf: it succeeds or fails as setting the
   * value on the leaf's own path does.
   */
  lemma EchoAddressesSameLeaf(n: Node, path: seq<Text>, v: Value)
    requires n.control.GroupControl? && Resolve(n, path).Some? && CommaFree(path)
    ensures Tree.SetPathValue(n, [n.name] + Split(Join(Tail(path))), v) == Tree.SetPathValue(n, path, v)
  {
    ResolveStep(n, path, n);
    WireNameRoundTrip(path);
  }

  /**
   * A name holding a comma does not come back as one name: the path the
   * root rebuilds has more than its two names, the pieces of the name
   * joined back by commas.
   */
  lemma CommaNameComesBackSplit(rootName: Text, name: Text)
    requires COMMA in name
    ensures var back := [rootName] + Split(Join(Tail([rootName, name])));
      |back| > 2 && back[0] == rootName && Join(back[1..]) == name
  {
    assert Tail([rootName, name]) == [name];
    SplitAtComma(name);
    JoinSplit(name);
  }

  /** String.prototype.split(',') of a string holding a comma gives at least two pieces. */
  lemma {:induction false} SplitAtComma(s: Text)
    requires COMMA in s
    ensures |Split(s)| >= 2
    decreases |s|
  {
    if s[0] != COMMA {
      assert COMMA in s[1..];
      SplitAtComma(s[1..]);
    }
  }

  /** `device.name ? device.name : device.id`: a missing or empty name falls back to the id. */
  function DisplayName(deviceName: Option<Text>, id: Text): (r: Text)
    ensures deviceName.Some? && |deviceName.value| > 0 ==> r == deviceName.value
    ensures deviceName.None? || deviceName.value == [] ==> r == id
  {
    match deviceName
    case Some(n) => if |n| > 0 then n else id
    case None => id
  }

  class DeviceConnection {
    /** The UIGroupElement part, named after the device. */
    const root: UIElement
    /** `device.id`. */
    const deviceId: Text
    /** PendingCharacteristicPromises, shared with every other connection. */
    const colors: ClassicColor.ColorWriter
    var guiControl: GUIProtocolHandler?
    /** classicCharacteristicMapping: comma-joined absolute name to characteristic. */
    var classicCharacteristicMapping: map<Text, ClassicColor.Characteristic>
    ghost var Repr: set<object>

    ghost predicate Valid()
      reads this, Repr
    {
      this in Repr && root in Repr && colors in Repr && root.Repr <= Repr
      && root.Valid() && root.parent == null && root.control.GroupControl?
      && this !in root.Repr && colors !in root.Repr && colors.Valid()
      && (guiControl != null ==>
            guiControl in Repr && guiControl.Repr <= Repr && guiControl.Valid()
            && guiControl.Repr !! root.Repr && this !in guiControl.Repr && colors !in guiControl.Repr)
    }

    /**
     * A connection before any characteristic is seen, named after the
     * device, or after its id when the device has no name or an empty one,
     * and using the global colour writer `sharedColors`.
     */
    constructor(deviceName: Option<Text>, id: Text, sharedColors: ClassicColor.ColorWriter)
      requires sharedColors.Valid()
      ensures Valid() && fresh(Repr - {sharedColors})
      ensures root.name == DisplayName(deviceName, id) && root.model == Node(root.name, GroupControl, [])
      ensures deviceId == id && colors == sharedColors
      ensures guiControl == null && classicCharacteristicMapping == map[]
    {
      var name := if deviceName.Some? && |deviceName.value| > 0 then deviceName.value else id;
      root := new UIElement(name, null, GroupControl);
      deviceId := id;
      colors := sharedColors;
      guiControl := null;
      classicCharacteristicMapping := map[];
      new;
      Repr := {this, colors} + root.Repr;
    }

    /** onNewCharacteristic for the GUI characteristic: a new protocol handler. */
    method AttachGuiCharacteristic()
      requires Valid()
      modifies this
      ensures Valid() && fresh(Repr - old(Repr))
      ensures guiControl != null && fresh(guiControl)
      ensures guiControl.Model() == HandlerState({}, None) && guiControl.dataWriter.State() == Writer.WriterState([], 0, None, 0)
      ensures classicCharacteristicMapping == old(classicCharacteristicMapping)
    {
      guiControl := new GUIProtocolHandler();
      Repr := Repr + guiControl.Repr;
    }

    /**
     * `_addRGBWCharacteristicElement`: a colour selector under the root, and
     * its absolute name mapped to the characteristic.
     */
    method AddRGBWCharacteristicElement(childName: Text, characteristic: ClassicColor.Characteristic, channels: ColorChannels)
      requires Valid()
      modifies this, root
      ensures Valid() && fresh(Repr - old(Repr)) && guiControl == old(guiControl)
      ensures root.model == old(root.model).(elements := old(root.model.elements) + [Node(childName, ColorControl(RGBWColor(0, 0, 0, 0), channels), [])])
      ensures classicCharacteristicMapping == old(classicCharacteristicMapping)[Join([root.name, childName]) := characteristic]
    {
      var controlElement := root.AddRGBWColorPicker(childName, channels);
      var absoluteName := controlElement.AbsoluteName();
      assert absoluteName == [root.name, childName];
      classicCharacteristicMapping := classicCharacteristicMapping[Join(absoluteName) := characteristic];
      Repr := Repr + root.Repr;
    }

    /**
     * `_removeRGBWCharacteristicElementWhenExists`: removeChildByName on the
     * root. The mapping entry of the removed element stays.
     */
    method RemoveRGBWCharacteristicElementWhenExists(childName: Text) returns (removed: bool)
      requires Valid()
      modifies root
      ensures Valid()
      ensures removed <==> FirstChildNamed(old(root.model.elements), childName).Some?
      ensures !removed ==> root.model == old(root.model)
      ensures removed ==>
        var k := FirstChildNamed(old(root.model.elements), childName).value;
        root.model == old(root.model).(elements := old(root.model.elements)[..k] + old(root.model.elements)[k + 1..])
    {
      removed := root.RemoveChildByName(childName);
    }

    /**
     * onInputValueChange of the root: an element in the classic mapping
     * must be a colour selector sending a colour, which SetColor writes;
     * any other element's value goes to the device under its absolute
     * name without the root's name; without a GUI handler it is logged.
     */
    method OnInputValueChange(ev: InputEvent, now: nat) returns (out: InputOutcome)
      requires Valid()
      modifies colors, if guiControl != null then {guiControl, guiControl.dataWriter} else {}
      ensures Valid() && root.model == old(root.model)
      ensures guiControl == old(guiControl) && classicCharacteristicMapping == old(classicCharacteristicMapping)
      ensures Join(ev.source) in classicCharacteristicMapping ==>
        (ev.sourceType != ColorSelector ==> out == InputRejected(NotAColorSelector) && colors.State() == old(colors.State()))
        && (ev.sourceType == ColorSelector && !ev.value.Rgbw? ==>
              out == InputRejected(NotAColorValue) && colors.State() == old(colors.State()))
        && (ev.sourceType == ColorSelector && ev.value.Rgbw? ==>
              out.ClassicWrite?
              && ClassicColor.ColorStep(colors.State(), out.colorWrite)
                 == ClassicColor.AfterSetColor(old(colors.State()), classicCharacteristicMapping[Join(ev.source)], ev.value.color))
      ensures Join(ev.source) in classicCharacteristicMapping && guiControl != null ==>
        guiControl.Model() == old(guiControl.Model()) && guiControl.dataWriter.State() == old(guiControl.dataWriter.State())
      ensures Join(ev.source) !in classicCharacteristicMapping && guiControl == null ==>
        out == Unhandled && colors.State() == old(colors.State())
      ensures Join(ev.source) !in classicCharacteristicMapping && guiControl != null ==>
        out.GuiWrite? && colors.State() == old(colors.State())
        && guiControl.Model() == old(guiControl.Model()).(pendingRequestIds := old(guiControl.pendingRequestIds) + {RequestId(now)})
        && Writer.Step(guiControl.dataWriter.State(), out.write)
           == Writer.AfterSendData(old(guiControl.dataWriter.State()), Join(Tail(ev.source)),
                SetValuePacket(RequestId(now), Tail(ev.source), ev.value))
    {
      var key := Join(ev.source);
      if key in classicCharacteristicMapping {
        if ev.sourceType != ColorSelector {
          return InputRejected(NotAColorSelector);
        }
        if !ev.value.Rgbw? {
          return InputRejected(NotAColorValue);
        }
        out := SendClassicColor(classicCharacteristicMapping[key], ev.value.color);
        return;
      }
      if guiControl != null {
        var remoteName := Tail(ev.source);
        var w := guiControl.SetValue(remoteName, ev.value, now);
        return GuiWrite(w);
      }
      return Unhandled;
    }

    /** The classic branch of onInputValueChange: SetColor on the mapped characteristic. */
    method SendClassicColor(characteristic: ClassicColor.Characteristic, color: RGBWColor) returns (out: InputOutcome)
      requires Valid()
      modifies colors
      ensures Valid() && root.model == old(root.model)
      ensures out.ClassicWrite? && ClassicColor.ColorStep(colors.State(), out.colorWrite) == ClassicColor.AfterSetColor(old(colors.State()), characteristic, color)
    {
      var w := colors.SetColor(characteristic, color);
      out := ClassicWrite(w);
    }

    /**
     * A notification on the GUI characteristic: the handler's reception,
     * then handleJsonFunction (ProcessJSON on the root) or
     * handleUpdateValueFunction (setPathValue on the root with the root's
     * name prepended). Nothing is written back: a remote update does not
     * raise an input event.
     */
    method OnGuiNotification(view: seq<byte>, parse: JsonParser) returns (event: Event, r: Result<()>)
      requires Valid() && guiControl != null
      modifies Repr
      ensures Valid() && fresh(Repr - old(Repr))
      ensures guiControl == old(guiControl) && classicCharacteristicMapping == old(classicCharacteristicMapping)
      ensures Reception(guiControl.Model(), event) == Receive(old(guiControl.Model()), view, parse)
      ensures colors.State() == old(colors.State()) && guiControl.dataWriter.State() == old(guiControl.dataWriter.State())
      ensures event.GuiJson? ==> r == Ok(()) && root.model == old(root.model).(elements := old(root.model.elements) + Build(event.json))
      ensures event.ValueUpdate? ==>
        match Tree.SetPathValue(old(root.model), [root.name] + event.path, event.value)
        case Ok(m) => r.Ok? && root.model == m
        case Err(e) => r == Err(e) && root.model == old(root.model)
      ensures event.Thrown? ==> r == Err(event.error) && root.model == old(root.model)
      ensures event.Quiet? || event.UnknownPacket? ==> r == Ok(()) && root.model == old(root.model)
    {
      event := ReceiveGuiData(view, parse);
      r := ApplyEvent(event);
    }

    /** The GUI handler's reception of a notification; the element tree is not touched. */
    method ReceiveGuiData(view: seq<byte>, parse: JsonParser) returns (event: Event)
      requires Valid() && guiControl != null
      modifies Repr
      ensures Valid() && fresh(Repr - old(Repr))
      ensures guiControl == old(guiControl) && classicCharacteristicMapping == old(classicCharacteristicMapping)
      ensures Reception(guiControl.Model(), event) == Receive(old(guiControl.Model()), view, parse)
      ensures colors.State() == old(colors.State()) && guiControl.dataWriter.State() == old(guiControl.dataWriter.State())
      ensures root.model == old(root.model)
    {
      event := guiControl.OnCharacteristicChanged(view, parse);
      Repr := Repr + guiControl.Repr;
    }

    /** The callbacks the protocol handler calls for a received event, run on the root. */
    method ApplyEvent(event: Event) returns (r: Result<()>)
      requires Valid()
      modifies this, root.Repr
      ensures Valid() && fresh(Repr - old(Repr))
      ensures guiControl == old(guiControl) && classicCharacteristicMapping == old(classicCharacteristicMapping)
      ensures event.GuiJson? ==> r == Ok(()) && root.model == old(root.model).(elements := old(root.model.elements) + Build(event.json))
      ensures event.ValueUpdate? ==>
        match Tree.SetPathValue(old(root.model), [root.name] + event.path, event.value)
        case Ok(m) => r.Ok? && root.model == m
        case Err(e) => r == Err(e) && root.model == old(root.model)
      ensures event.Thrown? ==> r == Err(event.error) && root.model == old(root.model)
      ensures event.Quiet? || event.UnknownPacket? ==> r == Ok(()) && root.model == old(root.model)
    {
      r := Ok(());
      match event {
        case GuiJson(json) =>
          ProcessJson(root, json);
        case ValueUpdate(path, value) =>
          var completePath := [root.name] + path;
          r := root.SetPathValue(completePath, value);
        case Thrown(e) =>
          r := Err(e);
        case _ =>
      }
      Repr := Repr + root.Repr;
    }

    /**
     * User input on the leaf at `path` under the root: the leaf reacts, and
     * the value it forwards, if any, goes through onInputValueChange with
     * `path` as the source's absolute name.
     */
    method OnUserInput(path: seq<Text>, input: UserInput, now: nat) returns (out: Option<InputOutcome>)
      requires Valid() && Resolve(root.model, path).Some? && Delivers(Resolve(root.model, path).value.control, input)
      modifies Repr
      ensures Valid() && guiControl == old(guiControl) && classicCharacteristicMapping == old(classicCharacteristicMapping)
      ensures
        var leaf := Resolve(old(root.model), path).value;
        var reaction := React(leaf.control, input);
        root.model == ReplaceAt(old(root.model), path, leaf.(control := reaction.control))
        && (out.Some? <==> reaction.forwarded.Some?)
      // nothing forwarded, or forwarded to a classic characteristic: the GUI handler and its writer are untouched
      ensures (out.None? || Join(path) in classicCharacteristicMapping) && guiControl != null ==>
        guiControl.Model() == old(guiControl.Model()) && guiControl.dataWriter.State() == old(guiControl.dataWriter.State())
      // SetColor runs only for a forwarded colour from a mapped colour selector
      ensures out.None? || Join(path) !in classicCharacteristicMapping || !Resolve(old(root.model), path).value.control.ColorControl? ==>
        colors.State() == old(colors.State())
      ensures
        var leaf := Resolve(old(root.model), path).value;
        var reaction := React(leaf.control, input);
        (out.Some? && Join(path) in classicCharacteristicMapping && leaf.control.ColorControl? ==>
             out.value.ClassicWrite?
             && ClassicColor.ColorStep(colors.State(), out.value.colorWrite)
                == ClassicColor.AfterSetColor(old(colors.State()), classicCharacteristicMapping[Join(path)],
                     reaction.forwarded.value.color))
        && (out.Some? && Join(path) in classicCharacteristicMapping && !leaf.control.ColorControl? ==>
             out.value == InputRejected(NotAColorSelector))
        && (out.Some? && Join(path) !in classicCharacteristicMapping && guiControl == null ==>
             out.value == Unhandled)
        && (out.Some? && Join(path) !in classicCharacteristicMapping && guiControl != null ==>
             out.value.GuiWrite?
             && guiControl.Model() == old(guiControl.Model()).(pendingRequestIds := old(guiControl.pendingRequestIds) + {RequestId(now)})
             && Writer.Step(guiControl.dataWriter.State(), out.value.write)
                == Writer.AfterSendData(old(guiControl.dataWriter.State()), Join(Tail(path)),
                     SetValuePacket(RequestId(now), Tail(path), reaction.forwarded.value)))
    {
      var ev := DeliverToRoot(path, input);
      if ev.None? {
        return None;
      }
      ghost var leaf := Resolve(old(root.model), path).value;
      assert ev.value == InputEvent(path, TypeOf(leaf.control), React(leaf.control, input).forwarded.value);
      assert TypeOf(leaf.control) == ColorSelector <==> leaf.control.ColorControl?;
      var o := OnInputValueChange(ev.value, now);
      return Some(o);
    }

    /** The leaf's reaction, reached from the root; the event names the leaf by `path`. */
    method DeliverToRoot(path: seq<Text>, input: UserInput) returns (ev: Option<InputEvent>)
      requires Valid() && Resolve(root.model, path).Some? && Delivers(Resolve(root.model, path).value.control, input)
      modifies root.Repr
      ensures Valid() && guiControl == old(guiControl) && classicCharacteristicMapping == old(classicCharacteristicMapping)
      ensures colors.State() == old(colors.State())
      ensures guiControl != null ==>
        guiControl.Model() == old(guiControl.Model()) && guiControl.dataWriter.State() == old(guiControl.dataWriter.State())
      ensures
        var leaf := Resolve(old(root.model), path).value;
        var reaction := React(leaf.control, input);
        root.model == ReplaceAt(old(root.model), path, leaf.(control := reaction.control))
        && (ev.Some? <==> reaction.forwarded.Some?)
        && (ev.Some? ==> ev.value == InputEvent(path, TypeOf(leaf.control), reaction.forwarded.value))
    {
      ev := root.DeliverInput(path, input);
      assert root.ParentName() == [];
    }
  }
}
