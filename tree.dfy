/**
 * The tree of controls without the DOM: groups hold an ordered list of
 * children, leaves hold the state their widget shows. Elements are
 * addressed by paths of names, the first name being the addressed tree's
 * own; of several children with the same name the first one is reached.
 */
module Tree {
  import opened Wrappers
  import opened Bytes
  import opened Colors
  import opened Values

  /** UIElementType. */
  datatype ElementType =
    | Group | ColorSelector | RadioSelector | DropDownSelector | CheckBoxSelector
    | RangeSelector | Button | NumberFieldInt32 | TextField | PasswordField

  /** The lower bound `_clampNumberFieldValue` enforces: -(0x7FFFFFFF + 1). */
  const NUMBER_FIELD_MIN: int := -0x8000_0000
  /** The upper bound `_clampNumberFieldValue` enforces: 0x7FFFFFFF. */
  const NUMBER_FIELD_MAX: int := 0x7FFF_FFFF

  /**
   * The state of an element. Radio groups and drop-downs share the selector
   * state, text and password fields the text state.
   */
  datatype Control =
    | GroupControl
    | ColorControl(color: RGBWColor, channels: ColorChannels)
    | SelectorControl(radio: bool, optionNames: seq<Text>, selectedIndex: int)
    | CheckBoxControl(checked: bool)
    | RangeControl(min: int, max: int, value: int)
    | ButtonControl
    | NumberControl(value: int, readOnly: bool)
    | TextControl(password: bool, text: Text, maxLength: int)

  function TypeOf(c: Control): (t: ElementType)
    ensures t == Group <==> c.GroupControl?
    ensures t == RadioSelector || t == DropDownSelector <==> c.SelectorControl?
    ensures t == TextField || t == PasswordField <==> c.TextControl?
  {
    match c
    case GroupControl => Group
    case ColorControl(_, _) => ColorSelector
    case SelectorControl(radio, _, _) => if radio then RadioSelector else DropDownSelector
    case CheckBoxControl(_) => CheckBoxSelector
    case RangeControl(_, _, _) => RangeSelector
    case ButtonControl => Button
    case NumberControl(_, _) => NumberFieldInt32
    case TextControl(password, _, _) => if password then PasswordField else TextField
  }

  /** An element with its name, its state and, for a group, its children. */
  datatype Node = Node(name: Text, control: Control, elements: seq<Node>)

  /** Only groups have children. */
  predicate WellFormed(n: Node)
    decreases n
  {
    (!n.control.GroupControl? ==> n.elements == [])
    && forall i :: 0 <= i < |n.elements| ==> WellFormed(n.elements[i])
  }

  /** Two trees with the same names, element types and child counts everywhere. */
  predicate SameShape(a: Node, b: Node)
    decreases a
  {
    a.name == b.name && TypeOf(a.control) == TypeOf(b.control) && |a.elements| == |b.elements|
    && forall i :: 0 <= i < |a.elements| ==> SameShape(a.elements[i], b.elements[i])
  }

  lemma {:induction false} SameShapeReflexive(n: Node)
    ensures SameShape(n, n)
    decreases n
  {
    forall i | 0 <= i < |n.elements|
      ensures SameShape(n.elements[i], n.elements[i])
    {
      SameShapeReflexive(n.elements[i]);
    }
  }

  /** getChildByName: the index of the first child with that name. */
  function FirstChildNamed(elements: seq<Node>, name: Text): (r: Option<nat>)
    ensures r.None? <==> forall i :: 0 <= i < |elements| ==> elements[i].name != name
    ensures r.Some? ==>
      r.value < |elements| && elements[r.value].name == name && forall i :: 0 <= i < r.value ==> elements[i].name != name
  {
    if |elements| == 0 then None
    else if elements[0].name == name then Some(0)
    else
      match FirstChildNamed(elements[1..], name)
      case None => None
      case Some(k) => Some(k + 1)
  }

  /**
   * The leaf a path addresses, following the checks setPathValue makes: a
   * group needs at least its own name and a child name, a leaf exactly its
   * own name.
   */
  function Resolve(n: Node, path: seq<Text>): (r: Option<Node>)
    ensures r.Some? ==> !r.value.control.GroupControl?
    ensures r.Some? ==> |path| >= 1 && path[0] == n.name && r.value.name == path[|path| - 1]
    decreases n
  {
    if n.control.GroupControl? then
      if |path| < 2 || path[0] != n.name then None
      else
        match FirstChildNamed(n.elements, path[1])
        case None => None
        case Some(k) => Resolve(n.elements[k], path[1..])
    else if path == [n.name] then Some(n)
    else None
  }

  /** The tree with the leaf that `path` addresses replaced by `leaf`. */
  function ReplaceAt(n: Node, path: seq<Text>, leaf: Node): (r: Node)
    requires Resolve(n, path).Some?
    decreases n
  {
    if n.control.GroupControl? then
      var k := FirstChildNamed(n.elements, path[1]).value;
      n.(elements := n.elements[k := ReplaceAt(n.elements[k], path[1..], leaf)])
    else leaf
  }

  /** One step of Resolve and ReplaceAt in a group: both go on in the first child of the next name. */
  lemma ResolveStep(n: Node, path: seq<Text>, leaf: Node)
    requires n.control.GroupControl? && Resolve(n, path).Some?
    ensures |path| >= 2 && FirstChildNamed(n.elements, path[1]).Some?
    ensures var k := FirstChildNamed(n.elements, path[1]).value;
      Resolve(n.elements[k], path[1..]) == Resolve(n, path)
      && ReplaceAt(n, path, leaf) == n.(elements := n.elements[k := ReplaceAt(n.elements[k], path[1..], leaf)])
  {
  }

  /** After a replacement the path addresses the new leaf. */
  lemma {:induction false} ResolveReplaceAt(n: Node, path: seq<Text>, leaf: Node)
    requires Resolve(n, path).Some?
    requires leaf.name == Resolve(n, path).value.name && !leaf.control.GroupControl?
    ensures Resolve(ReplaceAt(n, path, leaf), path) == Some(leaf)
    decreases n
  {
    if n.control.GroupControl? {
      var k := FirstChildNamed(n.elements, path[1]).value;
      var c := ReplaceAt(n.elements[k], path[1..], leaf);
      ResolveReplaceAt(n.elements[k], path[1..], leaf);
      var r := ReplaceAt(n, path, leaf);
      FirstChildNamedAfterUpdate(n.elements, k, c, path[1]);
    }
  }

  /** Every other path addresses what it addressed before the replacement. */
  lemma {:induction false} ResolveReplaceAtOther(n: Node, path: seq<Text>, leaf: Node, other: seq<Text>)
    requires Resolve(n, path).Some?
    requires leaf.name == Resolve(n, path).value.name && !leaf.control.GroupControl?
    requires other != path
    ensures Resolve(ReplaceAt(n, path, leaf), other) == Resolve(n, other)
    decreases n
  {
    if n.control.GroupControl? && |other| >= 2 && other[0] == n.name {
      var k := FirstChildNamed(n.elements, path[1]).value;
      var c := ReplaceAt(n.elements[k], path[1..], leaf);
      FirstChildNamedAfterUpdate(n.elements, k, c, other[1]);
      var j := FirstChildNamed(n.elements, other[1]);
      if j == Some(k) {
        assert other[1..] != path[1..] by {
          assert other == [other[0]] + other[1..] && path == [path[0]] + path[1..];
        }
        ResolveReplaceAtOther(n.elements[k], path[1..], leaf, other[1..]);
      }
    }
  }

  /** Replacing a child by one of the same name keeps every name lookup. */
  lemma FirstChildNamedAfterUpdate(elements: seq<Node>, k: nat, c: Node, name: Text)
    requires k < |elements| && c.name == elements[k].name
    ensures FirstChildNamed(elements[k := c], name) == FirstChildNamed(elements, name)
  {
    var e := elements[k := c];
    assert forall i :: 0 <= i < |e| ==> e[i].name == elements[i].name;
    match FirstChildNamed(elements, name)
    case None =>
    case Some(j) =>
      assert e[j].name == name;
      assert forall i :: 0 <= i < j ==> e[i].name != name;
  }

  /** A replacement by a leaf of the same name and type keeps the tree's shape. */
  lemma {:induction false} ReplaceAtSameShape(n: Node, path: seq<Text>, leaf: Node)
    requires Resolve(n, path).Some?
    requires leaf.name == Resolve(n, path).value.name
    requires TypeOf(leaf.control) == TypeOf(Resolve(n, path).value.control) && leaf.elements == []
    requires WellFormed(n)
    ensures SameShape(n, ReplaceAt(n, path, leaf)) && WellFormed(ReplaceAt(n, path, leaf))
    decreases n
  {
    var r := ReplaceAt(n, path, leaf);
    if n.control.GroupControl? {
      var k := FirstChildNamed(n.elements, path[1]).value;
      ReplaceAtSameShape(n.elements[k], path[1..], leaf);
      forall i | 0 <= i < |n.elements|
        ensures SameShape(n.elements[i], r.elements[i]) && WellFormed(r.elements[i])
      {
        if i != k {
          SameShapeReflexive(n.elements[i]);
        }
      }
    }
  }

  /**
   * The leaf setters (`setValue`, `setState`, `setSelectedIndex` behind each
   * leaf's setPathValue): the value must have the leaf's type, a selector
   * index must lie in [0, number of options), a range value in [min, max].
   * A button accepts any value and keeps nothing; number and text fields
   * take any value of their type, without the clamping and truncation that
   * user input gets.
   */
  function Assign(c: Control, v: Value): (r: Result<Control>)
    requires !c.GroupControl?
    ensures r.Ok? ==> TypeOf(r.value) == TypeOf(c)
    ensures c.ColorControl? ==> r == (if v.Rgbw? then Ok(c.(color := v.color)) else Err(IncompatibleType))
    ensures c.SelectorControl? ==>
      r == if !v.Number? then Err(IncompatibleType)
           else if 0 <= v.n < |c.optionNames| then Ok(c.(selectedIndex := v.n))
           else Err(IndexOutOfBounds)
    ensures c.CheckBoxControl? ==> r == (if v.Boolean? then Ok(CheckBoxControl(v.b)) else Err(IncompatibleType))
    ensures c.RangeControl? ==>
      r == if !v.Number? then Err(IncompatibleType)
           else if c.min <= v.n <= c.max then Ok(RangeControl(c.min, c.max, v.n))
           else Err(RangeOutOfBounds)
    ensures c.ButtonControl? ==> r == Ok(c)
    ensures c.NumberControl? ==> r == (if v.Number? then Ok(NumberControl(v.n, c.readOnly)) else Err(IncompatibleType))
    ensures c.TextControl? ==> r == (if v.Str? then Ok(c.(text := v.s)) else Err(IncompatibleType))
  {
    match c
    case ColorControl(_, _) =>
      (match v.GetRGBWValue()
       case Err(_) => Err(IncompatibleType)
       case Ok(color) => Ok(c.(color := color)))
    case SelectorControl(_, optionNames, _) =>
      (match v.GetNumberValue()
       case Err(_) => Err(IncompatibleType)
       case Ok(index) =>
         if index >= |optionNames| || index < 0 then Err(IndexOutOfBounds)
         else Ok(c.(selectedIndex := index)))
    case CheckBoxControl(_) =>
      (match v.GetBooleanValue()
       case Err(_) => Err(IncompatibleType)
       case Ok(b) => Ok(CheckBoxControl(b)))
    case RangeControl(min, max, _) =>
      (match v.GetNumberValue()
       case Err(_) => Err(IncompatibleType)
       case Ok(x) => if x > max || x < min then Err(RangeOutOfBounds) else Ok(RangeControl(min, max, x)))
    case ButtonControl => Ok(c)
    case NumberControl(_, readOnly) =>
      (match v.GetNumberValue()
       case Err(_) => Err(IncompatibleType)
       case Ok(x) => Ok(NumberControl(x, readOnly)))
    case TextControl(_, _, _) =>
      (match v.GetStringValue()
       case Err(_) => Err(IncompatibleType)
       case Ok(s) => Ok(c.(text := s)))
  }

  /**
   * setPathValue: a group checks the path and hands the rest of it to its
   * first child of the next name; a leaf checks that the path is its own
   * name alone (checkValidPath) and then assigns the value.
   */
  function SetPathValue(n: Node, path: seq<Text>, v: Value): Result<Node>
    decreases n
  {
    if n.control.GroupControl? then
      if |path| < 2 || path[0] != n.name then Err(InvalidPath)
      else
        match FirstChildNamed(n.elements, path[1])
        case None => Err(ChildNotPresent)
        case Some(k) =>
          (match SetPathValue(n.elements[k], path[1..], v)
           case Err(e) => Err(e)
           case Ok(child) => Ok(n.(elements := n.elements[k := child])))
    else if |path| != 1 || path[0] != n.name then Err(InvalidPath)
    else
      match Assign(n.control, v)
      case Err(e) => Err(e)
      case Ok(c) => Ok(n.(control := c))
  }

  /**
   * setPathValue succeeds exactly when the path addresses a leaf that
   * accepts the value, and then replaces that leaf's state and nothing else.
   */
  lemma {:induction false} SetPathValueSpec(n: Node, path: seq<Text>, v: Value)
    ensures SetPathValue(n, path, v).Ok? <==> Resolve(n, path).Some? && Assign(Resolve(n, path).value.control, v).Ok?
    ensures SetPathValue(n, path, v).Ok? ==>
      var leaf := Resolve(n, path).value;
      SetPathValue(n, path, v).value == ReplaceAt(n, path, leaf.(control := Assign(leaf.control, v).value))
    decreases n
  {
    if n.control.GroupControl? && |path| >= 2 && path[0] == n.name {
      match FirstChildNamed(n.elements, path[1])
      case None =>
      case Some(k) => SetPathValueSpec(n.elements[k], path[1..], v);
    }
  }

  /**
   * After a successful setPathValue the path addresses the updated leaf,
   * every other path addresses what it did before, and the shape of the
   * tree is unchanged.
   */
  lemma SetPathValueFrame(n: Node, path: seq<Text>, v: Value, other: seq<Text>)
    requires WellFormed(n) && SetPathValue(n, path, v).Ok?
    ensures Resolve(n, path).Some? && Assign(Resolve(n, path).value.control, v).Ok?
    ensures var leaf := Resolve(n, path).value;
      Resolve(SetPathValue(n, path, v).value, path) == Some(leaf.(control := Assign(leaf.control, v).value))
    ensures other != path ==> Resolve(SetPathValue(n, path, v).value, other) == Resolve(n, other)
    ensures SameShape(n, SetPathValue(n, path, v).value) && WellFormed(SetPathValue(n, path, v).value)
  {
    SetPathValueSpec(n, path, v);
    var leaf := Resolve(n, path).value;
    ResolveIsWellFormed(n, path);
    var leaf' := leaf.(control := Assign(leaf.control, v).value);
    ResolveReplaceAt(n, path, leaf');
    if other != path {
      ResolveReplaceAtOther(n, path, leaf', other);
    }
    ReplaceAtSameShape(n, path, leaf');
  }

  lemma {:induction false} ResolveIsWellFormed(n: Node, path: seq<Text>)
    requires WellFormed(n) && Resolve(n, path).Some?
    ensures WellFormed(Resolve(n, path).value)
    decreases n
  {
    if n.control.GroupControl? {
      var k := FirstChildNamed(n.elements, path[1]).value;
      ResolveIsWellFormed(n.elements[k], path[1..]);
    }
  }

  /** A group is never the target of setPathValue, whatever the path. */
  lemma GroupIsNotALeaf(n: Node, v: Value)
    requires n.control.GroupControl?
    ensures SetPathValue(n, [n.name], v) == Err(InvalidPath)
  {
  }

  /**
   * Values from the wire are never strings, so text and password fields
   * cannot be changed by another party.
   */
  lemma WireValueNeverSetsText(n: Node, path: seq<Text>, v: Value)
    requires !v.Str?
    requires Resolve(n, path).Some? && Resolve(n, path).value.control.TextControl?
    ensures SetPathValue(n, path, v).Err?
  {
    SetPathValueSpec(n, path, v);
  }

  /** Every number field of the tree holds an int32. */
  predicate NumbersInt32(n: Node)
    decreases n
  {
    (n.control.NumberControl? ==> IsInt32(n.control.value))
    && forall i :: 0 <= i < |n.elements| ==> NumbersInt32(n.elements[i])
  }

  /** A value decoded from the wire, where numbers are read as int32. */
  predicate IsWireValue(v: Value) {
    !v.Str? && (v.Number? ==> IsInt32(v.n))
  }

  /** Replacing a leaf by one whose number, if any, is an int32 keeps NumbersInt32. */
  lemma {:induction false} ReplaceAtKeepsNumbers(n: Node, path: seq<Text>, leaf: Node)
    requires Resolve(n, path).Some? && NumbersInt32(n) && NumbersInt32(leaf)
    ensures NumbersInt32(ReplaceAt(n, path, leaf))
    decreases n
  {
    if n.control.GroupControl? {
      var k := FirstChildNamed(n.elements, path[1]).value;
      ReplaceAtKeepsNumbers(n.elements[k], path[1..], leaf);
    }
  }

  /** Updates from the wire keep every number field within int32. */
  lemma WireUpdateKeepsNumbersInt32(n: Node, path: seq<Text>, v: Value)
    requires NumbersInt32(n) && IsWireValue(v) && SetPathValue(n, path, v).Ok?
    ensures NumbersInt32(SetPathValue(n, path, v).value)
  {
    SetPathValueSpec(n, path, v);
    var leaf := Resolve(n, path).value;
    var leaf' := leaf.(control := Assign(leaf.control, v).value);
    ResolveKeepsNumbers(n, path);
    ReplaceAtKeepsNumbers(n, path, leaf');
  }

  lemma {:induction false} ResolveKeepsNumbers(n: Node, path: seq<Text>)
    requires NumbersInt32(n) && Resolve(n, path).Some?
    ensures NumbersInt32(Resolve(n, path).value)
    decreases n
  {
    if n.control.GroupControl? {
      var k := FirstChildNamed(n.elements, path[1]).value;
      ResolveKeepsNumbers(n.elements[k], path[1..]);
    }
  }

  /**
   * What the user can do to a leaf, with what the browser then reports: the
   * colour picker's "#rrggbb" value, the four slider values, the index of
   * the first selected option, the new check box state, the range value, a
   * click, typing into a number field (its parsed value), leaving it or
   * pressing Enter, typing into a text field (its new text).
   */
  datatype UserInput =
    | ColorPicked(html: string)
    | SlidersMoved(r: int, g: int, b: int, w: int)
    | OptionChosen(first: Option<nat>)
    | CheckBoxToggled(checked: bool)
    | RangeMoved(value: int)
    | ButtonClicked
    | NumberTyped(number: int)
    | NumberCommitted
    | TextTyped(entered: Text)

  /**
   * The browser delivers to a leaf only its own widget's events; a picked
   * colour is a lower-case simple colour and a chosen option exists.
   */
  predicate Delivers(c: Control, input: UserInput) {
    match input
    case ColorPicked(html) => c.ColorControl? && IsSimpleColor(html)
    case SlidersMoved(_, _, _, _) => c.ColorControl?
    case OptionChosen(first) => c.SelectorControl? && (first.Some? ==> first.value < |c.optionNames|)
    case CheckBoxToggled(_) => c.CheckBoxControl?
    case RangeMoved(_) => c.RangeControl?
    case ButtonClicked => c.ButtonControl?
    case NumberTyped(_) => c.NumberControl?
    case NumberCommitted => c.NumberControl?
    case TextTyped(_) => c.TextControl?
  }

  /** `_clampNumberFieldValue`. */
  function Clamp(x: int): (r: int)
    ensures IsInt32(r)
    ensures IsInt32(x) ==> r == x
    ensures x > NUMBER_FIELD_MAX ==> r == NUMBER_FIELD_MAX
    ensures x < NUMBER_FIELD_MIN ==> r == NUMBER_FIELD_MIN
  {
    if x > NUMBER_FIELD_MAX then NUMBER_FIELD_MAX
    else if x < NUMBER_FIELD_MIN then NUMBER_FIELD_MIN
    else x
  }

  /**
   * The text field's input handler: a text longer than a `maxLength` other
   * than -1 is cut to its first `maxLength` bytes (to none when `maxLength`
   * is negative, as `substring` does).
   */
  function Truncate(text: Text, maxLength: int): (r: Text)
    ensures r <= text
    ensures maxLength == -1 || |text| <= maxLength ==> r == text
    ensures maxLength >= 0 ==> |r| <= maxLength
    ensures maxLength >= 0 && |text| > maxLength ==> |r| == maxLength
    ensures maxLength < -1 ==> r == []
  {
    if maxLength != -1 && |text| > maxLength then text[..if maxLength < 0 then 0 else maxLength]
    else text
  }

  /** A leaf's new state and the value it forwards to its parent, if any. */
  datatype Reaction = Reaction(control: Control, forwarded: Option<Value>)

  /**
   * The leaves' input handlers. A colour change (picker or sliders) shows
   * the new colour and forwards it, the picker's with white 0; a selector
   * takes the first selected option and forwards the selected index; a
   * check box or range forwards its new state; a button forwards true; a
   * typed number is clamped to int32 and forwarded only on commit, and not
   * at all when read-only; typed text is truncated and forwarded.
   */
  function React(c: Control, input: UserInput): (r: Reaction)
    requires Delivers(c, input)
    ensures TypeOf(r.control) == TypeOf(c)
    ensures input.ColorPicked? ==>
      var rgb := ExtractRGB(input.html);
      r == Reaction(c.(color := RGBWColor(rgb.r, rgb.g, rgb.b, 0)), Some(Rgbw(RGBWColor(rgb.r, rgb.g, rgb.b, 0))))
    ensures input.SlidersMoved? ==>
      var color := RGBWColor(input.r, input.g, input.b, input.w);
      r == Reaction(c.(color := color), Some(Rgbw(color)))
    ensures input.OptionChosen? ==>
      r.control.selectedIndex == (if input.first.Some? then input.first.value else c.selectedIndex)
      && r.control.optionNames == c.optionNames
      && r.forwarded == Some(Number(r.control.selectedIndex))
    ensures input.CheckBoxToggled? ==> r == Reaction(CheckBoxControl(input.checked), Some(Boolean(input.checked)))
    ensures input.RangeMoved? ==> r == Reaction(RangeControl(c.min, c.max, input.value), Some(Number(input.value)))
    ensures input.ButtonClicked? ==> r == Reaction(c, Some(Boolean(true)))
    ensures input.NumberTyped? ==>
      r.forwarded == None && r.control.value == Clamp(input.number) && r.control.readOnly == c.readOnly
    ensures input.NumberCommitted? ==>
      r.control == c && (r.forwarded.Some? <==> !c.readOnly)
      && (r.forwarded.Some? ==> r.forwarded.value == Number(c.value))
    ensures input.TextTyped? ==>
      r.control.text <= input.entered && r.forwarded == Some(Str(r.control.text))
      && r.control.maxLength == c.maxLength && r.control.password == c.password
      && (c.maxLength >= 0 ==> |r.control.text| <= c.maxLength)
      && (c.maxLength == -1 || |input.entered| <= c.maxLength ==> r.control.text == input.entered)
  {
    match input
    case ColorPicked(html) =>
      var rgb := ExtractRGB(html);
      var color := RGBWColor(rgb.r, rgb.g, rgb.b, 0);
      Reaction(c.(color := color), Some(Rgbw(color)))
    case SlidersMoved(r, g, b, w) =>
      var color := RGBWColor(r, g, b, w);
      Reaction(c.(color := color), Some(Rgbw(color)))
    case OptionChosen(first) =>
      var selected := if first.Some? then c.(selectedIndex := first.value) else c;
      Reaction(selected, Some(Number(selected.selectedIndex)))
    case CheckBoxToggled(checked) => Reaction(CheckBoxControl(checked), Some(Boolean(checked)))
    case RangeMoved(x) => Reaction(RangeControl(c.min, c.max, x), Some(Number(x)))
    case ButtonClicked => Reaction(c, Some(Boolean(true)))
    case NumberTyped(number) => Reaction(NumberControl(Clamp(number), c.readOnly), None)
    case NumberCommitted => Reaction(c, if c.readOnly then None else Some(Number(c.value)))
    case TextTyped(entered) =>
      var text := Truncate(entered, c.maxLength);
      Reaction(c.(text := text), Some(Str(text)))
  }

  /**
   * User input keeps every number field within int32, whatever is typed.
   */
  lemma InputKeepsNumbersInt32(n: Node, path: seq<Text>, input: UserInput)
    requires NumbersInt32(n) && Resolve(n, path).Some?
    requires Delivers(Resolve(n, path).value.control, input)
    ensures var leaf := Resolve(n, path).value;
      NumbersInt32(ReplaceAt(n, path, leaf.(control := React(leaf.control, input).control)))
  {
    var leaf := Resolve(n, path).value;
    ResolveKeepsNumbers(n, path);
    ReplaceAtKeepsNumbers(n, path, leaf.(control := React(leaf.control, input).control));
  }
}
