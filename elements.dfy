/**
 * AUIElement, UIGroupElement and the leaf element classes, without their
 * widgets: one class whose `control` holds the leaf state (or GroupControl)
 * and whose `elements` holds a group's children. The ghost `model` is the
 * element's subtree as a Tree.Node; every method states its effect on it.
 */
module Elements {
  import opened Wrappers
  import opened Bytes
  import opened Colors
  import opened Values
  import opened Tree

  /** What reaches the root's onInputValueChange: the source's absolute name and type, and the value. */
  datatype InputEvent = InputEvent(source: seq<Text>, sourceType: ElementType, value: Value)

  class UIElement {
    const name: Text
    const parent: UIElement?
    /** The number of ancestors. */
    ghost const depth: nat
    var control: Control
    var elements: seq<UIElement>
    ghost var model: Node
    ghost var Repr: set<object>

    /** The parent chain ends. */
    ghost predicate Anchored()
      decreases depth
    {
      if parent == null then depth == 0 else depth == parent.depth + 1 && parent.Anchored()
    }

    ghost predicate Valid()
      reads this, Repr
      decreases Repr
    {
      this in Repr && Anchored()
      && model.name == name && model.control == control && |model.elements| == |elements|
      && (!control.GroupControl? ==> elements == [])
      && (forall i :: 0 <= i < |elements| ==>
            elements[i] in Repr && elements[i].Repr <= Repr && this !in elements[i].Repr
            && elements[i].parent == this && elements[i].Valid() && elements[i].model == model.elements[i])
      && (forall i, j :: 0 <= i < j < |elements| ==> elements[i].Repr !! elements[j].Repr)
    }

    /** The names of the ancestors, outermost first. */
    function ParentName(): (r: seq<Text>)
      requires Anchored()
      ensures |r| == depth
      decreases depth, 0
    {
      if parent == null then [] else parent.AbsoluteName()
    }

    /** getAbsoluteName: the ancestors' names followed by the element's own. */
    function AbsoluteName(): (r: seq<Text>)
      requires Anchored()
      ensures |r| == depth + 1 && r[depth] == name
      ensures parent != null ==> r[..depth] == parent.AbsoluteName()
      ensures parent == null ==> r == [name]
      decreases depth, 1
    {
      ParentName() + [name]
    }

    function Type(): ElementType
      reads this
    {
      TypeOf(control)
    }

    /** An element without children, attached to `parent` by the caller. */
    constructor(name: Text, parent: UIElement?, control: Control)
      requires parent != null ==> parent.Anchored()
      ensures Valid() && fresh(Repr) && Repr == {this}
      ensures this.name == name && this.parent == parent && elements == []
      ensures model == Node(name, control, [])
    {
      this.name := name;
      this.parent := parent;
      this.depth := if parent == null then 0 else parent.depth + 1;
      this.control := control;
      this.elements := [];
      this.model := Node(name, control, []);
      this.Repr := {this};
    }

    /** `_addChildElement`. */
    method AddChild(child: UIElement)
      requires Valid() && control.GroupControl?
      requires child.Valid() && child.parent == this && child.Repr !! Repr
      modifies this
      ensures Valid() && elements == old(elements) + [child]
      ensures model == old(model).(elements := old(model.elements) + [child.model])
      ensures Repr == old(Repr) + child.Repr
    {
      elements := elements + [child];
      model := model.(elements := model.elements + [child.model]);
      Repr := Repr + child.Repr;
      assert elements[|elements| - 1] == child;
    }

    /** The construction of a child element followed by `_addChildElement`. */
    method AddElement(childName: Text, childControl: Control) returns (e: UIElement)
      requires Valid() && control.GroupControl?
      modifies this
      ensures Valid() && fresh(e) && fresh(Repr - old(Repr)) && elements == old(elements) + [e]
      ensures model == old(model).(elements := old(model.elements) + [Node(childName, childControl, [])])
      ensures e.Valid() && e.name == childName && e.parent == this
      ensures e.control == childControl && e.model == Node(childName, childControl, [])
    {
      e := new UIElement(childName, this, childControl);
      AddChild(e);
    }

    /** getChildByName: the first child with that name, or null. */
    method GetChildByName(childName: Text) returns (child: UIElement?)
      requires Valid()
      ensures child == null <==> FirstChildNamed(model.elements, childName).None?
      ensures child != null ==> child == elements[FirstChildNamed(model.elements, childName).value]
    {
      for i := 0 to |elements|
        invariant forall j :: 0 <= j < i ==> model.elements[j].name != childName
      {
        if elements[i].name == childName {
          return elements[i];
        }
      }
      return null;
    }

    /** checkValidPath followed by the setter of the leaf's class. */
    method SetLeafPathValue(path: seq<Text>, v: Value) returns (r: Result<()>)
      requires Valid() && !control.GroupControl?
      modifies this
      ensures Valid() && Repr == old(Repr) && elements == old(elements)
      ensures match Tree.SetPathValue(old(model), path, v)
        case Ok(m) => r.Ok? && model == m
        case Err(e) => r == Err(e) && model == old(model)
    {
      if |path| != 1 || path[0] != name {
        return Err(InvalidPath);
      }
      match control {
        case ColorControl(_, _) =>
          if !v.Rgbw? {
            return Err(IncompatibleType);
          }
          control := control.(color := v.color);
        case SelectorControl(_, optionNames, _) =>
          if !v.Number? {
            return Err(IncompatibleType);
          }
          if v.n >= |optionNames| || v.n < 0 {
            return Err(IndexOutOfBounds);
          }
          control := control.(selectedIndex := v.n);
        case CheckBoxControl(_) =>
          if !v.Boolean? {
            return Err(IncompatibleType);
          }
          control := CheckBoxControl(v.b);
        case RangeControl(min, max, _) =>
          if !v.Number? {
            return Err(IncompatibleType);
          }
          if v.n > max || v.n < min {
            return Err(RangeOutOfBounds);
          }
          control := RangeControl(min, max, v.n);
        case ButtonControl =>
        case NumberControl(_, readOnly) =>
          if !v.Number? {
            return Err(IncompatibleType);
          }
          control := NumberControl(v.n, readOnly);
        case TextControl(_, _, _) =>
          if !v.Str? {
            return Err(IncompatibleType);
          }
          control := control.(text := v.s);
      }
      model := model.(control := control);
      return Ok(());
    }

    /** setPathValue: the setter of a leaf, or a group's descent along the path. */
    method SetPathValue(path: seq<Text>, v: Value) returns (r: Result<()>)
      requires Valid()
      modifies Repr
      ensures Valid() && Repr == old(Repr) && elements == old(elements)
      ensures match Tree.SetPathValue(old(model), path, v)
        case Ok(m) => r.Ok? && model == m
        case Err(e) => r == Err(e) && model == old(model)
      decreases Repr, 2
    {
      if control.GroupControl? {
        r := SetGroupPathValue(path, v);
      } else {
        r := SetLeafPathValue(path, v);
      }
    }

    /** UIGroupElement.setPathValue: checks the path head and passes the rest to the named child. */
    method SetGroupPathValue(path: seq<Text>, v: Value) returns (r: Result<()>)
      requires Valid() && control.GroupControl?
      modifies Repr
      ensures Valid() && Repr == old(Repr) && elements == old(elements)
      ensures match Tree.SetPathValue(old(model), path, v)
        case Ok(m) => r.Ok? && model == m
        case Err(e) => r == Err(e) && model == old(model)
      decreases Repr, 1
    {
      if |path| < 2 || path[0] != name {
        return Err(InvalidPath);
      }
      var child := GetChildByName(path[1]);
      if child == null {
        return Err(ChildNotPresent);
      }
      ghost var k := FirstChildNamed(model.elements, path[1]).value;
      r := SetChildPathValue(child, k, path[1..], v);
    }

    /** The part of UIGroupElement.setPathValue that passes the rest of the path to child `k`. */
    method SetChildPathValue(child: UIElement, ghost k: nat, path: seq<Text>, v: Value) returns (r: Result<()>)
      requires Valid() && control.GroupControl? && k < |elements| && child == elements[k]
      modifies Repr
      ensures Valid() && Repr == old(Repr) && elements == old(elements)
      ensures match Tree.SetPathValue(old(model.elements[k]), path, v)
        case Ok(c) => r.Ok? && model == old(model).(elements := old(model.elements)[k := c])
        case Err(e) => r == Err(e) && model == old(model)
      decreases Repr, 0
    {
      ghost var m0 := model;
      assert forall i :: 0 <= i < |elements| && i != k ==> elements[i].Repr !! child.Repr;
      r := child.SetPathValue(path, v);
      assert forall i :: 0 <= i < |elements| && i != k ==> elements[i].Valid() && elements[i].model == m0.elements[i];
      ChildChanged(k);
      if r.Err? {
        assert model.elements == m0.elements;
      }
    }

    /**
     * Takes the new state of child `k`, changed by a call on the child
     * alone, into this group's model and footprint.
     */
    ghost method ChildChanged(k: nat)
      requires k < |elements| && this in Repr && Anchored() && control.GroupControl?
      requires model.name == name && model.control == control && |model.elements| == |elements|
      requires elements[k].Valid() && elements[k].parent == this && this !in elements[k].Repr
      requires forall i :: 0 <= i < |elements| && i != k ==>
        elements[i] in Repr && elements[i].Repr <= Repr && this !in elements[i].Repr
        && elements[i].parent == this && elements[i].Valid() && elements[i].model == model.elements[i]
      requires forall i, j :: 0 <= i < j < |elements| ==> elements[i].Repr !! elements[j].Repr
      modifies this
      ensures Valid() && Repr == old(Repr) + elements[k].Repr && elements == old(elements)
      ensures model == old(model).(elements := old(model.elements)[k := elements[k].model])
    {
      Repr := Repr + elements[k].Repr;
      model := model.(elements := model.elements[k := elements[k].model]);
    }

    /**
     * eraseChildByRef: the child that is `ref` is spliced out of the
     * children, with its footprint; false when `ref` is not a child.
     */
    method EraseChildByRef(ref: UIElement) returns (found: bool)
      requires Valid()
      modifies this
      ensures Valid()
      ensures found <==> ref in old(elements)
      ensures !found ==> elements == old(elements) && model == old(model) && Repr == old(Repr)
      ensures found ==> Repr == old(Repr) - ref.Repr
      ensures found ==> forall i :: 0 <= i < |old(elements)| && old(elements)[i] == ref ==>
        elements == old(elements)[..i] + old(elements)[i + 1..]
        && model == old(model).(elements := old(model.elements)[..i] + old(model.elements)[i + 1..])
    {
      for i := 0 to |elements|
        invariant forall j :: 0 <= j < i ==> elements[j] != ref
      {
        if elements[i] == ref {
          Distinct(i);
          SpliceChild(i);
          return true;
        }
      }
      return false;
    }

    /** The splice of eraseChildByRef: child `k` leaves the children, the model and the footprint. */
    method SpliceChild(k: nat)
      requires Valid() && k < |elements|
      modifies this
      ensures Valid()
      ensures elements == old(elements)[..k] + old(elements)[k + 1..]
      ensures model == old(model).(elements := old(model.elements)[..k] + old(model.elements)[k + 1..])
      ensures Repr == old(Repr) - old(elements)[k].Repr
    {
      var child := elements[k];
      SplicedChildrenValid(k);
      elements := elements[..k] + elements[k + 1..];
      model := model.(elements := model.elements[..k] + model.elements[k + 1..]);
      Repr := Repr - child.Repr;
    }

    /** The children left by a splice at `k` still meet Valid within the footprint left. */
    lemma SplicedChildrenValid(k: nat)
      requires Valid() && k < |elements|
      ensures this !in elements[k].Repr
      ensures var rest, models, repr := elements[..k] + elements[k + 1..], model.elements[..k] + model.elements[k + 1..], Repr - elements[k].Repr;
        |models| == |rest|
        && (forall i :: 0 <= i < |rest| ==>
              rest[i] in repr && rest[i].Repr <= repr && this !in rest[i].Repr
              && rest[i].parent == this && rest[i].Valid() && rest[i].model == models[i])
        && (forall i, j :: 0 <= i < j < |rest| ==> rest[i].Repr !! rest[j].Repr)
    {
      var rest := elements[..k] + elements[k + 1..];
      forall i | 0 <= i < |rest|
        ensures rest[i] == elements[Skip(i, k)] && rest[i].Repr !! elements[k].Repr
      {
        if Skip(i, k) < k {
          assert elements[Skip(i, k)].Repr !! elements[k].Repr;
        } else {
          assert elements[k].Repr !! elements[Skip(i, k)].Repr;
        }
      }
      forall i, j | 0 <= i < j < |rest|
        ensures rest[i].Repr !! rest[j].Repr
      {
        assert elements[Skip(i, k)].Repr !! elements[Skip(j, k)].Repr;
      }
    }

    /** The index, among the children before a splice at `k`, of child `j` after it. */
    static function Skip(j: nat, k: nat): nat {
      if j < k then j else j + 1
    }

    /** A child is its own footprint's owner, so no two children are the same element. */
    lemma Distinct(k: nat)
      requires Valid() && k < |elements|
      ensures forall i :: 0 <= i < |elements| && i != k ==> elements[i] != elements[k]
    {
      forall i | 0 <= i < |elements| && i != k
        ensures elements[i] != elements[k]
      {
        assert elements[i] in elements[i].Repr && elements[k] in elements[k].Repr;
        if i < k {
          assert elements[i].Repr !! elements[k].Repr;
        } else {
          assert elements[k].Repr !! elements[i].Repr;
        }
      }
    }

    /**
     * destroy: an element with a parent has the parent erase it and fails
     * when the parent does not hold it; a root has nothing to leave.
     */
    method Destroy() returns (r: Result<()>)
      requires parent != null ==> parent.Valid()
      modifies if parent != null then {parent} else {}
      ensures parent == null ==> r == Ok(())
      ensures parent != null ==> parent.Valid() && parent.Repr <= old(parent.Repr) && (r.Ok? <==> this in old(parent.elements))
      ensures parent != null && r.Err? ==> r.error == RemoveFailed && parent.model == old(parent.model)
      ensures parent != null && r.Ok? ==> forall i :: 0 <= i < |old(parent.elements)| && old(parent.elements)[i] == this ==>
        parent.elements == old(parent.elements)[..i] + old(parent.elements)[i + 1..]
        && parent.model == old(parent.model).(elements := old(parent.model.elements)[..i] + old(parent.model.elements)[i + 1..])
    {
      if parent == null {
        return Ok(());
      }
      var found := parent.EraseChildByRef(this);
      if !found {
        return Err(RemoveFailed);
      }
      return Ok(());
    }

    /**
     * removeChildByName: the first child of that name destroys itself, which
     * always finds it in this group; false when no child has the name.
     */
    method RemoveChildByName(childName: Text) returns (removed: bool)
      requires Valid()
      modifies this
      ensures Valid() && Repr <= old(Repr)
      ensures removed <==> FirstChildNamed(old(model.elements), childName).Some?
      ensures !removed ==> elements == old(elements) && model == old(model)
      ensures removed ==>
        var k := FirstChildNamed(old(model.elements), childName).value;
        elements == old(elements)[..k] + old(elements)[k + 1..]
        && model == old(model).(elements := old(model.elements)[..k] + old(model.elements)[k + 1..])
    {
      for i := 0 to |elements|
        invariant forall j :: 0 <= j < i ==> model.elements[j].name != childName
      {
        if elements[i].name == childName {
          var child := elements[i];
          var r := child.Destroy();
          assert r.Ok?;
          return true;
        }
      }
      return false;
    }

    /** addRGBWColorPicker: a colour selector whose sliders all start at 0. */
    method AddRGBWColorPicker(childName: Text, channels: ColorChannels) returns (e: UIElement)
      requires Valid() && control.GroupControl?
      modifies this
      ensures Valid() && fresh(e) && fresh(Repr - old(Repr)) && elements == old(elements) + [e]
      ensures model == old(model).(elements := old(model.elements) + [Node(childName, ColorControl(RGBWColor(0, 0, 0, 0), channels), [])])
      ensures e.Valid() && e.parent == this && e.name == childName && e.control == ColorControl(RGBWColor(0, 0, 0, 0), channels)
      ensures e.model == Node(childName, ColorControl(RGBWColor(0, 0, 0, 0), channels), [])
    {
      e := AddElement(childName, ColorControl(RGBWColor(0, 0, 0, 0), channels));
    }

    /** addRadioGroup: `selectedIndex` only marks an option in the widget; the selected index starts at 0. */
    method AddRadioGroup(childName: Text, entries: seq<Text>, selectedIndex: int) returns (e: UIElement)
      requires Valid() && control.GroupControl?
      modifies this
      ensures Valid() && fresh(e) && fresh(Repr - old(Repr)) && elements == old(elements) + [e]
      ensures model == old(model).(elements := old(model.elements) + [Node(childName, SelectorControl(true, entries, 0), [])])
      ensures e.Valid() && e.parent == this && e.name == childName && e.control == SelectorControl(true, entries, 0)
      ensures e.model == Node(childName, SelectorControl(true, entries, 0), [])
    {
      e := AddElement(childName, SelectorControl(true, entries, 0));
    }

    /** addDropDown: as addRadioGroup, the selected index starts at 0 whatever `selectedIndex` is. */
    method AddDropDown(childName: Text, entries: seq<Text>, selectedIndex: int) returns (e: UIElement)
      requires Valid() && control.GroupControl?
      modifies this
      ensures Valid() && fresh(e) && fresh(Repr - old(Repr)) && elements == old(elements) + [e]
      ensures model == old(model).(elements := old(model.elements) + [Node(childName, SelectorControl(false, entries, 0), [])])
      ensures e.Valid() && e.parent == this && e.name == childName && e.control == SelectorControl(false, entries, 0)
      ensures e.model == Node(childName, SelectorControl(false, entries, 0), [])
    {
      e := AddElement(childName, SelectorControl(false, entries, 0));
    }

    /** addCheckBox. */
    method AddCheckBox(childName: Text, value: bool) returns (e: UIElement)
      requires Valid() && control.GroupControl?
      modifies this
      ensures Valid() && fresh(e) && fresh(Repr - old(Repr)) && elements == old(elements) + [e]
      ensures model == old(model).(elements := old(model.elements) + [Node(childName, CheckBoxControl(value), [])])
      ensures e.Valid() && e.parent == this && e.name == childName && e.control == CheckBoxControl(value)
      ensures e.model == Node(childName, CheckBoxControl(value), [])
    {
      e := AddElement(childName, CheckBoxControl(value));
    }

    /** addRange. */
    method AddRange(childName: Text, min: int, max: int, value: int) returns (e: UIElement)
      requires Valid() && control.GroupControl?
      modifies this
      ensures Valid() && fresh(e) && fresh(Repr - old(Repr)) && elements == old(elements) + [e]
      ensures model == old(model).(elements := old(model.elements) + [Node(childName, RangeControl(min, max, value), [])])
      ensures e.Valid() && e.parent == this && e.name == childName && e.control == RangeControl(min, max, value)
      ensures e.model == Node(childName, RangeControl(min, max, value), [])
    {
      e := AddElement(childName, RangeControl(min, max, value));
    }

    /** addButton. */
    method AddButton(childName: Text) returns (e: UIElement)
      requires Valid() && control.GroupControl?
      modifies this
      ensures Valid() && fresh(e) && fresh(Repr - old(Repr)) && elements == old(elements) + [e]
      ensures model == old(model).(elements := old(model.elements) + [Node(childName, ButtonControl, [])])
      ensures e.Valid() && e.parent == this && e.name == childName && e.control == ButtonControl
      ensures e.model == Node(childName, ButtonControl, [])
    {
      e := AddElement(childName, ButtonControl);
    }

    /** addNumberFieldInt32: a number field that is not read-only. */
    method AddNumberFieldInt32(childName: Text, value: int) returns (e: UIElement)
      requires Valid() && control.GroupControl?
      modifies this
      ensures Valid() && fresh(e) && fresh(Repr - old(Repr)) && elements == old(elements) + [e]
      ensures model == old(model).(elements := old(model.elements) + [Node(childName, NumberControl(value, false), [])])
      ensures e.Valid() && e.parent == this && e.name == childName && e.control == NumberControl(value, false)
      ensures e.model == Node(childName, NumberControl(value, false), [])
    {
      e := AddElement(childName, NumberControl(value, false));
    }

    /** addTextField. */
    method AddTextField(childName: Text, value: Text, maxLength: int) returns (e: UIElement)
      requires Valid() && control.GroupControl?
      modifies this
      ensures Valid() && fresh(e) && fresh(Repr - old(Repr)) && elements == old(elements) + [e]
      ensures model == old(model).(elements := old(model.elements) + [Node(childName, TextControl(false, value, maxLength), [])])
      ensures e.Valid() && e.parent == this && e.name == childName && e.control == TextControl(false, value, maxLength)
      ensures e.model == Node(childName, TextControl(false, value, maxLength), [])
    {
      e := AddElement(childName, TextControl(false, value, maxLength));
    }

    /** addPasswordField. */
    method AddPasswordField(childName: Text, value: Text, maxLength: int) returns (e: UIElement)
      requires Valid() && control.GroupControl?
      modifies this
      ensures Valid() && fresh(e) && fresh(Repr - old(Repr)) && elements == old(elements) + [e]
      ensures model == old(model).(elements := old(model.elements) + [Node(childName, TextControl(true, value, maxLength), [])])
      ensures e.Valid() && e.parent == this && e.name == childName && e.control == TextControl(true, value, maxLength)
      ensures e.model == Node(childName, TextControl(true, value, maxLength), [])
    {
      e := AddElement(childName, TextControl(true, value, maxLength));
    }

    /** addGroup: an empty group. */
    method AddGroup(childName: Text) returns (e: UIElement)
      requires Valid() && control.GroupControl?
      modifies this
      ensures Valid() && fresh(e) && fresh(Repr - old(Repr)) && elements == old(elements) + [e]
      ensures model == old(model).(elements := old(model.elements) + [Node(childName, GroupControl, [])])
      ensures e.Valid() && e.parent == this && e.name == childName && e.control == GroupControl
      ensures e.model == Node(childName, GroupControl, [])
    {
      e := AddElement(childName, GroupControl);
    }

    /** UIColorSelector.setValue: shows a new colour. */
    method SetColorValue(color: RGBWColor)
      requires Valid() && control.ColorControl?
      modifies this
      ensures Valid() && Repr == old(Repr) && elements == old(elements)
      ensures control == ColorControl(color, old(control).channels) && model == old(model).(control := control)
    {
      control := ColorControl(color, control.channels);
      model := model.(control := control);
    }

    /** UIInt32NumberFieldElement.setReadOnly. */
    method SetReadOnly(readOnly: bool)
      requires Valid() && control.NumberControl?
      modifies this
      ensures Valid() && Repr == old(Repr) && elements == old(elements)
      ensures control == NumberControl(old(control).value, readOnly) && model == old(model).(control := control)
    {
      control := NumberControl(control.value, readOnly);
      model := model.(control := control);
    }

    /**
     * The input handler of a leaf: the widget's new state, and the event
     * that climbs the parent chain (AUIElement.onInputValueChange) to the
     * root, carrying the leaf's absolute name.
     */
    method OnInput(input: UserInput) returns (ev: Option<InputEvent>)
      requires Valid() && !control.GroupControl? && Delivers(control, input)
      modifies this
      ensures Valid() && Repr == old(Repr) && elements == old(elements)
      ensures control == React(old(control), input).control && model == old(model).(control := control)
      ensures ev.Some? <==> React(old(control), input).forwarded.Some?
      ensures ev.Some? ==>
        ev.value == InputEvent(AbsoluteName(), TypeOf(old(control)), React(old(control), input).forwarded.value)
    {
      var reaction := React(control, input);
      control := reaction.control;
      model := model.(control := control);
      match reaction.forwarded {
        case None => ev := None;
        case Some(v) => ev := Some(InputEvent(AbsoluteName(), Type(), v));
      }
    }

    /**
     * User input on the leaf `path` addresses, reached from this element:
     * the leaf reacts, every other element keeps its state, and the event
     * names the leaf by its absolute name.
     */
    method DeliverInput(path: seq<Text>, input: UserInput) returns (ev: Option<InputEvent>)
      requires Valid() && Resolve(model, path).Some? && Delivers(Resolve(model, path).value.control, input)
      modifies Repr
      ensures Valid() && Repr == old(Repr) && elements == old(elements)
      ensures
        var leaf := Resolve(old(model), path).value;
        var reaction := React(leaf.control, input);
        model == ReplaceAt(old(model), path, leaf.(control := reaction.control))
        && (ev.Some? <==> reaction.forwarded.Some?)
        && (ev.Some? ==> ev.value == InputEvent(ParentName() + path, TypeOf(leaf.control), reaction.forwarded.value))
      decreases Repr, 2
    {
      if control.GroupControl? {
        ev := DeliverGroupInput(path, input);
      } else {
        ev := OnInput(input);
      }
    }

    /** The group case of DeliverInput: the path goes on with the first child of the next name. */
    method DeliverGroupInput(path: seq<Text>, input: UserInput) returns (ev: Option<InputEvent>)
      requires Valid() && control.GroupControl?
      requires Resolve(model, path).Some? && Delivers(Resolve(model, path).value.control, input)
      modifies Repr
      ensures Valid() && Repr == old(Repr) && elements == old(elements)
      ensures
        var leaf := Resolve(old(model), path).value;
        var reaction := React(leaf.control, input);
        model == ReplaceAt(old(model), path, leaf.(control := reaction.control))
        && (ev.Some? <==> reaction.forwarded.Some?)
        && (ev.Some? ==> ev.value == InputEvent(ParentName() + path, TypeOf(leaf.control), reaction.forwarded.value))
      decreases Repr, 1
    {
      var child := GetChildByName(path[1]);
      ghost var k := FirstChildNamed(model.elements, path[1]).value;
      ghost var leaf := Resolve(model, path).value;
      ResolveStep(model, path, leaf.(control := React(leaf.control, input).control));
      NameStep(path);
      ev := DeliverChildInput(child, k, path[1..], input);
    }

    /** A path that starts at this element, seen from its parent's absolute name or from its own. */
    lemma NameStep(path: seq<Text>)
      requires Anchored() && |path| >= 1 && path[0] == name
      ensures ParentName() + path == AbsoluteName() + path[1..]
    {
      assert path == [name] + path[1..];
    }

    /** The step of DeliverInput that goes down to child `k`. */
    method DeliverChildInput(child: UIElement, ghost k: nat, path: seq<Text>, input: UserInput) returns (ev: Option<InputEvent>)
      requires Valid() && control.GroupControl? && k < |elements| && child == elements[k]
      requires Resolve(model.elements[k], path).Some? && Delivers(Resolve(model.elements[k], path).value.control, input)
      modifies Repr
      ensures Valid() && Repr == old(Repr) && elements == old(elements)
      ensures
        var leaf := Resolve(old(model.elements[k]), path).value;
        var reaction := React(leaf.control, input);
        model == old(model).(elements := old(model.elements)[k := ReplaceAt(old(model.elements[k]), path, leaf.(control := reaction.control))])
        && (ev.Some? <==> reaction.forwarded.Some?)
        && (ev.Some? ==> ev.value == InputEvent(AbsoluteName() + path, TypeOf(leaf.control), reaction.forwarded.value))
      decreases Repr, 0
    {
      ghost var m0 := model;
      assert forall i :: 0 <= i < |elements| && i != k ==> elements[i].Repr !! child.Repr;
      ev := child.DeliverInput(path, input);
      assert forall i :: 0 <= i < |elements| && i != k ==> elements[i].Valid() && elements[i].model == m0.elements[i];
      ChildChanged(k);
    }
  }
}
