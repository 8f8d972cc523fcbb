/**
 * ProcessJSON: the GUI description a device sends is turned into elements
 * under a group, through the group's add* methods. Build states, as pure
 * nodes, what one description node adds.
 */
module Builder {
  import opened Wrappers
  import opened Bytes
  import opened Colors
  import opened Json
  import opened Tree
  import opened Elements

  /**
   * The nodes ProcessJSON adds for one description node, chosen by its
   * lower-cased type: a root adds its children in its place (its name is
   * not used), a group one group holding its children, every known leaf
   * type one leaf, and an unknown type nothing.
   */
  function Build(j: JsonElement): (r: seq<Node>)
    ensures AsciiLower(j.typeName) != ROOT ==> |r| <= 1 && forall k :: 0 <= k < |r| ==> r[k].name == j.name
    decreases j, |j.elements| + 1
  {
    var t := AsciiLower(j.typeName);
    if t == ROOT then BuildChildren(j, 0)
    else if t == GROUP then [Node(j.name, GroupControl, BuildChildren(j, 0))]
    else if t == RANGE then [Node(j.name, RangeControl(j.min, j.max, j.value), [])]
    else if t == CHECKBOX then [Node(j.name, CheckBoxControl(j.value == 1), [])]
    else if t == RADIO then [Node(j.name, SelectorControl(true, j.items, 0), [])]
    else if t == DROPDOWN then [Node(j.name, SelectorControl(false, j.items, 0), [])]
    else if t == BUTTON then [Node(j.name, ButtonControl, [])]
    else if t == NUMBERFIELD_INT32 then [Node(j.name, NumberControl(j.value, j.readOnly), [])]
    else if t == TEXTFIELD then [Node(j.name, TextControl(false, j.textValue, j.maxLength), [])]
    else if t == PASSWORD then [Node(j.name, TextControl(true, j.textValue, j.maxLength), [])]
    else if t == RGBWRANGE then
      [Node(j.name, ColorControl(ExtractPackedRGBW(j.value), ExtractColorChannels(j.channel)), [])]
    else []
  }

  /** The nodes added for the children of `j` from index `i` on, in order. */
  function BuildChildren(j: JsonElement, i: nat): seq<Node>
    requires i <= |j.elements|
    decreases j, |j.elements| - i
  {
    if i == |j.elements| then [] else Build(j.elements[i]) + BuildChildren(j, i + 1)
  }

  /** The element type each keyword other than "root" stands for. */
  function KeywordType(t: Text): Option<ElementType> {
    if t == GROUP then Some(Group)
    else if t == RANGE then Some(RangeSelector)
    else if t == CHECKBOX then Some(CheckBoxSelector)
    else if t == RADIO then Some(RadioSelector)
    else if t == DROPDOWN then Some(DropDownSelector)
    else if t == BUTTON then Some(Button)
    else if t == NUMBERFIELD_INT32 then Some(NumberFieldInt32)
    else if t == TEXTFIELD then Some(TextField)
    else if t == PASSWORD then Some(PasswordField)
    else if t == RGBWRANGE then Some(ColorSelector)
    else None
  }

  /**
   * A description node other than a root adds exactly one element, of the
   * type its keyword names and with its name, when the keyword is known,
   * and nothing otherwise; the type is matched without regard to ASCII case.
   */
  lemma BuildOneElement(j: JsonElement)
    requires AsciiLower(j.typeName) != ROOT
    ensures var kind := KeywordType(AsciiLower(j.typeName));
      |Build(j)| == (if kind.Some? then 1 else 0)
      && (kind.Some? ==> Build(j)[0].name == j.name && TypeOf(Build(j)[0].control) == kind.value)
  {
  }

  /** Selectors start with the first option selected, whatever index the description gives. */
  lemma BuildSelectorStartsAtZero(j: JsonElement)
    requires AsciiLower(j.typeName) == RADIO || AsciiLower(j.typeName) == DROPDOWN
    ensures Build(j) == [Node(j.name, SelectorControl(AsciiLower(j.typeName) == RADIO, j.items, 0), [])]
  {
  }

  /** Every node ProcessJSON builds is well formed: only groups have children. */
  lemma {:induction false} BuildWellFormed(j: JsonElement)
    ensures forall n :: n in Build(j) ==> WellFormed(n)
    decreases j, |j.elements| + 1
  {
    BuildChildrenWellFormed(j, 0);
    var t := AsciiLower(j.typeName);
    if t == GROUP {
      var n := Node(j.name, GroupControl, BuildChildren(j, 0));
      assert forall i :: 0 <= i < |n.elements| ==> n.elements[i] in BuildChildren(j, 0);
      assert WellFormed(n);
    }
  }

  lemma {:induction false} BuildChildrenWellFormed(j: JsonElement, i: nat)
    requires i <= |j.elements|
    ensures forall n :: n in BuildChildren(j, i) ==> WellFormed(n)
    decreases j, |j.elements| - i
  {
    if i < |j.elements| {
      BuildWellFormed(j.elements[i]);
      BuildChildrenWellFormed(j, i + 1);
    }
  }

  /**
   * ProcessJSON: the elements that Build describes are added after the
   * group's present children, which are left as they are.
   */
  method ProcessJson(currentRoot: UIElement, j: JsonElement)
    requires currentRoot.Valid() && currentRoot.control.GroupControl?
    modifies currentRoot.Repr
    ensures currentRoot.Valid() && fresh(currentRoot.Repr - old(currentRoot.Repr))
    ensures currentRoot.model == old(currentRoot.model).(elements := old(currentRoot.model.elements) + Build(j))
    decreases j, 3
  {
    var t := AsciiLower(j.typeName);
    if t == ROOT {
      ProcessChildren(currentRoot, j);
    } else if t == GROUP {
      ProcessGroup(currentRoot, j);
    } else {
      ProcessLeaf(currentRoot, j);
    }
  }

  /** The group case of ProcessJSON: a new group, then its children built into it. */
  method ProcessGroup(currentRoot: UIElement, j: JsonElement)
    requires currentRoot.Valid() && currentRoot.control.GroupControl? && AsciiLower(j.typeName) == GROUP
    modifies currentRoot.Repr
    ensures currentRoot.Valid() && fresh(currentRoot.Repr - old(currentRoot.Repr))
    ensures currentRoot.model == old(currentRoot.model).(elements := old(currentRoot.model.elements) + Build(j))
    decreases j, 2
  {
    ghost var before := currentRoot.model.elements;
    var g := currentRoot.AddGroup(j.name);
    assert g.model.elements == [] && g.name == j.name;
    AddGroupContents(currentRoot, g, j);
    ghost var filled := Node(j.name, GroupControl, [] + BuildChildren(j, 0));
    assert currentRoot.model.elements == (before + [Node(j.name, GroupControl, [])])[|before| := filled];
    assert [] + BuildChildren(j, 0) == BuildChildren(j, 0);
    assert AsciiLower(j.typeName) != ROOT;
    assert Build(j) == [filled];
  }

  /** The leaf cases of ProcessJSON: one add* call, and for number fields and colours one setter after it. */
  method ProcessLeaf(currentRoot: UIElement, j: JsonElement)
    requires currentRoot.Valid() && currentRoot.control.GroupControl?
    requires AsciiLower(j.typeName) != ROOT && AsciiLower(j.typeName) != GROUP
    modifies currentRoot
    ensures currentRoot.Valid() && fresh(currentRoot.Repr - old(currentRoot.Repr))
    ensures currentRoot.model == old(currentRoot.model).(elements := old(currentRoot.model.elements) + Build(j))
  {
    var t := AsciiLower(j.typeName);
    if t == RANGE {
      var _ := currentRoot.AddRange(j.name, j.min, j.max, j.value);
    } else if t == CHECKBOX {
      var _ := currentRoot.AddCheckBox(j.name, j.value == 1);
    } else if t == RADIO {
      var _ := currentRoot.AddRadioGroup(j.name, j.items, j.value);
    } else if t == DROPDOWN {
      var _ := currentRoot.AddDropDown(j.name, j.items, j.value);
    } else if t == BUTTON {
      var _ := currentRoot.AddButton(j.name);
    } else if t == NUMBERFIELD_INT32 {
      ProcessNumberField(currentRoot, j);
    } else if t == TEXTFIELD {
      var _ := currentRoot.AddTextField(j.name, j.textValue, j.maxLength);
    } else if t == PASSWORD {
      var _ := currentRoot.AddPasswordField(j.name, j.textValue, j.maxLength);
    } else if t == RGBWRANGE {
      ProcessColor(currentRoot, j);
    }
  }

  /** A number field: added, then made read-only as the description says. */
  method ProcessNumberField(currentRoot: UIElement, j: JsonElement)
    requires currentRoot.Valid() && currentRoot.control.GroupControl?
    modifies currentRoot
    ensures currentRoot.Valid() && fresh(currentRoot.Repr - old(currentRoot.Repr))
    ensures currentRoot.model == old(currentRoot.model).(elements := old(currentRoot.model.elements) + [Node(j.name, NumberControl(j.value, j.readOnly), [])])
  {
    var e := currentRoot.AddNumberFieldInt32(j.name, j.value);
    e.SetReadOnly(j.readOnly);
    currentRoot.ChildChanged(|currentRoot.elements| - 1);
  }

  /** A colour selector: added, then given the packed colour of the description. */
  method ProcessColor(currentRoot: UIElement, j: JsonElement)
    requires currentRoot.Valid() && currentRoot.control.GroupControl?
    modifies currentRoot
    ensures currentRoot.Valid() && fresh(currentRoot.Repr - old(currentRoot.Repr))
    ensures currentRoot.model == old(currentRoot.model).(elements := old(currentRoot.model.elements)
      + [Node(j.name, ColorControl(ExtractPackedRGBW(j.value), ExtractColorChannels(j.channel)), [])])
  {
    var e := currentRoot.AddRGBWColorPicker(j.name, ExtractColorChannels(j.channel));
    e.SetColorValue(ExtractPackedRGBW(j.value));
    currentRoot.ChildChanged(|currentRoot.elements| - 1);
  }

  /** The group case of ProcessJSON once the group `g` is added: its children are built into it. */
  method AddGroupContents(currentRoot: UIElement, g: UIElement, j: JsonElement)
    requires currentRoot.Valid() && currentRoot.control.GroupControl? && |currentRoot.elements| > 0
    requires g == currentRoot.elements[|currentRoot.elements| - 1] && g.control.GroupControl?
    modifies currentRoot.Repr
    ensures currentRoot.Valid() && fresh(currentRoot.Repr - old(currentRoot.Repr))
    ensures var k := old(|currentRoot.model.elements|) - 1;
      currentRoot.model == old(currentRoot.model).(elements := old(currentRoot.model.elements)[k := Node(g.name, GroupControl, old(g.model.elements) + BuildChildren(j, 0))])
    decreases j, 1
  {
    ghost var k := |currentRoot.elements| - 1;
    ghost var m0 := currentRoot.model;
    assert forall i :: 0 <= i < |currentRoot.elements| && i != k ==> currentRoot.elements[i].Repr !! g.Repr;
    ProcessChildren(g, j);
    assert forall i :: 0 <= i < |currentRoot.elements| && i != k ==>
      currentRoot.elements[i].Valid() && currentRoot.elements[i].model == m0.elements[i];
    currentRoot.ChildChanged(k);
  }

  /** The loop over the children of a root or group description, each processed into `currentRoot`. */
  method ProcessChildren(currentRoot: UIElement, j: JsonElement)
    requires currentRoot.Valid() && currentRoot.control.GroupControl?
    modifies currentRoot.Repr
    ensures currentRoot.Valid() && fresh(currentRoot.Repr - old(currentRoot.Repr))
    ensures currentRoot.model == old(currentRoot.model).(elements := old(currentRoot.model.elements) + BuildChildren(j, 0))
    decreases j, 0
  {
    for i := 0 to |j.elements|
      invariant currentRoot.Valid() && fresh(currentRoot.Repr - old(currentRoot.Repr))
      invariant currentRoot.model.name == old(currentRoot.model.name) && currentRoot.model.control == old(currentRoot.model.control)
      invariant currentRoot.model.elements + BuildChildren(j, i) == old(currentRoot.model.elements) + BuildChildren(j, 0)
    {
      ProcessJson(currentRoot, j.elements[i]);
    }
  }
}
