/** ChecklistItem.tsx: an item answered by three radio buttons. */
module ChecklistItem {
  import opened Styles

  /** One `RadioOption`: the input's id, name, value, text, checked flag and tint. */
  datatype Radio = Radio(elementId: string, name: string, value: string, caption: string, checked: bool, tint: Tint)

  /** The rendered item: its label, its row style and its radios. */
  datatype ItemView = ItemView(labelText: string, style: RowStyle, radios: seq<Radio>)

  /** The three answers, in the order they are shown. */
  const Values: seq<string> := ["bueno", "malo", "na"]

  /** `RadioOption`: the input's element id is the item id, a dash and the value. */
  function RadioOption(id: string, name: string, value: string, caption: string, checked: bool, tint: Tint): Radio
  {
    Radio(id + "-" + value, name, value, caption, checked, tint)
  }

  /** `ChecklistItem`; `isHighlighted` defaults to false at its call sites. */
  function Render(id: string, labelText: string, selectedValue: string, isHighlighted: bool): (v: ItemView)
    ensures v.labelText == labelText && |v.radios| == |Values|
    ensures forall k :: 0 <= k < |v.radios| ==> v.radios[k].value == Values[k] && v.radios[k].name == id
    ensures forall k :: 0 <= k < |v.radios| ==> (v.radios[k].checked <==> selectedValue == Values[k])
    ensures v.style == Highlighted <==> isHighlighted
  {
    ItemView(labelText, if isHighlighted then Highlighted else Normal,
      [RadioOption(id, id, "bueno", "Bueno", selectedValue == "bueno", Green),
       RadioOption(id, id, "malo", "Malo", selectedValue == "malo", Red),
       RadioOption(id, id, "na", "N/A", selectedValue == "na", Gray)])
  }

  /** Two radios of one item are never checked together. */
  lemma AtMostOneChecked(id: string, labelText: string, selectedValue: string, isHighlighted: bool, j: nat, k: nat)
    requires var rs := Render(id, labelText, selectedValue, isHighlighted).radios;
      j < |rs| && k < |rs| && rs[j].checked && rs[k].checked
    ensures j == k
  {
  }

  /**
   * A known answer checks its own radio and nothing else; `''` or any other
   * string checks none.
   */
  lemma CheckedIffKnown(id: string, labelText: string, selectedValue: string, isHighlighted: bool)
    ensures var rs := Render(id, labelText, selectedValue, isHighlighted).radios;
      (exists k :: 0 <= k < |rs| && rs[k].checked) <==> selectedValue in Values
  {
    var rs := Render(id, labelText, selectedValue, isHighlighted).radios;
    if selectedValue in Values {
      var k :| 0 <= k < |Values| && Values[k] == selectedValue;
      assert rs[k].checked;
    }
  }

  /** Each radio's element id ends in its own value. */
  lemma ElementIdShape(id: string, labelText: string, selectedValue: string, isHighlighted: bool, k: nat)
    requires k < |Values|
    ensures var r := Render(id, labelText, selectedValue, isHighlighted).radios[k];
      r.elementId == id + "-" + Values[k]
  {
  }

  /** The element ids of the three radios are pairwise distinct. */
  lemma ElementIdsDistinct(id: string, labelText: string, selectedValue: string, isHighlighted: bool, j: nat, k: nat)
    requires j < |Values| && k < |Values| && j != k
    ensures var rs := Render(id, labelText, selectedValue, isHighlighted).radios;
      rs[j].elementId != rs[k].elementId
  {
    var rs := Render(id, labelText, selectedValue, isHighlighted).radios;
    ElementIdShape(id, labelText, selectedValue, isHighlighted, j);
    ElementIdShape(id, labelText, selectedValue, isHighlighted, k);
    var p := id + "-";
    assert rs[j].elementId == p + Values[j] && rs[k].elementId == p + Values[k];
    assert (p + Values[j])[|p|..] == Values[j];
    assert (p + Values[k])[|p|..] == Values[k];
  }
}
