/**
 * ChecklistSection.tsx: a card holding one control per item of a section,
 * chosen by the item's type.
 */
module ChecklistSection {
  import opened Styles
  import opened ChecklistConfig
  import T = TwoOptionSelect
  import StatusSelect
  import ConditionSelect
  import ChecklistItem

  /** The control an item is rendered as. */
  datatype Control =
    | StatusControl(select: T.Select)
    | ConditionControl(select: T.Select)
    | RadioControl(radio: ChecklistItem.ItemView)

  /** The rendered card: its title and its controls, in item order. */
  datatype SectionView = SectionView(title: string, controls: seq<Control>)

  /** `checklistData[item.id] || ''`: the answer given so far, `''` when there is none. */
  function Lookup(answers: map<string, string>, id: string): (v: string)
    ensures id in answers ==> v == answers[id]
    ensures id !in answers ==> v == ""
  {
    if id in answers && answers[id] != "" then answers[id] else ""
  }

  /** The `if` chain on `item.type`. */
  function ControlFor(item: Item, value: string, highlighted: bool): Control
  {
    if item.itemType == "status" then StatusControl(StatusSelect.Render(item.id, item.labelText, value))
    else if item.itemType == "condition" then ConditionControl(ConditionSelect.Render(item.id, item.labelText, value))
    else RadioControl(ChecklistItem.Render(item.id, item.labelText, value, highlighted))
  }

  /** `items.map((item, index) => ...)`; `highlightFirst` defaults to false at its call sites. */
  function Render(title: string, items: seq<Item>, answers: map<string, string>, highlightFirst: bool): (v: SectionView)
    ensures v.title == title && |v.controls| == |items|
  {
    SectionView(title, seq(|items|, k requires 0 <= k < |items| =>
      ControlFor(items[k], Lookup(answers, items[k].id), highlightFirst && k == 0)))
  }

  /** The name a control reports its changes under. */
  function ControlName(c: Control): string
  {
    match c
    case StatusControl(s) => s.name
    case ConditionControl(s) => s.name
    case RadioControl(v) => if |v.radios| > 0 then v.radios[0].name else ""
  }

  /** The answer a control shows: a select's value, or the checked radio's value. */
  function Shown(c: Control): string
  {
    match c
    case StatusControl(s) => s.value
    case ConditionControl(s) => s.value
    case RadioControl(v) => CheckedValue(v.radios)
  }

  /** The value of the first checked radio, `''` when none is checked. */
  function CheckedValue(rs: seq<ChecklistItem.Radio>): string
  {
    if rs == [] then "" else if rs[0].checked then rs[0].value else CheckedValue(rs[1..])
  }

  predicate IsHighlighted(c: Control)
  {
    c.RadioControl? && c.radio.style == Highlighted
  }

  /**
   * Type `status` gives a status select, `condition` a condition select,
   * and every other type, `default` included, the three radios.
   */
  lemma ControlKind(title: string, items: seq<Item>, answers: map<string, string>, highlightFirst: bool, k: nat)
    requires k < |items|
    ensures var c := Render(title, items, answers, highlightFirst).controls[k];
      && (c.StatusControl? <==> items[k].itemType == "status")
      && (c.ConditionControl? <==> items[k].itemType == "condition")
      && (c.RadioControl? <==> items[k].itemType != "status" && items[k].itemType != "condition")
  {
  }

  /** Every control is named by its item's id and shows the answer stored under it. */
  lemma ControlShowsAnswer(title: string, items: seq<Item>, answers: map<string, string>, highlightFirst: bool, k: nat)
    requires k < |items|
    ensures var c := Render(title, items, answers, highlightFirst).controls[k];
      var a := Lookup(answers, items[k].id);
      && ControlName(c) == items[k].id
      && (c.RadioControl? ==> Shown(c) == if a in ChecklistItem.Values then a else "")
      && (!c.RadioControl? ==> Shown(c) == a)
  {
    var c := Render(title, items, answers, highlightFirst).controls[k];
    var a := Lookup(answers, items[k].id);
    if c.RadioControl? {
      var rs := c.radio.radios;
      ChecklistItem.CheckedIffKnown(items[k].id, items[k].labelText, a, highlightFirst && k == 0);
      assert |rs| == 3;
      assert rs[1..][1..] == rs[2..] && rs[2..][1..] == [];
      assert CheckedValue(rs[2..]) == if rs[2].checked then rs[2].value else "";
      assert CheckedValue(rs[1..]) == if rs[1].checked then rs[1].value else CheckedValue(rs[2..]);
      assert a in ChecklistItem.Values <==> a == "bueno" || a == "malo" || a == "na";
    }
  }

  /** Only the first item, only when asked, and only on the radio path is highlighted. */
  lemma HighlightRule(title: string, items: seq<Item>, answers: map<string, string>, highlightFirst: bool, k: nat)
    requires k < |items|
    ensures IsHighlighted(Render(title, items, answers, highlightFirst).controls[k]) <==>
      highlightFirst && k == 0 && items[k].itemType != "status" && items[k].itemType != "condition"
  {
  }

  /**
   * Answering item `k` (its control reports `value` under its name) and
   * rendering again shows `value` there, and changes no control of an item
   * with another id.
   */
  lemma AnswerRoundTrip(title: string, items: seq<Item>, answers: map<string, string>, highlightFirst: bool,
                        k: nat, value: string)
    requires k < |items|
    ensures var name := ControlName(Render(title, items, answers, highlightFirst).controls[k]);
      var after := Render(title, items, answers[name := value], highlightFirst);
      && Lookup(answers[name := value], items[k].id) == value
      && after.controls[k] == ControlFor(items[k], value, highlightFirst && k == 0)
      && forall j :: 0 <= j < |items| && items[j].id != items[k].id ==>
           after.controls[j] == Render(title, items, answers, highlightFirst).controls[j]
  {
    ControlShowsAnswer(title, items, answers, highlightFirst, k);
  }
}
