/** ConditionSelect.tsx: a part's condition, `Normal` or `Falla` (fault). */
module ConditionSelect {
  import opened Styles
  import T = TwoOptionSelect

  const ConditionChoices: T.Choices := T.Choices("Normal", "Falla")

  /** `getBgColor` of ConditionSelect. */
  function GetBgColor(selected: string): (t: Tint)
    ensures selected == "Normal" ==> t == Green
    ensures selected == "Falla" ==> t == Red
    ensures selected != "Normal" && selected != "Falla" ==> t == White
  {
    T.BgColor(ConditionChoices, selected)
  }

  /** The option list: a disabled placeholder, then `Normal`, then `Falla`. */
  function Options(): (r: seq<T.Entry>)
    ensures r == [T.Entry("", "Seleccione...", true), T.Entry("Normal", "Normal", false),
                  T.Entry("Falla", "Falla", false)]
  {
    T.Entries(ConditionChoices)
  }

  /** The select for one item: element id and name are the item id. */
  function Render(id: string, labelText: string, value: string): (s: T.Select)
    ensures s.id == id && s.name == id && s.labelText == labelText
    ensures s.value == value && s.entries == Options() && s.tint == GetBgColor(value)
  {
    T.Render(ConditionChoices, id, labelText, value)
  }

  /** The condition is tinted exactly when it is one of the two a user can pick. */
  lemma TintedIffPickable(v: string)
    ensures GetBgColor(v) != White <==>
      exists k :: 0 <= k < |Options()| && Options()[k].value == v && !Options()[k].disabled
  {
    T.TintMarksChoice(ConditionChoices, v);
    assert Options() == T.Entries(ConditionChoices);
  }
}
