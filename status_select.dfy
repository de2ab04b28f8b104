/** StatusSelect.tsx: a document's status, `Vigente` (valid) or `Vencido` (expired). */
module StatusSelect {
  import opened Styles
  import T = TwoOptionSelect

  const StatusChoices: T.Choices := T.Choices("Vigente", "Vencido")

  /** `getBgColor` of StatusSelect. */
  function GetBgColor(selected: string): (t: Tint)
    ensures selected == "Vigente" ==> t == Green
    ensures selected == "Vencido" ==> t == Red
    ensures selected != "Vigente" && selected != "Vencido" ==> t == White
  {
    T.BgColor(StatusChoices, selected)
  }

  /** The option list: a disabled placeholder, then `Vigente`, then `Vencido`. */
  function Options(): (r: seq<T.Entry>)
    ensures r == [T.Entry("", "Seleccione...", true), T.Entry("Vigente", "Vigente", false),
                  T.Entry("Vencido", "Vencido", false)]
  {
    T.Entries(StatusChoices)
  }

  /** The select for one item: element id and name are the item id. */
  function Render(id: string, labelText: string, value: string): (s: T.Select)
    ensures s.id == id && s.name == id && s.labelText == labelText
    ensures s.value == value && s.entries == Options() && s.tint == GetBgColor(value)
  {
    T.Render(StatusChoices, id, labelText, value)
  }

  /** The status is tinted exactly when it is one of the two a user can pick. */
  lemma TintedIffPickable(v: string)
    ensures GetBgColor(v) != White <==>
      exists k :: 0 <= k < |Options()| && Options()[k].value == v && !Options()[k].disabled
  {
    T.TintMarksChoice(StatusChoices, v);
    assert Options() == T.Entries(StatusChoices);
  }
}
