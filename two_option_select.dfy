/**
 * The shape StatusSelect.tsx and ConditionSelect.tsx share: a select whose
 * first option is a disabled placeholder with value `''`, followed by two
 * values, tinted green for the first, red for the second and white for
 * anything else.
 */
module TwoOptionSelect {
  import opened Styles

  /** The two selectable values: the good one first, then the bad one. */
  datatype Choices = Choices(good: string, bad: string)

  predicate ValidChoices(c: Choices)
  {
    c.good != "" && c.bad != "" && c.good != c.bad
  }

  /** An `<option>`: its value, its text and whether it is disabled. */
  datatype Entry = Entry(value: string, caption: string, disabled: bool)

  const PlaceholderCaption: string := "Seleccione..."

  /** The `<option>` list of the select. */
  function Entries(c: Choices): seq<Entry>
  {
    [Entry("", PlaceholderCaption, true), Entry(c.good, c.good, false), Entry(c.bad, c.bad, false)]
  }

  /** `getBgColor` */
  function BgColor(c: Choices, selected: string): Tint
  {
    if selected == c.good then Green
    else if selected == c.bad then Red
    else White
  }

  /** A rendered select: `id`, `name`, label text, `value`, options and tint. */
  datatype Select = Select(id: string, name: string, labelText: string, value: string, entries: seq<Entry>, tint: Tint)

  /** The select for item `id`: it is named by the id, so changes are reported under it. */
  function Render(c: Choices, id: string, labelText: string, value: string): Select
  {
    Select(id, id, labelText, value, Entries(c), BgColor(c, value))
  }

  /** A user can pick exactly the two values; the placeholder cannot be picked. */
  lemma EnabledEntries(c: Choices, k: nat)
    requires ValidChoices(c) && k < |Entries(c)|
    ensures !Entries(c)[k].disabled <==> Entries(c)[k].value in {c.good, c.bad}
    ensures Entries(c)[k].caption == if k == 0 then PlaceholderCaption else Entries(c)[k].value
  {
  }

  /**
   * The select is tinted exactly when its value is one a user can pick:
   * white for the placeholder and for any value not among the options.
   */
  lemma TintMarksChoice(c: Choices, v: string)
    requires ValidChoices(c)
    ensures BgColor(c, v) != White <==> exists k :: 0 <= k < |Entries(c)| && Entries(c)[k].value == v && !Entries(c)[k].disabled
  {
    var e := Entries(c);
    if v == c.good {
      assert e[1].value == v && !e[1].disabled;
    } else if v == c.bad {
      assert e[2].value == v && !e[2].disabled;
    } else {
      forall k | 0 <= k < |e| && e[k].value == v ensures e[k].disabled {
      }
    }
  }

  /** The two values are told apart by their tints. */
  lemma TintsDistinct(c: Choices)
    requires ValidChoices(c)
    ensures BgColor(c, c.good) == Green && BgColor(c, c.bad) == Red
    ensures BgColor(c, "") == White
  {
  }
}
