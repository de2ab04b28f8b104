/**
 * The one-column feeds (units and drivers) of App.tsx: each non-blank
 * line becomes an option whose value and label are the trimmed line,
 * and the options are sorted by label.
 */
module SimpleList {
  import opened JsText
  import opened LexOrder

  /** `{value, label}`: one entry of a unit or driver picker. */
  datatype SelectOption = SelectOption(value: string, labelText: string)

  /**
   * The lines that `row.trim() !== ''` keeps, in order; a line trims to
   * `''` exactly when it is white space only (JsText.TrimEmptyIffBlank).
   */
  function NonBlank(lines: seq<string>): (r: seq<string>)
    ensures |r| <= |lines|
  {
    if lines == [] then []
    else if !AllWhitespace(lines[0]) then [lines[0]] + NonBlank(lines[1..])
    else NonBlank(lines[1..])
  }

  /** How many lines are not white space only. */
  function CountNonBlank(lines: seq<string>): nat
  {
    if lines == [] then 0
    else (if AllWhitespace(lines[0]) then 0 else 1) + CountNonBlank(lines[1..])
  }

  /** The `map` step: each row becomes an option whose value and label are both the trimmed row. */
  function ToOptions(rows: seq<string>): (r: seq<SelectOption>)
    ensures |r| == |rows|
    ensures forall k :: 0 <= k < |r| ==> r[k] == SelectOption(Trim(rows[k]), Trim(rows[k]))
  {
    if rows == [] then [] else [SelectOption(Trim(rows[0]), Trim(rows[0]))] + ToOptions(rows[1..])
  }

  predicate SortedByLabel(s: seq<SelectOption>)
  {
    forall i, j :: 0 <= i < j < |s| ==> LexLe(s[i].labelText, s[j].labelText)
  }

  /** Places `o` in front of the first option it sorts no later than. */
  function Insert(o: SelectOption, s: seq<SelectOption>): (r: seq<SelectOption>)
    requires SortedByLabel(s)
    ensures SortedByLabel(r)
    ensures multiset(r) == multiset(s) + multiset{o}
  {
    if s == [] then [o]
    else if LexLe(o.labelText, s[0].labelText) then
      forall k | 0 <= k < |s| ensures LexLe(o.labelText, s[k].labelText) {
        if k > 0 { LexLeTransitive(o.labelText, s[0].labelText, s[k].labelText); }
      }
      [o] + s
    else
      LexLeTotal(o.labelText, s[0].labelText);
      var t := Insert(o, s[1..]);
      assert s == [s[0]] + s[1..];
      forall k | 0 <= k < |t| ensures LexLe(s[0].labelText, t[k].labelText) {
        assert t[k] in multiset(t);
        if t[k] != o {
          assert t[k] in multiset(s[1..]);
          var m :| 0 < m < |s| && s[m] == t[k] by { assert t[k] in s[1..]; }
        }
      }
      [s[0]] + t
  }

  /** `.sort((a, b) => a.labelText.localeCompare(b.labelText))`, with the order of LexOrder. */
  function SortByLabel(s: seq<SelectOption>): (r: seq<SelectOption>)
    ensures SortedByLabel(r)
    ensures multiset(r) == multiset(s)
  {
    if s == [] then []
    else
      assert s == [s[0]] + s[1..];
      Insert(s[0], SortByLabel(s[1..]))
  }

  /** Every option's value is its label. */
  predicate SelfLabelled(s: seq<SelectOption>)
  {
    forall k :: 0 <= k < |s| ==> s[k].value == s[k].labelText
  }

  /**
   * The body of `fetchSimpleList` after a successful fetch: mark,
   * split, drop blank lines, trim into options, sort.
   */
  function ParseSimpleList(text: string): (r: seq<SelectOption>)
    ensures SortedByLabel(r)
    ensures multiset(r) == multiset(ToOptions(NonBlank(Lines(text))))
  {
    var rows := NonBlank(Lines(text));
    if |rows| == 0 then [] else SortByLabel(ToOptions(rows))
  }

  /** Exactly one option per line that is not white space only. */
  lemma {:induction false} NonBlankCount(lines: seq<string>)
    ensures |NonBlank(lines)| == CountNonBlank(lines)
  {
    if lines != [] {
      TrimEmptyIffBlank(lines[0]);
      NonBlankCount(lines[1..]);
    }
  }

  lemma ParseSimpleListSize(text: string)
    ensures |ParseSimpleList(text)| == CountNonBlank(Lines(text))
  {
    var r := ParseSimpleList(text);
    assert |r| == |multiset(r)|;
    NonBlankCount(Lines(text));
  }

  /** Each option carries its label as its value. */
  lemma ParseSimpleListSelfLabelled(text: string)
    ensures SelfLabelled(ParseSimpleList(text))
  {
    var r := ParseSimpleList(text);
    var opts := ToOptions(NonBlank(Lines(text)));
    forall k | 0 <= k < |r| ensures r[k].value == r[k].labelText {
      assert r[k] in multiset(opts);
    }
  }

  /** Each option is the trimmed text of some line that is not blank. */
  lemma ParseSimpleListSound(text: string, o: SelectOption) returns (k: nat)
    requires o in ParseSimpleList(text)
    ensures k < |Lines(text)| && !AllWhitespace(Lines(text)[k])
    ensures o == SelectOption(Trim(Lines(text)[k]), Trim(Lines(text)[k]))
  {
    var lines := Lines(text);
    var opts := ToOptions(NonBlank(lines));
    assert o in multiset(ParseSimpleList(text));
    assert o in opts;
    k := OptionOrigin(lines, o);
  }

  lemma OptionOrigin(lines: seq<string>, o: SelectOption) returns (k: nat)
    requires o in ToOptions(NonBlank(lines))
    ensures k < |lines| && !AllWhitespace(lines[k])
    ensures o == SelectOption(Trim(lines[k]), Trim(lines[k]))
  {
    var opts := ToOptions(NonBlank(lines));
    var j :| 0 <= j < |opts| && opts[j] == o;
    k := NonBlankOrigin(lines, j);
  }

  /** Each line that is not blank yields its trimmed text as an option. */
  lemma ParseSimpleListComplete(text: string, k: nat)
    requires k < |Lines(text)| && !AllWhitespace(Lines(text)[k])
    ensures SelectOption(Trim(Lines(text)[k]), Trim(Lines(text)[k])) in ParseSimpleList(text)
  {
    var lines := Lines(text);
    var opts := ToOptions(NonBlank(lines));
    var j := NonBlankKeeps(lines, k);
    assert opts[j] in multiset(opts);
    assert opts[j] in multiset(ParseSimpleList(text));
  }

  /** Where a kept line came from. */
  lemma {:induction false} NonBlankOrigin(lines: seq<string>, j: nat) returns (k: nat)
    requires j < |NonBlank(lines)|
    ensures k < |lines| && NonBlank(lines)[j] == lines[k] && !AllWhitespace(lines[k])
  {
    if !AllWhitespace(lines[0]) && j == 0 {
      k := 0;
    } else {
      var j' := if !AllWhitespace(lines[0]) then j - 1 else j;
      var k' := NonBlankOrigin(lines[1..], j');
      k := k' + 1;
    }
  }

  /** Where a non-blank line is kept. */
  lemma {:induction false} NonBlankKeeps(lines: seq<string>, k: nat) returns (j: nat)
    requires k < |lines| && !AllWhitespace(lines[k])
    ensures j < |NonBlank(lines)| && NonBlank(lines)[j] == lines[k]
  {
    if k == 0 {
      j := 0;
    } else {
      var tail := lines[1..];
      assert tail[k - 1] == lines[k];
      var j' := NonBlankKeeps(tail, k - 1);
      if !AllWhitespace(lines[0]) {
        assert NonBlank(lines) == [lines[0]] + NonBlank(tail);
        j := j' + 1;
      } else {
        assert NonBlank(lines) == NonBlank(tail);
        j := j';
      }
    }
  }

  /** An empty or all-blank text yields no options. */
  lemma ParseBlankText(text: string)
    requires forall k :: 0 <= k < |Lines(text)| ==> AllWhitespace(Lines(text)[k])
    ensures ParseSimpleList(text) == []
  {
    BlankLinesDropped(Lines(text));
  }

  lemma {:induction false} BlankLinesDropped(lines: seq<string>)
    requires forall k :: 0 <= k < |lines| ==> AllWhitespace(lines[k])
    ensures NonBlank(lines) == []
  {
    if lines != [] {
      TrimEmptyIffBlank(lines[0]);
      BlankLinesDropped(lines[1..]);
    }
  }

  /**
   * Two sorted lists of self-labelled options with the same elements are
   * equal: the result does not depend on which sort algorithm the engine uses.
   */
  lemma {:induction false} SortedPermutationUnique(a: seq<SelectOption>, b: seq<SelectOption>)
    requires SortedByLabel(a) && SortedByLabel(b) && SelfLabelled(a)
    requires multiset(a) == multiset(b)
    ensures a == b
  {
    if a != [] {
      assert |b| == |multiset(b)| == |multiset(a)| == |a|;
      SortedHeadsEqual(a, b);
      assert a == [a[0]] + a[1..] && b == [b[0]] + b[1..];
      assert multiset(a[1..]) == multiset(a) - multiset{a[0]};
      assert multiset(b[1..]) == multiset(b) - multiset{b[0]};
      SortedPermutationUnique(a[1..], b[1..]);
    }
  }

  /** The least options of two such lists coincide. */
  lemma SortedHeadsEqual(a: seq<SelectOption>, b: seq<SelectOption>)
    requires SortedByLabel(a) && SortedByLabel(b) && SelfLabelled(a)
    requires multiset(a) == multiset(b) && a != [] && b != []
    ensures a[0] == b[0]
  {
    assert a[0] in multiset(b) && b[0] in multiset(a);
    var i :| 0 <= i < |b| && b[i] == a[0];
    var j :| 0 <= j < |a| && a[j] == b[0];
    LexLeReflexive(b[0].labelText);
    LexLeReflexive(a[0].labelText);
    assert LexLe(b[0].labelText, a[0].labelText) by {
      if i > 0 { assert LexLe(b[0].labelText, b[i].labelText); }
    }
    assert LexLe(a[0].labelText, b[0].labelText) by {
      if j > 0 { assert LexLe(a[0].labelText, a[j].labelText); }
    }
    LexLeAntisymmetric(a[0].labelText, b[0].labelText);
    assert b[0].value == b[0].labelText by { assert a[j] == b[0]; }
  }

  /** A leading byte order mark never changes the list, even before a second one. */
  lemma {:induction false} ParseSimpleListIgnoresBom(s: string)
    ensures ParseSimpleList([Bom] + s) == ParseSimpleList(s)
  {
    LinesIgnoreBom(s);
    if |s| > 0 && s[0] == Bom {
      var t := s[1..];
      assert s == [Bom] + t;
      BomLineSameOptions(t);
    }
  }

  lemma BomBlank(x: string)
    ensures AllWhitespace([Bom] + x) == AllWhitespace(x)
  {
    if AllWhitespace(x) {
      forall i | 0 <= i < |[Bom] + x| ensures IsWhitespace(([Bom] + x)[i]) {
        if i > 0 { assert ([Bom] + x)[i] == x[i - 1]; }
      }
    }
    if AllWhitespace([Bom] + x) {
      forall i | 0 <= i < |x| ensures IsWhitespace(x[i]) {
        assert ([Bom] + x)[i + 1] == x[i];
      }
    }
  }

  /** Only the first line changes, by a mark that `trim` removes anyway. */
  lemma BomLineSameOptions(t: string)
    ensures ToOptions(NonBlank(SplitLines([Bom] + t))) == ToOptions(NonBlank(SplitLines(t)))
  {
    var rest := SplitLines(t);
    assert ([Bom] + t)[1..] == t;
    var lines := SplitLines([Bom] + t);
    assert lines == [[Bom] + rest[0]] + rest[1..];
    TrimDropsLeadingBom(rest[0]);
    BomBlank(rest[0]);
    assert lines[1..] == rest[1..];
    if !AllWhitespace(rest[0]) {
      assert NonBlank(lines) == [[Bom] + rest[0]] + NonBlank(rest[1..]);
      assert NonBlank(rest) == [rest[0]] + NonBlank(rest[1..]);
    } else {
      assert NonBlank(lines) == NonBlank(rest[1..]);
      assert NonBlank(rest) == NonBlank(rest[1..]);
    }
  }
}
