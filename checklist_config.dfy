/**
 * The checklist-configuration feed of App.tsx: a header line, then rows
 * `sectionId,sectionTitle,itemId,itemLabel,itemType` grouped into an
 * insertion-ordered dictionary of sections.
 */
module ChecklistConfig {
  import opened Wrappers
  import opened JsText

  /** The type an item gets when its fifth field is missing or empty. */
  const DefaultType: string := "default"

  /** `{ id, label, type }` */
  datatype Item = Item(id: string, labelText: string, itemType: string)

  /** `{ title, items }` */
  datatype Section = Section(title: string, items: seq<Item>)

  /**
   * The `ChecklistConfig` object: sections by id, together with the order
   * in which the ids were inserted (the order `Object.keys` lists them in).
   */
  datatype Config = Config(order: seq<string>, sections: map<string, Section>)

  /** An accepted line: the section it belongs to and the item it adds. */
  datatype Row = Row(sectionId: string, sectionTitle: string, item: Item)

  predicate NoDuplicates(s: seq<string>)
  {
    forall i, j :: 0 <= i < j < |s| ==> s[i] != s[j]
  }

  /** The order lists every section once and nothing else. */
  predicate WellFormed(cfg: Config)
  {
    NoDuplicates(cfg.order) && (set id | id in cfg.order) == cfg.sections.Keys
  }

  /** `row.split(',').map(s => s.trim())` */
  function Fields(line: string): (r: seq<string>)
    ensures |r| == |SplitOn(line, ',')|
  {
    var p := SplitOn(line, ',');
    seq(|p|, k requires 0 <= k < |p| => Trim(p[k]))
  }

  /** Destructured field `k`; a missing field is `undefined`, falsy like `''`. */
  function FieldAt(f: seq<string>, k: nat): string
  {
    if k < |f| then f[k] else ""
  }

  /** A trimmed field is empty exactly when the raw field is missing or blank. */
  lemma FieldEmpty(line: string, k: nat)
    ensures var p := SplitOn(line, ',');
      (FieldAt(Fields(line), k) == "") == (k >= |p| || AllWhitespace(p[k]))
  {
    var p := SplitOn(line, ',');
    if k < |p| {
      TrimEmptyIffBlank(p[k]);
    }
  }

  /**
   * One line of the feed. It is accepted iff it has at least four comma
   * fields and none of the first four is white space only; the type is the
   * trimmed fifth field, or `'default'` when that is missing or blank.
   * Fields after the fifth are ignored.
   */
  function ParseRow(line: string): (r: Option<Row>)
    ensures var p := SplitOn(line, ',');
      r.Some? <==> (|p| >= 4 && !AllWhitespace(p[0]) && !AllWhitespace(p[1])
                    && !AllWhitespace(p[2]) && !AllWhitespace(p[3]))
    ensures var p := SplitOn(line, ',');
      r.Some? ==> r.value == Row(Trim(p[0]), Trim(p[1]),
        Item(Trim(p[2]), Trim(p[3]), if |p| >= 5 && !AllWhitespace(p[4]) then Trim(p[4]) else DefaultType))
  {
    var f := Fields(line);
    FieldEmpty(line, 0); FieldEmpty(line, 1); FieldEmpty(line, 2); FieldEmpty(line, 3); FieldEmpty(line, 4);
    if FieldAt(f, 0) != "" && FieldAt(f, 1) != "" && FieldAt(f, 2) != "" && FieldAt(f, 3) != "" then
      var itemType := if FieldAt(f, 4) != "" then FieldAt(f, 4) else DefaultType;
      Some(Row(f[0], f[1], Item(f[2], f[3], itemType)))
    else
      None
  }

  /** A field that survives a round trip through the feed. */
  predicate CleanField(x: string)
  {
    x != "" && !IsWhitespace(x[0]) && !IsWhitespace(x[|x| - 1]) && ',' !in x
  }

  /** The line a spreadsheet export would hold for `r`. */
  function FormatRow(r: Row): string
  {
    Join([r.sectionId, r.sectionTitle, r.item.id, r.item.labelText, r.item.itemType], ',')
  }

  /** Formatting a row with clean fields and parsing it back gives the row. */
  lemma ParseFormatRow(r: Row)
    requires CleanField(r.sectionId) && CleanField(r.sectionTitle)
    requires CleanField(r.item.id) && CleanField(r.item.labelText) && CleanField(r.item.itemType)
    ensures ParseRow(FormatRow(r)) == Some(r)
  {
    var ps := [r.sectionId, r.sectionTitle, r.item.id, r.item.labelText, r.item.itemType];
    var line := FormatRow(r);
    assert SplitOn(line, ',') == ps by {
      SplitJoin(ps, ',');
    }
    CleanFieldKept(r.sectionId);
    CleanFieldKept(r.sectionTitle);
    CleanFieldKept(r.item.id);
    CleanFieldKept(r.item.labelText);
    CleanFieldKept(r.item.itemType);
  }

  /** A clean field is not blank, and `trim` leaves it as it is. */
  lemma CleanFieldKept(x: string)
    requires CleanField(x)
    ensures !AllWhitespace(x) && Trim(x) == x
  {
    TrimUntouched(x);
  }

  /** An empty fifth field means the default type. */
  lemma EmptyTypeIsDefault(line: string)
    requires ParseRow(line).Some?
    requires |SplitOn(line, ',')| < 5 || Trim(SplitOn(line, ',')[4]) == ""
    ensures ParseRow(line).value.item.itemType == DefaultType
  {
    var p := SplitOn(line, ',');
    if |p| >= 5 {
      TrimEmptyIffBlank(p[4]);
    }
  }

  /** The rows the `forEach` accepts, in feed order. */
  function AcceptedRows(lines: seq<string>): (r: seq<Row>)
    ensures |r| <= |lines|
  {
    if lines == [] then []
    else
      var last := ParseRow(lines[|lines| - 1]);
      AcceptedRows(lines[..|lines| - 1]) + (if last.Some? then [last.value] else [])
  }

  /** `text.split(/\r?\n/).slice(1)` after the mark check: the header is skipped. */
  function Body(text: string): seq<string>
  {
    Lines(text)[1..]
  }

  function Ids(rows: seq<Row>): (r: seq<string>)
    ensures |r| == |rows|
    ensures forall k :: 0 <= k < |rows| ==> r[k] == rows[k].sectionId
  {
    seq(|rows|, k requires 0 <= k < |rows| => rows[k].sectionId)
  }

  /** The position of the first occurrence of `x`. */
  function FirstIndex(s: seq<string>, x: string): (i: nat)
    requires x in s
    ensures i < |s| && s[i] == x && x !in s[..i]
  {
    if s[0] == x then 0 else 1 + FirstIndex(s[1..], x)
  }

  lemma {:induction false} FirstIndexSnoc(s: seq<string>, y: string, x: string)
    requires x in s + [y]
    ensures x in s ==> FirstIndex(s + [y], x) == FirstIndex(s, x)
    ensures x !in s ==> FirstIndex(s + [y], x) == |s|
  {
    if s != [] && s[0] != x {
      assert (s + [y])[1..] == s[1..] + [y];
      FirstIndexSnoc(s[1..], y, x);
    }
  }

  /** Each id once, in the order of its first occurrence. */
  function FirstAppearances(ids: seq<string>): (r: seq<string>)
    ensures forall x :: x in r <==> x in ids
    ensures NoDuplicates(r)
    ensures forall i, j :: 0 <= i < j < |r| ==> FirstIndex(ids, r[i]) < FirstIndex(ids, r[j])
  {
    if ids == [] then []
    else
      var init := ids[..|ids| - 1];
      var x := ids[|ids| - 1];
      var p := FirstAppearances(init);
      assert ids == init + [x];
      forall y | y in p ensures FirstIndex(ids, y) == FirstIndex(init, y) {
        FirstIndexSnoc(init, x, y);
      }
      if x in p then p
      else
        FirstIndexSnoc(init, x, x);
        p + [x]
  }

  /** The items of the accepted rows that belong to section `id`, in order. */
  function ItemsOf(rows: seq<Row>, id: string): seq<Item>
  {
    if rows == [] then []
    else
      var last := rows[|rows| - 1];
      ItemsOf(rows[..|rows| - 1], id) + (if last.sectionId == id then [last.item] else [])
  }

  /** The title on the first accepted row of section `id`. */
  function TitleOf(rows: seq<Row>, id: string): string
    requires id in Ids(rows)
  {
    rows[FirstIndex(Ids(rows), id)].sectionTitle
  }

  /** Each section id of `rows` with its title and items. */
  function SectionMap(rows: seq<Row>): (m: map<string, Section>)
    ensures m.Keys == set id | id in Ids(rows)
  {
    map id | id in Ids(rows) :: Section(TitleOf(rows, id), ItemsOf(rows, id))
  }

  /**
   * What the fold is meant to build: one section per section id, in order
   * of first appearance, titled by its first row, holding its rows' items.
   */
  function Grouped(rows: seq<Row>): (cfg: Config)
    ensures WellFormed(cfg)
  {
    Config(FirstAppearances(Ids(rows)), SectionMap(rows))
  }

  /** The configuration the source builds from a successfully fetched feed. */
  function ExpectedConfig(text: string): Config
  {
    Grouped(AcceptedRows(Body(text)))
  }

  lemma IdsSnoc(rows: seq<Row>, r: Row)
    ensures Ids(rows + [r]) == Ids(rows) + [r.sectionId]
    ensures (rows + [r])[..|rows|] == rows
  {
  }

  lemma ItemsOfSnoc(rows: seq<Row>, r: Row, id: string)
    ensures ItemsOf(rows + [r], id) == ItemsOf(rows, id) + (if r.sectionId == id then [r.item] else [])
  {
    IdsSnoc(rows, r);
  }

  lemma TitleOfSnoc(rows: seq<Row>, r: Row, id: string)
    requires id in Ids(rows + [r])
    ensures id in Ids(rows) ==> TitleOf(rows + [r], id) == TitleOf(rows, id)
    ensures id !in Ids(rows) ==> TitleOf(rows + [r], id) == r.sectionTitle
  {
    IdsSnoc(rows, r);
    FirstIndexSnoc(Ids(rows), r.sectionId, id);
  }

  /** One row more for a section already there: its item goes last. */
  lemma SectionMapSnocOld(rows: seq<Row>, r: Row)
    requires r.sectionId in Ids(rows)
    ensures var m := SectionMap(rows);
      SectionMap(rows + [r]) == m[r.sectionId := Section(m[r.sectionId].title, m[r.sectionId].items + [r.item])]
  {
    IdsSnoc(rows, r);
    var m, m' := SectionMap(rows), SectionMap(rows + [r]);
    var want := m[r.sectionId := Section(m[r.sectionId].title, m[r.sectionId].items + [r.item])];
    assert m'.Keys == want.Keys;
    forall id | id in m'.Keys ensures m'[id] == want[id] {
      ItemsOfSnoc(rows, r, id);
      TitleOfSnoc(rows, r, id);
    }
  }

  /** One row more for a new section: the section is created with that row. */
  lemma SectionMapSnocNew(rows: seq<Row>, r: Row)
    requires r.sectionId !in Ids(rows)
    ensures SectionMap(rows + [r]) == SectionMap(rows)[r.sectionId := Section(r.sectionTitle, [r.item])]
  {
    IdsSnoc(rows, r);
    var m, m' := SectionMap(rows), SectionMap(rows + [r]);
    var want := m[r.sectionId := Section(r.sectionTitle, [r.item])];
    assert m'.Keys == want.Keys;
    forall id | id in m'.Keys ensures m'[id] == want[id] {
      ItemsOfSnoc(rows, r, id);
      TitleOfSnoc(rows, r, id);
      if id == r.sectionId {
        NoItemsWithoutRow(rows, id);
      }
    }
  }

  /** One row more: its item goes last in its section, created if new. */
  lemma GroupedSnoc(rows: seq<Row>, r: Row)
    ensures var g, g' := Grouped(rows), Grouped(rows + [r]);
      if r.sectionId in g.sections then
        g'.order == g.order
        && g'.sections == g.sections[r.sectionId :=
             Section(g.sections[r.sectionId].title, g.sections[r.sectionId].items + [r.item])]
      else
        g'.order == g.order + [r.sectionId]
        && g'.sections == g.sections[r.sectionId := Section(r.sectionTitle, [r.item])]
  {
    IdsSnoc(rows, r);
    var ids' := Ids(rows + [r]);
    assert ids'[..|ids'| - 1] == Ids(rows);
    if r.sectionId in Ids(rows) {
      SectionMapSnocOld(rows, r);
    } else {
      SectionMapSnocNew(rows, r);
    }
  }

  lemma {:induction false} NoItemsWithoutRow(rows: seq<Row>, id: string)
    requires id !in Ids(rows)
    ensures ItemsOf(rows, id) == []
  {
    if rows != [] {
      var init := rows[..|rows| - 1];
      assert Ids(rows) == Ids(init) + [rows[|rows| - 1].sectionId];
      NoItemsWithoutRow(init, id);
    }
  }

  lemma MapOverwrite(m: map<string, Section>, k: string, a: Section, b: Section)
    ensures m[k := a][k := b] == m[k := b]
  {
  }

  lemma GroupedEmpty()
    ensures Grouped([]) == Config([], map[])
  {
    assert SectionMap([]).Keys == {};
  }

  /**
   * One accepted row added to a configuration: a section id not yet present
   * is appended to the key order with the row's title; the item goes last
   * in its section.
   */
  function Place(c: Config, r: Row): (p: Config)
    ensures p.sections.Keys == c.sections.Keys + {r.sectionId}
    ensures var items := p.sections[r.sectionId].items; |items| > 0 && items[|items| - 1] == r.item
    ensures forall id :: id in c.sections && id != r.sectionId ==> p.sections[id] == c.sections[id]
    ensures WellFormed(c) ==> WellFormed(p)
  {
    if r.sectionId in c.sections then
      Config(c.order, c.sections[r.sectionId :=
        Section(c.sections[r.sectionId].title, c.sections[r.sectionId].items + [r.item])])
    else
      Config(c.order + [r.sectionId], c.sections[r.sectionId := Section(r.sectionTitle, [r.item])])
  }

  /** The rows placed one after another, starting from `{}`. */
  function FoldRows(rows: seq<Row>): (f: Config)
    ensures WellFormed(f)
  {
    if rows == [] then Config([], map[]) else Place(FoldRows(rows[..|rows| - 1]), rows[|rows| - 1])
  }

  /** Placing the rows one by one builds the grouping by first appearance. */
  lemma {:induction false} FoldRowsGrouped(rows: seq<Row>)
    ensures FoldRows(rows) == Grouped(rows)
  {
    if rows == [] {
      GroupedEmpty();
    } else {
      var init, r := rows[..|rows| - 1], rows[|rows| - 1];
      assert rows == init + [r];
      FoldRowsGrouped(init);
      GroupedSnoc(init, r);
    }
  }

  /**
   * `fetchChecklistConfig` after a successful fetch: the lines after the
   * header folded into a dictionary whose lookups see own keys only.
   */
  method ParseChecklistConfig(text: string) returns (cfg: Config)
    ensures cfg == ExpectedConfig(text)
    ensures WellFormed(cfg)
  {
    cfg := FoldLines(Body(text));
    FoldRowsGrouped(AcceptedRows(Body(text)));
  }

  /** The `forEach`: each accepted line's row placed in turn. */
  method FoldLines(rows: seq<string>) returns (newConfig: Config)
    ensures newConfig == FoldRows(AcceptedRows(rows))
  {
    newConfig := Config([], map[]);
    var i := 0;
    assert rows[..0] == [];
    while i < |rows|
      invariant 0 <= i <= |rows|
      invariant newConfig == FoldRows(AcceptedRows(rows[..i]))
    {
      var parsed := ParseRow(rows[i]);
      FoldStep(rows, i);
      if parsed.Some? {
        newConfig := AddRow(newConfig, parsed.value);
      }
      i := i + 1;
    }
    assert rows[..i] == rows;
  }

  /**
   * The body of the `forEach` for an accepted row: a section id not yet
   * present is created with the row's title, then the item is pushed onto
   * the section's items.
   */
  method AddRow(c: Config, r: Row) returns (c': Config)
    ensures c' == Place(c, r)
  {
    c' := c;
    if r.sectionId !in c'.sections {
      c' := Config(c'.order + [r.sectionId], c'.sections[r.sectionId := Section(r.sectionTitle, [])]);
    }
    var s := c'.sections[r.sectionId];
    c' := c'.(sections := c'.sections[r.sectionId := s.(items := s.items + [r.item])]);
    if r.sectionId !in c.sections {
      assert s.items + [r.item] == [r.item];
      MapOverwrite(c.sections, r.sectionId, s, Section(r.sectionTitle, [r.item]));
    }
  }

  /** One more line: the fold places its row, if the line is accepted. */
  lemma FoldStep(rows: seq<string>, i: nat)
    requires i < |rows|
    ensures var p, c := ParseRow(rows[i]), FoldRows(AcceptedRows(rows[..i]));
      FoldRows(AcceptedRows(rows[..i + 1])) == if p.Some? then Place(c, p.value) else c
  {
    assert rows[..i + 1][..i] == rows[..i];
    var done, p := AcceptedRows(rows[..i]), ParseRow(rows[i]);
    if p.Some? {
      assert AcceptedRows(rows[..i + 1]) == done + [p.value];
      assert (done + [p.value])[..|done|] == done;
    } else {
      assert AcceptedRows(rows[..i + 1]) == done + [];
      assert done + [] == done;
    }
  }

  /** The lines after the first, whatever the first line holds, mark and carriage return included. */
  lemma BodyAfterHeader(h: string, t: string)
    requires '\n' !in h
    ensures Body(h + "\n" + t) == SplitLines(t)
  {
    var text := h + "\n" + t;
    if |h| > 0 && h[0] == Bom {
      assert StripBom(text) == h[1..] + "\n" + t;
      assert '\n' !in h[1..] by {
        forall c | c in h[1..] ensures c != '\n' { assert c in h; }
      }
      SplitLinesFirstLine(h[1..], t);
    } else {
      assert StripBom(text) == text;
      SplitLinesFirstLine(h, t);
    }
  }

  /** The header line is skipped whatever it holds. */
  lemma HeaderIgnored(h: string, t: string)
    requires '\n' !in h
    ensures ExpectedConfig(h + "\n" + t) == Grouped(AcceptedRows(SplitLines(t)))
  {
    BodyAfterHeader(h, t);
  }

  /** A feed with or without one leading mark gives the same configuration. */
  lemma ConfigIgnoresBom(t: string)
    ensures ExpectedConfig([Bom] + t) == ExpectedConfig(t)
  {
    LinesIgnoreBom(t);
    if |t| > 0 && t[0] == Bom {
      assert t == [Bom] + t[1..];
      SplitLinesCarry(Bom, t[1..]);
    }
  }

  /**
   * The items of section `id` are exactly the items of the rows with that
   * id, in feed order: `ks` lists those rows' positions, increasing.
   */
  lemma {:induction false} ItemsOfPositions(rows: seq<Row>, id: string) returns (ks: seq<nat>)
    ensures |ks| == |ItemsOf(rows, id)|
    ensures forall j :: 0 <= j < |ks| ==>
      ks[j] < |rows| && rows[ks[j]].sectionId == id && rows[ks[j]].item == ItemsOf(rows, id)[j]
    ensures forall j1, j2 :: 0 <= j1 < j2 < |ks| ==> ks[j1] < ks[j2]
    ensures forall k :: 0 <= k < |rows| && rows[k].sectionId == id ==> k in ks
  {
    if rows == [] {
      ks := [];
    } else {
      var init := rows[..|rows| - 1];
      var last := rows[|rows| - 1];
      var p := ItemsOfPositions(init, id);
      assert forall k :: 0 <= k < |init| ==> init[k] == rows[k];
      if last.sectionId == id {
        ks := p + [|rows| - 1];
      } else {
        ks := p;
      }
    }
  }

  /** Every accepted row's item ends up in the section named by its first field. */
  lemma RowPlaced(rows: seq<Row>, k: nat)
    requires k < |rows|
    ensures rows[k].sectionId in Grouped(rows).order
    ensures rows[k].item in Grouped(rows).sections[rows[k].sectionId].items
  {
    var id := rows[k].sectionId;
    assert Ids(rows)[k] == id;
    var ks := ItemsOfPositions(rows, id);
    var j :| 0 <= j < |ks| && ks[j] == k;
    assert ItemsOf(rows, id)[j] == rows[k].item;
  }

  /** A section's title comes from the first accepted row with its id; later titles are ignored. */
  lemma SectionTitleFirst(rows: seq<Row>, id: string) returns (k: nat)
    requires id in Grouped(rows).sections
    ensures k < |rows| && rows[k].sectionId == id
    ensures forall j :: 0 <= j < k ==> rows[j].sectionId != id
    ensures Grouped(rows).sections[id].title == rows[k].sectionTitle
  {
    k := FirstIndex(Ids(rows), id);
    forall j | 0 <= j < k ensures rows[j].sectionId != id {
      assert Ids(rows)[..k][j] == rows[j].sectionId;
    }
  }

  /** The number of items over the sections of `order`. */
  function SumItems(order: seq<string>, m: map<string, Section>): nat
    requires forall id :: id in order ==> id in m
  {
    if order == [] then 0 else |m[order[0]].items| + SumItems(order[1..], m)
  }

  /** The number of items in a configuration. */
  function ItemCount(cfg: Config): nat
    requires WellFormed(cfg)
  {
    assert forall id :: id in cfg.order ==> id in cfg.sections;
    SumItems(cfg.order, cfg.sections)
  }

  lemma {:induction false} SumItemsSnoc(order: seq<string>, k: string, m: map<string, Section>)
    requires forall id :: id in order + [k] ==> id in m
    ensures SumItems(order + [k], m) == SumItems(order, m) + |m[k].items|
  {
    if order != [] {
      assert (order + [k])[1..] == order[1..] + [k];
      SumItemsSnoc(order[1..], k, m);
    }
  }

  lemma {:induction false} SumItemsOutside(order: seq<string>, m: map<string, Section>, k: string, s: Section)
    requires forall id :: id in order ==> id in m
    requires k !in order
    ensures SumItems(order, m[k := s]) == SumItems(order, m)
  {
    if order != [] {
      SumItemsOutside(order[1..], m, k, s);
    }
  }

  lemma {:induction false} SumItemsUpdate(order: seq<string>, m: map<string, Section>, k: string, s: Section)
    requires forall id :: id in order ==> id in m
    requires NoDuplicates(order) && k in order
    ensures SumItems(order, m[k := s]) == SumItems(order, m) - |m[k].items| + |s.items|
  {
    assert NoDuplicates(order[1..]) by {
      forall i, j | 0 <= i < j < |order[1..]| ensures order[1..][i] != order[1..][j] {
        assert order[1..][i] == order[i + 1] && order[1..][j] == order[j + 1];
      }
    }
    if order[0] == k {
      assert k !in order[1..] by {
        forall j | 0 <= j < |order[1..]| ensures order[1..][j] != k {
          assert order[1..][j] == order[j + 1];
        }
      }
      SumItemsOutside(order[1..], m, k, s);
    } else {
      SumItemsUpdate(order[1..], m, k, s);
    }
  }

  /** No accepted row is lost or duplicated: the sections hold one item per row. */
  lemma {:induction false} GroupedItemCount(rows: seq<Row>)
    ensures ItemCount(Grouped(rows)) == |rows|
  {
    if rows == [] {
      GroupedEmpty();
    } else {
      var init, r := rows[..|rows| - 1], rows[|rows| - 1];
      assert rows == init + [r];
      GroupedItemCount(init);
      GroupedSnoc(init, r);
      var g := Grouped(init);
      assert forall id :: id in g.order ==> id in g.sections;
      if r.sectionId in g.sections {
        SumItemsUpdate(g.order, g.sections, r.sectionId,
          Section(g.sections[r.sectionId].title, g.sections[r.sectionId].items + [r.item]));
      } else {
        var m := g.sections[r.sectionId := Section(r.sectionTitle, [r.item])];
        SumItemsOutside(g.order, g.sections, r.sectionId, Section(r.sectionTitle, [r.item]));
        SumItemsSnoc(g.order, r.sectionId, m);
      }
    }
  }

  /** Names every plain object inherits from `Object.prototype`. */
  const InheritedNames: set<string> := {
    "constructor", "hasOwnProperty", "isPrototypeOf", "propertyIsEnumerable",
    "toLocaleString", "toString", "valueOf", "__proto__",
    "__defineGetter__", "__defineSetter__", "__lookupGetter__", "__lookupSetter__"
  }

  /** What `newConfig[sectionId]` finds on a plain object literal. */
  datatype Slot = Own(section: Section) | Inherited | Undefined

  function Get(cfg: Config, id: string): (r: Slot)
    ensures r.Own? <==> id in cfg.sections
    ensures r.Inherited? <==> id !in cfg.sections && id in InheritedNames
  {
    if id in cfg.sections then Own(cfg.sections[id])
    else if id in InheritedNames then Inherited
    else Undefined
  }

  /**
   * One step of the `forEach` exactly as written, on a plain object: an
   * inherited member is truthy, so no section is created, and pushing onto
   * its `items` (undefined) throws. `None` is that TypeError.
   */
  function PlaceAsWritten(acc: Option<Config>, r: Row): Option<Config>
  {
    match acc
    case None => None
    case Some(c) =>
      var c1 := if Get(c, r.sectionId).Undefined?
        then Config(c.order + [r.sectionId], c.sections[r.sectionId := Section(r.sectionTitle, [])])
        else c;
      match Get(c1, r.sectionId)
      case Own(s) => Some(Config(c1.order, c1.sections[r.sectionId := Section(s.title, s.items + [r.item])]))
      case _ => None
  }

  function FoldAsWritten(rows: seq<Row>): Option<Config>
  {
    if rows == [] then Some(Config([], map[]))
    else PlaceAsWritten(FoldAsWritten(rows[..|rows| - 1]), rows[|rows| - 1])
  }

  /** `fetchChecklistConfig` as written: `None` when the `forEach` throws. */
  function ParseConfigAsWritten(text: string): (r: Option<Config>)
    ensures r.None? <==> UsesInheritedName(AcceptedRows(Body(text)))
    ensures r.Some? ==> r.value == ExpectedConfig(text)
  {
    FoldAsWrittenOutcome(AcceptedRows(Body(text)));
    FoldAsWritten(AcceptedRows(Body(text)))
  }

  predicate UsesInheritedName(rows: seq<Row>)
  {
    exists k :: 0 <= k < |rows| && rows[k].sectionId in InheritedNames
  }

  /** A step for an id that is not inherited does what the intended step does. */
  lemma PlaceAsWrittenOwn(c: Config, r: Row)
    requires r.sectionId !in InheritedNames
    ensures r.sectionId in c.sections ==>
      (PlaceAsWritten(Some(c), r) == Some(Config(c.order, c.sections[r.sectionId :=
        Section(c.sections[r.sectionId].title, c.sections[r.sectionId].items + [r.item])])))
    ensures r.sectionId !in c.sections ==>
      (PlaceAsWritten(Some(c), r) ==
        Some(Config(c.order + [r.sectionId], c.sections[r.sectionId := Section(r.sectionTitle, [r.item])])))
  {
    if r.sectionId !in c.sections {
      var s0 := Section(r.sectionTitle, []);
      var c1 := Config(c.order + [r.sectionId], c.sections[r.sectionId := s0]);
      assert Get(c, r.sectionId).Undefined?;
      assert Get(c1, r.sectionId) == Own(s0);
      assert s0.items + [r.item] == [r.item];
      MapOverwrite(c.sections, r.sectionId, Section(r.sectionTitle, []), Section(r.sectionTitle, [r.item]));
    }
  }

  /** A step for an inherited id that no row has made an own key throws. */
  lemma PlaceAsWrittenInherited(c: Config, r: Row)
    requires r.sectionId in InheritedNames && r.sectionId !in c.sections
    ensures PlaceAsWritten(Some(c), r) == None
  {
  }

  /** The section ids of the intended configuration are the ids of the rows. */
  lemma GroupedKeys(rows: seq<Row>, id: string)
    requires id in Grouped(rows).sections
    ensures exists k :: 0 <= k < |rows| && rows[k].sectionId == id
  {
    var k := FirstIndex(Ids(rows), id);
    assert rows[k].sectionId == id;
  }

  /**
   * As written, the fold throws exactly when some accepted row's section id
   * is an inherited name, and otherwise builds the intended configuration.
   */
  lemma {:induction false} FoldAsWrittenOutcome(rows: seq<Row>)
    ensures UsesInheritedName(rows) ==> FoldAsWritten(rows) == None
    ensures !UsesInheritedName(rows) ==> FoldAsWritten(rows) == Some(Grouped(rows))
  {
    if rows == [] {
      GroupedEmpty();
    } else {
      var init, r := rows[..|rows| - 1], rows[|rows| - 1];
      assert rows == init + [r];
      assert FoldAsWritten(rows) == PlaceAsWritten(FoldAsWritten(init), r);
      FoldAsWrittenOutcome(init);
      if UsesInheritedName(init) {
        var k :| 0 <= k < |init| && init[k].sectionId in InheritedNames;
        assert rows[k] == init[k];
      } else if r.sectionId in InheritedNames {
        assert UsesInheritedName(rows) by {
          assert rows[|rows| - 1].sectionId in InheritedNames;
        }
        if r.sectionId in Grouped(init).sections {
          GroupedKeys(init, r.sectionId);
        }
        PlaceAsWrittenInherited(Grouped(init), r);
      } else {
        assert !UsesInheritedName(rows) by {
          forall k | 0 <= k < |rows| ensures rows[k].sectionId !in InheritedNames {
            if k < |init| { assert rows[k] == init[k]; }
          }
        }
        GroupedSnoc(init, r);
        PlaceAsWrittenOwn(Grouped(init), r);
      }
    }
  }

  /** A feed holding a header and one clean row. */
  lemma SingleRowFeed(h: string, r: Row)
    requires '\n' !in h
    requires CleanField(r.sectionId) && CleanField(r.sectionTitle)
    requires CleanField(r.item.id) && CleanField(r.item.labelText) && CleanField(r.item.itemType)
    requires '\n' !in r.sectionId && '\n' !in r.sectionTitle
    requires '\n' !in r.item.id && '\n' !in r.item.labelText && '\n' !in r.item.itemType
    ensures AcceptedRows(Body(h + "\n" + FormatRow(r))) == [r]
  {
    var t := FormatRow(r);
    JoinAvoids([r.sectionId, r.sectionTitle, r.item.id, r.item.labelText, r.item.itemType], ',', '\n');
    BodyAfterHeader(h, t);
    SplitLinesNoLineFeed(t);
    OneRow(t, r);
  }

  lemma OneRow(t: string, r: Row)
    requires CleanField(r.sectionId) && CleanField(r.sectionTitle)
    requires CleanField(r.item.id) && CleanField(r.item.labelText) && CleanField(r.item.itemType)
    requires t == FormatRow(r)
    ensures AcceptedRows([t]) == [r]
  {
    ParseFormatRow(r);
    assert [t][..0] == [];
  }

  /** The row of the feed below: every field is clean and on one line. */
  lemma ToStringRowClean(r: Row)
    requires r == Row("toString", "T", Item("i", "L", "status"))
    ensures CleanField(r.sectionId) && CleanField(r.sectionTitle)
    ensures CleanField(r.item.id) && CleanField(r.item.labelText) && CleanField(r.item.itemType)
    ensures '\n' !in r.sectionId && '\n' !in r.sectionTitle
    ensures '\n' !in r.item.id && '\n' !in r.item.labelText && '\n' !in r.item.itemType
  {
  }

  /**
   * A feed whose only row uses the section id `toString` loses the whole
   * configuration as written, although the intended one has that section.
   */
  lemma InheritedNameLosesConfig()
    ensures var text := "h\n" + FormatRow(Row("toString", "T", Item("i", "L", "status")));
      ParseConfigAsWritten(text) == None
      && ExpectedConfig(text).order == ["toString"]
  {
    var r := Row("toString", "T", Item("i", "L", "status"));
    var text := "h\n" + FormatRow(r);
    assert text == "h" + "\n" + FormatRow(r);
    ToStringRowClean(r);
    SingleRowFeed("h", r);
    assert AcceptedRows(Body(text)) == [r];
    assert UsesInheritedName([r]) by {
      assert [r][0].sectionId in InheritedNames;
    }
    FoldAsWrittenOutcome([r]);
    GroupedEmpty();
    GroupedSnoc([], r);
    assert [] + [r] == [r];
  }
}
