/**
 * Program-stage metadata to form categories (src/utils/transformers.js): each stage
 * section becomes a category whose data elements are split into subsections at
 * header markers.
 */
module Transformers {
  import opened Wrappers
  import opened Strings

  /** One option of an option set: `{ code, displayName }`. */
  datatype OptionIn = OptionIn(code: string, displayName: string)

  /**
   * A data element. A missing `formName` or `displayName` is ""; `optionSet` is `None`
   * when the element has no option set or the set has no `options` array.
   */
  datatype DataElement = DataElement(
    id: string, formName: string, displayName: string, valueType: string,
    optionSet: Option<seq<OptionIn>>, compulsory: bool)

  /** A stage section; a missing `dataElements` array is the empty sequence. */
  datatype StageSection = StageSection(id: string, displayName: string, dataElements: seq<DataElement>)

  /** The metadata; `programStageSections` is `None` when absent. */
  datatype Metadata = Metadata(programStageSections: Option<seq<StageSection>>)

  datatype FieldOption = FieldOption(value: string, text: string)

  datatype Field = Field(id: string, fieldLabel: string, inputType: string, options: seq<FieldOption>, compulsory: bool)

  datatype Subsection = Subsection(id: string, name: string, fields: seq<Field>)

  datatype Category = Category(id: string, name: string, subsections: seq<Subsection>)

  // ---------------------------------------------------------------- pure parts

  const InputTypes: set<string> := {"select", "number", "date", "textarea", "text"}

  predicate IsNumericType(valueType: string) {
    valueType == "NUMBER" || valueType == "INTEGER" || valueType == "INTEGER_POSITIVE"
    || valueType == "INTEGER_ZERO_OR_POSITIVE"
  }

  predicate IsBooleanType(valueType: string) {
    valueType == "BOOLEAN" || valueType == "TRUE_ONLY"
  }

  /** mapValueTypeToInputType. */
  function MapValueTypeToInputType(valueType: string, hasOptions: bool): (r: string)
    ensures r in InputTypes
    ensures r == "select" <==> hasOptions || IsBooleanType(valueType)
    ensures r == "number" <==> !hasOptions && IsNumericType(valueType)
    ensures r == "date" <==> !hasOptions && valueType == "DATE"
    ensures r == "textarea" <==> !hasOptions && valueType == "LONG_TEXT"
  {
    if hasOptions then "select"
    else if IsNumericType(valueType) then "number"
    else if IsBooleanType(valueType) then "select"
    else if valueType == "DATE" then "date"
    else if valueType == "LONG_TEXT" then "textarea"
    else "text"
  }

  /** `de.formName || de.displayName`. */
  function NameOf(de: DataElement): string {
    if de.formName != "" then de.formName else de.displayName
  }

  /** A header marker: the name contains "(--)" or, trimmed, ends with "--". */
  predicate IsHeader(name: string) {
    name != "" && (Contains(name, "(--)") || EndsWith(Trim(Js, name), "--"))
  }

  /** `s.replace(/--$/, '')`. */
  function DropTrailingDashes(s: string): (r: string)
    ensures EndsWith(s, "--") ==> s == r + "--"
    ensures !EndsWith(s, "--") ==> r == s
  {
    if EndsWith(s, "--") then s[..|s| - 2] else s
  }

  /** A header's subsection name: every "(--)" removed, then a trailing "--", then trimmed. */
  function CleanHeaderName(name: string): (r: string)
    ensures |r| <= |name|
    ensures r == [] || (!IsJsSpace(r[0]) && !IsJsSpace(r[|r| - 1]))
  {
    Trim(Js, DropTrailingDashes(RemoveAll(name, "(--)")))
  }

  /**
   * The "(--)" removal: the first marker is deleted and the scan resumes after it, so
   * text before the first marker is kept as it is.
   */
  lemma MarkerRemoved(a: string, b: string)
    requires !Contains(a, "(--)")
    ensures RemoveAll(a + "(--)" + b, "(--)") == a + RemoveAll(b, "(--)")
  {
    var s := a + "(--)" + b;
    FindAfterClean(a, "(--)", b);
    assert s[..|a|] == a;
    assert s[|a| + 4..] == b;
  }

  /** A name written "Title(--)", with no other marker, becomes "Title", trimmed. */
  lemma CleanEnclosedMarker(title: string)
    requires !Contains(title, "(--)") && !EndsWith(title, "--")
    ensures CleanHeaderName(title + "(--)") == Trim(Js, title)
  {
    var s := title + "(--)";
    MarkerRemoved(title, "");
    assert title + "(--)" + "" == s;
    assert FindFrom("", "(--)", 0).None?;
    assert RemoveAll(s, "(--)") == title;
  }

  /** A name written "Title--" (with no "(--)") becomes "Title", trimmed. */
  lemma CleanTrailingMarker(title: string)
    requires !Contains(title + "--", "(--)")
    ensures CleanHeaderName(title + "--") == Trim(Js, title)
  {
    var s := title + "--";
    assert RemoveAll(s, "(--)") == s;
    assert EndsWith(s, "--") by { assert s[|s| - 2..] == "--"; }
    assert DropTrailingDashes(s) == title;
  }

  /** The options of an element: its option set, else Yes/No for a boolean type. */
  function OptionsOf(de: DataElement): (opts: seq<FieldOption>)
    ensures IsBooleanType(de.valueType) ==> opts != []
    ensures de.optionSet.Some? && de.optionSet.value != [] ==> |opts| == |de.optionSet.value|
  {
    var fromSet := match de.optionSet
      case None => []
      case Some(os) => seq(|os|, k requires 0 <= k < |os| => FieldOption(os[k].code, os[k].displayName));
    if fromSet == [] && IsBooleanType(de.valueType) then [FieldOption("true", "Yes"), FieldOption("false", "No")]
    else fromSet
  }

  /** The field built from a non-header element. */
  function FieldOf(de: DataElement): (f: Field)
    ensures f.id == de.id && f.compulsory == de.compulsory
    ensures f.options != [] ==> f.inputType == "select"
    ensures IsBooleanType(de.valueType) ==> f.inputType == "select" && f.options != []
    ensures EndsWith(NameOf(de), "comment") ==> f.fieldLabel == "Comment"
    ensures !EndsWith(NameOf(de), "comment") ==> f.fieldLabel == NameOf(de)
  {
    var name := NameOf(de);
    var options := OptionsOf(de);
    var fieldLabel := if EndsWith(name, "-comment") || EndsWith(name, "comment") then "Comment" else name;
    Field(de.id, fieldLabel, MapValueTypeToInputType(de.valueType, |options| > 0), options, de.compulsory)
  }

  /** The fields of the non-header elements, in element order. */
  function FieldsOf(des: seq<DataElement>): seq<Field> {
    if des == [] then []
    else
      var de := des[|des| - 1];
      FieldsOf(des[..|des| - 1]) + (if IsHeader(NameOf(de)) then [] else [FieldOf(de)])
  }

  /** All fields of the subsections, in order. */
  function AllFields(subs: seq<Subsection>): seq<Field> {
    if subs == [] then [] else AllFields(subs[..|subs| - 1]) + subs[|subs| - 1].fields
  }

  lemma {:induction false} AllFieldsEmpty(subs: seq<Subsection>)
    requires forall k :: 0 <= k < |subs| ==> subs[k].fields != []
    ensures AllFields(subs) == [] <==> subs == []
  {
    if subs != [] {
      assert subs[|subs| - 1].fields != [];
    }
  }

  /** A subsection opened by the header element `des[j]`. */
  predicate OpenedByHeader(sub: Subsection, des: seq<DataElement>) {
    exists j :: 0 <= j < |des| && IsHeader(NameOf(des[j])) && sub.id == des[j].id
                && sub.name == CleanHeaderName(NameOf(des[j]))
  }

  function DefaultSubsection(section: StageSection): Subsection {
    Subsection("default-" + section.id, section.displayName, [])
  }

  function EmptySubsection(section: StageSection): Subsection {
    Subsection("empty-" + section.id, "No Fields", [])
  }

  /** The subsection opened by a header element, still without fields. */
  function Opened(de: DataElement): Subsection {
    Subsection(de.id, CleanHeaderName(NameOf(de)), [])
  }

  /** What an element contributes: a header opens a subsection, any other element is a field. */
  datatype Item = HeaderItem(header: Subsection) | FieldItem(field: Field)

  function ItemOf(de: DataElement): Item {
    if IsHeader(NameOf(de)) then HeaderItem(Opened(de)) else FieldItem(FieldOf(de))
  }

  function Items(des: seq<DataElement>): (items: seq<Item>)
    ensures |items| == |des|
    ensures forall k :: 0 <= k < |des| ==> items[k] == ItemOf(des[k])
  {
    seq(|des|, k requires 0 <= k < |des| => ItemOf(des[k]))
  }

  /** Position of the first header at or after `i`, or the length when there is none. */
  function FirstHeaderFrom(items: seq<Item>, i: nat): (h: nat)
    requires i <= |items|
    ensures i <= h <= |items|
    ensures h < |items| ==> items[h].HeaderItem?
    decreases |items| - i
  {
    if i == |items| || items[i].HeaderItem? then i else FirstHeaderFrom(items, i + 1)
  }

  /** The fields among `items[i..j]`, in order. */
  function FieldsBetween(items: seq<Item>, i: nat, j: nat): seq<Field>
    requires i <= j <= |items|
    decreases j - i
  {
    if i == j then []
    else (if items[i].HeaderItem? then [] else [items[i].field]) + FieldsBetween(items, i + 1, j)
  }

  /** A subsection is emitted only when it has a field. */
  function IfNonEmpty(sub: Subsection): seq<Subsection> {
    if sub.fields != [] then [sub] else []
  }

  /**
   * The subsections of `items[i..]` when `open` is the subsection open before it: the
   * fields before the next header join `open`, that header opens the next subsection,
   * and so on; a subsection without fields is dropped.
   */
  function Groups(items: seq<Item>, i: nat, open: Subsection): seq<Subsection>
    requires i <= |items|
    decreases |items| - i
  {
    var h := FirstHeaderFrom(items, i);
    var head := open.(fields := open.fields + FieldsBetween(items, i, h));
    if h == |items| then IfNonEmpty(head)
    else IfNonEmpty(head) + Groups(items, h + 1, items[h].header)
  }

  /**
   * The subsections of a section: it starts with the default subsection (id
   * "default-" + the section id, named after the section), each header element starts
   * a new one; when no field is found the single "No Fields" subsection stands in.
   */
  function Subsections(section: StageSection): seq<Subsection> {
    var g := Groups(Items(section.dataElements), 0, DefaultSubsection(section));
    if g == [] then [EmptySubsection(section)] else g
  }

  /** A header closes the open subsection and opens its own. */
  lemma GroupsHeader(items: seq<Item>, i: nat, open: Subsection)
    requires i < |items| && items[i].HeaderItem?
    ensures Groups(items, i, open) == IfNonEmpty(open) + Groups(items, i + 1, items[i].header)
  {
    assert FirstHeaderFrom(items, i) == i;
    assert FieldsBetween(items, i, i) == [];
    assert open.(fields := open.fields + []) == open;
  }

  /** A field joins the open subsection. */
  lemma GroupsField(items: seq<Item>, i: nat, open: Subsection)
    requires i < |items| && items[i].FieldItem?
    ensures Groups(items, i, open) == Groups(items, i + 1, open.(fields := open.fields + [items[i].field]))
  {
    var h := FirstHeaderFrom(items, i + 1);
    assert FirstHeaderFrom(items, i) == h;
    var x := FieldsBetween(items, i + 1, h);
    assert FieldsBetween(items, i, h) == [items[i].field] + x;
    assert open.fields + ([items[i].field] + x) == (open.fields + [items[i].field]) + x;
  }

  /** The splitter's loop invariant moves past element `i`. */
  lemma GroupsAdvance(des: seq<DataElement>, i: nat, subs: seq<Subsection>, current: Subsection,
                      g: seq<Subsection>)
    requires i < |des| && subs + Groups(Items(des), i, current) == g
    ensures IsHeader(NameOf(des[i])) && current.fields != [] ==>
              (subs + [current]) + Groups(Items(des), i + 1, Opened(des[i])) == g
    ensures IsHeader(NameOf(des[i])) && current.fields == [] ==>
              subs + Groups(Items(des), i + 1, Opened(des[i])) == g
    ensures !IsHeader(NameOf(des[i])) ==>
              subs + Groups(Items(des), i + 1, current.(fields := current.fields + [FieldOf(des[i])])) == g
  {
    var items := Items(des);
    assert items[i] == ItemOf(des[i]);
    if IsHeader(NameOf(des[i])) {
      GroupsHeader(items, i, current);
      var tail := Groups(items, i + 1, Opened(des[i]));
      if current.fields != [] {
        assert subs + ([current] + tail) == (subs + [current]) + tail;
      } else {
        assert [] + tail == tail;
      }
    } else {
      GroupsField(items, i, current);
    }
  }

  /** After the last element, closing the open subsection completes the groups. */
  lemma GroupsFinish(items: seq<Item>, subs: seq<Subsection>, current: Subsection, g: seq<Subsection>)
    requires subs + Groups(items, |items|, current) == g
    ensures current.fields != [] ==> subs + [current] == g
    ensures current.fields == [] ==> subs == g
  {
    assert current.fields + FieldsBetween(items, |items|, |items|) == current.fields;
    if current.fields == [] {
      assert subs + [] == subs;
    }
  }

  /** An open subsection that already has a field is emitted first, with its id and name, its fields extended. */
  lemma GroupsHead(items: seq<Item>, i: nat, open: Subsection)
    requires i <= |items| && open.fields != []
    ensures Groups(items, i, open) != []
    ensures Groups(items, i, open)[0].id == open.id && Groups(items, i, open)[0].name == open.name
    ensures open.fields <= Groups(items, i, open)[0].fields
  {
    var h := FirstHeaderFrom(items, i);
    var head := open.(fields := open.fields + FieldsBetween(items, i, h));
    assert IfNonEmpty(head) == [head];
  }

  /**
   * A section whose first element is a field starts with the default subsection: id
   * "default-" + the section id, the section's display name, and that field first.
   */
  lemma FirstIsDefault(section: StageSection)
    requires section.dataElements != [] && !IsHeader(NameOf(section.dataElements[0]))
    ensures Subsections(section) != []
    ensures Subsections(section)[0].id == "default-" + section.id
    ensures Subsections(section)[0].name == section.displayName
    ensures Subsections(section)[0].fields != [] && Subsections(section)[0].fields[0] == FieldOf(section.dataElements[0])
  {
    var items := Items(section.dataElements);
    var d := DefaultSubsection(section);
    assert items[0] == ItemOf(section.dataElements[0]);
    GroupsField(items, 0, d);
    var d' := d.(fields := d.fields + [items[0].field]);
    GroupsHead(items, 1, d');
    assert d'.fields == [FieldOf(section.dataElements[0])];
  }

  // ---------------------------------------------------------------- the splitter

  /** What holds of the subsections emitted so far: each has a field and a known origin. */
  predicate Emitted(section: StageSection, subs: seq<Subsection>) {
    forall k :: 0 <= k < |subs| ==>
      subs[k].fields != []
      && (subs[k].id == DefaultSubsection(section).id || OpenedByHeader(subs[k], section.dataElements))
  }

  /** The open subsection is the default one or was opened by a header. */
  predicate KnownOrigin(section: StageSection, sub: Subsection) {
    sub.id == DefaultSubsection(section).id || OpenedByHeader(sub, section.dataElements)
  }

  /** Closing a non-empty open subsection keeps the emitted subsections well formed. */
  lemma Close(section: StageSection, subs: seq<Subsection>, current: Subsection)
    requires Emitted(section, subs) && KnownOrigin(section, current) && current.fields != []
    ensures Emitted(section, subs + [current])
    ensures AllFields(subs + [current]) == AllFields(subs) + current.fields
  {
    assert (subs + [current])[..|subs|] == subs;
  }

  /** A header element opens a subsection named after it. */
  lemma OpenHeader(section: StageSection, i: nat)
    requires i < |section.dataElements| && IsHeader(NameOf(section.dataElements[i]))
    ensures var de := section.dataElements[i];
            KnownOrigin(section, Subsection(de.id, CleanHeaderName(NameOf(de)), []))
  {
  }

  /** One more element adds its field, or nothing for a header. */
  lemma FieldsStep(des: seq<DataElement>, i: nat)
    requires i < |des|
    ensures FieldsOf(des[..i + 1]) == FieldsOf(des[..i]) + (if IsHeader(NameOf(des[i])) then [] else [FieldOf(des[i])])
  {
    assert des[..i + 1][..i] == des[..i];
  }

  /**
   * The loop body of the splitter for element `i`: a header closes the open subsection
   * (when it has fields) and opens its own; any other element adds its field.
   */
  method Absorb(section: StageSection, i: nat, subs: seq<Subsection>, current: Subsection)
    returns (subs': seq<Subsection>, current': Subsection)
    requires i < |section.dataElements|
    requires AllFields(subs) + current.fields == FieldsOf(section.dataElements[..i])
    requires Emitted(section, subs) && KnownOrigin(section, current)
    ensures AllFields(subs') + current'.fields == FieldsOf(section.dataElements[..i + 1])
    ensures Emitted(section, subs') && KnownOrigin(section, current')
    ensures var de := section.dataElements[i];
            if IsHeader(NameOf(de)) then
              current' == Opened(de) && subs' == (if current.fields != [] then subs + [current] else subs)
            else
              subs' == subs && current' == current.(fields := current.fields + [FieldOf(de)])
  {
    var de := section.dataElements[i];
    FieldsStep(section.dataElements, i);
    var name := NameOf(de);
    subs' := subs;
    if IsHeader(name) {
      if |current.fields| > 0 {
        Close(section, subs, current);
        subs' := subs + [current];
      } else {
        assert AllFields(subs) + current.fields == AllFields(subs);
      }
      OpenHeader(section, i);
      current' := Subsection(de.id, CleanHeaderName(name), []);
      assert AllFields(subs') + current'.fields == AllFields(subs');
    } else {
      current' := current.(fields := current.fields + [FieldOf(de)]);
      assert AllFields(subs) + current'.fields == (AllFields(subs) + current.fields) + [FieldOf(de)];
    }
  }

  /**
   * One section's subsections: split at every header as `Subsections` says. Every
   * non-header element gives one field, in order; every subsection emitted has a field,
   * unless there is no field at all and the result is the single "No Fields"
   * subsection; each subsection is the default one or was opened by a header.
   */
  method SplitSection(section: StageSection) returns (subsections: seq<Subsection>)
    ensures subsections == Subsections(section)
    ensures AllFields(subsections) == FieldsOf(section.dataElements)
    ensures FieldsOf(section.dataElements) == [] ==> subsections == [EmptySubsection(section)]
    ensures FieldsOf(section.dataElements) != [] ==> Emitted(section, subsections)
  {
    var des := section.dataElements;
    ghost var g := Groups(Items(des), 0, DefaultSubsection(section));
    subsections := [];
    var current := DefaultSubsection(section);
    assert [] + Groups(Items(des), 0, current) == g;
    for i := 0 to |des|
      invariant AllFields(subsections) + current.fields == FieldsOf(des[..i])
      invariant Emitted(section, subsections)
      invariant KnownOrigin(section, current)
      invariant subsections + Groups(Items(des), i, current) == g
    {
      GroupsAdvance(des, i, subsections, current, g);
      subsections, current := Absorb(section, i, subsections, current);
    }
    assert des[..|des|] == des;
    subsections := Finish(section, subsections, current);
  }

  /** The end of the element list: the open subsection is kept if it has
      fields, and a section that produced none gets its one empty subsection. */
  method Finish(section: StageSection, subs: seq<Subsection>, current: Subsection)
    returns (subsections: seq<Subsection>)
    requires AllFields(subs) + current.fields == FieldsOf(section.dataElements)
    requires Emitted(section, subs) && KnownOrigin(section, current)
    requires subs + Groups(Items(section.dataElements), |section.dataElements|, current)
             == Groups(Items(section.dataElements), 0, DefaultSubsection(section))
    ensures subsections == Subsections(section)
    ensures AllFields(subsections) == FieldsOf(section.dataElements)
    ensures FieldsOf(section.dataElements) == [] ==> subsections == [EmptySubsection(section)]
    ensures FieldsOf(section.dataElements) != [] ==> Emitted(section, subsections)
  {
    GroupsFinish(Items(section.dataElements), subs, current,
                 Groups(Items(section.dataElements), 0, DefaultSubsection(section)));
    subsections := subs;
    if |current.fields| > 0 {
      Close(section, subs, current);
      subsections := subs + [current];
    }
    AllFieldsEmpty(subsections);
    if |subsections| == 0 {
      subsections := [EmptySubsection(section)];
    }
  }

  /** transformMetadata: one category per stage section, in order. */
  method TransformMetadata(metadata: Option<Metadata>) returns (categories: seq<Category>)
    ensures metadata.None? || metadata.value.programStageSections.None? ==> categories == []
    ensures metadata.Some? && metadata.value.programStageSections.Some? ==>
              var sections := metadata.value.programStageSections.value;
              && |categories| == |sections|
              && forall k :: 0 <= k < |sections| ==>
                   && categories[k].id == sections[k].id && categories[k].name == sections[k].displayName
                   && categories[k].subsections == Subsections(sections[k])
                   && AllFields(categories[k].subsections) == FieldsOf(sections[k].dataElements)
  {
    if metadata.None? || metadata.value.programStageSections.None? {
      return [];
    }
    var sections := metadata.value.programStageSections.value;
    categories := [];
    for k := 0 to |sections|
      invariant |categories| == k
      invariant forall t :: 0 <= t < k ==>
                  && categories[t].id == sections[t].id && categories[t].name == sections[t].displayName
                  && categories[t].subsections == Subsections(sections[t])
                  && AllFields(categories[t].subsections) == FieldsOf(sections[t].dataElements)
    {
      var subsections := SplitSection(sections[k]);
      categories := categories + [Category(sections[k].id, sections[k].displayName, subsections)];
    }
  }
}
