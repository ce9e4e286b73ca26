/**
 * The read-only summary of an application's answers
 * (src/components/app/AnswersSummary.tsx): which steps and fields are listed,
 * and the text each answer is shown as. Rendering is modelled as values:
 * a step becomes an optional `Section`, a field's answer a `ValueNode`.
 * `new Date(value).toLocaleDateString("pt-BR")` is the parameter `formatDate`,
 * which gives `None` for a string that is not a valid date.
 */
module AnswersSummary {
  import opened Wrappers
  import opened Js
  import opened Schema
  import FieldRenderer

  /** The summary's fixed locale (line 9). */
  const Locale: string := "pt-BR"

  /** The placeholder for an empty answer. */
  const Dash: string := "\U{2014}"

  const FileAttached: string := "Documento anexado"

  /** `getLabel` (lines 11-15). */
  function GetLabel(value: Option<LocalizedText>): string {
    match value
    case None => ""
    case Some(Plain(s)) => s
    case Some(Localized(ptBR, en)) =>
      var own := if Locale == "en" then en else ptBR;
      own.GetOr(ptBR.GetOr(""))
  }

  /** The summary's labels are the renderer's labels in `pt-BR`. */
  lemma GetLabelIsPortuguese(value: Option<LocalizedText>)
    ensures GetLabel(value) == FieldRenderer.GetLocalizedText(value, "pt-BR")
  {
  }

  /** `options?.find((o) => o.value === value)`: the first option whose value is `v`. */
  function FindOption(options: seq<FieldOption>, v: JsValue): (r: Option<FieldOption>)
    ensures r.Some? <==> exists i | 0 <= i < |options| :: Str(options[i].value) == v
    ensures r.Some? ==> exists i | 0 <= i < |options| ::
              options[i] == r.value && Str(options[i].value) == v &&
              forall k | 0 <= k < i :: Str(options[k].value) != v
  {
    if options == [] then None
    else if Str(options[0].value) == v then Some(options[0])
    else
      var r := FindOption(options[1..], v);
      assert forall i | 0 < i < |options| :: options[i] == options[1..][i - 1];
      r
  }

  predicate IsBlank(v: JsValue) {
    v == Undefined || v == Null || v == Str("")
  }

  /** `formatValue` (lines 17-40). */
  function FormatValue(f: FieldSchema, v: JsValue, options: seq<FieldOption>, formatDate: string -> Option<string>): string {
    if IsBlank(v) then Dash
    else if v.Str? && f.kind == Date && formatDate(v.s).Some? then formatDate(v.s).value
    else if (f.kind == Select || f.kind == Radio) && FindOption(options, v).Some? then
      GetLabel(Some(FindOption(options, v).value.caption))
    else if f.kind == File then (if Truthy(v) then FileAttached else Dash)
    else if v.Obj? then Dash
    else JsToString(v)
  }

  // ---------------------------------------------------------------------------
  // Properties of formatValue

  lemma BlankIsDash(f: FieldSchema, v: JsValue, options: seq<FieldOption>, formatDate: string -> Option<string>)
    requires IsBlank(v)
    ensures FormatValue(f, v, options, formatDate) == Dash
  {
  }

  /** A select or radio answer matching an option shows the first such option's label. */
  lemma MatchedOptionShowsLabel(f: FieldSchema, v: JsValue, options: seq<FieldOption>,
                                formatDate: string -> Option<string>, i: nat)
    requires f.kind == Select || f.kind == Radio
    requires !IsBlank(v) && i < |options| && Str(options[i].value) == v
    requires forall k | 0 <= k < i :: Str(options[k].value) != v
    ensures FormatValue(f, v, options, formatDate) == GetLabel(Some(options[i].caption))
  {
    var r := FindOption(options, v);
    var j :| 0 <= j < |options| && options[j] == r.value && Str(options[j].value) == v &&
             forall k | 0 <= k < j :: Str(options[k].value) != v;
    assert j == i;
  }

  /** An unmatched select or radio answer shows `String(value)`, an object "—". */
  lemma UnmatchedOptionShowsValue(f: FieldSchema, v: JsValue, options: seq<FieldOption>, formatDate: string -> Option<string>)
    requires f.kind == Select || f.kind == Radio
    requires !IsBlank(v) && forall k | 0 <= k < |options| :: Str(options[k].value) != v
    ensures FormatValue(f, v, options, formatDate) == if v.Obj? then Dash else JsToString(v)
  {
  }

  /** A file answer that is not blank is "Documento anexado" when truthy (`false` and `0` are "—"). */
  lemma FileAnswer(f: FieldSchema, v: JsValue, options: seq<FieldOption>, formatDate: string -> Option<string>)
    requires f.kind == File && !IsBlank(v)
    ensures FormatValue(f, v, options, formatDate) == if Truthy(v) then FileAttached else Dash
  {
  }

  /** A dated answer shows the formatted date when it parses, and the raw string otherwise. */
  lemma DateAnswer(f: FieldSchema, s: string, options: seq<FieldOption>, formatDate: string -> Option<string>)
    requires f.kind == Date && s != ""
    ensures FormatValue(f, Str(s), options, formatDate) ==
            if formatDate(s).Some? then formatDate(s).value else s
  {
  }

  /** A plain object that is not a file answer is "—". */
  lemma ObjectIsDash(f: FieldSchema, m: Bag, options: seq<FieldOption>, formatDate: string -> Option<string>)
    requires f.kind != File
    ensures FormatValue(f, Obj(m), options, formatDate) == Dash
  {
    assert FindOption(options, Obj(m)).None?;
  }

  // ---------------------------------------------------------------------------
  // renderFieldValue

  /** One entry of a repeatable answer: its "Item n:" heading and its (label, text) rows. */
  datatype Item = Item(heading: string, rows: seq<(string, string)>)

  /** What `renderFieldValue` returns: `null`, a string, or the list of entries. */
  datatype ValueNode = NoNode | TextNode(text: string) | ItemsNode(items: seq<Item>)

  /** `stepData?.[key] ?? data[key]` */
  function Lookup(data: Bag, stepData: Option<Bag>, key: string): JsValue {
    Coalesce(if stepData.Some? then Get(stepData.value, key) else Undefined, Get(data, key))
  }

  /** `item[nested.id]`; an entry that is not an object has no such property. */
  function EntryValue(item: JsValue, key: string): JsValue {
    match item case Obj(m) => Get(m, key) case _ => Undefined
  }

  /** The nested rows of one entry: every nested field whose text is not "—" (lines 60-75). */
  function EntryRows(nested: seq<FieldSchema>, item: JsValue, formatDate: string -> Option<string>): (r: seq<(string, string)>)
    ensures |r| <= |nested|
    ensures forall k | 0 <= k < |r| :: r[k].1 != Dash
  {
    if nested == [] then []
    else
      var text := FormatValue(nested[0], EntryValue(item, nested[0].id), nested[0].options, formatDate);
      (if text == Dash then [] else [(GetLabel(Some(nested[0].caption)), text)]) +
      EntryRows(nested[1..], item, formatDate)
  }

  /** `Item {index + 1}:` */
  function Heading(index: nat): string {
    "Item " + NatToString(index + 1) + ":"
  }

  function Items(nested: seq<FieldSchema>, items: seq<JsValue>, formatDate: string -> Option<string>): (r: seq<Item>)
    ensures |r| == |items|
    ensures forall i | 0 <= i < |items| :: r[i] == Item(Heading(i), EntryRows(nested, items[i], formatDate))
  {
    seq(|items|, i requires 0 <= i < |items| => Item(Heading(i), EntryRows(nested, items[i], formatDate)))
  }

  /** `renderFieldValue(field, data, stepData)` (lines 42-86). */
  function RenderFieldValue(f: FieldSchema, data: Bag, stepData: Option<Bag>, formatDate: string -> Option<string>): ValueNode {
    var value := Lookup(data, stepData, f.id);
    if HasNested(f) && value.Arr? then
      if |value.items| == 0 then NoNode else ItemsNode(Items(f.fields, value.items, formatDate))
    else TextNode(FormatValue(f, value, f.options, formatDate))
  }

  /** A row of an entry is exactly a nested field whose text is not "—". */
  lemma {:induction false} EntryRowsMembers(nested: seq<FieldSchema>, item: JsValue, formatDate: string -> Option<string>,
                                            row: (string, string))
    ensures row in EntryRows(nested, item, formatDate) <==>
            exists g | g in nested ::
              var text := FormatValue(g, EntryValue(item, g.id), g.options, formatDate);
              text != Dash && row == (GetLabel(Some(g.caption)), text)
  {
    if nested != [] {
      EntryRowsMembers(nested[1..], item, formatDate, row);
      if exists g | g in nested ::
           var text := FormatValue(g, EntryValue(item, g.id), g.options, formatDate);
           text != Dash && row == (GetLabel(Some(g.caption)), text) {
        var g :| g in nested &&
           var text := FormatValue(g, EntryValue(item, g.id), g.options, formatDate);
           text != Dash && row == (GetLabel(Some(g.caption)), text);
        if g != nested[0] {
          assert g in nested[1..];
        }
      }
    }
  }

  /** A group with an empty array renders nothing; a non-empty one gets "Item 1:", "Item 2:", ... */
  lemma RepeatableNode(f: FieldSchema, data: Bag, stepData: Option<Bag>, formatDate: string -> Option<string>, items: seq<JsValue>)
    requires HasNested(f) && Lookup(data, stepData, f.id) == Arr(items)
    ensures items == [] ==> RenderFieldValue(f, data, stepData, formatDate) == NoNode
    ensures items != [] ==> RenderFieldValue(f, data, stepData, formatDate).ItemsNode?
    ensures items != [] ==>
              (var out := RenderFieldValue(f, data, stepData, formatDate).items;
               |out| == |items| &&
               forall i | 0 <= i < |items| :: out[i].heading == "Item " + NatToString(i + 1) + ":")
  {
  }

  // ---------------------------------------------------------------------------
  // shouldShowField and the summary

  /** `shouldShowField` (lines 88-98). */
  predicate ShouldShowField(f: FieldSchema, data: Bag, stepData: Option<Bag>) {
    f.conditions.None? || f.conditions.value == [] ||
    forall c | c in f.conditions.value :: Lookup(data, stepData, c.fieldId) == Str(c.equals)
  }

  /** Without step data the summary shows a field exactly when the form renders it. */
  lemma SummaryAgreesWithForm(f: FieldSchema, data: Bag)
    ensures ShouldShowField(f, data, None) <==> FieldRenderer.ShouldShow(f, data)
  {
  }

  datatype Row = Row(caption: string, value: ValueNode)

  datatype Section = Section(title: string, rows: seq<Row>)

  /** `step.fields.filter((f) => shouldShowField(f, data))` (lines 109-111). */
  function VisibleFields(fields: seq<FieldSchema>, data: Bag): (r: seq<FieldSchema>)
    ensures forall g | g in r :: g in fields && ShouldShowField(g, data, None)
    ensures forall g | g in fields && ShouldShowField(g, data, None) :: g in r
  {
    if fields == [] then []
    else (if ShouldShowField(fields[0], data, None) then [fields[0]] else []) + VisibleFields(fields[1..], data)
  }

  /** A row is dropped when its answer renders as nothing or as "—" (line 123). */
  predicate Dropped(node: ValueNode) {
    node == NoNode || node == TextNode(Dash)
  }

  function SummaryRows(fields: seq<FieldSchema>, data: Bag, formatDate: string -> Option<string>): (r: seq<Row>)
    ensures |r| <= |fields|
    ensures forall k | 0 <= k < |r| :: !Dropped(r[k].value)
  {
    if fields == [] then []
    else
      var node := RenderFieldValue(fields[0], data, None, formatDate);
      (if Dropped(node) then [] else [Row(GetLabel(Some(fields[0].caption)), node)]) +
      SummaryRows(fields[1..], data, formatDate)
  }

  /** One step of `AnswersSummary` (lines 108-137): `None` is the `null` of a step with no visible field. */
  function StepSection(step: StepSchema, data: Bag, formatDate: string -> Option<string>): Option<Section> {
    var visible := VisibleFields(step.fields, data);
    if |visible| == 0 then None
    else Some(Section(GetLabel(Some(step.title)), SummaryRows(visible, data, formatDate)))
  }

  /** `AnswersSummary({schema, data})`: one entry per step, in order. */
  function Summary(schema: FormSchema, data: Bag, formatDate: string -> Option<string>): (r: seq<Option<Section>>)
    ensures |r| == |schema.steps|
    ensures forall i | 0 <= i < |r| :: r[i] == StepSection(schema.steps[i], data, formatDate)
  {
    seq(|schema.steps|, i requires 0 <= i < |schema.steps| => StepSection(schema.steps[i], data, formatDate))
  }

  /** A step is left out exactly when none of its fields is shown. */
  lemma StepOmittedIffNoVisibleField(step: StepSchema, data: Bag, formatDate: string -> Option<string>)
    ensures StepSection(step, data, formatDate).None? <==>
            forall g | g in step.fields :: !ShouldShowField(g, data, None)
  {
    var visible := VisibleFields(step.fields, data);
    if |visible| > 0 {
      assert visible[0] in visible;
    }
  }

  /** A step whose shown answers all render as "—" or nothing is still listed, with no rows. */
  lemma {:induction false} AllDashStepHasNoRows(fields: seq<FieldSchema>, data: Bag, formatDate: string -> Option<string>)
    requires forall g | g in fields :: Dropped(RenderFieldValue(g, data, None, formatDate))
    ensures SummaryRows(fields, data, formatDate) == []
  {
    if fields != [] {
      assert fields[0] in fields;
      AllDashStepHasNoRows(fields[1..], data, formatDate);
    }
  }

  /** A row is listed exactly for a shown field whose answer is not dropped. */
  lemma {:induction false} SummaryRowsMembers(fields: seq<FieldSchema>, data: Bag, formatDate: string -> Option<string>, row: Row)
    ensures row in SummaryRows(fields, data, formatDate) <==>
            exists g | g in fields ::
              var node := RenderFieldValue(g, data, None, formatDate);
              !Dropped(node) && row == Row(GetLabel(Some(g.caption)), node)
  {
    if fields != [] {
      SummaryRowsMembers(fields[1..], data, formatDate, row);
      if exists g | g in fields ::
           var node := RenderFieldValue(g, data, None, formatDate);
           !Dropped(node) && row == Row(GetLabel(Some(g.caption)), node) {
        var g :| g in fields &&
           var node := RenderFieldValue(g, data, None, formatDate);
           !Dropped(node) && row == Row(GetLabel(Some(g.caption)), node);
        if g != fields[0] {
          assert g in fields[1..];
        }
      }
    }
  }
}
