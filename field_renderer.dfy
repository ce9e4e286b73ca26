/**
 * What `FieldRenderer` (src/components/form/FieldRenderer.tsx) decides about a
 * field: whether it is shown, which widget it becomes, under which name its
 * input is registered, the texts it displays, and how the upload callback
 * changes the form. The widgets themselves and React's rendering are not part
 * of this model; a rendered field is a `Widget` value.
 */
module FieldRenderer {
  import opened Wrappers
  import opened Js
  import opened Schema
  import I18n

  /** `getLocalizedText(value, locale)` (lines 17-24). */
  function GetLocalizedText(value: Option<LocalizedText>, locale: string): (r: string)
    ensures value.None? ==> r == ""
    ensures value.Some? && value.value.Plain? ==> r == value.value.text
  {
    match value
    case None => ""
    case Some(Plain(s)) => s
    case Some(Localized(ptBR, en)) =>
      var own := if locale == "pt-BR" then ptBR else if locale == "en" then en else None;
      own.GetOr(ptBR.GetOr(""))
  }

  /** A mapping gives the requested locale's entry, else the `pt-BR` one, else "". */
  lemma LocaleFallback(ptBR: Option<string>, en: Option<string>, locale: string)
    ensures GetLocalizedText(Some(Localized(ptBR, en)), locale) ==
            if locale == "en" && en.Some? then en.value
            else if ptBR.Some? then ptBR.value
            else ""
  {
  }

  /** `collectFieldIds` (lines 26-28): the top-level ids, in order. */
  function CollectFieldIds(fields: seq<FieldSchema>): (r: seq<string>)
    ensures |r| == |fields|
    ensures forall i | 0 <= i < |fields| :: r[i] == fields[i].id
  {
    if fields == [] then [] else [fields[0].id] + CollectFieldIds(fields[1..])
  }

  // ---------------------------------------------------------------------------
  // Visibility

  /** Every condition's value in `bag` is strictly equal to the expected string. */
  predicate ConditionsHold(conditions: seq<FieldCondition>, bag: Bag) {
    forall c | c in conditions :: Get(bag, c.fieldId) == Str(c.equals)
  }

  /** `shouldShow` (lines 57-61): no condition list, or every condition holds in the form's values. */
  predicate ShouldShow(f: FieldSchema, values: Bag) {
    f.conditions.None? || ConditionsHold(f.conditions.value, values)
  }

  /**
   * `values[field.id]?.[index] ?? {}` (lines 201-203): the entry's own bag. A
   * missing group value, a missing entry, or one that is not an object reads as `{}`.
   */
  function EntryBag(values: Bag, groupId: string, index: nat): Bag {
    match Get(values, groupId)
    case Arr(items) =>
      if index < |items| then (match items[index] case Obj(m) => m case _ => map[]) else map[]
    case _ => map[]
  }

  /** `showNested` (lines 204-209): the conditions are read in the entry, not in the form. */
  predicate ShowNested(nested: FieldSchema, values: Bag, groupId: string, index: nat) {
    nested.conditions.None? || ConditionsHold(nested.conditions.value, EntryBag(values, groupId, index))
  }

  lemma EmptyConditionsShown(f: FieldSchema, values: Bag)
    requires f.conditions == Some([])
    ensures ShouldShow(f, values)
  {
  }

  /** Nested visibility depends on the group's own value only. */
  lemma NestedIgnoresFormValues(nested: FieldSchema, values1: Bag, values2: Bag, groupId: string, index: nat)
    requires Get(values1, groupId) == Get(values2, groupId)
    ensures ShowNested(nested, values1, groupId, index) == ShowNested(nested, values2, groupId, index)
  {
  }

  /** A nested field whose condition holds in the form but not in a missing entry is hidden there. */
  lemma MissingEntryHidesConditional(nested: FieldSchema, values: Bag, groupId: string, index: nat, c: FieldCondition)
    requires nested.conditions == Some([c])
    requires Get(values, groupId) == Arr([])
    ensures !ShowNested(nested, values, groupId, index)
  {
    assert Get(EntryBag(values, groupId, index), c.fieldId) == Undefined;
  }

  // ---------------------------------------------------------------------------
  // Widgets

  datatype WidgetKind = SelectWidget | RadioWidget | DateWidget | FileWidget | GroupWidget | TextWidget

  /**
   * A rendered field: its widget, the DOM id, the name its input is registered
   * under, its label, helper text, the `required` marker, its option pairs
   * (value, label), the select placeholder and the upload marker.
   */
  datatype Widget = Widget(
    kind: WidgetKind,
    domId: string,
    name: string,
    caption: string,
    helper: Option<string>,
    required: bool,
    options: seq<(string, string)>,
    placeholder: Option<string>,
    uploading: bool)

  /** `field.helpText ? getLocalizedText(field.helpText, locale) : undefined`: an empty plain text counts as absent. */
  function Helper(helpText: Option<LocalizedText>, locale: string): (r: Option<string>)
    ensures r.None? <==> helpText.None? || helpText.value == Plain("")
  {
    if helpText.None? || helpText.value == Plain("") then None
    else Some(GetLocalizedText(helpText, locale))
  }

  /** `field.options?.map(...) ?? []`: the values with their localized labels. */
  function OptionPairs(f: FieldSchema, locale: string): (r: seq<(string, string)>)
    ensures |r| == |f.options|
    ensures forall i | 0 <= i < |r| :: r[i] == (f.options[i].value, GetLocalizedText(Some(f.options[i].caption), locale))
  {
    seq(|f.options|, i requires 0 <= i < |f.options| =>
      (f.options[i].value, GetLocalizedText(Some(f.options[i].caption), locale)))
  }

  /** The widget for a field shown at the top level (lines 65-169). */
  function TopWidget(f: FieldSchema, locale: string, dicts: I18n.Dictionaries,
                     uploadingField: Option<string>, hasUploadHandler: bool): Widget
  {
    var caption := GetLocalizedText(Some(f.caption), locale);
    var helper := Helper(f.helpText, locale);
    if f.kind == Select then
      Widget(SelectWidget, f.id, f.id, caption, helper, f.required, OptionPairs(f, locale),
             Some(I18n.T(dicts, locale, "form.selectPlaceholder", None)), false)
    else if f.kind == Radio then
      Widget(RadioWidget, f.id, f.id, caption, helper, f.required, OptionPairs(f, locale), None, false)
    else if f.kind == Date then
      Widget(DateWidget, f.id, f.id, caption, helper, f.required, [], None, false)
    else if f.kind == File && hasUploadHandler then
      Widget(FileWidget, f.id, f.id, caption, helper, f.required, [], None, uploadingField == Some(f.id))
    else if HasNested(f) then
      Widget(GroupWidget, f.id, f.id, caption, None, false, [], None, false)
    else
      Widget(TextWidget, f.id, f.id, caption, helper, f.required, [], None, false)
  }

  /** `FieldRenderer`: nothing when the field is hidden (line 63). */
  function Render(f: FieldSchema, locale: string, values: Bag, dicts: I18n.Dictionaries,
                  uploadingField: Option<string>, hasUploadHandler: bool): (r: Option<Widget>)
    ensures r.Some? <==> ShouldShow(f, values)
  {
    if ShouldShow(f, values) then Some(TopWidget(f, locale, dicts, uploadingField, hasUploadHandler)) else None
  }

  /**
   * The dispatch: select, radio and date get their own widgets; a file field the
   * upload widget only with an upload handler; a repeatable the group widget
   * only with a nested list; everything else a text input. Each top-level input
   * is registered under the field's id.
   */
  lemma TopDispatch(f: FieldSchema, locale: string, dicts: I18n.Dictionaries,
                    uploadingField: Option<string>, hasUploadHandler: bool)
    ensures var w := TopWidget(f, locale, dicts, uploadingField, hasUploadHandler);
      w.name == f.id &&
      (w.kind == SelectWidget <==> f.kind == Select) &&
      (w.kind == RadioWidget <==> f.kind == Radio) &&
      (w.kind == DateWidget <==> f.kind == Date) &&
      (w.kind == FileWidget <==> f.kind == File && hasUploadHandler) &&
      (w.kind == GroupWidget <==> HasNested(f)) &&
      (w.kind == TextWidget <==> f.kind == Text || (f.kind == File && !hasUploadHandler) ||
                                 (f.kind == Repeatable && !f.hasFields)) &&
      (w.uploading <==> f.kind == File && hasUploadHandler && uploadingField == Some(f.id))
  {
  }

  /** `nestedRegister` (lines 211-213): `${field.id}.${index}.${nestedField.id}`. */
  function NestedName(groupId: string, index: nat, nestedId: string): string {
    groupId + "." + NatToString(index) + "." + nestedId
  }

  /** The nested widget's DOM id and React key: `${field.id}.${nestedField.id}.${index}`. */
  function NestedDomId(groupId: string, index: nat, nestedId: string): string {
    groupId + "." + nestedId + "." + NatToString(index)
  }

  /** `renderNestedField` (lines 196-286): select, radio and date, anything else a text input. */
  function RenderNested(group: FieldSchema, nested: FieldSchema, index: nat, locale: string,
                        values: Bag, dicts: I18n.Dictionaries): (r: Option<Widget>)
    ensures r.Some? <==> ShowNested(nested, values, group.id, index)
  {
    if !ShowNested(nested, values, group.id, index) then None
    else
      var caption := GetLocalizedText(Some(nested.caption), locale);
      var helper := Helper(nested.helpText, locale);
      var name := NestedName(group.id, index, nested.id);
      var domId := NestedDomId(group.id, index, nested.id);
      var kind := if nested.kind == Select then SelectWidget
                  else if nested.kind == Radio then RadioWidget
                  else if nested.kind == Date then DateWidget
                  else TextWidget;
      var options := if nested.kind == Select || nested.kind == Radio then OptionPairs(nested, locale) else [];
      var placeholder := if nested.kind == Select then Some(I18n.T(dicts, locale, "form.selectPlaceholder", None)) else None;
      Some(Widget(kind, domId, name, caption, helper, nested.required, options, placeholder, false))
  }

  /** Nested file fields and nested groups become text inputs, registered under the entry's path. */
  lemma NestedDispatch(group: FieldSchema, nested: FieldSchema, index: nat, locale: string,
                       values: Bag, dicts: I18n.Dictionaries)
    requires ShowNested(nested, values, group.id, index)
    ensures var w := RenderNested(group, nested, index, locale, values, dicts).value;
      w.name == group.id + "." + NatToString(index) + "." + nested.id &&
      w.kind != FileWidget && w.kind != GroupWidget &&
      (w.kind == TextWidget <==> nested.kind != Select && nested.kind != Radio && nested.kind != Date)
  {
  }

  /** The entries `useFieldArray` shows: one per element of the group's array. */
  function EntryCount(values: Bag, groupId: string): nat {
    match Get(values, groupId) case Arr(items) => |items| case _ => 0
  }

  /** The repeatable group's body (lines 305-313): for each entry, each nested field in order. */
  function RenderEntries(group: FieldSchema, locale: string, values: Bag, dicts: I18n.Dictionaries): (r: seq<seq<Option<Widget>>>)
    ensures |r| == EntryCount(values, group.id)
    ensures forall i | 0 <= i < |r| :: |r[i]| == |group.fields| &&
              forall j | 0 <= j < |group.fields| :: r[i][j] == RenderNested(group, group.fields[j], i, locale, values, dicts)
  {
    seq(EntryCount(values, group.id), i requires 0 <= i =>
      seq(|group.fields|, j requires 0 <= j < |group.fields| =>
        RenderNested(group, group.fields[j], i, locale, values, dicts)))
  }

  // ---------------------------------------------------------------------------
  // The upload callback (lines 134-141)

  /** What `onFileUpload` resolved to: `ok` and `fileId`, each possibly absent. */
  datatype UploadResponse = UploadResponse(ok: bool, fileId: Option<string>)

  /** `response?.ok && response?.fileId`: both present and truthy. */
  predicate Accepted(response: UploadResponse) {
    response.ok && response.fileId.Some? && response.fileId.value != ""
  }

  /** The two pieces of client state the callback touches: the uploading marker and the form's values. */
  class UploadState {
    var uploadingField: Option<string>
    var values: Bag

    constructor(initial: Bag)
      ensures uploadingField == None && values == initial
    {
      uploadingField := None;
      values := initial;
    }

    /** `setUploadingField(field.id)`, before the request. */
    method BeginUpload(id: string)
      modifies this
      ensures uploadingField == Some(id)
      ensures values == old(values)
    {
      uploadingField := Some(id);
    }

    /**
     * After the request resolved: the file id is stored only for an accepted
     * response, and the marker is cleared in every case.
     */
    method FinishUpload(id: string, response: UploadResponse)
      modifies this
      ensures uploadingField == None
      ensures values == if Accepted(response) then old(values)[id := Str(response.fileId.value)] else old(values)
    {
      if response.ok && response.fileId.Some? && response.fileId.value != "" {
        values := values[id := Str(response.fileId.value)];
      }
      uploadingField := None;
    }

    /**
     * The whole callback. `None` is a rejected request: the callback stops at the
     * `await`, so the marker stays set and no value is written.
     */
    method OnUpload(id: string, outcome: Option<UploadResponse>)
      modifies this
      ensures outcome.None? ==> uploadingField == Some(id) && values == old(values)
      ensures outcome.Some? ==> uploadingField == None
      ensures outcome.Some? ==>
        values == if Accepted(outcome.value) then old(values)[id := Str(outcome.value.fileId.value)] else old(values)
    {
      BeginUpload(id);
      if outcome.Some? {
        FinishUpload(id, outcome.value);
      }
    }
  }

  /** Only the uploaded field's value can change. */
  lemma UploadTouchesOneKey(values: Bag, id: string, response: UploadResponse, other: string)
    requires other != id
    ensures Get(if Accepted(response) then values[id := Str(response.fileId.value)] else values, other) == Get(values, other)
  {
  }
}
