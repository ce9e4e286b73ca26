/**
 * The declarative description of the multi-step form: steps, fields, options,
 * per-field validations and the conditions that gate a field
 * (src/lib/schema-loader.ts, lines 3-42).
 */
module Schema {
  import opened Wrappers

  /** A plain string, or a mapping with a `pt-BR` and an `en` entry (either may be missing at run time). */
  datatype LocalizedText = Plain(text: string) | Localized(ptBR: Option<string>, en: Option<string>)

  /** "this applies only while the answer `fieldId` is exactly the string `equals`" */
  datatype FieldCondition = FieldCondition(fieldId: string, equals: string)

  /** `label` is a reserved word in Dafny, so the label is called `caption` here. */
  datatype FieldOption = FieldOption(value: string, caption: LocalizedText)

  /** `maxFileSizeMb` and `allowedTypes` are carried but never read by the validator. */
  datatype FieldValidation = FieldValidation(noAccents: bool, maxFileSizeMb: Option<int>, allowedTypes: Option<seq<string>>)

  datatype FieldType = Text | Select | Radio | Date | File | Repeatable

  /**
   * One field. An absent `options` list is the empty list (every reader treats
   * the two alike). The source's optional `fields` list is `hasFields` together
   * with `fields`: `hasFields` is false when the list is absent, and an empty
   * list that is present is `hasFields == true && fields == []`.
   */
  datatype FieldSchema = FieldSchema(
    id: string,
    kind: FieldType,
    caption: LocalizedText,
    required: bool,
    helpText: Option<LocalizedText>,
    options: seq<FieldOption>,
    validations: FieldValidation,
    conditions: Option<seq<FieldCondition>>,
    hasFields: bool,
    fields: seq<FieldSchema>)

  datatype StepSchema = StepSchema(id: string, title: LocalizedText, fields: seq<FieldSchema>)

  datatype FormSchema = FormSchema(title: LocalizedText, steps: seq<StepSchema>)

  /** `field.type === "repeatable" && field.fields`: a repeatable group with a nested field list. */
  predicate HasNested(f: FieldSchema) {
    f.kind == Repeatable && f.hasFields
  }

  /** `field.options?.map((option) => option.value) ?? []` */
  function OptionValues(f: FieldSchema): (r: seq<string>)
    ensures |r| == |f.options|
    ensures forall i | 0 <= i < |r| :: r[i] == f.options[i].value
  {
    seq(|f.options|, i requires 0 <= i < |f.options| => f.options[i].value)
  }

  /** `steps.flatMap((step) => step.fields)` */
  function AllFields(steps: seq<StepSchema>): seq<FieldSchema> {
    if steps == [] then [] else steps[0].fields + AllFields(steps[1..])
  }

  lemma {:induction false} AllFieldsAppend(a: seq<StepSchema>, b: seq<StepSchema>)
    ensures AllFields(a + b) == AllFields(a) + AllFields(b)
  {
    if a == [] {
      assert a + b == b;
    } else {
      assert (a + b)[1..] == a[1..] + b;
      AllFieldsAppend(a[1..], b);
    }
  }

  /** A field belongs to the merged list exactly when some step holds it. */
  lemma {:induction false} AllFieldsMembers(steps: seq<StepSchema>, f: FieldSchema)
    ensures f in AllFields(steps) <==> exists i | 0 <= i < |steps| :: f in steps[i].fields
  {
    if steps != [] {
      AllFieldsMembers(steps[1..], f);
      if f in AllFields(steps[1..]) {
        var i :| 0 <= i < |steps[1..]| && f in steps[1..][i].fields;
        assert f in steps[i + 1].fields;
      }
      if exists i | 0 <= i < |steps| :: f in steps[i].fields {
        var i :| 0 <= i < |steps| && f in steps[i].fields;
        if i > 0 {
          assert f in steps[1..][i - 1].fields;
        }
      }
    }
  }
}
