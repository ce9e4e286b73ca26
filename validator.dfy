/**
 * The validator compiler of src/lib/schema-loader.ts. `buildFieldSchema` and
 * `buildObjectSchema` turn a field list into a zod object check; here that check
 * is evaluated directly: `ValidateObject(fields, bag, isDate)` is the set of
 * issues zod's `safeParse` reports for the value bag, and the parse succeeds
 * exactly when that set is empty.
 *
 * Each issue carries a path and a code. The four codes the source attaches
 * itself (`required`, `no_accents`, `invalid_date`, `invalid_option`) are kept;
 * every failure zod raises on its own (a missing or mistyped value, an array
 * shorter than `min(1)`, an entry that is not an object) is the one code
 * `ZodType`, at the path zod reports it. `Date.parse` is the parameter `isDate`.
 */
module Validator {
  import opened Wrappers
  import opened Js
  import opened Schema

  datatype Code = Required | NoAccents | InvalidDate | InvalidOption | ZodType

  datatype Seg = Key(name: string) | Index(i: nat)

  type Path = seq<Seg>

  datatype Issue = Issue(path: Path, code: Code)

  /** A conditional-required rule: `{ fieldId, conditions }`. */
  datatype Rule = Rule(fieldId: string, conditions: seq<FieldCondition>)

  /** The issues of a nested check, moved under `prefix`. */
  function Under(prefix: Path, xs: set<Issue>): set<Issue> {
    set x | x in xs :: Issue(prefix + x.path, x.code)
  }

  /** The issues whose path starts at the top-level key `id`. */
  function KeyedBy(xs: set<Issue>, id: string): set<Issue> {
    set x | x in xs && |x.path| > 0 && x.path[0] == Key(id)
  }

  /** Fields checked as strings: everything but file fields and repeatable groups with a nested list. */
  predicate StringShaped(f: FieldSchema) {
    f.kind != File && !HasNested(f)
  }

  // ---------------------------------------------------------------------------
  // buildFieldSchema: the structural check of one field

  /**
   * The refinements on a string value (lines 82-112): the date check, the option
   * check, `noAccents` and `required`. zod runs every refinement, so several codes
   * can be reported together.
   */
  function StringCodes(f: FieldSchema, s: string, isDate: string -> bool): set<Code> {
    (if f.kind == Date && s != "" && !isDate(s) then {InvalidDate} else {}) +
    (if (f.kind == Select || f.kind == Radio) && |OptionValues(f)| > 0 && s !in OptionValues(f)
     then {InvalidOption} else {}) +
    (if f.validations.noAccents && s != "" && HasNonAscii(s) then {NoAccents} else {}) +
    (if f.required && |Trim(s)| == 0 then {Required} else {})
  }

  /** The issues of one field's own check, with paths relative to the field. */
  function CheckField(f: FieldSchema, v: JsValue, isDate: string -> bool): set<Issue>
    decreases f, 0, 0
  {
    if HasNested(f) then
      // lines 53-65: `z.array(nested)`, with `.min(1)` when required and `.optional()` otherwise
      match v
      case Undefined => if f.required then {Issue([], ZodType)} else {}
      case Arr(items) =>
        (if f.required && |items| == 0 then {Issue([], ZodType)} else {}) +
        CheckEntries(f.fields, items, 0, isDate)
      case _ => {Issue([], ZodType)}
    else if f.kind == File then
      // lines 69-80: `z.any()`, refined by `Boolean(value)` when required
      if f.required && !Truthy(v) then {Issue([], Required)} else {}
    else
      // lines 67, 82-112: `z.string()` with its refinements; `.optional()` admits undefined
      match v
      case Undefined => if f.required then {Issue([], ZodType)} else {}
      case Str(s) => set c | c in StringCodes(f, s, isDate) :: Issue([], c)
      case _ => {Issue([], ZodType)}
  }

  /** Entries `k..` of a repeatable group, each checked against the nested object check. */
  function CheckEntries(nested: seq<FieldSchema>, items: seq<JsValue>, k: nat, isDate: string -> bool): set<Issue>
    decreases nested, 2, |items| - k
  {
    if k >= |items| then {}
    else
      var here := match items[k]
        case Obj(m) => ValidateObject(nested, m, isDate)
        case _ => {Issue([], ZodType)};
      Under([Index(k)], here) + CheckEntries(nested, items, k + 1, isDate)
  }

  // ---------------------------------------------------------------------------
  // buildObjectSchema: the shape, the collected rules and the cross-field pass

  /** No later field has the same id, so this field's check is the one left in `shape` (line 129). */
  predicate LastOccurrence(fields: seq<FieldSchema>, k: int)
    requires 0 <= k < |fields|
  {
    forall j | k < j < |fields| :: fields[j].id != fields[k].id
  }

  function Ids(fields: seq<FieldSchema>): set<string> {
    set f | f in fields :: f.id
  }

  /** The structural pass over `fields[k..]`: each key of `shape` checks its own value. */
  function StructuralPass(fields: seq<FieldSchema>, bag: Bag, k: nat, isDate: string -> bool): set<Issue>
    decreases fields, 0, |fields| - k
  {
    if k >= |fields| then {}
    else
      (if LastOccurrence(fields, k)
       then Under([Key(fields[k].id)], CheckField(fields[k], Get(bag, fields[k].id), isDate))
       else {}) +
      StructuralPass(fields, bag, k + 1, isDate)
  }

  /** The rule a required field with a condition list registers (lines 60-62, 76-78, 117-119). */
  function OwnRule(f: FieldSchema): seq<Rule> {
    if f.required && f.conditions.Some? then [Rule(f.id, f.conditions.value)] else []
  }

  /** A field's rules: a repeatable group's nested rules come before its own (lines 58-63). */
  function FieldRules(f: FieldSchema): seq<Rule> {
    (if HasNested(f) then CollectRules(f.fields) else []) + OwnRule(f)
  }

  /** `conditionalRequired`, filled in field order (lines 127-131). */
  function CollectRules(fields: seq<FieldSchema>): seq<Rule> {
    if fields == [] then [] else FieldRules(fields[0]) + CollectRules(fields[1..])
  }

  /**
   * The object the cross-field pass sees is zod's parsed copy, which keeps only
   * the keys of `shape`: any other key reads as undefined.
   */
  function ParsedGet(fields: seq<FieldSchema>, bag: Bag, key: string): JsValue {
    if key in Ids(fields) then Get(bag, key) else Undefined
  }

  /** `rule.conditions.every(c => values[c.fieldId] === c.equals) && !values[rule.fieldId]` (lines 135-138) */
  predicate Fires(r: Rule, fields: seq<FieldSchema>, bag: Bag) {
    (forall c | c in r.conditions :: ParsedGet(fields, bag, c.fieldId) == Str(c.equals)) &&
    !Truthy(ParsedGet(fields, bag, r.fieldId))
  }

  /** The cross-field pass (lines 133-146): `required` at `[rule.fieldId]` for every rule that fires. */
  function RulePass(rules: seq<Rule>, fields: seq<FieldSchema>, bag: Bag): set<Issue> {
    set r | r in rules && Fires(r, fields, bag) :: Issue([Key(r.fieldId)], Required)
  }

  /** The object check `buildObjectSchema(fields).schema` applied to an object. */
  function ValidateObject(fields: seq<FieldSchema>, bag: Bag, isDate: string -> bool): set<Issue>
    decreases fields, 1, 0
  {
    StructuralPass(fields, bag, 0, isDate) + RulePass(CollectRules(fields), fields, bag)
  }

  /** `safeParse` of any value: only an object gets past zod's own type check. */
  function Parse(fields: seq<FieldSchema>, data: JsValue, isDate: string -> bool): set<Issue> {
    match data
    case Obj(m) => ValidateObject(fields, m, isDate)
    case _ => {Issue([], ZodType)}
  }

  /** `buildZodSchema(schema).safeParse(data)` (lines 151-152): all steps' fields in one object check. */
  function ValidateForm(form: FormSchema, data: JsValue, isDate: string -> bool): set<Issue> {
    Parse(AllFields(form.steps), data, isDate)
  }

  // ---------------------------------------------------------------------------
  // The parsed copy `safeParse` returns on success

  /**
   * zod's output object: each key of `shape` that the input has, with its
   * value parsed again; every other key is dropped. `fields[k..]` are the keys
   * still to place, and only the check left in `shape` for an id places it.
   */
  function ParsedObject(fields: seq<FieldSchema>, m: Bag, k: nat): Bag
    decreases fields, 0, |fields| - k
  {
    if k >= |fields| then map[]
    else
      var rest := ParsedObject(fields, m, k + 1);
      if LastOccurrence(fields, k) && fields[k].id in m
      then rest[fields[k].id := ParsedValue(fields[k], m[fields[k].id])]
      else rest
  }

  /** A repeatable group's array has each object entry parsed by the nested check; any other value comes back as it is. */
  function ParsedValue(f: FieldSchema, v: JsValue): JsValue
    decreases f, 0, 0
  {
    if HasNested(f) && v.Arr? then Arr(ParsedItems(f.fields, v.items, 0)) else v
  }

  function ParsedItems(nested: seq<FieldSchema>, items: seq<JsValue>, k: nat): seq<JsValue>
    decreases nested, 1, |items| - k
  {
    if k >= |items| then []
    else
      var here := match items[k] case Obj(m) => Obj(ParsedObject(nested, m, 0)) case other => other;
      [here] + ParsedItems(nested, items, k + 1)
  }

  /** The parsed data of `safeParse(data)`, meaningful when the parse succeeds. */
  function ParsedData(fields: seq<FieldSchema>, data: JsValue): JsValue {
    match data
    case Obj(m) => Obj(ParsedObject(fields, m, 0))
    case other => other
  }
}
