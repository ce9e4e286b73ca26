/**
 * What the compiled validator of src/lib/schema-loader.ts promises, proved of the
 * model in module Validator: where each code can appear, which value triggers it,
 * how repeatable groups and conditional rules behave, and the two test cases of
 * __tests__/schema-loader.test.ts.
 */
module ValidatorProperties {
  import opened Wrappers
  import opened Js
  import opened Schema
  import opened Validator

  // ---------------------------------------------------------------------------
  // Paths

  lemma KeyedUnion(xs: set<Issue>, ys: set<Issue>, id: string)
    ensures KeyedBy(xs + ys, id) == KeyedBy(xs, id) + KeyedBy(ys, id)
  {
  }

  lemma KeyedUnder(a: string, b: string, xs: set<Issue>)
    ensures KeyedBy(Under([Key(a)], xs), b) == if a == b then Under([Key(a)], xs) else {}
  {
    if a != b {
      forall x | x in Under([Key(a)], xs) ensures x.path[0] == Key(a) {
        var y :| y in xs && x == Issue([Key(a)] + y.path, y.code);
      }
    }
  }

  lemma UnderEmpty(p: Path, xs: set<Issue>)
    ensures Under(p, xs) == {} <==> xs == {}
  {
    if xs != {} {
      var x :| x in xs;
      assert Issue(p + x.path, x.code) in Under(p, xs);
    }
  }

  /** An issue sits exactly at `[id]` after the move iff it sat at the root before. */
  lemma AtKeyUnder(id: string, xs: set<Issue>, c: Code)
    ensures Issue([Key(id)], c) in Under([Key(id)], xs) <==> Issue([], c) in xs
  {
    if Issue([Key(id)], c) in Under([Key(id)], xs) {
      var y :| y in xs && Issue([Key(id)], c) == Issue([Key(id)] + y.path, y.code);
      assert |y.path| == 0;
      assert y == Issue([], c);
    } else {
      assert Issue([Key(id)] + [], c) == Issue([Key(id)], c);
    }
  }

  lemma UnderUnder(p: Path, q: Path, xs: set<Issue>)
    ensures Under(p, Under(q, xs)) == Under(p + q, xs)
  {
    forall x | x in Under(p + q, xs) ensures x in Under(p, Under(q, xs)) {
      var y :| y in xs && x == Issue((p + q) + y.path, y.code);
      assert Issue(q + y.path, y.code) in Under(q, xs);
      assert (p + q) + y.path == p + (q + y.path);
    }
    forall x | x in Under(p, Under(q, xs)) ensures x in Under(p + q, xs) {
      var z :| z in Under(q, xs) && x == Issue(p + z.path, z.code);
      var y :| y in xs && z == Issue(q + y.path, y.code);
      assert (p + q) + y.path == p + (q + y.path);
    }
  }

  // ---------------------------------------------------------------------------
  // Where the issues of one field come from

  /** Some rule for `id` has all its conditions met in zod's parsed object. */
  predicate ConditionsHoldFor(fields: seq<FieldSchema>, bag: Bag, id: string) {
    exists r | r in CollectRules(fields) ::
      r.fieldId == id && forall c | c in r.conditions :: ParsedGet(fields, bag, c.fieldId) == Str(c.equals)
  }

  /** The `required` issue the cross-field pass adds at `[id]`, if any. */
  function RuleIssues(fields: seq<FieldSchema>, bag: Bag, id: string): set<Issue> {
    if ConditionsHoldFor(fields, bag, id) && !Truthy(ParsedGet(fields, bag, id))
    then {Issue([Key(id)], Required)} else {}
  }

  lemma {:induction false} StructuralAt(fields: seq<FieldSchema>, bag: Bag, isDate: string -> bool, k: nat, i: nat)
    requires i < |fields| && LastOccurrence(fields, i) && k <= |fields|
    ensures KeyedBy(StructuralPass(fields, bag, k, isDate), fields[i].id) ==
            if k <= i then Under([Key(fields[i].id)], CheckField(fields[i], Get(bag, fields[i].id), isDate)) else {}
    decreases |fields| - k
  {
    var id := fields[i].id;
    if k < |fields| {
      StructuralAt(fields, bag, isDate, k + 1, i);
      var own := Under([Key(fields[k].id)], CheckField(fields[k], Get(bag, fields[k].id), isDate));
      var head := if LastOccurrence(fields, k) then own else {};
      assert StructuralPass(fields, bag, k, isDate) == head + StructuralPass(fields, bag, k + 1, isDate);
      KeyedUnion(head, StructuralPass(fields, bag, k + 1, isDate), id);
      KeyedUnder(fields[k].id, id, CheckField(fields[k], Get(bag, fields[k].id), isDate));
      if k < i && fields[k].id == id {
        assert !LastOccurrence(fields, k);
      }
      if k > i {
        assert fields[k].id != id;
      }
    }
  }

  /** No structural issue is keyed by an id that no field has. */
  lemma {:induction false} StructuralAtUnknown(fields: seq<FieldSchema>, bag: Bag, isDate: string -> bool, k: nat, id: string)
    requires id !in Ids(fields)
    ensures KeyedBy(StructuralPass(fields, bag, k, isDate), id) == {}
    decreases |fields| - k
  {
    if k < |fields| {
      StructuralAtUnknown(fields, bag, isDate, k + 1, id);
      var own := Under([Key(fields[k].id)], CheckField(fields[k], Get(bag, fields[k].id), isDate));
      var head := if LastOccurrence(fields, k) then own else {};
      assert fields[k] in fields;
      KeyedUnion(head, StructuralPass(fields, bag, k + 1, isDate), id);
      KeyedUnder(fields[k].id, id, CheckField(fields[k], Get(bag, fields[k].id), isDate));
    }
  }

  lemma RulePassAt(fields: seq<FieldSchema>, bag: Bag, id: string)
    ensures KeyedBy(RulePass(CollectRules(fields), fields, bag), id) == RuleIssues(fields, bag, id)
  {
    var rp := RulePass(CollectRules(fields), fields, bag);
    if ConditionsHoldFor(fields, bag, id) && !Truthy(ParsedGet(fields, bag, id)) {
      var r :| r in CollectRules(fields) && r.fieldId == id &&
        forall c | c in r.conditions :: ParsedGet(fields, bag, c.fieldId) == Str(c.equals);
      assert Fires(r, fields, bag);
      assert Issue([Key(id)], Required) in rp;
    }
    forall x | x in KeyedBy(rp, id) ensures x in RuleIssues(fields, bag, id) {
      var r :| r in CollectRules(fields) && Fires(r, fields, bag) && x == Issue([Key(r.fieldId)], Required);
    }
  }

  /**
   * The issues reported under a field's key are that field's own check, when it
   * is the last field with its id (an earlier duplicate's check is overwritten in
   * `shape`), plus a `required` from the cross-field pass when some rule for the
   * id has its conditions met and the value is falsy.
   */
  lemma IssuesAtField(fields: seq<FieldSchema>, bag: Bag, isDate: string -> bool, i: nat)
    requires i < |fields| && LastOccurrence(fields, i)
    ensures KeyedBy(ValidateObject(fields, bag, isDate), fields[i].id) ==
            Under([Key(fields[i].id)], CheckField(fields[i], Get(bag, fields[i].id), isDate)) +
            RuleIssues(fields, bag, fields[i].id)
  {
    StructuralAt(fields, bag, isDate, 0, i);
    RulePassAt(fields, bag, fields[i].id);
    KeyedUnion(StructuralPass(fields, bag, 0, isDate), RulePass(CollectRules(fields), fields, bag), fields[i].id);
  }

  /** A key that no field declares only ever gets the cross-field `required`. */
  lemma IssuesAtUnknownKey(fields: seq<FieldSchema>, bag: Bag, isDate: string -> bool, id: string)
    requires id !in Ids(fields)
    ensures KeyedBy(ValidateObject(fields, bag, isDate), id) ==
            if ConditionsHoldFor(fields, bag, id) then {Issue([Key(id)], Required)} else {}
  {
    StructuralAtUnknown(fields, bag, isDate, 0, id);
    RulePassAt(fields, bag, id);
    KeyedUnion(StructuralPass(fields, bag, 0, isDate), RulePass(CollectRules(fields), fields, bag), id);
  }

  // ---------------------------------------------------------------------------
  // Per-type consequences for a field `fields[i]` that is the last with its id

  lemma StringCheckAt(f: FieldSchema, s: string, isDate: string -> bool, c: Code)
    requires StringShaped(f)
    ensures Issue([], c) in CheckField(f, Str(s), isDate) <==> c in StringCodes(f, s, isDate)
  {
  }

  /** On a string value, the codes other than `required` are exactly the field's refinements. */
  lemma StringFieldCode(fields: seq<FieldSchema>, bag: Bag, isDate: string -> bool, i: nat, s: string, c: Code)
    requires i < |fields| && LastOccurrence(fields, i) && StringShaped(fields[i])
    requires Get(bag, fields[i].id) == Str(s) && c != Required
    ensures Issue([Key(fields[i].id)], c) in ValidateObject(fields, bag, isDate) <==> c in StringCodes(fields[i], s, isDate)
  {
    var f := fields[i];
    var x := Issue([Key(f.id)], c);
    IssuesAtField(fields, bag, isDate, i);
    assert x in ValidateObject(fields, bag, isDate) <==> x in KeyedBy(ValidateObject(fields, bag, isDate), f.id);
    AtKeyUnder(f.id, CheckField(f, Str(s), isDate), c);
    StringCheckAt(f, s, isDate, c);
  }

  /**
   * `noAccents` (lines 100-105): a non-empty string with a character above
   * U+007F fails with `no_accents`; the empty string is never checked.
   */
  lemma NoAccentsRule(fields: seq<FieldSchema>, bag: Bag, isDate: string -> bool, i: nat, s: string)
    requires i < |fields| && LastOccurrence(fields, i) && StringShaped(fields[i])
    requires Get(bag, fields[i].id) == Str(s)
    ensures Issue([Key(fields[i].id)], NoAccents) in ValidateObject(fields, bag, isDate) <==>
            fields[i].validations.noAccents && s != "" && HasNonAscii(s)
  {
    StringFieldCode(fields, bag, isDate, i, s, NoAccents);
  }

  /**
   * Options (lines 90-98): with a non-empty option list exactly the option values
   * pass, so "" fails too; without options any string passes.
   */
  lemma OptionRule(fields: seq<FieldSchema>, bag: Bag, isDate: string -> bool, i: nat, s: string)
    requires i < |fields| && LastOccurrence(fields, i) && StringShaped(fields[i])
    requires Get(bag, fields[i].id) == Str(s)
    ensures Issue([Key(fields[i].id)], InvalidOption) in ValidateObject(fields, bag, isDate) <==>
            (fields[i].kind == Select || fields[i].kind == Radio) &&
            |fields[i].options| > 0 && forall o | o in fields[i].options :: o.value != s
  {
    StringFieldCode(fields, bag, isDate, i, s, InvalidOption);
    OptionValueIn(fields[i], s);
  }

  /** `options.map(o => o.value)` holds `s` exactly when some option has the value `s`. */
  lemma OptionValueIn(f: FieldSchema, s: string)
    ensures s in OptionValues(f) <==> exists o | o in f.options :: o.value == s
  {
    if s in OptionValues(f) {
      var k :| 0 <= k < |OptionValues(f)| && OptionValues(f)[k] == s;
      assert f.options[k] in f.options;
    }
    if exists o | o in f.options :: o.value == s {
      var o :| o in f.options && o.value == s;
      var k :| 0 <= k < |f.options| && f.options[k] == o;
      assert OptionValues(f)[k] == s;
    }
  }

  /** Dates (lines 82-88): the empty string passes; any other string must parse. */
  lemma DateRule(fields: seq<FieldSchema>, bag: Bag, isDate: string -> bool, i: nat, s: string)
    requires i < |fields| && LastOccurrence(fields, i) && StringShaped(fields[i])
    requires Get(bag, fields[i].id) == Str(s)
    ensures Issue([Key(fields[i].id)], InvalidDate) in ValidateObject(fields, bag, isDate) <==>
            fields[i].kind == Date && s != "" && !isDate(s)
  {
    StringFieldCode(fields, bag, isDate, i, s, InvalidDate);
  }

  /**
   * `required` on a string (lines 107-112), which applies whether or not the field
   * has conditions: a whitespace-only value fails. The cross-field pass adds the
   * same code only for "", and only when a rule's conditions hold.
   */
  lemma RequiredStringRule(fields: seq<FieldSchema>, bag: Bag, isDate: string -> bool, i: nat, s: string)
    requires i < |fields| && LastOccurrence(fields, i) && StringShaped(fields[i])
    requires Get(bag, fields[i].id) == Str(s)
    ensures Issue([Key(fields[i].id)], Required) in ValidateObject(fields, bag, isDate) <==>
            (fields[i].required && AllWhitespace(s)) || (s == "" && ConditionsHoldFor(fields, bag, fields[i].id))
  {
    var f := fields[i];
    var x := Issue([Key(f.id)], Required);
    var vo := ValidateObject(fields, bag, isDate);
    IssuesAtField(fields, bag, isDate, i);
    assert x in vo <==> x in KeyedBy(vo, f.id);
    OwnRequired(f, s, isDate);
    assert f in fields;
    RuleRequired(fields, bag, f.id, s);
  }

  /** The field's own check reports `required` on a string exactly when the field is required and the string blank. */
  lemma OwnRequired(f: FieldSchema, s: string, isDate: string -> bool)
    requires StringShaped(f)
    ensures Issue([Key(f.id)], Required) in Under([Key(f.id)], CheckField(f, Str(s), isDate)) <==>
            f.required && AllWhitespace(s)
  {
    AtKeyUnder(f.id, CheckField(f, Str(s), isDate), Required);
    StringCheckAt(f, s, isDate, Required);
    TrimEmptyIffBlank(s);
  }

  /** The cross-field pass reports `required` on a present string exactly when it is "" and a rule's conditions hold. */
  lemma RuleRequired(fields: seq<FieldSchema>, bag: Bag, id: string, s: string)
    requires id in Ids(fields) && Get(bag, id) == Str(s)
    ensures Issue([Key(id)], Required) in RuleIssues(fields, bag, id) <==> s == "" && ConditionsHoldFor(fields, bag, id)
  {
    assert ParsedGet(fields, bag, id) == Str(s);
  }

  /**
   * An absent value on a string-shaped field or a repeatable group: zod's own
   * failure exactly when the field is required, plus the cross-field `required`
   * when a rule's conditions hold, and nothing else.
   */
  lemma AbsentValue(fields: seq<FieldSchema>, bag: Bag, isDate: string -> bool, i: nat)
    requires i < |fields| && LastOccurrence(fields, i) && fields[i].kind != File
    requires Get(bag, fields[i].id) == Undefined
    ensures KeyedBy(ValidateObject(fields, bag, isDate), fields[i].id) ==
            (if fields[i].required then {Issue([Key(fields[i].id)], ZodType)} else {}) +
            (if ConditionsHoldFor(fields, bag, fields[i].id) then {Issue([Key(fields[i].id)], Required)} else {})
  {
    var f := fields[i];
    assert f in fields;
    assert ParsedGet(fields, bag, f.id) == Undefined;
    IssuesAtField(fields, bag, isDate, i);
    if f.required {
      assert CheckField(f, Undefined, isDate) == {Issue([], ZodType)};
      assert [Key(f.id)] + [] == [Key(f.id)];
      assert Under([Key(f.id)], {Issue([], ZodType)}) == {Issue([Key(f.id)], ZodType)};
    } else {
      assert CheckField(f, Undefined, isDate) == {};
    }
  }

  /**
   * File fields (lines 69-80): the only code ever reported under a file field's key
   * is `required`, and it is reported exactly for a falsy value of a required
   * field or of one whose rule's conditions hold.
   */
  lemma FileRule(fields: seq<FieldSchema>, bag: Bag, isDate: string -> bool, i: nat)
    requires i < |fields| && LastOccurrence(fields, i) && fields[i].kind == File
    ensures KeyedBy(ValidateObject(fields, bag, isDate), fields[i].id) ==
            if !Truthy(Get(bag, fields[i].id)) && (fields[i].required || ConditionsHoldFor(fields, bag, fields[i].id))
            then {Issue([Key(fields[i].id)], Required)} else {}
  {
    var f := fields[i];
    assert f in fields;
    assert ParsedGet(fields, bag, f.id) == Get(bag, f.id);
    IssuesAtField(fields, bag, isDate, i);
    if f.required && !Truthy(Get(bag, f.id)) {
      assert [Key(f.id)] + [] == [Key(f.id)];
      assert Under([Key(f.id)], {Issue([], Required)}) == {Issue([Key(f.id)], Required)};
    }
  }

  predicate EntryPasses(nested: seq<FieldSchema>, e: JsValue, isDate: string -> bool) {
    e.Obj? && ValidateObject(nested, e.props, isDate) == {}
  }

  lemma {:induction false} EntriesPass(nested: seq<FieldSchema>, items: seq<JsValue>, k: nat, isDate: string -> bool)
    ensures CheckEntries(nested, items, k, isDate) == {} <==>
            forall j | k <= j < |items| :: EntryPasses(nested, items[j], isDate)
    decreases |items| - k
  {
    if k < |items| {
      EntriesPass(nested, items, k + 1, isDate);
      var here := match items[k]
        case Obj(m) => ValidateObject(nested, m, isDate)
        case _ => {Issue([], ZodType)};
      UnderEmpty([Index(k)], here);
      assert CheckEntries(nested, items, k, isDate) == Under([Index(k)], here) + CheckEntries(nested, items, k + 1, isDate);
    }
  }

  lemma {:induction false} EntryIssuesLifted(nested: seq<FieldSchema>, items: seq<JsValue>, k: nat, j: nat, isDate: string -> bool)
    requires k <= j < |items| && items[j].Obj?
    ensures Under([Index(j)], ValidateObject(nested, items[j].props, isDate)) <= CheckEntries(nested, items, k, isDate)
    decreases j - k
  {
    if k < j {
      EntryIssuesLifted(nested, items, k + 1, j, isDate);
    }
    var here := match items[k]
      case Obj(m) => ValidateObject(nested, m, isDate)
      case _ => {Issue([], ZodType)};
    assert CheckEntries(nested, items, k, isDate) == Under([Index(k)], here) + CheckEntries(nested, items, k + 1, isDate);
  }

  /**
   * Repeatable groups (lines 53-65): the value passes exactly when it is an array
   * that is non-empty if the group is required and whose every entry is an
   * object passing the nested check. The cross-field pass never fires on an
   * array, not even on [].
   */
  lemma RepeatableRule(fields: seq<FieldSchema>, bag: Bag, isDate: string -> bool, i: nat, items: seq<JsValue>)
    requires i < |fields| && LastOccurrence(fields, i) && HasNested(fields[i])
    requires Get(bag, fields[i].id) == Arr(items)
    ensures KeyedBy(ValidateObject(fields, bag, isDate), fields[i].id) == {} <==>
            (!fields[i].required || |items| > 0) &&
            forall j | 0 <= j < |items| :: EntryPasses(fields[i].fields, items[j], isDate)
  {
    var f := fields[i];
    assert f in fields;
    IssuesAtField(fields, bag, isDate, i);
    EntriesPass(f.fields, items, 0, isDate);
    UnderEmpty([Key(f.id)], CheckField(f, Arr(items), isDate));
  }

  /** Each entry's own issues are reported under `[id, index]`. */
  lemma RepeatableEntryIssues(fields: seq<FieldSchema>, bag: Bag, isDate: string -> bool, i: nat, items: seq<JsValue>, j: nat)
    requires i < |fields| && LastOccurrence(fields, i) && HasNested(fields[i])
    requires Get(bag, fields[i].id) == Arr(items) && j < |items| && items[j].Obj?
    ensures Under([Key(fields[i].id), Index(j)], ValidateObject(fields[i].fields, items[j].props, isDate))
            <= ValidateObject(fields, bag, isDate)
  {
    var f := fields[i];
    var nestedIssues := ValidateObject(f.fields, items[j].props, isDate);
    IssuesAtField(fields, bag, isDate, i);
    EntryIssuesLifted(f.fields, items, 0, j, isDate);
    UnderUnder([Key(f.id)], [Index(j)], nestedIssues);
    assert [Key(f.id)] + [Index(j)] == [Key(f.id), Index(j)];
    forall x | x in Under([Key(f.id)], Under([Index(j)], nestedIssues))
      ensures x in Under([Key(f.id)], CheckField(f, Arr(items), isDate))
    {
      var y :| y in Under([Index(j)], nestedIssues) && x == Issue([Key(f.id)] + y.path, y.code);
      assert y in CheckField(f, Arr(items), isDate);
    }
  }

  /** A repeatable group without a nested list (lines 53, 67-120) is checked as a text field. */
  lemma RepeatableWithoutFieldsIsText(f: FieldSchema, v: JsValue, isDate: string -> bool)
    requires f.kind == Repeatable && !f.hasFields
    ensures CheckField(f, v, isDate) == CheckField(f.(kind := Text), v, isDate)
  {
    match v
    case Str(s) => assert StringCodes(f, s, isDate) == StringCodes(f.(kind := Text), s, isDate);
    case _ =>
  }

  // ---------------------------------------------------------------------------
  // The cross-field pass

  /**
   * A rule adds `required` at its field's key exactly when every condition's
   * value (in zod's parsed object) is the expected string and the target is falsy.
   */
  lemma CrossFieldRule(fields: seq<FieldSchema>, bag: Bag, isDate: string -> bool, id: string)
    ensures Issue([Key(id)], Required) in RulePass(CollectRules(fields), fields, bag) <==>
            ConditionsHoldFor(fields, bag, id) && !Truthy(ParsedGet(fields, bag, id))
  {
    RulePassAt(fields, bag, id);
  }

  /** `[]` is truthy: no rule ever fires for a declared key that holds an array. */
  lemma EmptyArrayNeverFires(fields: seq<FieldSchema>, bag: Bag, id: string, items: seq<JsValue>)
    requires id in Ids(fields) && Get(bag, id) == Arr(items)
    ensures Issue([Key(id)], Required) !in RulePass(CollectRules(fields), fields, bag)
  {
    var x := Issue([Key(id)], Required);
    var rp := RulePass(CollectRules(fields), fields, bag);
    RulePassAt(fields, bag, id);
    assert x in rp <==> x in KeyedBy(rp, id);
  }

  // ---------------------------------------------------------------------------
  // Where the rules come from

  /** The fields of a list at every depth, a group's nested fields before the group. */
  function Flatten(fields: seq<FieldSchema>): seq<FieldSchema> {
    if fields == [] then [] else FlattenOne(fields[0]) + Flatten(fields[1..])
  }

  function FlattenOne(f: FieldSchema): seq<FieldSchema> {
    (if HasNested(f) then Flatten(f.fields) else []) + [f]
  }

  function OwnRules(fields: seq<FieldSchema>): seq<Rule> {
    if fields == [] then [] else OwnRule(fields[0]) + OwnRules(fields[1..])
  }

  lemma {:induction false} OwnRulesAppend(a: seq<FieldSchema>, b: seq<FieldSchema>)
    ensures OwnRules(a + b) == OwnRules(a) + OwnRules(b)
  {
    if a == [] {
      assert a + b == b;
    } else {
      assert (a + b)[1..] == a[1..] + b;
      OwnRulesAppend(a[1..], b);
    }
  }

  /**
   * `conditionalRequired` of an object check holds the own rule of every field at
   * every depth, in the order the recursion pushes them (lines 58-63, 127-131).
   */
  lemma {:induction false} CollectRulesFlatten(fields: seq<FieldSchema>)
    ensures CollectRules(fields) == OwnRules(Flatten(fields))
    decreases fields, 0
  {
    if fields != [] {
      FieldRulesFlatten(fields[0]);
      CollectRulesFlatten(fields[1..]);
      OwnRulesAppend(FlattenOne(fields[0]), Flatten(fields[1..]));
    }
  }

  lemma {:induction false} FieldRulesFlatten(f: FieldSchema)
    ensures FieldRules(f) == OwnRules(FlattenOne(f))
    decreases f, 1
  {
    var inner := if HasNested(f) then Flatten(f.fields) else [];
    if HasNested(f) {
      CollectRulesFlatten(f.fields);
    }
    OwnRulesAppend(inner, [f]);
    assert OwnRules([f]) == OwnRule(f) + OwnRules([]);
  }

  lemma {:induction false} OwnRulesMembers(fields: seq<FieldSchema>, r: Rule)
    ensures r in OwnRules(fields) <==>
            exists g | g in fields :: g.required && g.conditions == Some(r.conditions) && g.id == r.fieldId
  {
    if fields != [] {
      OwnRulesMembers(fields[1..], r);
      if exists g | g in fields :: g.required && g.conditions == Some(r.conditions) && g.id == r.fieldId {
        var g :| g in fields && g.required && g.conditions == Some(r.conditions) && g.id == r.fieldId;
        if g != fields[0] {
          assert g in fields[1..];
        }
      }
    }
  }

  /**
   * A rule exists exactly for each required field, at any depth, that has a
   * condition list; a nested field's rule is also checked against the top level.
   */
  lemma RuleOrigin(fields: seq<FieldSchema>, r: Rule)
    ensures r in CollectRules(fields) <==>
            exists g | g in Flatten(fields) :: g.required && g.conditions == Some(r.conditions) && g.id == r.fieldId
  {
    CollectRulesFlatten(fields);
    OwnRulesMembers(Flatten(fields), r);
  }

  // ---------------------------------------------------------------------------
  // Duplicate ids (line 129): the later field's check replaces the earlier one,
  // while the rules of both are kept

  lemma DuplicateIdLaterWins(f: FieldSchema, g: FieldSchema, bag: Bag, isDate: string -> bool)
    requires f.id == g.id
    ensures StructuralPass([f, g], bag, 0, isDate) == StructuralPass([g], bag, 0, isDate)
    ensures CollectRules([f, g]) == FieldRules(f) + FieldRules(g)
  {
    assert [f, g][1].id == [f, g][0].id;
    assert !LastOccurrence([f, g], 0);
    assert [f, g][1..] == [g];
    assert StructuralPass([f, g], bag, 1, isDate) == StructuralPass([g], bag, 0, isDate) by {
      assert LastOccurrence([f, g], 1) && LastOccurrence([g], 0);
    }
    assert CollectRules([g]) == FieldRules(g) + CollectRules([]);
  }

  // ---------------------------------------------------------------------------
  // The cases of __tests__/schema-loader.test.ts

  /** With every field's own check clean, only the cross-field pass can fail the object. */
  lemma {:induction false} StructuralClean(fields: seq<FieldSchema>, bag: Bag, isDate: string -> bool, k: nat)
    requires forall i | k <= i < |fields| :: CheckField(fields[i], Get(bag, fields[i].id), isDate) == {}
    ensures StructuralPass(fields, bag, k, isDate) == {}
    decreases |fields| - k
  {
    if k < |fields| {
      StructuralClean(fields, bag, isDate, k + 1);
      UnderEmpty([Key(fields[k].id)], CheckField(fields[k], Get(bag, fields[k].id), isDate));
    }
  }

  lemma StringCheckClean(f: FieldSchema, s: string, isDate: string -> bool)
    requires StringShaped(f) && StringCodes(f, s, isDate) == {}
    ensures CheckField(f, Str(s), isDate) == {}
  {
  }

  const NoValidation := FieldValidation(false, None, None)

  /** The test's `name`: a required text field with `noAccents`. */
  const NameField := FieldSchema("name", Text, Plain("Nome"), true, None, [],
                                 FieldValidation(true, None, None), None, false, [])

  const AccentForm := FormSchema(Plain("Teste"), [StepSchema("step", Plain("Step"), [NameField])])

  /** The test's `has_plan` radio, with the single option "yes". */
  const HasPlan := FieldSchema("has_plan", Radio, Plain("Plano"), true, None,
                               [FieldOption("yes", Plain("Sim"))], NoValidation, None, false, [])

  /** The test's `arrival`: a date required when `has_plan` is "yes". */
  const Arrival := FieldSchema("arrival", Date, Plain("Chegada"), true, None, [], NoValidation,
                               Some([FieldCondition("has_plan", "yes")]), false, [])

  const ConditionalForm := FormSchema(Plain("Teste"), [StepSchema("step", Plain("Step"), [HasPlan, Arrival])])

  lemma AllFieldsOneStep(form: FormSchema)
    requires |form.steps| == 1
    ensures AllFields(form.steps) == form.steps[0].fields
  {
    assert AllFields(form.steps) == form.steps[0].fields + AllFields([]);
  }

  lemma JoseIsPlain()
    ensures !HasNonAscii("Jose") && !AllWhitespace("Jose")
  {
    assert !IsJsWhitespace("Jose"[0]);
  }

  lemma PlainTextCodes(f: FieldSchema, s: string, isDate: string -> bool)
    requires f.kind == Text && !HasNonAscii(s) && !AllWhitespace(s)
    ensures StringCodes(f, s, isDate) == {}
  {
    TrimEmptyIffBlank(s);
  }

  /** A text field accepts any ASCII string that is not blank. */
  lemma PlainTextClean(f: FieldSchema, s: string, isDate: string -> bool)
    requires f.kind == Text && !HasNonAscii(s) && !AllWhitespace(s)
    ensures CheckField(f, Str(s), isDate) == {}
  {
    PlainTextCodes(f, s, isDate);
    StringCheckClean(f, s, isDate);
  }

  lemma PlainNameClean(isDate: string -> bool)
    ensures CheckField(NameField, Str("Jose"), isDate) == {}
  {
    JoseIsPlain();
    PlainTextClean(NameField, "Jose", isDate);
  }

  /** "Jose" passes (test line 25). */
  lemma PlainNamePasses(isDate: string -> bool)
    ensures ValidateForm(AccentForm, Obj(map["name" := Str("Jose")]), isDate) == {}
  {
    AllFieldsOneStep(AccentForm);
    PlainNameClean(isDate);
    StructuralClean([NameField], map["name" := Str("Jose")], isDate, 0);
    assert CollectRules([NameField]) == [] by {
      assert CollectRules([NameField]) == FieldRules(NameField) + CollectRules([]);
    }
  }

  /** The test's "Jos\u00c3\u00a9" fails with `no_accents` at `name` (test line 26). */
  lemma AccentedNameFails(isDate: string -> bool)
    ensures Issue([Key("name")], NoAccents) in
            ValidateForm(AccentForm, Obj(map["name" := Str("Jos\U{00C3}\U{00A9}")]), isDate)
  {
    var bad := "Jos\U{00C3}\U{00A9}";
    AllFieldsOneStep(AccentForm);
    assert LastOccurrence([NameField], 0);
    assert bad[3] as int > 0x7F;
    NoAccentsRule([NameField], map["name" := Str(bad)], isDate, 0, bad);
  }

  lemma ConditionalRules()
    ensures CollectRules([HasPlan, Arrival]) == [Rule("arrival", [FieldCondition("has_plan", "yes")])]
  {
    assert CollectRules([HasPlan, Arrival][1..]) == FieldRules(Arrival) + CollectRules([]);
  }

  lemma ConditionalIds()
    ensures Ids([HasPlan, Arrival]) == {"has_plan", "arrival"}
  {
    assert [HasPlan, Arrival][0] in [HasPlan, Arrival] && [HasPlan, Arrival][1] in [HasPlan, Arrival];
  }

  lemma FilledPlanClean(isDate: string -> bool)
    ensures CheckField(HasPlan, Str("yes"), isDate) == {}
  {
    assert !IsJsWhitespace("yes"[0]);
    TrimEmptyIffBlank("yes");
    assert OptionValues(HasPlan) == ["yes"];
    assert StringCodes(HasPlan, "yes", isDate) == {};
    StringCheckClean(HasPlan, "yes", isDate);
  }

  lemma FilledArrivalClean(isDate: string -> bool)
    requires isDate("2026-02-04")
    ensures CheckField(Arrival, Str("2026-02-04"), isDate) == {}
  {
    assert !IsJsWhitespace("2026-02-04"[0]);
    TrimEmptyIffBlank("2026-02-04");
    assert StringCodes(Arrival, "2026-02-04", isDate) == {};
    StringCheckClean(Arrival, "2026-02-04", isDate);
  }

  /**
   * `{has_plan: "yes"}` fails (test line 57): `arrival` is a required string,
   * so the missing key is zod's own `invalid_type` at `arrival`.
   */
  lemma MissingArrivalFails(isDate: string -> bool)
    ensures Issue([Key("arrival")], ZodType) in ValidateForm(ConditionalForm, Obj(map["has_plan" := Str("yes")]), isDate)
  {
    var fields := [HasPlan, Arrival];
    var missing := map["has_plan" := Str("yes")];
    AllFieldsOneStep(ConditionalForm);
    assert LastOccurrence(fields, 1);
    assert Get(missing, fields[1].id) == Undefined;
    AbsentValue(fields, missing, isDate, 1);
    assert Issue([Key("arrival")], ZodType) in KeyedBy(ValidateObject(fields, missing, isDate), "arrival");
  }

  /** The bag of the passing case. */
  const FilledBag: Bag := map["has_plan" := Str("yes"), "arrival" := Str("2026-02-04")]

  /** Two fields whose own checks are clean leave nothing for the structural pass. */
  lemma PairClean(f: FieldSchema, g: FieldSchema, bag: Bag, isDate: string -> bool)
    requires CheckField(f, Get(bag, f.id), isDate) == {} && CheckField(g, Get(bag, g.id), isDate) == {}
    ensures StructuralPass([f, g], bag, 0, isDate) == {}
  {
    StructuralClean([f, g], bag, isDate, 0);
  }

  lemma FilledStructuralClean(isDate: string -> bool)
    requires isDate("2026-02-04")
    ensures StructuralPass([HasPlan, Arrival], FilledBag, 0, isDate) == {}
  {
    FilledPlanClean(isDate);
    FilledArrivalClean(isDate);
    assert Get(FilledBag, HasPlan.id) == Str("yes");
    assert Get(FilledBag, Arrival.id) == Str("2026-02-04");
    PairClean(HasPlan, Arrival, FilledBag, isDate);
  }

  lemma FilledRuleQuiet()
    ensures RulePass(CollectRules([HasPlan, Arrival]), [HasPlan, Arrival], FilledBag) == {}
  {
    var fields := [HasPlan, Arrival];
    var rule := Rule("arrival", [FieldCondition("has_plan", "yes")]);
    ConditionalRules();
    ConditionalIds();
    assert ParsedGet(fields, FilledBag, rule.fieldId) == Str("2026-02-04");
    assert !Fires(rule, fields, FilledBag);
  }

  /** With arrival "2026-02-04", a date `Date.parse` accepts, the form passes (test lines 58-60). */
  lemma FilledArrivalPasses(isDate: string -> bool)
    requires isDate("2026-02-04")
    ensures ValidateForm(ConditionalForm, Obj(map["has_plan" := Str("yes"), "arrival" := Str("2026-02-04")]), isDate) == {}
  {
    AllFieldsOneStep(ConditionalForm);
    FilledStructuralClean(isDate);
    FilledRuleQuiet();
    assert ValidateForm(ConditionalForm, Obj(FilledBag), isDate) ==
           StructuralPass([HasPlan, Arrival], FilledBag, 0, isDate) + RulePass(CollectRules([HasPlan, Arrival]), [HasPlan, Arrival], FilledBag);
  }

  /**
   * A required field keeps its plain `required` refinement even when it has
   * conditions (lines 107-112 run for every required field), so a conditional
   * field cannot be left out when its condition is false: with `has_plan`
   * offering "no" as well, `{has_plan: "no"}` still fails at `arrival`.
   */
  lemma ConditionalFieldAlwaysRequired(isDate: string -> bool)
    ensures Issue([Key("arrival")], ZodType) in
            ValidateObject([HasPlan.(options := HasPlan.options + [FieldOption("no", Plain("N\U{00E3}o"))]), Arrival],
                           map["has_plan" := Str("no")], isDate)
  {
    var fields := [HasPlan.(options := HasPlan.options + [FieldOption("no", Plain("N\U{00E3}o"))]), Arrival];
    var bag := map["has_plan" := Str("no")];
    AbsentValue(fields, bag, isDate, 1);
    assert Issue([Key("arrival")], ZodType) in KeyedBy(ValidateObject(fields, bag, isDate), "arrival");
  }

  // ---------------------------------------------------------------------------
  // The parsed copy: which keys it keeps and what it holds under them

  /** Every id has a last occurrence at or after any of its positions. */
  lemma {:induction false} LastOccurrenceExists(fields: seq<FieldSchema>, j: nat)
    requires j < |fields|
    ensures exists j' | j <= j' < |fields| :: fields[j'].id == fields[j].id && LastOccurrence(fields, j')
    decreases |fields| - j
  {
    if !LastOccurrence(fields, j) {
      var j2 :| j < j2 < |fields| && fields[j2].id == fields[j].id;
      LastOccurrenceExists(fields, j2);
    }
  }

  lemma {:induction false} ParsedKeysFrom(fields: seq<FieldSchema>, m: Bag, k: nat)
    ensures ParsedObject(fields, m, k).Keys ==
            set j | k <= j < |fields| && LastOccurrence(fields, j) && fields[j].id in m :: fields[j].id
    decreases |fields| - k
  {
    if k < |fields| {
      ParsedKeysFrom(fields, m, k + 1);
    }
  }

  /** The parsed copy keeps exactly the input's keys that the field list declares. */
  lemma ParsedKeys(fields: seq<FieldSchema>, m: Bag)
    ensures ParsedObject(fields, m, 0).Keys == m.Keys * Ids(fields)
  {
    ParsedKeysFrom(fields, m, 0);
    forall x | x in m.Keys * Ids(fields)
      ensures x in ParsedObject(fields, m, 0).Keys
    {
      var j :| 0 <= j < |fields| && fields[j].id == x;
      LastOccurrenceExists(fields, j);
    }
  }

  lemma {:induction false} ParsedAtFrom(fields: seq<FieldSchema>, m: Bag, i: nat, k: nat)
    requires i <= k < |fields| && LastOccurrence(fields, k) && fields[k].id in m
    ensures fields[k].id in ParsedObject(fields, m, i)
    ensures ParsedObject(fields, m, i)[fields[k].id] == ParsedValue(fields[k], m[fields[k].id])
    decreases k - i
  {
    if i < k {
      ParsedAtFrom(fields, m, i + 1, k);
      if fields[i].id == fields[k].id {
        assert !LastOccurrence(fields, i);
      }
    }
  }

  /**
   * Under a declared key the parsed copy holds the input's value, parsed by the
   * check left in `shape` for it: unchanged for every field but a repeatable
   * group, whose object entries are parsed by the nested list in turn.
   */
  lemma ParsedAt(fields: seq<FieldSchema>, m: Bag, k: nat)
    requires k < |fields| && LastOccurrence(fields, k) && fields[k].id in m
    ensures fields[k].id in ParsedObject(fields, m, 0)
    ensures !HasNested(fields[k]) ==> ParsedObject(fields, m, 0)[fields[k].id] == m[fields[k].id]
    ensures HasNested(fields[k]) && m[fields[k].id].Arr? ==>
      var items := m[fields[k].id].items;
      ParsedObject(fields, m, 0)[fields[k].id] == Arr(ParsedItems(fields[k].fields, items, 0))
  {
    ParsedAtFrom(fields, m, 0, k);
  }

  /** One parsed entry per entry; object entries come back parsed, any other entry as it is. */
  lemma {:induction false} ParsedItemsAt(nested: seq<FieldSchema>, items: seq<JsValue>, k: nat, i: nat)
    requires k <= i < |items|
    ensures |ParsedItems(nested, items, k)| == |items| - k
    ensures ParsedItems(nested, items, k)[i - k] ==
            match items[i] case Obj(m) => Obj(ParsedObject(nested, m, 0)) case other => other
    decreases |items| - k
  {
    if k < i {
      ParsedItemsAt(nested, items, k + 1, i);
    } else {
      ParsedItemsLength(nested, items, k + 1);
    }
  }

  lemma {:induction false} ParsedItemsLength(nested: seq<FieldSchema>, items: seq<JsValue>, k: nat)
    ensures |ParsedItems(nested, items, k)| == if k <= |items| then |items| - k else 0
    decreases |items| - k
  {
    if k < |items| {
      ParsedItemsLength(nested, items, k + 1);
    }
  }
}
