/**
 * The client glue of one wizard page (src/components/app/AppStepFormClient.tsx):
 * the form's default values, the error-code to message map, and what submitting
 * does — validate the page's fields, post the merged answers, navigate.
 * The request itself is the parameter `response`: `Some(ok)` when `fetch`
 * resolves with a response whose `ok` is `ok`, `None` when it rejects (a
 * network failure), and `window.location.pathname` is the parameter `pathname`.
 */
module AppStepForm {
  import opened Wrappers
  import opened Js
  import opened Schema
  import opened Validator
  import I18n
  import FieldRenderer
  import ValidatorProperties

  // ---------------------------------------------------------------------------
  // defaultValues (lines 46-54)

  /** The ids of repeatable fields whose initial value is not an array: these start as `[]`. */
  function ResetIds(initial: Bag, fields: seq<FieldSchema>): set<string> {
    set f | f in fields && f.kind == Repeatable && !Get(initial, f.id).Arr? :: f.id
  }

  /** The defaults: every initial value, with `[]` for each repeatable field that lacks an array. */
  function Defaults(initial: Bag, fields: seq<FieldSchema>): Bag {
    WithEmptyArrays(initial, ResetIds(initial, fields))
  }

  /** `initial` with `[]` under each of `ids`. */
  function WithEmptyArrays(initial: Bag, ids: set<string>): Bag {
    map k | k in initial.Keys + ids :: if k in ids then Arr([]) else initial[k]
  }

  lemma WithOneMore(initial: Bag, ids: set<string>, id: string)
    ensures WithEmptyArrays(initial, ids + {id}) == WithEmptyArrays(initial, ids)[id := Arr([])]
  {
  }

  /** The ids reset by one more field. */
  lemma ResetIdsStep(initial: Bag, fields: seq<FieldSchema>, i: nat)
    requires i < |fields|
    ensures ResetIds(initial, fields[..i + 1]) ==
      ResetIds(initial, fields[..i]) + (if fields[i].kind == Repeatable && !Get(initial, fields[i].id).Arr? then {fields[i].id} else {})
  {
    assert fields[..i + 1] == fields[..i] + [fields[i]];
  }

  /** The `forEach` over `allFields`, overwriting repeatable keys of the copy `out`. */
  method DefaultValues(initial: Bag, fields: seq<FieldSchema>) returns (out: Bag)
    ensures out == Defaults(initial, fields)
  {
    out := initial;
    ghost var ids: set<string> := {};
    assert WithEmptyArrays(initial, ids) == initial;
    var i := 0;
    while i < |fields|
      invariant 0 <= i <= |fields|
      invariant ids == ResetIds(initial, fields[..i])
      invariant out == WithEmptyArrays(initial, ids)
    {
      var f := fields[i];
      ResetIdsStep(initial, fields, i);
      if f.kind == Repeatable && !Get(out, f.id).Arr? {
        WithOneMore(initial, ids, f.id);
        out := out[f.id := Arr([])];
        ids := ids + {f.id};
      } else if f.kind == Repeatable && f.id !in ids {
        assert Get(initial, f.id).Arr?;
      }
      i := i + 1;
    }
    assert fields[..i] == fields;
  }

  /** Every repeatable field has an array default, and every other key keeps its initial value. */
  lemma DefaultsShape(initial: Bag, fields: seq<FieldSchema>, k: string)
    ensures (exists f | f in fields :: f.kind == Repeatable && f.id == k) ==> Get(Defaults(initial, fields), k).Arr?
    ensures (forall f | f in fields :: f.kind == Repeatable ==> f.id != k) ==> Get(Defaults(initial, fields), k) == Get(initial, k)
    ensures Get(initial, k).Arr? ==> Get(Defaults(initial, fields), k) == Get(initial, k)
  {
    if exists f | f in fields :: f.kind == Repeatable && f.id == k {
      var f :| f in fields && f.kind == Repeatable && f.id == k;
      if !Get(initial, k).Arr? {
        assert k in ResetIds(initial, fields);
      }
    }
  }

  // ---------------------------------------------------------------------------
  // mapErrorMessage (lines 73-80)

  /** The `message` the schema loader attaches to each of its own codes. */
  function CodeMessage(c: Code): Option<string>
    requires c != ZodType
  {
    match c
    case Required => Some("required")
    case NoAccents => Some("no_accents")
    case InvalidDate => Some("invalid_date")
    case InvalidOption => Some("invalid_option")
  }

  function MapErrorMessage(dicts: I18n.Dictionaries, message: Option<string>): Option<string> {
    if message.None? || message.value == "" then None
    else if message.value == "required" then Some(I18n.T(dicts, I18n.DefaultLocale, "form.required", None))
    else if message.value == "no_accents" then Some(I18n.T(dicts, I18n.DefaultLocale, "form.noAccents", None))
    else if message.value == "invalid_date" then Some(I18n.T(dicts, I18n.DefaultLocale, "form.invalidDate", None))
    else if message.value == "invalid_option" then Some(I18n.T(dicts, I18n.DefaultLocale, "form.invalidOption", None))
    else message
  }

  /** The dictionary key each code's message is shown through. */
  function CodeKey(c: Code): string
    requires c != ZodType
  {
    match c
    case Required => "form.required"
    case NoAccents => "form.noAccents"
    case InvalidDate => "form.invalidDate"
    case InvalidOption => "form.invalidOption"
  }

  /** Each of the four codes is shown as the `pt-BR` text of its `form.*` key. */
  lemma CodesAreTranslated(dicts: I18n.Dictionaries, c: Code)
    requires c != ZodType
    ensures MapErrorMessage(dicts, CodeMessage(c)) == Some(I18n.T(dicts, I18n.DefaultLocale, CodeKey(c), None))
  {
  }

  /** No message gives no text; any other message is shown as it is. */
  lemma OtherMessagesPassThrough(dicts: I18n.Dictionaries, message: Option<string>)
    requires message.Some? ==> message.value !in {"", "required", "no_accents", "invalid_date", "invalid_option"}
    ensures MapErrorMessage(dicts, message) == message
  {
  }

  lemma EmptyMessageHasNoText(dicts: I18n.Dictionaries)
    ensures MapErrorMessage(dicts, None) == None && MapErrorMessage(dicts, Some("")) == None
  {
  }

  // ---------------------------------------------------------------------------
  // onSubmit (lines 87-105)

  /** `{ ...initialValues, ...stepValues }` */
  function Merge(initial: Bag, step: Bag): (r: Bag)
    ensures r.Keys == initial.Keys + step.Keys
    ensures forall k :: Get(r, k) == if k in step then step[k] else Get(initial, k)
  {
    initial + step
  }

  /**
   * `trigger(fieldIds)`: the page's zod check, with only the issues under one of
   * the page's top-level field ids counting.
   */
  predicate TriggerValid(fields: seq<FieldSchema>, values: Bag, isDate: string -> bool) {
    forall x | x in ValidateObject(fields, values, isDate) ::
      !(|x.path| > 0 && x.path[0].Key? && x.path[0].name in FieldRenderer.CollectFieldIds(fields))
  }

  /**
   * `NotSent` when `trigger` fails; otherwise the posted body and where the
   * router goes, `None` when the rejected `fetch` makes `onSubmit` reject
   * before any `router.push`.
   */
  datatype SubmitOutcome = NotSent | Sent(payload: Bag, navigateTo: Option<string>)

  function OnSubmit(subset: FormSchema, isDate: string -> bool, initial: Bag, stepValues: Bag,
                    response: Option<bool>, pathname: string, nextPath: string): (r: SubmitOutcome)
    ensures r.NotSent? <==> !TriggerValid(AllFields(subset.steps), stepValues, isDate)
  {
    var fields := AllFields(subset.steps);
    if !TriggerValid(fields, stepValues, isDate) then NotSent
    else
      Sent(Merge(initial, stepValues),
           match response
           case None => None
           case Some(ok) => Some(if ok then nextPath else pathname + "?error=save_failed"))
  }

  /**
   * A sent request carries the step values over the initial answers. The page
   * goes on to `nextPath` when the response is ok, back to itself with
   * `?error=save_failed` when it is not, and nowhere when `fetch` rejects.
   */
  lemma SubmitSends(subset: FormSchema, isDate: string -> bool, initial: Bag, stepValues: Bag,
                    response: Option<bool>, pathname: string, nextPath: string, k: string)
    requires TriggerValid(AllFields(subset.steps), stepValues, isDate)
    ensures var r := OnSubmit(subset, isDate, initial, stepValues, response, pathname, nextPath);
      r.Sent? &&
      Get(r.payload, k) == (if k in stepValues then stepValues[k] else Get(initial, k)) &&
      (response == Some(true) ==> r.navigateTo == Some(nextPath)) &&
      (response == Some(false) ==> r.navigateTo == Some(pathname + "?error=save_failed")) &&
      (r.navigateTo.None? <==> response.None?)
  {
  }

  /** A page whose object check passes is always submitted. */
  lemma CleanPageIsSent(fields: seq<FieldSchema>, values: Bag, isDate: string -> bool)
    requires ValidateObject(fields, values, isDate) == {}
    ensures TriggerValid(fields, values, isDate)
  {
  }

  /** A blank answer to a required text field on the page blocks the request. */
  lemma BlankRequiredBlocksSubmit(subset: FormSchema, isDate: string -> bool, initial: Bag, stepValues: Bag,
                                  response: Option<bool>, pathname: string, nextPath: string, i: nat, s: string)
    requires var fields := AllFields(subset.steps);
      i < |fields| && LastOccurrence(fields, i) && StringShaped(fields[i]) &&
      fields[i].required && Get(stepValues, fields[i].id) == Str(s) && AllWhitespace(s)
    ensures OnSubmit(subset, isDate, initial, stepValues, response, pathname, nextPath) == NotSent
  {
    var fields := AllFields(subset.steps);
    ValidatorProperties.RequiredStringRule(fields, stepValues, isDate, i, s);
    var x := Issue([Key(fields[i].id)], Required);
    assert x.path[0].name in FieldRenderer.CollectFieldIds(fields);
  }
}
