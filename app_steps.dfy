/**
 * The four wizard pages of the application and the schema steps each one shows
 * (src/lib/ds160-app-steps.ts): a fixed table from page number to step ids and
 * an order-preserving filter of the full schema's steps.
 */
module AppSteps {
  import opened Schema

  /** `APP_STEP_IDS[appStep] ?? []` (lines 4-13). */
  function SchemaStepIds(appStep: int): seq<string> {
    if appStep == 1 then ["personal_1", "personal_2"]
    else if appStep == 2 then ["travel_info", "travel_companions", "previous_travel"]
    else if appStep == 3 then ["contact_info", "passport_docs", "us_contact"]
    else if appStep == 4 then ["work_education", "security_background", "security_question"]
    else []
  }

  /** `steps.filter((s) => ids.includes(s.id))` */
  function FilterSteps(steps: seq<StepSchema>, ids: seq<string>): (r: seq<StepSchema>)
    ensures |r| <= |steps|
    ensures forall s | s in r :: s in steps && s.id in ids
  {
    if steps == [] then []
    else (if steps[0].id in ids then [steps[0]] else []) + FilterSteps(steps[1..], ids)
  }

  /** `getStepsForAppStep` (lines 15-21). */
  function StepsFor(full: FormSchema, appStep: int): seq<StepSchema> {
    FilterSteps(full.steps, SchemaStepIds(appStep))
  }

  /** `getSchemaSubsetForAppStep` (lines 23-29): the root title with the page's steps. */
  function SubsetFor(full: FormSchema, appStep: int): (r: FormSchema)
    ensures r.title == full.title
    ensures forall s | s in r.steps :: s in full.steps
  {
    FormSchema(full.title, StepsFor(full, appStep))
  }

  // ---------------------------------------------------------------------------
  // Properties

  /** A page number outside 1-4 is not an error: it has no ids and an empty subset. */
  lemma UnknownPageIsEmpty(full: FormSchema, appStep: int)
    requires !(1 <= appStep <= 4)
    ensures SchemaStepIds(appStep) == []
    ensures SubsetFor(full, appStep) == FormSchema(full.title, [])
  {
    NoIdsNoSteps(full.steps, []);
  }

  lemma {:induction false} NoIdsNoSteps(steps: seq<StepSchema>, ids: seq<string>)
    requires ids == []
    ensures FilterSteps(steps, ids) == []
  {
    if steps != [] {
      NoIdsNoSteps(steps[1..], ids);
    }
  }

  /** A step is in the subset exactly when it is in the full schema and its id is listed. */
  lemma {:induction false} FilterMembers(steps: seq<StepSchema>, ids: seq<string>, s: StepSchema)
    ensures s in FilterSteps(steps, ids) <==> s in steps && s.id in ids
  {
    if steps != [] {
      FilterMembers(steps[1..], ids, s);
      if s in steps && s != steps[0] {
        assert s in steps[1..];
      }
    }
  }

  /** Filtering distributes over concatenation: the full schema's order is kept. */
  lemma {:induction false} FilterAppend(a: seq<StepSchema>, b: seq<StepSchema>, ids: seq<string>)
    ensures FilterSteps(a + b, ids) == FilterSteps(a, ids) + FilterSteps(b, ids)
  {
    if a == [] {
      assert a + b == b;
    } else {
      assert (a + b)[1..] == a[1..] + b;
      FilterAppend(a[1..], b, ids);
    }
  }

  /** Only which ids are listed matters, not their order in the list. */
  lemma {:induction false} FilterIgnoresListOrder(steps: seq<StepSchema>, ids1: seq<string>, ids2: seq<string>)
    requires forall x :: x in ids1 <==> x in ids2
    ensures FilterSteps(steps, ids1) == FilterSteps(steps, ids2)
  {
    if steps != [] {
      FilterIgnoresListOrder(steps[1..], ids1, ids2);
    }
  }

  lemma {:induction false} FilterIdempotent(steps: seq<StepSchema>, ids: seq<string>)
    ensures FilterSteps(FilterSteps(steps, ids), ids) == FilterSteps(steps, ids)
  {
    if steps != [] {
      var head := if steps[0].id in ids then [steps[0]] else [];
      FilterIdempotent(steps[1..], ids);
      FilterAppend(head, FilterSteps(steps[1..], ids), ids);
      assert FilterSteps(head, ids) == head by {
        if head != [] {
          assert head[1..] == [];
        }
      }
    }
  }

  /** Subsetting a page's subset again for the same page changes nothing. */
  lemma SubsetIdempotent(full: FormSchema, appStep: int)
    ensures SubsetFor(SubsetFor(full, appStep), appStep) == SubsetFor(full, appStep)
  {
    FilterIdempotent(full.steps, SchemaStepIds(appStep));
  }

  /** The four pages list pairwise disjoint ids. */
  lemma PagesDisjoint(p: int, q: int, id: string)
    requires p != q
    ensures !(id in SchemaStepIds(p) && id in SchemaStepIds(q))
  {
  }

  /** Hence no schema step shows up on two pages. */
  lemma NoStepOnTwoPages(full: FormSchema, p: int, q: int, s: StepSchema)
    requires s in StepsFor(full, p) && s in StepsFor(full, q)
    ensures p == q
  {
    FilterMembers(full.steps, SchemaStepIds(p), s);
    FilterMembers(full.steps, SchemaStepIds(q), s);
    if p != q {
      PagesDisjoint(p, q, s.id);
    }
  }
}
