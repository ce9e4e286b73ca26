# visa-ai-instructor: a verified model of the form engine and its endpoints

visa-ai-instructor is a Next.js application that walks Brazilian applicants through
the DS-160 visa form in four wizard pages. Its centre is a schema-driven validator.
A JSON form schema (steps, fields, options, conditions and validations) is compiled
into a zod object check. That check runs in the browser, on every wizard page, and
again in the submission endpoint. Around it sit:

- the page-to-step subsetting;
- the field renderer and the answers summary;
- i18n lookup;
- two fixed-window rate limiters;
- an in-memory draft and submission store with the draft, submission, upload and
  payment-webhook endpoints;
- the step-four form, with its own year rule and its localStorage draft protocol.

This project models those pieces in Dafny and proves their properties.

- **JavaScript values** are the datatype `Js.JsValue`, and object bags are
  `map<string, JsValue>`. `Js.Get` reads a missing key as `undefined`.
  Truthiness, `trim`, `String()`, `.length` in UTF-16 units and UTF-8 byte
  length are written out in `js.dfy`.
- **The zod check** is `Validator.ValidateObject` / `Validator.ValidateForm`.
  They return the set of issues `(path, code)`. The codes are `required`,
  `no_accents`, `invalid_date` and `invalid_option`, which the schema loader
  attaches itself, plus `ZodType`. `ZodType` stands for any of zod's own
  failures (a wrong type, a missing key, `min(1)`), filed at the path where zod
  raises it. The check passes exactly when the set is empty.
- **The webhook** is modelled twice. `Webhook.HandleAsWritten` is the route as
  written, whose signature check can throw (a 500). `Webhook.Handle` uses the
  corrected check of the Findings section. The two answer alike whenever the
  header is ASCII (`Webhook.AsWrittenAgreesOnAscii`).
- **Objects whose state the source updates in place** are classes with the
  mutated map as a field:
  - the `rateLimit` store is `RateLimit.RateLimiter`;
  - the submit route's `rateState` is `SubmitRoute.SubmitLimiter`;
  - the draft and submission maps are `FormsStore.Store`;
  - localStorage for step four is `StepFour.StepFourStorage`;
  - the upload marker and form values are `FieldRenderer.UploadState`.

  Each method is specified by a pure function of the old state. The lemmas are
  proved about that function.
- **I/O is passed in as parameters:**
  - the clock (`now`);
  - `crypto.randomUUID()` (`uuid`);
  - SHA-256 (`hash`) and HMAC-SHA256 (`hmac`);
  - `Date.parse` (`isDate`) and the date formatter (`formatDate`);
  - `JSON.parse` (`parseJson`);
  - the Supabase insert outcome;
  - the save and upload responses.

  A request body that cannot be read (not JSON, JSON `null`, not form data) is
  `None`. Next.js answers it with 500.

Two behaviours of the code worth knowing:

- A required field that also has `conditions` is required unconditionally
  (schema-loader.ts line 107). The conditional rule is only an extra check
  (`ValidatorProperties.ConditionalFieldAlwaysRequired`).
- A required repeatable group holding `[]` fails zod's own `min(1)`, so it
  reports `ZodType`, not `required`.

## Model

| member | source | states |
|---|---|---|
| Schema.OptionValues | src/lib/schema-loader.ts:90-92 | the allowed values are the options' `value`s, one per option, in order |
| Schema.AllFieldsAppend | src/lib/schema-loader.ts:151-152 | merging the steps' fields distributes over concatenation of steps, so step order is kept |
| Schema.AllFieldsMembers | src/lib/schema-loader.ts:151-152 | a field is in the merged list exactly when some step holds it |
| Validator.ValidateObject | src/lib/schema-loader.ts:123-149 | the object check: each key of the shape checks its own value, then the cross-field pass adds `required` for every rule that fires; the `ValidatorProperties` lemmas state what it reports |
| Validator.CheckField | src/lib/schema-loader.ts:52-121 | `buildFieldSchema`: a nested group is `z.array(nested)` with `min(1)` when required, a file `z.any()` refined by `Boolean` when required, anything else `z.string()` with the date, option, no-accents and required refinements; StringFieldCode, AbsentValue, FileRule, RepeatableRule and EntriesPass state its cases |
| Validator.ValidateForm | src/lib/schema-loader.ts:151-152 | `buildZodSchema(schema).safeParse(data)`: the fields of all steps in one object check, and a non-object a root type issue |
| ValidatorProperties.IssuesAtField | src/lib/schema-loader.ts:123-149 | the issues under a field's key are exactly its own check's issues, moved under the key, plus the cross-field `required` issue when that field's rule fires |
| ValidatorProperties.IssuesAtUnknownKey | src/lib/schema-loader.ts:127-146 | a key with no field in the shape gets no structural issue, only a `required` from a rule naming it whose conditions hold |
| ValidatorProperties.StringFieldCode | src/lib/schema-loader.ts:67-119 | on a string value, a non-`required` code is reported at the field exactly when it is one of the field's refinement failures |
| ValidatorProperties.NoAccentsRule | src/lib/schema-loader.ts:100-105 | `no_accents` is reported exactly when the field has `noAccents`, the value is non-empty and holds a character above U+007F |
| ValidatorProperties.OptionRule | src/lib/schema-loader.ts:90-98 | `invalid_option` is reported exactly for a select or radio with a non-empty option list and a string that is none of the option values, "" included |
| ValidatorProperties.DateRule | src/lib/schema-loader.ts:82-88 | `invalid_date` is reported exactly for a non-empty string that does not parse as a date |
| ValidatorProperties.RequiredStringRule | src/lib/schema-loader.ts:107-112 | on a string, `required` is reported exactly when the field is required and the value is blank after trimming, or the value is "" and a conditional rule for the field fires, whether or not the field has conditions |
| ValidatorProperties.AbsentValue | src/lib/schema-loader.ts:107-112 | an absent non-file value gives zod's type failure when the field is required and nothing else except a firing conditional rule; an optional absent field passes |
| ValidatorProperties.FileRule | src/lib/schema-loader.ts:69-80 | a file field fails only with `required`, and only for a falsy value when required or when its rule fires; any truthy value passes |
| ValidatorProperties.EntriesPass | src/lib/schema-loader.ts:53-56 | the entries of a group produce no issue exactly when every entry is an object passing the nested object check |
| ValidatorProperties.RepeatableRule | src/lib/schema-loader.ts:53-65 | an array under a group passes exactly when it is non-empty or the group is optional, and every entry passes the nested check |
| ValidatorProperties.RepeatableEntryIssues | src/lib/schema-loader.ts:53-56 | every issue of entry j's nested check appears in the whole check under the path [group id, j] |
| ValidatorProperties.RepeatableWithoutFieldsIsText | src/lib/schema-loader.ts:53-67 | a repeatable field without `fields` is checked exactly as a text field |
| ValidatorProperties.CrossFieldRule | src/lib/schema-loader.ts:133-146 | the cross-field pass reports `required` at `[id]` exactly when every condition of a rule for `id` strictly equals in the parsed values and the parsed target is falsy |
| ValidatorProperties.EmptyArrayNeverFires | src/lib/schema-loader.ts:135-138 | an array value, even `[]`, is truthy, so the cross-field pass never reports it |
| ValidatorProperties.CollectRulesFlatten | src/lib/schema-loader.ts:127-131 | the collected rules are the rules of the fields in pre-order, a group's nested rules (lines 58-63) before the group's own |
| ValidatorProperties.RuleOrigin | src/lib/schema-loader.ts:116-119 | a rule is collected exactly when some field, top-level or nested (lifted at lines 58-63), is required with that condition list |
| ValidatorProperties.DuplicateIdLaterWins | src/lib/schema-loader.ts:129 | of two fields with one id, as the merge of lines 151-152 can produce, the later one's check is the one left in the shape, while both fields' rules are kept |
| ValidatorProperties.PlainNamePasses | __tests__/schema-loader.test.ts:25-26 | the test's required `noAccents` name accepts "Jose" |
| ValidatorProperties.AccentedNameFails | __tests__/schema-loader.test.ts:25-26 | the same field rejects "JosÃ©" with `no_accents` |
| ValidatorProperties.MissingArrivalFails | __tests__/schema-loader.test.ts:57 | with `has_plan` "yes" and no arrival the form fails, with zod's own `invalid_type` at the missing required `arrival` |
| ValidatorProperties.FilledArrivalPasses | __tests__/schema-loader.test.ts:57-60 | with `has_plan` "yes" and a parseable arrival date the form passes |
| ValidatorProperties.ConditionalFieldAlwaysRequired | src/lib/schema-loader.ts:107 | a required field with conditions that do not hold still fails when absent |
| ValidatorProperties.ParsedKeys | src/lib/schema-loader.ts:123-131 | the parsed copy keeps exactly the input's keys that the shape declares |
| ValidatorProperties.ParsedAt | src/lib/schema-loader.ts:53-67 | a kept key holds the input value, except that a group's array has its object entries replaced by their own parsed copies |
| ValidatorProperties.ParsedItemsAt | src/lib/schema-loader.ts:53-56 | the parsed array has the input's length, and entry i is the parsed copy of input entry i when that entry is an object |
| AppSteps.FilterSteps | src/lib/ds160-app-steps.ts:19-20 | the result is no longer than the input and holds only input steps whose id is listed |
| AppSteps.SubsetFor | src/lib/ds160-app-steps.ts:23-29 | the subset keeps the root title and only the full schema's steps |
| AppSteps.UnknownPageIsEmpty | src/lib/ds160-app-steps.ts:11-20 | a page outside 1-4 has no ids and yields the title with zero steps, not an error |
| AppSteps.FilterMembers | src/lib/ds160-app-steps.ts:15-21 | a step is in the subset exactly when it is in the full schema and its id is listed |
| AppSteps.FilterAppend | src/lib/ds160-app-steps.ts:15-21 | filtering distributes over concatenation, so the subset follows the full schema's order |
| AppSteps.FilterIgnoresListOrder | src/lib/ds160-app-steps.ts:15-21 | two id lists with the same members give the same subset, whatever their order |
| AppSteps.SubsetIdempotent | src/lib/ds160-app-steps.ts:19-28 | subsetting a page's subset again for the same page changes nothing |
| AppSteps.PagesDisjoint | src/lib/ds160-app-steps.ts:4-9 | no id is listed for two different pages |
| AppSteps.NoStepOnTwoPages | src/lib/ds160-app-steps.ts:4-21 | a schema step shown on pages p and q has p == q |
| I18n.T | src/lib/i18n.ts:26-35 | `t(locale, key, vars)`; MissingKeyGivesKey, NoVarsGivesEntry, UnknownLocaleFallsBack and the replace lemmas state its behaviour |
| I18n.GetDictionary | src/lib/i18n.ts:8-14 | "en" reads the English dictionary; every other locale reads pt-BR |
| I18n.GetNestedValue | src/lib/i18n.ts:16-24 | the `split(".").reduce` walk, undefined once a step is not an object; FlatKey, DottedKey and WalkStopsAtNonObject state it |
| I18n.Split | src/lib/i18n.ts:20 | splitting gives at least one piece and no piece contains the separator |
| I18n.JoinSplit | src/lib/i18n.ts:20 | joining the pieces of a split gives back the path |
| I18n.SplitJoin | src/lib/i18n.ts:20 | splitting a join of separator-free pieces gives back the pieces |
| I18n.WalkStopsAtNonObject | src/lib/i18n.ts:21 | once the walk reaches a value that is not an object, every further segment gives undefined |
| I18n.FlatKey | src/lib/i18n.ts:16-24 | a key without "." is a plain property lookup |
| I18n.DottedKey | src/lib/i18n.ts:16-24 | "a.rest" looks up `rest` inside the object at `a`, and gives undefined when `a` holds no object |
| I18n.IndexOf | src/lib/i18n.ts:32 | the result is the first position at or after i where the pattern occurs, or none when it occurs nowhere |
| I18n.ReplacesFirstOnly | src/lib/i18n.ts:32 | `replace` with a string changes only the first occurrence of the pattern and keeps the text before and after it |
| I18n.NoOccurrenceUnchanged | src/lib/i18n.ts:32 | `replace` changes nothing when the pattern does not occur |
| I18n.MissingKeyGivesKey | src/lib/i18n.ts:28-29 | whatever is not a string at the key gives back the key |
| I18n.NoVarsGivesEntry | src/lib/i18n.ts:30 | without vars the looked-up string comes back unchanged |
| I18n.UnknownLocaleFallsBack | src/lib/i18n.ts:13-14 | any locale other than "en" translates as pt-BR |
| I18n.UnusedVarsKeepText | src/lib/i18n.ts:31-34 | vars whose placeholders do not occur leave the text unchanged |
| I18n.OnlyFirstOccurrence | src/lib/i18n.ts:31-34 | a single var replaces its first `{name}` only; a second `{name}` and the rest of the text are untouched |
| FieldRenderer.GetLocalizedText | src/components/form/FieldRenderer.tsx:17-24 | null or undefined gives "", and a plain string comes back unchanged |
| FieldRenderer.LocaleFallback | src/components/form/FieldRenderer.tsx:17-24 | a mapping gives the requested locale's text, else pt-BR's, else "" |
| FieldRenderer.CollectFieldIds | src/components/form/FieldRenderer.tsx:26-28 | the top-level ids, one per field, in order |
| FieldRenderer.EmptyConditionsShown | src/components/form/FieldRenderer.tsx:57-63 | an empty condition list shows the field |
| FieldRenderer.Render | src/components/form/FieldRenderer.tsx:57-63 | a top-level field renders exactly when it has no conditions or every condition strictly equals in the form values |
| FieldRenderer.Helper | src/components/form/FieldRenderer.tsx:66-68 | there is no helper text exactly when `helpText` is absent or the empty string |
| FieldRenderer.OptionPairs | src/components/form/FieldRenderer.tsx:73-76 | one (value, localized label) pair per option, in order |
| FieldRenderer.TopDispatch | src/components/form/FieldRenderer.tsx:71-169 | select, radio and date get their widgets; a file gets the upload widget only with a handler; a group only with `fields`; everything else a text input; the upload spinner shows only for the field being uploaded |
| FieldRenderer.NestedIgnoresFormValues | src/components/form/FieldRenderer.tsx:201-209 | a nested field's visibility depends on its group's value only, not on the other form values |
| FieldRenderer.MissingEntryHidesConditional | src/components/form/FieldRenderer.tsx:201-209 | a missing entry reads as {}, so a conditional nested field is hidden |
| FieldRenderer.RenderNested | src/components/form/FieldRenderer.tsx:201-209 | a nested field renders exactly when every condition strictly equals in its own entry |
| FieldRenderer.NestedDispatch | src/components/form/FieldRenderer.tsx:211-284 | a nested input registers as `group.index.id`; nested file and group fields become text inputs |
| FieldRenderer.RenderEntries | src/components/form/FieldRenderer.tsx:305-312 | one row per entry, each rendering every nested field of the group for that index |
| FieldRenderer.UploadState.OnUpload | src/components/form/FieldRenderer.tsx:134-141 | a response with `ok` and a `fileId` stores the id under the field; any other response stores nothing; a response clears the uploading marker |
| FieldRenderer.UploadTouchesOneKey | src/components/form/FieldRenderer.tsx:137-139 | the upload callback changes no other form value |
| AnswersSummary.FormatValue | src/components/app/AnswersSummary.tsx:17-40 | `formatValue`; BlankIsDash, MatchedOptionShowsLabel, UnmatchedOptionShowsValue, FileAnswer, DateAnswer and ObjectIsDash state its branches |
| AnswersSummary.GetLabel | src/components/app/AnswersSummary.tsx:11-15 | `getLabel`, the pt-BR text of a label; GetLabelIsPortuguese states it |
| AnswersSummary.RenderFieldValue | src/components/app/AnswersSummary.tsx:42-86 | a group with nested fields and an array value becomes one item per entry (none for `[]`), any other value the formatted text; RepeatableNode, Items and EntryRowsMembers state it |
| AnswersSummary.ShouldShowField | src/components/app/AnswersSummary.tsx:88-98 | no conditions, or every condition strictly equal to `stepData?.[id] ?? data[id]`; SummaryAgreesWithForm and VisibleFields state it |
| AnswersSummary.GetLabelIsPortuguese | src/components/app/AnswersSummary.tsx:11-15 | the summary's labels are the renderer's localized text for pt-BR |
| AnswersSummary.FindOption | src/components/app/AnswersSummary.tsx:33-35 | an option is found exactly when some option's value equals the value, and it is the first such option |
| AnswersSummary.BlankIsDash | src/components/app/AnswersSummary.tsx:22 | undefined, null and "" format as "—" |
| AnswersSummary.MatchedOptionShowsLabel | src/components/app/AnswersSummary.tsx:33-35 | a select or radio value matching an option shows the first matching option's label |
| AnswersSummary.UnmatchedOptionShowsValue | src/components/app/AnswersSummary.tsx:33-39 | an unmatched select or radio value shows `String(value)` ("—" for a plain object) |
| AnswersSummary.FileAnswer | src/components/app/AnswersSummary.tsx:37 | a file field shows "Documento anexado" for any truthy value |
| AnswersSummary.DateAnswer | src/components/app/AnswersSummary.tsx:23-32 | a date shows its formatted form when it parses, and the raw string otherwise |
| AnswersSummary.ObjectIsDash | src/components/app/AnswersSummary.tsx:38 | a non-array object value on a non-file field shows "—" |
| AnswersSummary.EntryRowsMembers | src/components/app/AnswersSummary.tsx:60-72 | an entry's rows are exactly its nested fields whose value does not format to "—", with their labels |
| AnswersSummary.Items | src/components/app/AnswersSummary.tsx:54-73 | one item per entry, headed by its number |
| AnswersSummary.RepeatableNode | src/components/app/AnswersSummary.tsx:49-75 | an empty array renders nothing; otherwise item i is headed "Item i+1:" |
| AnswersSummary.SummaryAgreesWithForm | src/components/app/AnswersSummary.tsx:88-98 | the summary shows a field exactly when the form renders it |
| AnswersSummary.VisibleFields | src/components/app/AnswersSummary.tsx:109-111 | the step's fields kept are exactly those `shouldShowField` accepts |
| AnswersSummary.SummaryRowsMembers | src/components/app/AnswersSummary.tsx:120-123 | the rows are exactly the fields whose value renders to something other than nothing or "—" |
| AnswersSummary.Summary | src/components/app/AnswersSummary.tsx:105-130 | one section slot per schema step, in order |
| AnswersSummary.StepOmittedIffNoVisibleField | src/components/app/AnswersSummary.tsx:109-112 | a step is omitted exactly when none of its fields is shown |
| AnswersSummary.AllDashStepHasNoRows | src/components/app/AnswersSummary.tsx:109-123 | a shown step whose every value is "—" keeps its section with no rows |
| AppStepForm.MapErrorMessage | src/components/app/AppStepFormClient.tsx:73-80 | the error-code map; CodesAreTranslated, OtherMessagesPassThrough and EmptyMessageHasNoText state its branches |
| AppStepForm.DefaultValues | src/components/app/AppStepFormClient.tsx:46-54 | the copy-then-overwrite loop yields the initial bag with every repeatable id whose value is not an array set to `[]` |
| AppStepForm.DefaultsShape | src/components/app/AppStepFormClient.tsx:46-54 | every repeatable id holds an array, a value that already is an array is kept, and every other value is copied unchanged |
| AppStepForm.CodesAreTranslated | src/components/app/AppStepFormClient.tsx:73-80 | each of the four codes maps to its `form.*` translation |
| AppStepForm.OtherMessagesPassThrough | src/components/app/AppStepFormClient.tsx:73-80 | any other non-empty message passes through unchanged |
| AppStepForm.EmptyMessageHasNoText | src/components/app/AppStepFormClient.tsx:74 | a missing or empty message gives undefined |
| AppStepForm.Merge | src/components/app/AppStepFormClient.tsx:91-92 | the payload has the keys of both bags; step values win on shared keys and initial values are kept elsewhere |
| AppStepForm.OnSubmit | src/components/app/AppStepFormClient.tsx:87-89 | no request is sent exactly when the page's top-level fields fail validation |
| AppStepForm.SubmitSends | src/components/app/AppStepFormClient.tsx:87-105 | a valid page posts the merged values; an ok response navigates to `nextPath`, a failed one to the current path with `?error=save_failed`, and a rejected `fetch` navigates nowhere |
| AppStepForm.CleanPageIsSent | src/components/app/AppStepFormClient.tsx:88-89 | a page whose object check passes passes the per-field trigger |
| AppStepForm.BlankRequiredBlocksSubmit | src/components/app/AppStepFormClient.tsx:88-89 | a blank required text field blocks the request |
| RateLimit.Step | src/lib/security/rateLimit.ts:13-33 | one call of the fixed-window limiter: the new store and the decision; NewWindow, Denied, Counted and AllowedIff state its cases |
| RateLimit.RateLimiter.RateLimit | src/lib/security/rateLimit.ts:13-33 | the new store and the decision are one step of the fixed-window limiter |
| RateLimit.NewWindow | src/lib/security/rateLimit.ts:17-19 | a new key or an expired window (`resetAt <= now`) restarts at count 1 and allows with `limit - 1` remaining |
| RateLimit.Denied | src/lib/security/rateLimit.ts:22-24 | a full open window denies with 0 remaining and leaves the store unchanged |
| RateLimit.Counted | src/lib/security/rateLimit.ts:26-32 | otherwise the count rises by one, the window end stays, and remaining is `limit - count` |
| RateLimit.AllowedIff | src/lib/security/rateLimit.ts:17-32 | a call is allowed exactly when it opens a window or the count is below the limit |
| RateLimit.OnlyKeyChanges | src/lib/security/rateLimit.ts:17-27 | no other key's entry changes |
| RateLimit.StepKeepsBounded | src/lib/security/rateLimit.ts:17-32 | for `limit >= 1` every stored count stays within 1..limit, and remaining stays within 0..limit-1 |
| RateLimit.WithinWindow | src/lib/security/rateLimit.ts:22-32 | calls inside an open window are allowed exactly `min(calls, limit - count)` times |
| RateLimit.AtMostLimitPerWindow | src/lib/security/rateLimit.ts:17-32 | within one window at most `limit` calls are allowed, and exactly `min(calls, limit)` are |
| SubmitRoute.Reply | app/api/forms/submit/route.ts:21-56 | the answer of `POST` given the limiter's decision; LimitComesFirst, IncompleteIsBadRequest, ConfirmedIff and IssueReported state its cases |
| SubmitRoute.SubmitLimiter.IsRateLimited | app/api/forms/submit/route.ts:8-19 | the new `rateState` and the answer are one step of the route's own limiter |
| SubmitRoute.Limit | app/api/forms/submit/route.ts:8-19 | `isRateLimited`: a missing or expired window (`resetAt < now`) restarts at 1 for 60 000 ms, a full one (5 calls) is limited and unchanged, otherwise the count rises; LimitedIff, BoundaryDiffers, InOpenWindow and FirstFivePass state it |
| SubmitRoute.LimitedIff | app/api/forms/submit/route.ts:11-18 | a call is limited exactly when an open window already holds 5 calls, and a limited call changes nothing |
| SubmitRoute.BoundaryDiffers | app/api/forms/submit/route.ts:11-13 | at `now == resetAt` this limiter keeps the old window while `rateLimit` opens a new one and allows |
| SubmitRoute.InOpenWindow | app/api/forms/submit/route.ts:15-18 | inside an open window, call i is limited exactly when the window already held 5 calls before it |
| SubmitRoute.FirstFivePass | app/api/forms/submit/route.ts:11-18 | from the window-opening call on, the first 5 calls pass and every later one in the window is limited |
| SubmitRoute.Post | app/api/forms/submit/route.ts:21-56 | the limiter steps, the reply follows the guards, and only a confirmed submission stores the parsed data under its confirmation number; drafts are untouched |
| SubmitRoute.LimitComesFirst | app/api/forms/submit/route.ts:23-25 | a limited client gets 429 whatever it sent |
| SubmitRoute.IncompleteIsBadRequest | app/api/forms/submit/route.ts:32-34 | a body without a truthy `applicationId` or `data` gets 400 before validation |
| SubmitRoute.ConfirmedIff | app/api/forms/submit/route.ts:36-55 | a submission is confirmed exactly when it is not limited, is complete and passes the whole-form check, and its number is the upper-cased uuid |
| SubmitRoute.IssueReported | app/api/forms/submit/route.ts:40-45 | every issue under a top-level key reaches the 422 answer under that key |
| SubmitRoute.NonObjectDataRefused | app/api/forms/submit/route.ts:36-45 | truthy data that is not an object is a 422 with no field errors |
| FormsStore.NewDraft | src/lib/forms-store.ts:24-39 | a hash is stored exactly when a non-empty answer is given and is that answer's hash; the other fields are the arguments |
| FormsStore.NewSubmission | src/lib/forms-store.ts:53-66 | the confirmation number is the upper-cased uuid and the other fields are the arguments |
| FormsStore.VerifyDraftAccess | src/lib/forms-store.ts:44-51 | a draft without a stored hash opens for any answer; a protected one needs an answer whose hash matches; UnprotectedOpens, ProtectedNeedsAnswer, SaveThenVerify and WrongAnswerRefused state it |
| FormsStore.Store.SaveDraftRecord | src/lib/forms-store.ts:24-39 | the new record replaces any earlier one for the id; submissions are untouched |
| FormsStore.Store.GetDraftRecord | src/lib/forms-store.ts:41-42 | a record is found exactly when one was saved for the id, and it is the stored one |
| FormsStore.Store.SaveSubmissionRecord | src/lib/forms-store.ts:53-66 | the record is stored under its own confirmation number; drafts are untouched |
| FormsStore.Store.GetSubmissionRecord | src/lib/forms-store.ts:68-69 | a submission is found exactly when one is stored under the number |
| FormsStore.LastDraftWins | src/lib/forms-store.ts:37 | a save makes the id hold the new record and leaves every other id as it was |
| FormsStore.ResaveWithoutAnswerUnprotects | src/lib/forms-store.ts:24-51 | a record saved without an answer opens for any answer |
| FormsStore.UnprotectedOpens | src/lib/forms-store.ts:44-46 | a record without a hash opens for any answer |
| FormsStore.ProtectedNeedsAnswer | src/lib/forms-store.ts:44-51 | a protected record opens exactly for a non-empty answer whose hash equals the stored one |
| FormsStore.SaveThenVerify | src/lib/forms-store.ts:33-50 | verifying with the answer the record was saved with succeeds |
| FormsStore.WrongAnswerRefused | src/lib/forms-store.ts:47-50 | a different answer with a different hash is refused |
| FormsStore.SubmissionFoundByNumber | src/lib/forms-store.ts:57-69 | a stored submission is found under the upper-cased uuid |
| DraftRoute.Load | app/api/forms/draft/route.ts:27-51 | `GET` over the stored drafts; GuardOrder, UnprotectedNeverRefused and RoundTrip state its answers |
| DraftRoute.Post | app/api/forms/draft/route.ts:5-25 | an unreadable body is 500 and an incomplete one 400, both leaving the store unchanged; otherwise the draft is saved and its `updatedAt` returned |
| DraftRoute.Get | app/api/forms/draft/route.ts:27-51 | the handler answers as the guard function and changes nothing |
| DraftRoute.GuardOrder | app/api/forms/draft/route.ts:32-50 | 400 exactly without an id, 404 exactly for an unknown id, 401 exactly when access is refused, otherwise the stored data, question and `updatedAt` |
| DraftRoute.UnprotectedNeverRefused | app/api/forms/draft/route.ts:41-50 | a known unprotected draft always loads |
| DraftRoute.RoundTrip | app/api/forms/draft/route.ts:17-50 | loading with the answer just saved returns the saved data, question and time |
| DraftRoute.SaveThenLoad | app/api/forms/draft/route.ts:5-51 | the same round trip through both handlers and the store |
| Webhook.MapPaymentStatus | app/api/webhooks/abacatepay/route.ts:20-27 | the status normalisation; StatusWords, CaseInsensitive and Idempotent state its behaviour |
| Webhook.Route | app/api/webhooks/abacatepay/route.ts:29-115 | the handler's guards in source order, given what the signature check answered; a throwing check is a 500 |
| Webhook.Payload | app/api/webhooks/abacatepay/route.ts:58-115 | the handler from `JSON.parse` on: event id, recording, status and updates |
| Webhook.Updates | app/api/webhooks/abacatepay/route.ts:87-112 | the database updates; OnlyFinalStatusesUpdate and WhichUpdates state which |
| Webhook.HandleAsWritten | app/api/webhooks/abacatepay/route.ts:48-56 | the route as written, calling the signature check that can throw |
| Webhook.Handle | app/api/webhooks/abacatepay/route.ts:48-56 | the route with the corrected signature check, which refuses instead of throwing; the other handler lemmas are about it |
| Webhook.AsWrittenAgreesOnAscii | app/api/webhooks/abacatepay/route.ts:48-56 | with an ASCII digest and an ASCII header the route as written and the corrected route answer alike |
| Webhook.WrongSignatureAsWritten | app/api/webhooks/abacatepay/route.ts:48-56 | as written a wrong signature is refused with 401, or answered 500 exactly when the check throws; corrected it is always 401 |
| Webhook.ThrowingRequest | app/api/webhooks/abacatepay/route.ts:48-56 | the digest "ab" against the header "éb" is answered 500 as written and 401 when corrected |
| Webhook.AbsentStatusPending | app/api/webhooks/abacatepay/route.ts:21 | an absent or empty status is pending |
| Webhook.StatusWords | app/api/webhooks/abacatepay/route.ts:22-26 | approved, paid, success give approved; failed, canceled, cancelled give failed; refunded gives refunded, each exactly, ignoring ASCII case |
| Webhook.CaseInsensitive | app/api/webhooks/abacatepay/route.ts:22 | upper-casing the status does not change its mapping |
| Webhook.Idempotent | app/api/webhooks/abacatepay/route.ts:20-27 | mapping the name of a mapped status gives the same status |
| Webhook.GuardOrder | app/api/webhooks/abacatepay/route.ts:34-69 | with the corrected signature check: a missing secret is 400, a wrong secret 401, a missing or wrong signature 401, unparsable JSON 400, a `null` body 500 and a missing event id 400, in that order |
| Webhook.RefusedBeforeRecording | app/api/webhooks/abacatepay/route.ts:34-81 | an event is recorded only after the secret and signature match and the body parses as an object |
| Webhook.EventIdPrecedence | app/api/webhooks/abacatepay/route.ts:65 | the event id is `eventId`, else `id`, else `data.id` |
| Webhook.EventId | app/api/webhooks/abacatepay/route.ts:65 | `payload.eventId ?? payload.id ?? payload.data?.id`; EventIdPrecedence and EmptyEventIdRefused state it |
| Webhook.StatusOf | app/api/webhooks/abacatepay/route.ts:89 | `data.status ?? status` mapped, pending when falsy, and the `TypeError` of a truthy non-string as `None`; StatusPrecedence states it |
| Webhook.EmptyEventIdRefused | app/api/webhooks/abacatepay/route.ts:65-69 | an empty `eventId` is not replaced by `id`, leaves no event id, and the request is refused with 400 |
| Webhook.StatusPrecedence | app/api/webhooks/abacatepay/route.ts:89 | a non-empty `data.status` decides the status |
| Webhook.DuplicateUpdatesNothing | app/api/webhooks/abacatepay/route.ts:83-85 | a duplicate event answers 200 OK and updates nothing |
| Webhook.OnlyFinalStatusesUpdate | app/api/webhooks/abacatepay/route.ts:91 | only approved and failed events update records |
| Webhook.WhichUpdates | app/api/webhooks/abacatepay/route.ts:91-112 | the payment is matched by provider id when present, else by `externalId`; the application becomes paid exactly when approved with an `externalId` |
| Signature.ValidateAsWritten | src/lib/abacatepay/signature.ts:6-21 | the check as written, `None` being the `RangeError` of `timingSafeEqual` |
| Signature.ValidateWebhookSignature | src/lib/abacatepay/signature.ts:6-21 | the corrected check, comparing byte lengths so that a mismatch is refused |
| Signature.LengthsAgreeIffAscii | src/lib/abacatepay/signature.ts:13-20 | a string has as many UTF-8 bytes as UTF-16 units exactly when it is ASCII, and never fewer |
| Signature.NonAsciiHeaderThrows | src/lib/abacatepay/signature.ts:13-20 | as written, a header as long as the digest in units but holding a non-ASCII character throws |
| Signature.ThrowingExample | src/lib/abacatepay/signature.ts:13-20 | as written, the digest "ab" against the header "éb" throws |
| Signature.ValidIffDigest | src/lib/abacatepay/signature.ts:6-21 | the corrected check accepts exactly the header equal to the digest |
| Signature.AgreesWhenNoThrow | src/lib/abacatepay/signature.ts:6-21 | wherever the code as written answers, it answers as the corrected check |
| Upload.Post | app/api/upload/route.ts:7-31 | the upload gate: 500 for a body that is not form data, 400 for a non-file, 415 for a disallowed type, 413 over 5 MiB, otherwise the echoed file under the fresh id |
| Upload.NonFileRefused | app/api/upload/route.ts:11-13 | anything but a file is a 400 |
| Upload.TypeCheckedFirst | app/api/upload/route.ts:15-17 | a type outside the list of line 5 (jpeg, png, pdf) is a 415 `invalid_type` whatever the size |
| Upload.SizeLimit | app/api/upload/route.ts:19-22 | the limit (`MAX_FILE_SIZE_MB` from line 4) is 5 · 1024 · 1024 = 5242880 bytes, and an allowed file is a 413 exactly above it; exactly 5 MiB is accepted |
| Upload.AcceptedEchoes | app/api/upload/route.ts:24-30 | an accepted upload was an allowed file within the limit, echoed with its name, size and type under the fresh id |
| StepFour.YearIssues | src/components/app/step-four-form.tsx:24-44 | the `superRefine` rule for the year of the last visit; NotVisitedNeverChecked, ShortYearOneIssue, LongYearChecked and AtMostOneIssue state it |
| StepFour.SubmitItems | src/components/app/step-four-form.tsx:176-187 | the storage after a submit; SubmitEffect and SubmitKeepsSettled state it |
| StepFour.Resend | src/components/app/step-four-form.tsx:154-169 | the pending effect on mount; EqualPendingDropped, FailedSaveIsResent and MountSettles state it |
| StepFour.Restore | src/components/app/step-four-form.tsx:120-143 | the restore effect on mount; Restored and BadCacheDeleted state it |
| StepFour.NotVisitedNeverChecked | src/components/app/step-four-form.tsx:25 | with `visitedUsa` "no" the year is never checked |
| StepFour.ShortYearOneIssue | src/components/app/step-four-form.tsx:26-33 | a missing year or one shorter than 4 after trimming gives exactly the one "Informe o ano..." issue |
| StepFour.LongYearChecked | src/components/app/step-four-form.tsx:34-42 | a year of 4 or more characters passes exactly when it is decimal digits between 1900 and the current year, and otherwise gives "Informe um ano válido." |
| StepFour.AtMostOneIssue | src/components/app/step-four-form.tsx:24-44 | the rule reports at most one issue |
| StepFour.HiddenYearNeverChecked | src/components/app/step-four-form.tsx:207 | for every bag whose `visitedUsa` is a string, the year field is rendered exactly when the rule of line 25 reports a missing year, and a field not rendered gets no issue for any year |
| StepFour.KeysDistinct | src/components/app/step-four-form.tsx:78-89 | the storage, pending and last-saved keys of one application differ |
| StepFour.KeysPerApplication | src/components/app/step-four-form.tsx:78-89 | different applications use different keys |
| StepFour.Restored | src/components/app/step-four-form.tsx:120-143 | the restored values hold exactly the form's answer keys |
| StepFour.RestoredAnswer | src/components/app/step-four-form.tsx:128-137 | each answer is the cached value, else the initial value, else the form default of lines 68-75 |
| StepFour.StepFourStorage.Submit | src/components/app/step-four-form.tsx:176-187 | submit always writes the cache, and writes pending and starts a save exactly when the values differ from last-saved |
| StepFour.StepFourStorage.Autosave | src/components/app/step-four-form.tsx:145-152 | the autosave effect, which runs once per mount (its dependencies `storageKey` and `watch` are stable), writes the cache only |
| StepFour.StepFourStorage.SaveFinished | src/components/app/step-four-form.tsx:93-114 | a successful save removes pending and records last-saved; a failed one changes nothing |
| StepFour.SavedItems | src/components/app/step-four-form.tsx:104-110 | the end of a background save: an ok response removes pending and records the snapshot as last-saved, anything else leaves the storage as it was; SaveEffect and SaveKeepsSettled state it |
| StepFour.StepFourStorage.ResendOnMount | src/components/app/step-four-form.tsx:154-169 | the pending entry is dropped, deleted or resent as the mount protocol says |
| StepFour.StepFourStorage.RestoreOnMount | src/components/app/step-four-form.tsx:120-143 | the cache is restored, or deleted when it does not parse |
| StepFour.SubmitEffect | src/components/app/step-four-form.tsx:176-187 | after submit the cache holds the values, pending holds them exactly when they differ from last-saved (or already did), and last-saved is untouched |
| StepFour.SaveEffect | src/components/app/step-four-form.tsx:93-114 | a successful save clears pending and sets last-saved to the snapshot; a failed one leaves everything in place |
| StepFour.SubmitKeepsSettled | src/components/app/step-four-form.tsx:176-187 | submit never leaves a pending entry equal to last-saved |
| StepFour.SaveKeepsSettled | src/components/app/step-four-form.tsx:93-114 | a save completion never leaves a pending entry equal to last-saved |
| StepFour.MountSettles | src/components/app/step-four-form.tsx:154-169 | after mount no pending entry equals last-saved |
| StepFour.MountTouchesPendingOnly | src/components/app/step-four-form.tsx:154-169 | mount changes only the pending key |
| StepFour.EqualPendingDropped | src/components/app/step-four-form.tsx:158-162 | a pending entry equal to last-saved is removed without a request |
| StepFour.FailedSaveIsResent | src/components/app/step-four-form.tsx:93-169 | values whose save failed are resent on the next mount |
| StepFour.SavedSubmitNotResent | src/components/app/step-four-form.tsx:93-169 | values whose save succeeded are not resent |
| StepFour.StaleSaveClearsNewerPending | src/components/app/step-four-form.tsx:93-114 | an older save finishing after a newer submit (lines 176-187) removes the newer pending snapshot |
| StepFour.BadCacheDeleted | src/components/app/step-four-form.tsx:120-127 | an unparsable or null cache entry is deleted and nothing is restored |

## Left out

- zod's abort ordering: when zod's own type check fails, zod skips the refinements after it. The model can report extra codes next to `ZodType`. Whether the check passes is exact; the set of codes on failing input can be larger than zod's.
- The wording of zod's own errors (missing key, `invalid_type`, `min(1)`): they are all `ZodType`.
- Floating point and `NaN`: numbers are integers. `Number()` at step-four-form.tsx:34 is restricted to decimal digit strings; anything else ("2e3", "0x7D0", "2000.5") counts as `NaN`.
- `Date.parse`, `new Date` and `toLocaleDateString`: the parameters `isDate` and `formatDate`.
- SHA-256, HMAC-SHA256 and `crypto.randomUUID`: the parameters `hash`, `hmac` and `uuid`.
- Special replacement patterns (`$&`, `$1`) in the replacement strings of i18n.ts:32: the model inserts the value literally.
- Integer-like keys in `Object.entries` order: vars are a sequence in entry order.
- Arrays inside `getNestedValue`: the walk looks only into objects.
- AnswersSummary.RepeatableNode: the contract covers only the array branch. A group holding a non-array value is modelled (`RenderFieldValue` formats it, as line 83 does) but this lemma says nothing about it. A null entry, which throws in the source, reads as {}, as does any other non-object entry.
- `toUpperCase` and `toLowerCase` are ASCII-only. No status word or uuid is affected.
- FieldRenderer.RenderEntries: the entry count is the group's array length. `useFieldArray` append and remove are left out.
- FieldRenderer.UploadState.OnUpload: a rejected upload promise (outcome `None`) leaves the uploading marker set, as the source does; the rejection itself is not modelled further.
- AppStepForm.OnSubmit: `trigger` is modelled as the object check on the page's fields. The zod resolver pass of `handleSubmit` before it is left out.
- A JSON body whose `applicationId`, `securityAnswer` or `securityQuestion` is not a string: payload fields are modelled with their declared types.
- The webhook secret is a parameter. The mismatch between the variable route.ts reads and the one env.ts declares is not modelled.
- Supabase and AbacatePay calls: the insert outcome is a parameter, and the updates are returned as a list instead of executed.
- The other step forms (one, two, three) repeat step four's storage protocol. Their own rules are zod bounds or clock comparisons.
- React timing: the 200 ms delay of the once-per-mount autosave, fire-and-forget `fetch` and effect order. Saves and mounts are discrete events.
- Presentational components, `loadFormSchema`'s dynamic import and src/lib/form-client.ts are not part of this model.
- StepFour.StaleSaveClearsNewerPending states the race as the code has it. The fix is not modelled.

## Findings

| source | as written | input that shows it | evidently intended | confidence | as-written member | corrected member |
|---|---|---|---|---|---|---|
| src/lib/abacatepay/signature.ts:13-20 | the length guard compares `.length` (UTF-16 units), but `timingSafeEqual` needs equal UTF-8 byte lengths and throws otherwise | digest "ab" with header "éb": 2 units each, guard passes, 2 vs 3 bytes, `RangeError` thrown and the webhook answers 500 | a header of any other byte length is refused with `false` (401) | not executed | Signature.ValidateAsWritten, Signature.ThrowingExample, Webhook.ThrowingRequest | Signature.ValidateWebhookSignature, Signature.ValidIffDigest, Webhook.Handle |
