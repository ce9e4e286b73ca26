/**
 * The fourth wizard page (src/components/app/step-four-form.tsx): the
 * `superRefine` rule for the year of the last visit, and the protocol that
 * keeps the answers in `localStorage` under three keys per application — the
 * cached form, the pending (not yet acknowledged) snapshot and the last
 * snapshot the server accepted. `new Date().getFullYear()` is the parameter
 * `currentYear`, `JSON.parse` the parameter `parseJson` (`None` when it throws),
 * and each effect, save completion and submit is one method call.
 */
module StepFour {
  import opened Wrappers
  import opened Js

  // ---------------------------------------------------------------------------
  // The rule for `lastVisitYear` (lines 24-44)

  const MissingYear: string := "Informe o ano da \U{00FA}ltima visita."
  const InvalidYear: string := "Informe um ano v\U{00E1}lido."

  predicate AllDigits(s: string) {
    forall i | 0 <= i < |s| :: '0' <= s[i] <= '9'
  }

  function DecimalValue(s: string): nat
    requires AllDigits(s)
  {
    if s == [] then 0 else DecimalValue(s[..|s| - 1]) * 10 + (s[|s| - 1] as int - '0' as int)
  }

  /** `Number(s)` on a string of decimal digits; every other string counts as `NaN`. */
  function YearNumber(s: string): Option<int> {
    if |s| > 0 && AllDigits(s) then Some(DecimalValue(s)) else None
  }

  /** `z.string().trim().optional()` (line 14): the refinement sees the trimmed value. */
  function ParsedYear(raw: Option<string>): Option<string> {
    if raw.None? then None else Some(Trim(raw.value))
  }

  /**
   * The messages the refinement adds at `["lastVisitYear"]` for the raw
   * answer. The refinement runs once the enums have parsed, so `visitedUsa` is
   * "yes" or "no".
   */
  function YearIssues(visitedUsa: string, raw: Option<string>, currentYear: int): seq<string> {
    var lastVisitYear := ParsedYear(raw);
    if visitedUsa != "yes" then []
    else if lastVisitYear.None? || lastVisitYear.value == "" || Utf16Length(lastVisitYear.value) < 4 then [MissingYear]
    else
      match YearNumber(lastVisitYear.value)
      case None => [InvalidYear]
      case Some(year) => if year < 1900 || year > currentYear then [InvalidYear] else []
  }

  /** Without a visit the year is never looked at. */
  lemma NotVisitedNeverChecked(lastVisitYear: Option<string>, currentYear: int)
    ensures YearIssues("no", lastVisitYear, currentYear) == []
  {
  }

  /** A missing or short year gives exactly the one "Informe o ano..." issue and nothing else. */
  lemma ShortYearOneIssue(raw: Option<string>, currentYear: int)
    requires raw.None? || Utf16Length(Trim(raw.value)) < 4
    ensures YearIssues("yes", raw, currentYear) == [MissingYear]
  {
  }

  /**
   * A trimmed year of four or more UTF-16 units passes exactly when it is a
   * number from 1900 to the current year; otherwise it gets the one
   * "Informe um ano válido." issue.
   */
  lemma LongYearChecked(raw: string, currentYear: int)
    requires Utf16Length(Trim(raw)) >= 4
    ensures var y := Trim(raw);
      var r := YearIssues("yes", Some(raw), currentYear);
      (r == [] <==> AllDigits(y) && 1900 <= DecimalValue(y) <= currentYear) &&
      (r != [] ==> r == [InvalidYear])
  {
    var y := Trim(raw);
    assert y != [];
    assert ParsedYear(Some(raw)) == Some(y);
    if AllDigits(y) {
      assert YearNumber(y) == Some(DecimalValue(y));
    } else {
      assert YearNumber(y) == None;
    }
  }

  /** The rule adds at most one issue. */
  lemma AtMostOneIssue(visitedUsa: string, lastVisitYear: Option<string>, currentYear: int)
    ensures |YearIssues(visitedUsa, lastVisitYear, currentYear)| <= 1
  {
  }

  /** The year's field is rendered exactly when the rule looks at it (line 207). */
  predicate ShowsLastVisitYear(values: Bag) {
    Get(values, "visitedUsa") == Str("yes")
  }

  /**
   * For every bag whose `visitedUsa` is a string: the year's field is rendered
   * exactly when the rule reports on a missing year, and a field that is not
   * rendered never gets an issue, whatever the year holds.
   */
  lemma HiddenYearNeverChecked(values: Bag, currentYear: int)
    requires Get(values, "visitedUsa").Str?
    ensures var visitedUsa := Get(values, "visitedUsa").s;
      (ShowsLastVisitYear(values) <==> YearIssues(visitedUsa, None, currentYear) != []) &&
      (!ShowsLastVisitYear(values) ==> forall raw :: YearIssues(visitedUsa, raw, currentYear) == [])
  {
  }

  // ---------------------------------------------------------------------------
  // Storage keys (lines 78-89)

  function StorageKey(applicationId: string): string {
    "visa-ai:step-4:" + applicationId
  }

  function PendingKey(applicationId: string): string {
    "visa-ai:step-4:pending:" + applicationId
  }

  function LastSavedKey(applicationId: string): string {
    "visa-ai:step-4:last-saved:" + applicationId
  }

  /** One application's three keys are pairwise distinct. */
  lemma KeysDistinct(id: string)
    ensures StorageKey(id) != PendingKey(id)
    ensures StorageKey(id) != LastSavedKey(id)
    ensures PendingKey(id) != LastSavedKey(id)
  {
    assert |StorageKey(id)| != |PendingKey(id)|;
    assert |StorageKey(id)| != |LastSavedKey(id)|;
    assert |PendingKey(id)| != |LastSavedKey(id)|;
  }

  /** Each key names one application only. */
  lemma KeysPerApplication(a: string, b: string)
    requires a != b
    ensures StorageKey(a) != StorageKey(b)
    ensures PendingKey(a) != PendingKey(b)
    ensures LastSavedKey(a) != LastSavedKey(b)
  {
    var s := "visa-ai:step-4:";
    var p := "visa-ai:step-4:pending:";
    var l := "visa-ai:step-4:last-saved:";
    assert StorageKey(a)[|s|..] == a && StorageKey(b)[|s|..] == b;
    assert PendingKey(a)[|p|..] == a && PendingKey(b)[|p|..] == b;
    assert LastSavedKey(a)[|l|..] == a && LastSavedKey(b)[|l|..] == b;
  }

  // ---------------------------------------------------------------------------
  // Restoring the cached answers (lines 68-75, 120-143)

  /** The six answers of the page. */
  const AnswerKeys: seq<string> :=
    ["visitedUsa", "lastVisitYear", "visaDenied", "overstayDeportation", "traveledLast5Years", "observations"]

  /** The value an answer falls back to: "" for the two texts, "no" for the four choices. */
  function Fallback(key: string): string {
    if key in ["lastVisitYear", "observations"] then "" else "no"
  }

  /** `parsed.x ?? initialValues.x ?? fallback`, for each of the six answers. */
  function Restored(parsed: Bag, initial: Bag): (r: Bag)
    ensures r.Keys == set k | k in AnswerKeys
  {
    map k | k in AnswerKeys :: Coalesce(Get(parsed, k), Coalesce(Get(initial, k), Str(Fallback(k))))
  }

  // ---------------------------------------------------------------------------
  // The storage protocol, one function per event on the string-to-string store

  type Items = map<string, string>

  /** `getItem(key)` is truthy: present and not "". */
  predicate Has(items: Items, key: string) {
    key in items && items[key] != ""
  }

  /** The submit handler (lines 176-187): always cache, and mark pending only what differs from the last save. */
  function SubmitItems(items: Items, id: string, serialized: string): Items {
    var cached := items[StorageKey(id) := serialized];
    if LastSavedKey(id) in items && items[LastSavedKey(id)] == serialized then cached
    else cached[PendingKey(id) := serialized]
  }

  /** The end of `saveInBackground` (lines 93-114): only an ok response clears pending and records the snapshot. */
  function SavedItems(items: Items, id: string, snapshot: string, ok: bool): Items {
    if ok then (items - {PendingKey(id)})[LastSavedKey(id) := snapshot] else items
  }

  datatype MountAction = NoPending | DroppedPending | DeletedPending | Resent(values: JsValue)

  /** The pending effect on mount (lines 154-169). */
  function Resend(items: Items, id: string, parseJson: string -> Option<JsValue>): (Items, MountAction) {
    if !Has(items, PendingKey(id)) then (items, NoPending)
    else
      var pending := items[PendingKey(id)];
      if LastSavedKey(id) in items && items[LastSavedKey(id)] == pending then
        (items - {PendingKey(id)}, DroppedPending)
      else if parseJson(pending).None? then (items - {PendingKey(id)}, DeletedPending)
      else (items, Resent(parseJson(pending).value))
  }

  /** The restore effect on mount: the values `reset` receives, if any, and the store afterwards. */
  function Restore(items: Items, id: string, initial: Bag, parseJson: string -> Option<JsValue>): (Items, Option<Bag>) {
    if !Has(items, StorageKey(id)) then (items, None)
    else
      match parseJson(items[StorageKey(id)])
      case None => (items - {StorageKey(id)}, None)
      case Some(Null) => (items - {StorageKey(id)}, None)
      case Some(Obj(m)) => (items, Some(Restored(m, initial)))
      case Some(_) => (items, Some(Restored(map[], initial)))
  }

  /** A non-empty pending snapshot is never the one already saved. */
  predicate Settled(items: Items, id: string) {
    Has(items, PendingKey(id)) ==>
      !(LastSavedKey(id) in items && items[LastSavedKey(id)] == items[PendingKey(id)])
  }

  class StepFourStorage {
    var items: Items
    const applicationId: string

    constructor(applicationId: string, items: Items)
      ensures this.applicationId == applicationId && this.items == items
    {
      this.applicationId := applicationId;
      this.items := items;
    }

    /** The submit handler; `started` is whether a background save was started. */
    method Submit(serialized: string) returns (started: bool)
      modifies this
      ensures items == SubmitItems(old(items), applicationId, serialized)
      ensures started <==> !(LastSavedKey(applicationId) in old(items) && old(items)[LastSavedKey(applicationId)] == serialized)
    {
      var lastSaved: Option<string> := if LastSavedKey(applicationId) in items then Some(items[LastSavedKey(applicationId)]) else None;
      items := items[StorageKey(applicationId) := serialized];
      started := lastSaved != Some(serialized);
      if started {
        items := items[PendingKey(applicationId) := serialized];
      }
    }

    /**
     * The autosave effect (lines 145-152). Its dependencies are `storageKey`
     * and the stable `watch`, so it runs once per mount and writes, 200 ms
     * later, the values `watch()` returned then, not after every edit.
     */
    method Autosave(serialized: string)
      modifies this
      ensures items == old(items)[StorageKey(applicationId) := serialized]
    {
      items := items[StorageKey(applicationId) := serialized];
    }

    /** A background save finishing; `ok` is false for a failed response and for a thrown `fetch`. */
    method SaveFinished(snapshot: string, ok: bool)
      modifies this
      ensures items == SavedItems(old(items), applicationId, snapshot, ok)
    {
      if ok {
        items := items - {PendingKey(applicationId)};
        items := items[LastSavedKey(applicationId) := snapshot];
      }
    }

    method ResendOnMount(parseJson: string -> Option<JsValue>) returns (action: MountAction)
      modifies this
      ensures (items, action) == Resend(old(items), applicationId, parseJson)
    {
      if PendingKey(applicationId) !in items || items[PendingKey(applicationId)] == "" {
        return NoPending;
      }
      var pending := items[PendingKey(applicationId)];
      if LastSavedKey(applicationId) in items && items[LastSavedKey(applicationId)] == pending {
        items := items - {PendingKey(applicationId)};
        return DroppedPending;
      }
      var parsed := parseJson(pending);
      if parsed.None? {
        items := items - {PendingKey(applicationId)};
        return DeletedPending;
      }
      action := Resent(parsed.value);
    }

    method RestoreOnMount(initial: Bag, parseJson: string -> Option<JsValue>) returns (reset: Option<Bag>)
      modifies this
      ensures (items, reset) == Restore(old(items), applicationId, initial, parseJson)
    {
      if StorageKey(applicationId) !in items || items[StorageKey(applicationId)] == "" {
        return None;
      }
      var parsed := parseJson(items[StorageKey(applicationId)]);
      match parsed {
        case None =>
          items := items - {StorageKey(applicationId)};
          reset := None;
        case Some(Null) =>
          items := items - {StorageKey(applicationId)};
          reset := None;
        case Some(Obj(m)) =>
          reset := Some(Restored(m, initial));
        case Some(_) =>
          reset := Some(Restored(map[], initial));
      }
    }
  }

  // ---------------------------------------------------------------------------
  // Properties of the protocol

  /** Submit always caches the values; it marks them pending exactly when they differ from the last save. */
  lemma SubmitEffect(items: Items, id: string, s: string)
    ensures var r := SubmitItems(items, id, s);
      r[StorageKey(id)] == s &&
      (PendingKey(id) in r && r[PendingKey(id)] == s <==>
       !(LastSavedKey(id) in items && items[LastSavedKey(id)] == s) ||
       (PendingKey(id) in items && items[PendingKey(id)] == s)) &&
      (LastSavedKey(id) in r <==> LastSavedKey(id) in items) &&
      (LastSavedKey(id) in items ==> r[LastSavedKey(id)] == items[LastSavedKey(id)])
  {
    KeysDistinct(id);
  }

  /** A successful save clears pending and records its snapshot; a failed one changes nothing, so pending stays for a retry. */
  lemma SaveEffect(items: Items, id: string, snapshot: string, ok: bool)
    ensures ok ==> PendingKey(id) !in SavedItems(items, id, snapshot, ok) &&
                   SavedItems(items, id, snapshot, ok)[LastSavedKey(id)] == snapshot
    ensures !ok ==> SavedItems(items, id, snapshot, ok) == items
  {
    KeysDistinct(id);
  }

  /** Submit and save completions keep a pending snapshot distinct from the last save. */
  lemma SubmitKeepsSettled(items: Items, id: string, s: string)
    requires Settled(items, id)
    ensures Settled(SubmitItems(items, id, s), id)
  {
    KeysDistinct(id);
  }

  lemma SaveKeepsSettled(items: Items, id: string, snapshot: string, ok: bool)
    requires Settled(items, id)
    ensures Settled(SavedItems(items, id, snapshot, ok), id)
  {
    KeysDistinct(id);
  }

  /** After the mount effect, whatever the store held, no pending snapshot equals the last save. */
  lemma MountSettles(items: Items, id: string, parseJson: string -> Option<JsValue>)
    ensures Settled(Resend(items, id, parseJson).0, id)
  {
    KeysDistinct(id);
  }

  /** The mount effect only ever touches the pending key. */
  lemma MountTouchesPendingOnly(items: Items, id: string, parseJson: string -> Option<JsValue>, k: string)
    requires k != PendingKey(id)
    ensures var r := Resend(items, id, parseJson).0;
      (k in r <==> k in items) && (k in items ==> r[k] == items[k])
  {
  }

  /** A pending snapshot equal to the last save is dropped without a request. */
  lemma EqualPendingDropped(items: Items, id: string, parseJson: string -> Option<JsValue>)
    requires Has(items, PendingKey(id)) && LastSavedKey(id) in items
    requires items[LastSavedKey(id)] == items[PendingKey(id)]
    ensures Resend(items, id, parseJson) == (items - {PendingKey(id)}, DroppedPending)
  {
  }

  /** A submit whose save failed is sent again on the next mount, when its snapshot parses. */
  lemma FailedSaveIsResent(items: Items, id: string, s: string, parseJson: string -> Option<JsValue>)
    requires s != "" && !(LastSavedKey(id) in items && items[LastSavedKey(id)] == s) && parseJson(s).Some?
    ensures var after := SavedItems(SubmitItems(items, id, s), id, s, false);
      Resend(after, id, parseJson) == (after, Resent(parseJson(s).value))
  {
    KeysDistinct(id);
  }

  /** A submit whose save succeeded leaves nothing to send on the next mount. */
  lemma SavedSubmitNotResent(items: Items, id: string, s: string, parseJson: string -> Option<JsValue>)
    ensures var after := SavedItems(SubmitItems(items, id, s), id, s, true);
      Resend(after, id, parseJson) == (after, NoPending)
  {
  }

  /**
   * Completions are not matched to their snapshot: an earlier save that
   * succeeds after a later submit clears the later pending snapshot too.
   */
  lemma StaleSaveClearsNewerPending(items: Items, id: string, older: string, newer: string)
    requires older != newer && !(LastSavedKey(id) in items && items[LastSavedKey(id)] == newer)
    ensures var pendingNewer := SubmitItems(SubmitItems(items, id, older), id, newer);
      PendingKey(id) in pendingNewer && pendingNewer[PendingKey(id)] == newer &&
      PendingKey(id) !in SavedItems(pendingNewer, id, older, true)
  {
    KeysDistinct(id);
  }

  /** An unparsable cache is deleted; a cached `null` too, since reading a property of it throws inside the `try`. */
  lemma BadCacheDeleted(items: Items, id: string, initial: Bag, parseJson: string -> Option<JsValue>)
    requires Has(items, StorageKey(id))
    requires parseJson(items[StorageKey(id)]).None? || parseJson(items[StorageKey(id)]) == Some(Null)
    ensures Restore(items, id, initial, parseJson) == (items - {StorageKey(id)}, None)
  {
  }

  /** Each restored answer is the cached one unless nullish, then the initial one unless nullish, then its fallback. */
  lemma RestoredAnswer(parsed: Bag, initial: Bag, key: string)
    requires key in AnswerKeys
    ensures key in Restored(parsed, initial)
    ensures Restored(parsed, initial)[key] ==
            Coalesce(Get(parsed, key), Coalesce(Get(initial, key), Str(if key in ["lastVisitYear", "observations"] then "" else "no")))
  {
  }
}
