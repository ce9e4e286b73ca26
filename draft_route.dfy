/**
 * The draft endpoint of app/api/forms/draft/route.ts over the forms store.
 * A request body is `Some(payload)` when it parses as JSON other than `null`,
 * and `None` when `request.json()` throws or yields `null`, which Next.js
 * answers with 500. A JSON primitive or array reads every field as undefined:
 * it is the payload whose fields are all absent, refused with 400.
 * Each payload field is modelled with the type the route declares for it.
 */
module DraftRoute {
  import opened Wrappers
  import opened Js
  import opened FormsStore

  datatype DraftPayload = DraftPayload(
    applicationId: Option<string>,
    data: JsValue,
    securityQuestion: Option<string>,
    securityAnswer: Option<string>)

  datatype DraftReply =
    | BadRequest
    | NotFound
    | Unauthorized
    | Saved(updatedAt: string)
    | Loaded(data: JsValue, securityQuestion: Option<string>, updatedAt: string)
    | ServerError

  function Status(r: DraftReply): int {
    match r
    case BadRequest => 400
    case NotFound => 404
    case Unauthorized => 401
    case Saved(_) => 200
    case Loaded(_, _, _) => 200
    case ServerError => 500
  }

  /** The POST guard (line 13): a truthy `applicationId` and a truthy `data`. */
  predicate Complete(p: DraftPayload) {
    Given(p.applicationId) && Truthy(p.data)
  }

  /** `POST` (lines 5-25). */
  method Post(store: Store, body: Option<DraftPayload>, hash: string -> string, now: string)
    returns (reply: DraftReply)
    modifies store
    ensures body.None? ==> reply == ServerError && store.drafts == old(store.drafts)
    ensures body.Some? && !Complete(body.value) ==> reply == BadRequest && store.drafts == old(store.drafts)
    ensures body.Some? && Complete(body.value) ==>
      var p := body.value;
      reply == Saved(now) &&
      store.drafts == old(store.drafts)[p.applicationId.value :=
        NewDraft(p.applicationId.value, p.data, p.securityQuestion, p.securityAnswer, hash, now)]
    ensures store.submissions == old(store.submissions)
  {
    if body.None? {
      return ServerError;
    }
    var p := body.value;
    if !Given(p.applicationId) || !Truthy(p.data) {
      return BadRequest;
    }
    var record := store.SaveDraftRecord(p.applicationId.value, p.data, p.securityQuestion, p.securityAnswer, hash, now);
    reply := Saved(record.updatedAt);
  }

  /**
   * `GET` (lines 27-51) over the stored drafts: the `id` and `securityAnswer`
   * query parameters, `None` when absent.
   */
  function Load(drafts: map<string, DraftRecord>, id: Option<string>, answer: Option<string>,
                hash: string -> string): DraftReply
  {
    if !Given(id) then BadRequest
    else if id.value !in drafts then NotFound
    else
      var record := drafts[id.value];
      if !VerifyDraftAccess(record, answer, hash) then Unauthorized
      else Loaded(record.data, record.securityQuestion, record.updatedAt)
  }

  /** The handler itself, reading the store through `getDraftRecord`; it changes nothing. */
  method Get(store: Store, id: Option<string>, answer: Option<string>, hash: string -> string)
    returns (reply: DraftReply)
    ensures reply == Load(store.drafts, id, answer, hash)
  {
    if id.None? || id.value == "" {
      return BadRequest;
    }
    var record := store.GetDraftRecord(id.value);
    if record.None? {
      return NotFound;
    }
    if !VerifyDraftAccess(record.value, answer, hash) {
      return Unauthorized;
    }
    reply := Loaded(record.value.data, record.value.securityQuestion, record.value.updatedAt);
  }

  // ---------------------------------------------------------------------------
  // Properties

  /** The GET checks run in the order id, record, access; each answer holds exactly in its case. */
  lemma GuardOrder(drafts: map<string, DraftRecord>, id: Option<string>, answer: Option<string>, hash: string -> string)
    ensures var r := Load(drafts, id, answer, hash);
      (r == BadRequest <==> !Given(id)) &&
      (r == NotFound <==> Given(id) && id.value !in drafts) &&
      (r == Unauthorized <==> Given(id) && id.value in drafts && !VerifyDraftAccess(drafts[id.value], answer, hash)) &&
      (r.Loaded? <==> Given(id) && id.value in drafts && VerifyDraftAccess(drafts[id.value], answer, hash)) &&
      (r.Loaded? ==> r == Loaded(drafts[id.value].data, drafts[id.value].securityQuestion, drafts[id.value].updatedAt))
  {
  }

  /** An unprotected draft loads whatever answer is given. */
  lemma UnprotectedNeverRefused(drafts: map<string, DraftRecord>, id: string, answer: Option<string>, hash: string -> string)
    requires id != "" && id in drafts && !Given(drafts[id].securityAnswerHash)
    ensures Load(drafts, Some(id), answer, hash).Loaded?
  {
  }

  /** Saving a draft and loading it back with the same answer returns the saved data and question. */
  lemma RoundTrip(drafts: map<string, DraftRecord>, id: string, data: JsValue, q: Option<string>,
                  answer: Option<string>, hash: string -> string, now: string)
    requires id != "" && Truthy(data)
    ensures Load(drafts[id := NewDraft(id, data, q, answer, hash, now)], Some(id), answer, hash) == Loaded(data, q, now)
  {
    SaveThenVerify(id, data, q, answer, hash, now);
  }

  /** The same round trip through the handlers and the store. */
  method SaveThenLoad(store: Store, id: string, data: JsValue, q: Option<string>,
                      answer: Option<string>, hash: string -> string, now: string)
    returns (saved: DraftReply, loaded: DraftReply)
    requires id != "" && Truthy(data)
    modifies store
    ensures saved == Saved(now) && loaded == Loaded(data, q, now)
  {
    saved := Post(store, Some(DraftPayload(Some(id), data, q, answer)), hash, now);
    RoundTrip(old(store.drafts), id, data, q, answer, hash, now);
    loaded := Get(store, Some(id), answer, hash);
  }
}
