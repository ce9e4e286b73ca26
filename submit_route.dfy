/**
 * The submission endpoint of app/api/forms/submit/route.ts: its own
 * fixed-window limiter `isRateLimited` over the module-level `rateState` map
 * (a field of a `SubmitLimiter`), then the guards of `POST`. The client key is
 * the `x-forwarded-for` header, `Date.now()` is `now`, the loaded form schema is
 * `form`, `crypto.randomUUID()` is `uuid` and the ISO timestamp is `submittedAt`.
 * A request body is `Some(payload)` when it parses as JSON other than `null`,
 * and `None` when `request.json()` throws or yields `null`, which Next.js
 * answers with 500. A JSON primitive or array reads every field as undefined:
 * it is the payload whose fields are all absent, refused with 400.
 */
module SubmitRoute {
  import opened Wrappers
  import opened Js
  import opened Schema
  import opened Validator
  import opened FormsStore
  import RateLimit

  type Window = RateLimit.Window

  const WindowMs: int := 60000
  const MaxRequests: int := 5

  /** A fresh window here needs the old one to have closed strictly before `now` (line 11). */
  predicate Expired(state: map<string, Window>, key: string, now: int) {
    key !in state || state[key].resetAt < now
  }

  /** The new state and the answer of `isRateLimited(key)` at time `now` (lines 8-19). */
  function Limit(state: map<string, Window>, key: string, now: int): (map<string, Window>, bool) {
    if Expired(state, key, now) then (state[key := RateLimit.Window(1, now + WindowMs)], false)
    else if state[key].count >= MaxRequests then (state, true)
    else (state[key := RateLimit.Window(state[key].count + 1, state[key].resetAt)], false)
  }

  class SubmitLimiter {
    var rateState: map<string, Window>

    constructor()
      ensures rateState == map[]
    {
      rateState := map[];
    }

    method IsRateLimited(key: string, now: int) returns (limited: bool)
      modifies this
      ensures (rateState, limited) == Limit(old(rateState), key, now)
    {
      if key !in rateState || rateState[key].resetAt < now {
        rateState := rateState[key := RateLimit.Window(1, now + WindowMs)];
        return false;
      }
      var current := rateState[key];
      if current.count >= MaxRequests {
        return true;
      }
      current := current.(count := current.count + 1);
      rateState := rateState[key := current];
      limited := false;
    }
  }

  // ---------------------------------------------------------------------------
  // The limiter

  /** A call is limited exactly when an open window already holds 5 calls; a limited call changes nothing. */
  lemma LimitedIff(state: map<string, Window>, key: string, now: int)
    ensures var (s, limited) := Limit(state, key, now);
      (limited <==> !Expired(state, key, now) && state[key].count >= MaxRequests) &&
      (limited ==> s == state)
  {
  }

  /**
   * At `now == resetAt` this limiter still counts in the old window, while
   * `rateLimit` with the same limit and window opens a new one.
   */
  lemma BoundaryDiffers(state: map<string, Window>, key: string, now: int)
    requires key in state && state[key].resetAt == now
    ensures !Expired(state, key, now)
    ensures var (s, _) := Limit(state, key, now); key in s && s[key].resetAt == now
    ensures var (s, d) := RateLimit.Step(state, key, MaxRequests, WindowMs, now);
      s[key] == RateLimit.Window(1, now + WindowMs) && d.allowed
    ensures state[key].count >= MaxRequests ==> Limit(state, key, now).1
  {
  }

  /** The answers to calls at the given times, in order. */
  function Answers(state: map<string, Window>, key: string, times: seq<int>): seq<bool>
    decreases |times|
  {
    if times == [] then []
    else
      var (s, limited) := Limit(state, key, times[0]);
      [limited] + Answers(s, key, times[1..])
  }

  /** Before an open window closes, call `i` is limited exactly when the window already held 5 calls before it. */
  lemma {:induction false} InOpenWindow(state: map<string, Window>, key: string, times: seq<int>)
    requires key in state
    requires forall i | 0 <= i < |times| :: times[i] <= state[key].resetAt
    ensures var out := Answers(state, key, times);
      |out| == |times| &&
      forall i | 0 <= i < |out| :: out[i] <==> state[key].count + i >= MaxRequests
    decreases |times|
  {
    if times != [] {
      var (s, limited) := Limit(state, key, times[0]);
      assert key in s && s[key].resetAt == state[key].resetAt;
      InOpenWindow(s, key, times[1..]);
      var out := Answers(state, key, times);
      var rest := Answers(s, key, times[1..]);
      assert out == [limited] + rest;
      if state[key].count >= MaxRequests {
        assert s == state;
      } else {
        assert s[key].count == state[key].count + 1;
      }
      assert forall i | 1 <= i < |out| :: out[i] == rest[i - 1];
    }
  }

  /** From the call that opens a window up to its end, the first 5 calls pass and every later one is limited. */
  lemma FirstFivePass(state: map<string, Window>, key: string, times: seq<int>)
    requires |times| >= 1 && Expired(state, key, times[0])
    requires forall i | 1 <= i < |times| :: times[i] <= times[0] + WindowMs
    ensures var out := Answers(state, key, times);
      |out| == |times| && forall i | 0 <= i < |out| :: out[i] <==> i >= MaxRequests
  {
    var (s, limited) := Limit(state, key, times[0]);
    assert s[key] == RateLimit.Window(1, times[0] + WindowMs);
    InOpenWindow(s, key, times[1..]);
    var out := Answers(state, key, times);
    assert out == [false] + Answers(s, key, times[1..]);
  }

  // ---------------------------------------------------------------------------
  // POST

  datatype SubmitPayload = SubmitPayload(applicationId: Option<string>, data: JsValue)

  datatype SubmitReply =
    | RateLimited
    | BadRequest
    | Unprocessable(fieldErrors: set<(string, Code)>)
    | Confirmed(confirmationNumber: string)
    | ServerError

  function Status(r: SubmitReply): int {
    match r
    case RateLimited => 429
    case BadRequest => 400
    case Unprocessable(_) => 422
    case Confirmed(_) => 200
    case ServerError => 500
  }

  /** `x-forwarded-for ?? "unknown"` (line 22). */
  function ClientKey(forwardedFor: Option<string>): string {
    forwardedFor.GetOr("unknown")
  }

  /**
   * `error.flatten().fieldErrors`: each issue under a top-level key, filed under
   * that key; issues at the root go to `formErrors` and are not sent.
   */
  function FieldErrors(issues: set<Issue>): set<(string, Code)> {
    set x | x in issues && |x.path| > 0 && x.path[0].Key? :: (x.path[0].name, x.code)
  }

  /** The guard at line 32: a truthy `applicationId` and a truthy `data`. */
  predicate Complete(p: SubmitPayload) {
    Given(p.applicationId) && Truthy(p.data)
  }

  /** The answer of `POST` (lines 21-56), given what the limiter said. */
  function Reply(limited: bool, body: Option<SubmitPayload>, form: FormSchema,
                 isDate: string -> bool, uuid: string): SubmitReply
  {
    if limited then RateLimited
    else if body.None? then ServerError
    else if !Complete(body.value) then BadRequest
    else
      var issues := ValidateForm(form, body.value.data, isDate);
      if issues != {} then Unprocessable(FieldErrors(issues))
      else Confirmed(AsciiUpper(uuid))
  }

  method Post(limiter: SubmitLimiter, store: Store, forwardedFor: Option<string>, now: int,
              body: Option<SubmitPayload>, form: FormSchema, isDate: string -> bool,
              uuid: string, submittedAt: string)
    returns (reply: SubmitReply)
    modifies limiter, store
    ensures limiter.rateState == Limit(old(limiter.rateState), ClientKey(forwardedFor), now).0
    ensures reply == Reply(Limit(old(limiter.rateState), ClientKey(forwardedFor), now).1, body, form, isDate, uuid)
    ensures reply.Confirmed? ==>
      store.submissions == old(store.submissions)[reply.confirmationNumber :=
        NewSubmission(body.value.applicationId.value, ParsedData(AllFields(form.steps), body.value.data), uuid, submittedAt)]
    ensures !reply.Confirmed? ==> store.submissions == old(store.submissions)
    ensures store.drafts == old(store.drafts)
  {
    var limited := limiter.IsRateLimited(ClientKey(forwardedFor), now);
    if limited {
      return RateLimited;
    }
    if body.None? {
      return ServerError;
    }
    var p := body.value;
    if !Given(p.applicationId) || !Truthy(p.data) {
      return BadRequest;
    }
    var issues := ValidateForm(form, p.data, isDate);
    if issues != {} {
      return Unprocessable(FieldErrors(issues));
    }
    var record := store.SaveSubmissionRecord(p.applicationId.value, ParsedData(AllFields(form.steps), p.data), uuid, submittedAt);
    reply := Confirmed(record.confirmationNumber);
  }

  // ---------------------------------------------------------------------------
  // Properties of POST

  /** A limited client gets 429 whatever it sent: the body is not looked at. */
  lemma LimitComesFirst(body: Option<SubmitPayload>, form: FormSchema, isDate: string -> bool, uuid: string)
    ensures Reply(true, body, form, isDate, uuid) == RateLimited
  {
  }

  /** A body without a truthy `applicationId` or `data` is a 400, before any validation. */
  lemma IncompleteIsBadRequest(p: SubmitPayload, form: FormSchema, isDate: string -> bool, uuid: string)
    requires !Complete(p)
    ensures Reply(false, Some(p), form, isDate, uuid) == BadRequest
  {
  }

  /** A submission is confirmed exactly when it is not limited, is complete and passes the whole-form check. */
  lemma ConfirmedIff(limited: bool, body: Option<SubmitPayload>, form: FormSchema, isDate: string -> bool, uuid: string)
    ensures Reply(limited, body, form, isDate, uuid).Confirmed? <==>
            !limited && body.Some? && Complete(body.value) && ValidateForm(form, body.value.data, isDate) == {}
    ensures Reply(limited, body, form, isDate, uuid).Confirmed? ==>
            Reply(limited, body, form, isDate, uuid).confirmationNumber == AsciiUpper(uuid)
  {
  }

  /** Every issue under a top-level key reaches the 422 answer, filed under that key. */
  lemma IssueReported(p: SubmitPayload, form: FormSchema, isDate: string -> bool, uuid: string, x: Issue)
    requires Complete(p) && x in ValidateForm(form, p.data, isDate) && |x.path| > 0 && x.path[0].Key?
    ensures var r := Reply(false, Some(p), form, isDate, uuid);
      r.Unprocessable? && (x.path[0].name, x.code) in r.fieldErrors
  {
  }

  /** Truthy `data` that is not an object (a string, a number, an array) is a 422 with no field errors. */
  lemma NonObjectDataRefused(p: SubmitPayload, form: FormSchema, isDate: string -> bool, uuid: string)
    requires Complete(p) && !p.data.Obj?
    ensures Reply(false, Some(p), form, isDate, uuid) == Unprocessable({})
  {
    var issues := ValidateForm(form, p.data, isDate);
    assert issues == {Issue([], ZodType)};
    assert FieldErrors(issues) == {};
  }
}
