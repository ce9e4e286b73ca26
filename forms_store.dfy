/**
 * The in-memory draft and submission store of src/lib/forms-store.ts. The two
 * module-level maps are the fields of a `Store`. The SHA-256 digest is the
 * parameter `hash`, `new Date().toISOString()` the parameter `now`, and
 * `crypto.randomUUID()` the parameter `uuid`.
 */
module FormsStore {
  import opened Wrappers
  import opened Js

  datatype DraftRecord = DraftRecord(
    applicationId: string,
    securityQuestion: Option<string>,
    securityAnswerHash: Option<string>,
    data: JsValue,
    updatedAt: string)

  datatype SubmissionRecord = SubmissionRecord(
    confirmationNumber: string,
    applicationId: string,
    data: JsValue,
    submittedAt: string)

  /** A truthy string argument: present and not empty. */
  predicate Given(s: Option<string>) {
    s.Some? && s.value != ""
  }

  /** The record `saveDraftRecord` builds (lines 30-36): the answer's hash only when an answer is given. */
  function NewDraft(applicationId: string, data: JsValue, securityQuestion: Option<string>,
                    securityAnswer: Option<string>, hash: string -> string, now: string): (r: DraftRecord)
    ensures r.securityAnswerHash.Some? <==> Given(securityAnswer)
    ensures Given(securityAnswer) ==> r.securityAnswerHash == Some(hash(securityAnswer.value))
    ensures r.applicationId == applicationId && r.data == data && r.securityQuestion == securityQuestion
    ensures r.updatedAt == now
  {
    DraftRecord(applicationId, securityQuestion,
                if Given(securityAnswer) then Some(hash(securityAnswer.value)) else None,
                data, now)
  }

  /** `verifyDraftAccess` (lines 44-51). */
  function VerifyDraftAccess(record: DraftRecord, securityAnswer: Option<string>, hash: string -> string): bool {
    if !Given(record.securityAnswerHash) then true
    else if !Given(securityAnswer) then false
    else record.securityAnswerHash.value == hash(securityAnswer.value)
  }

  /** The record `saveSubmissionRecord` builds (lines 57-63): its number is the upper-cased UUID. */
  function NewSubmission(applicationId: string, data: JsValue, uuid: string, now: string): (r: SubmissionRecord)
    ensures r.confirmationNumber == AsciiUpper(uuid)
    ensures r.applicationId == applicationId && r.data == data && r.submittedAt == now
  {
    SubmissionRecord(AsciiUpper(uuid), applicationId, data, now)
  }

  class Store {
    var drafts: map<string, DraftRecord>
    var submissions: map<string, SubmissionRecord>

    constructor()
      ensures drafts == map[] && submissions == map[]
    {
      drafts := map[];
      submissions := map[];
    }

    /** `saveDraftRecord` (lines 24-39): the new record replaces whatever was stored for the id. */
    method SaveDraftRecord(applicationId: string, data: JsValue, securityQuestion: Option<string>,
                           securityAnswer: Option<string>, hash: string -> string, now: string)
      returns (record: DraftRecord)
      modifies this
      ensures record == NewDraft(applicationId, data, securityQuestion, securityAnswer, hash, now)
      ensures drafts == old(drafts)[applicationId := record]
      ensures submissions == old(submissions)
    {
      record := NewDraft(applicationId, data, securityQuestion, securityAnswer, hash, now);
      drafts := drafts[applicationId := record];
    }

    /** `getDraftRecord` (lines 41-42): `None` is the source's `null`. */
    function GetDraftRecord(applicationId: string): (r: Option<DraftRecord>)
      reads this
      ensures r.Some? <==> applicationId in drafts
      ensures r.Some? ==> r.value == drafts[applicationId]
    {
      if applicationId in drafts then Some(drafts[applicationId]) else None
    }

    /** `saveSubmissionRecord` (lines 53-66): stored under its own confirmation number. */
    method SaveSubmissionRecord(applicationId: string, data: JsValue, uuid: string, now: string)
      returns (record: SubmissionRecord)
      modifies this
      ensures record == NewSubmission(applicationId, data, uuid, now)
      ensures submissions == old(submissions)[record.confirmationNumber := record]
      ensures drafts == old(drafts)
    {
      record := NewSubmission(applicationId, data, uuid, now);
      submissions := submissions[record.confirmationNumber := record];
    }

    /** `getSubmissionRecord` (lines 68-69). */
    function GetSubmissionRecord(confirmationNumber: string): (r: Option<SubmissionRecord>)
      reads this
      ensures r.Some? <==> confirmationNumber in submissions
      ensures r.Some? ==> r.value == submissions[confirmationNumber]
    {
      if confirmationNumber in submissions then Some(submissions[confirmationNumber]) else None
    }
  }

  // ---------------------------------------------------------------------------
  // Properties of the store and of the access check

  /** Saving a draft answers for its own id with the new record and leaves every other id as it was. */
  lemma LastDraftWins(drafts: map<string, DraftRecord>, r: DraftRecord, id: string, other: string)
    requires other != id
    ensures drafts[id := r][id] == r
    ensures (other in drafts[id := r] <==> other in drafts) &&
            (other in drafts ==> drafts[id := r][other] == drafts[other])
  {
  }

  /** Re-saving without an answer leaves the draft unprotected. */
  lemma ResaveWithoutAnswerUnprotects(applicationId: string, data: JsValue, q: Option<string>,
                                      answer: Option<string>, hash: string -> string, now: string)
    requires !Given(answer)
    ensures forall a :: VerifyDraftAccess(NewDraft(applicationId, data, q, answer, hash, now), a, hash)
  {
  }

  /** An unprotected record opens to anyone, whatever answer is given. */
  lemma UnprotectedOpens(record: DraftRecord, answer: Option<string>, hash: string -> string)
    requires !Given(record.securityAnswerHash)
    ensures VerifyDraftAccess(record, answer, hash)
  {
  }

  /** A protected record needs a non-empty answer whose hash is the stored one. */
  lemma ProtectedNeedsAnswer(record: DraftRecord, answer: Option<string>, hash: string -> string)
    requires Given(record.securityAnswerHash)
    ensures VerifyDraftAccess(record, answer, hash) <==>
            Given(answer) && hash(answer.value) == record.securityAnswerHash.value
  {
  }

  /** A draft saved with an answer (or none) opens with that same answer: `hash` is a function, so it is deterministic. */
  lemma SaveThenVerify(applicationId: string, data: JsValue, q: Option<string>,
                       answer: Option<string>, hash: string -> string, now: string)
    ensures VerifyDraftAccess(NewDraft(applicationId, data, q, answer, hash, now), answer, hash)
  {
  }

  /** A draft protected by a non-empty digest refuses every answer whose digest differs. */
  lemma WrongAnswerRefused(applicationId: string, data: JsValue, q: Option<string>,
                           answer: string, other: string, hash: string -> string, now: string)
    requires answer != "" && other != "" && hash(answer) != "" && hash(other) != hash(answer)
    ensures !VerifyDraftAccess(NewDraft(applicationId, data, q, Some(answer), hash, now), Some(other), hash)
  {
  }

  /** A submission is found again under the number it was stored with. */
  lemma SubmissionFoundByNumber(submissions: map<string, SubmissionRecord>, applicationId: string,
                                data: JsValue, uuid: string, now: string)
    ensures var r := NewSubmission(applicationId, data, uuid, now);
      submissions[r.confirmationNumber := r][AsciiUpper(uuid)] == r
  {
  }
}
