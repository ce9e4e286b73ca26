/**
 * The AbacatePay webhook of app/api/webhooks/abacatepay/route.ts: the
 * payment-status normalisation, the chain of guards, and which database
 * updates the handler issues. The configured secret is the parameter `secret`,
 * `JSON.parse` the parameter `parseJson` (`None` when it throws), the HMAC the
 * parameter `hmac`, and the outcome of inserting the event into
 * `payment_events` the parameter `insert`. The updates are returned as data
 * rather than sent.
 */
module Webhook {
  import opened Wrappers
  import opened Js
  import Signature

  datatype PaymentStatus = Pending | Approved | Failed | Refunded

  /** The word each status is written as. */
  function StatusName(s: PaymentStatus): string {
    match s
    case Pending => "pending"
    case Approved => "approved"
    case Failed => "failed"
    case Refunded => "refunded"
  }

  /**
   * `mapPaymentStatus` (lines 20-27). `toLowerCase` is taken on ASCII letters
   * only: no other character lower-cases into one of the listed words.
   */
  function MapPaymentStatus(status: Option<string>): PaymentStatus {
    if status.None? || status.value == "" then Pending
    else
      var normalized := AsciiLower(status.value);
      if normalized in ["approved", "paid", "success"] then Approved
      else if normalized in ["failed", "canceled", "cancelled"] then Failed
      else if normalized in ["refunded"] then Refunded
      else Pending
  }

  // ---------------------------------------------------------------------------
  // Properties of the status mapping

  lemma AbsentStatusPending()
    ensures MapPaymentStatus(None) == Pending && MapPaymentStatus(Some("")) == Pending
  {
  }

  /** Each status comes from exactly its own words, in any letter case. */
  lemma StatusWords(s: string)
    ensures MapPaymentStatus(Some(s)) == Approved <==> AsciiLower(s) in ["approved", "paid", "success"]
    ensures MapPaymentStatus(Some(s)) == Failed <==> AsciiLower(s) in ["failed", "canceled", "cancelled"]
    ensures MapPaymentStatus(Some(s)) == Refunded <==> AsciiLower(s) == "refunded"
  {
    if s == "" {
      assert AsciiLower(s) == "";
    }
  }

  lemma {:induction false} LowerUpper(s: string)
    ensures AsciiLower(AsciiUpper(s)) == AsciiLower(s)
  {
    var a := AsciiLower(AsciiUpper(s));
    var b := AsciiLower(s);
    assert |a| == |b|;
    forall i | 0 <= i < |s|
      ensures a[i] == b[i]
    {
      var c := s[i];
      if 'a' <= c <= 'z' {
        assert AsciiUpperChar(c) as int == c as int - 32;
      }
    }
  }

  /** The mapping ignores the letter case of its input. */
  lemma CaseInsensitive(s: string)
    ensures MapPaymentStatus(Some(AsciiUpper(s))) == MapPaymentStatus(Some(s))
  {
    LowerUpper(s);
  }

  /** Mapping a status's own word gives that status back, so mapping twice is mapping once. */
  lemma Idempotent(status: Option<string>)
    ensures MapPaymentStatus(Some(StatusName(MapPaymentStatus(status)))) == MapPaymentStatus(status)
  {
    NameMapsBack(MapPaymentStatus(status));
  }

  lemma NameMapsBack(s: PaymentStatus)
    ensures MapPaymentStatus(Some(StatusName(s))) == s
  {
    match s
    case Pending => PendingWord();
    case Approved => ApprovedWord();
    case Failed => FailedWord();
    case Refunded => RefundedWord();
  }

  lemma PendingWord()
    ensures MapPaymentStatus(Some("pending")) == Pending
  {
    LowerOf("pending");
  }

  lemma ApprovedWord()
    ensures MapPaymentStatus(Some("approved")) == Approved
  {
    LowerOf("approved");
  }

  lemma FailedWord()
    ensures MapPaymentStatus(Some("failed")) == Failed
  {
    LowerOf("failed");
  }

  lemma RefundedWord()
    ensures MapPaymentStatus(Some("refunded")) == Refunded
  {
    LowerOf("refunded");
  }

  lemma LowerOf(s: string)
    requires forall i | 0 <= i < |s| :: 'a' <= s[i] <= 'z'
    ensures AsciiLower(s) == s
  {
  }

  // ---------------------------------------------------------------------------
  // The handler

  /** What inserting the event row gave: a new row, the unique-key violation `23505`, or another error. */
  datatype InsertOutcome = Inserted | DuplicateEvent | InsertError

  datatype Update =
    | PaymentByProviderId(providerPaymentId: JsValue, status: PaymentStatus)
    | PaymentByReference(providerReference: JsValue, status: PaymentStatus)
    | ApplicationPaid(applicationId: JsValue)

  /** The HTTP status, the `ok` flag, the event recorded (if the insert was attempted) and the updates issued. */
  datatype WebhookOutcome = WebhookOutcome(status: int, ok: bool, recordedEvent: Option<JsValue>, updates: seq<Update>)

  function Refuse(status: int): WebhookOutcome {
    WebhookOutcome(status, false, None, [])
  }

  /** `v.name` on a parsed JSON value: `None` for the `TypeError` of reading a property of `null`. */
  function Prop(v: JsValue, name: string): Option<JsValue> {
    match v
    case Null => None
    case Undefined => None
    case Obj(m) => Some(Get(m, name))
    case _ => Some(Undefined)
  }

  /** `v?.name` */
  function OptProp(v: JsValue, name: string): JsValue {
    match v
    case Obj(m) => Get(m, name)
    case _ => Undefined
  }

  /** `payload.eventId ?? payload.id ?? payload.data?.id` (line 65), on an object payload. */
  function EventId(p: Bag): JsValue {
    Coalesce(Get(p, "eventId"), Coalesce(Get(p, "id"), OptProp(Get(p, "data"), "id")))
  }

  /** `mapPaymentStatus(payload.data?.status ?? payload.status)` (line 89): `None` for the `TypeError` of a truthy non-string. */
  function StatusOf(p: Bag): Option<PaymentStatus> {
    var s := Coalesce(OptProp(Get(p, "data"), "status"), Get(p, "status"));
    if !Truthy(s) then Some(Pending)
    else if s.Str? then Some(MapPaymentStatus(Some(s.s)))
    else None
  }

  /** The updates of lines 87-112. */
  function Updates(p: Bag, status: PaymentStatus): seq<Update> {
    var providerPaymentId := Coalesce(OptProp(Get(p, "data"), "id"), Get(p, "id"));
    var providerReference := OptProp(Get(p, "data"), "externalId");
    if status != Approved && status != Failed then []
    else
      (if Truthy(providerPaymentId) then [PaymentByProviderId(providerPaymentId, status)]
       else if Truthy(providerReference) then [PaymentByReference(providerReference, status)]
       else []) +
      (if Truthy(providerReference) && status == Approved then [ApplicationPaid(providerReference)] else [])
  }

  /**
   * `POST` (lines 29-115). `verdict` is what `validateWebhookSignature` gives
   * for the header (lines 48-52): `Some(valid)`, or `None` for the `RangeError`
   * it can throw, which the route does not catch and Next.js answers with 500.
   */
  function Route(secret: string, secretParam: Option<string>, signatureHeader: Option<string>, verdict: Option<bool>,
                 rawBody: string, parseJson: string -> Option<JsValue>, insert: InsertOutcome): WebhookOutcome
  {
    if secretParam.None? || secretParam.value == "" then Refuse(400)
    else if secretParam.value != secret then Refuse(401)
    else if signatureHeader.None? || signatureHeader.value == "" then Refuse(401)
    else if verdict.None? then Refuse(500)
    else if !verdict.value then Refuse(401)
    else Payload(parseJson(rawBody), insert)
  }

  /** Lines 58-115, from `JSON.parse(rawBody)` on (`None` when it throws). */
  function Payload(parsed: Option<JsValue>, insert: InsertOutcome): WebhookOutcome {
    if parsed.None? then Refuse(400)
    else
      var payload := parsed.value;
      if Prop(payload, "eventId").None? then Refuse(500)
      else if !payload.Obj? then Refuse(400)
      else
        var p := payload.props;
        var eventId := EventId(p);
        if !Truthy(eventId) then Refuse(400)
        else if insert == InsertError then WebhookOutcome(500, false, Some(eventId), [])
        else if insert == DuplicateEvent then WebhookOutcome(200, true, Some(eventId), [])
        else
          match StatusOf(p)
          case None => WebhookOutcome(500, false, Some(eventId), [])
          case Some(status) => WebhookOutcome(200, true, Some(eventId), Updates(p, status))
  }

  /** The route as written, calling the `validateWebhookSignature` of signature.ts (lines 6-21). */
  function HandleAsWritten(secret: string, secretParam: Option<string>, signatureHeader: Option<string>, rawBody: string,
                           hmac: (string, string) -> string, parseJson: string -> Option<JsValue>,
                           insert: InsertOutcome): WebhookOutcome
  {
    Route(secret, secretParam, signatureHeader,
          Signature.ValidateAsWritten(rawBody, secret, signatureHeader.GetOr(""), hmac), rawBody, parseJson, insert)
  }

  /** The route with the corrected signature check, which refuses instead of throwing. */
  function Handle(secret: string, secretParam: Option<string>, signatureHeader: Option<string>, rawBody: string,
                  hmac: (string, string) -> string, parseJson: string -> Option<JsValue>,
                  insert: InsertOutcome): WebhookOutcome
  {
    Route(secret, secretParam, signatureHeader,
          Some(Signature.ValidateWebhookSignature(rawBody, secret, signatureHeader.GetOr(""), hmac)), rawBody, parseJson, insert)
  }

  // ---------------------------------------------------------------------------
  // Properties of the handler

  /**
   * The guards answer in order: secret parameter, secret value, signature
   * header, signature, JSON, a `null` body (reading `payload.eventId` throws)
   * and a missing event id.
   */
  lemma GuardOrder(secret: string, secretParam: Option<string>, signatureHeader: Option<string>, rawBody: string,
                   hmac: (string, string) -> string, parseJson: string -> Option<JsValue>, insert: InsertOutcome)
    ensures var r := Handle(secret, secretParam, signatureHeader, rawBody, hmac, parseJson, insert);
      var signed := secretParam == Some(secret) && secret != "" && signatureHeader == Some(hmac(rawBody, secret)) &&
                    hmac(rawBody, secret) != "";
      var parsed := parseJson(rawBody);
      ((secretParam.None? || secretParam.value == "") ==> r == Refuse(400)) &&
      (secretParam.Some? && secretParam.value != "" && secretParam.value != secret ==> r == Refuse(401)) &&
      (secretParam == Some(secret) && secret != "" && (signatureHeader.None? || signatureHeader.value == "") ==> r == Refuse(401)) &&
      ((secretParam == Some(secret) && secret != "" && signatureHeader.Some? && signatureHeader.value != "" &&
        signatureHeader.value != hmac(rawBody, secret)) ==> r == Refuse(401)) &&
      (signed && parsed.None? ==> r == Refuse(400)) &&
      (signed && parsed == Some(Null) ==> r == Refuse(500)) &&
      (signed && parsed.Some? && parsed.value.Obj? && !Truthy(EventId(parsed.value.props)) ==> r == Refuse(400))
  {
    if signatureHeader.Some? {
      Signature.ValidIffDigest(rawBody, secret, signatureHeader.value, hmac);
    }
  }

  /**
   * With a hex (ASCII) digest and an ASCII header the route as written and
   * the corrected handler answer alike: the throw needs a non-ASCII header.
   */
  lemma AsWrittenAgreesOnAscii(secret: string, secretParam: Option<string>, signatureHeader: Option<string>, rawBody: string,
                               hmac: (string, string) -> string, parseJson: string -> Option<JsValue>, insert: InsertOutcome)
    requires !HasNonAscii(hmac(rawBody, secret)) && !HasNonAscii(signatureHeader.GetOr(""))
    ensures HandleAsWritten(secret, secretParam, signatureHeader, rawBody, hmac, parseJson, insert) ==
            Handle(secret, secretParam, signatureHeader, rawBody, hmac, parseJson, insert)
  {
    var h := signatureHeader.GetOr("");
    Signature.LengthsAgreeIffAscii(hmac(rawBody, secret));
    Signature.LengthsAgreeIffAscii(h);
    Signature.AgreesWhenNoThrow(rawBody, secret, h, hmac);
  }

  /**
   * As written, a wrong signature is refused with 401 or, when
   * `timingSafeEqual` throws, answered with 500; the corrected handler always
   * refuses it with 401.
   */
  lemma WrongSignatureAsWritten(secret: string, signatureHeader: string, rawBody: string,
                                hmac: (string, string) -> string, parseJson: string -> Option<JsValue>, insert: InsertOutcome)
    requires secret != "" && signatureHeader != "" && signatureHeader != hmac(rawBody, secret)
    ensures var r := HandleAsWritten(secret, Some(secret), Some(signatureHeader), rawBody, hmac, parseJson, insert);
      (r == Refuse(401) || r == Refuse(500)) &&
      (r == Refuse(500) <==> Signature.ValidateAsWritten(rawBody, secret, signatureHeader, hmac).None?)
    ensures Handle(secret, Some(secret), Some(signatureHeader), rawBody, hmac, parseJson, insert) == Refuse(401)
  {
    Signature.ValidIffDigest(rawBody, secret, signatureHeader, hmac);
    if Signature.ValidateAsWritten(rawBody, secret, signatureHeader, hmac).Some? {
      Signature.AgreesWhenNoThrow(rawBody, secret, signatureHeader, hmac);
    }
  }

  /** The digest "ab" against the header "éb": the route as written answers 500, the corrected one 401. */
  lemma ThrowingRequest(secret: string, rawBody: string, hmac: (string, string) -> string,
                        parseJson: string -> Option<JsValue>, insert: InsertOutcome)
    requires secret != "" && hmac(rawBody, secret) == "ab"
    ensures HandleAsWritten(secret, Some(secret), Some("\U{00E9}b"), rawBody, hmac, parseJson, insert) == Refuse(500)
    ensures Handle(secret, Some(secret), Some("\U{00E9}b"), rawBody, hmac, parseJson, insert) == Refuse(401)
  {
    Signature.ThrowingExample(rawBody, secret, hmac);
    Signature.ValidIffDigest(rawBody, secret, "\U{00E9}b", hmac);
  }

  /** Nothing is recorded and nothing updated unless the secret, the signature and the JSON all pass. */
  lemma RefusedBeforeRecording(secret: string, secretParam: Option<string>, signatureHeader: Option<string>, rawBody: string,
                               hmac: (string, string) -> string, parseJson: string -> Option<JsValue>, insert: InsertOutcome)
    requires Handle(secret, secretParam, signatureHeader, rawBody, hmac, parseJson, insert).recordedEvent.Some?
    ensures secretParam == Some(secret) && signatureHeader == Some(hmac(rawBody, secret))
    ensures parseJson(rawBody).Some? && parseJson(rawBody).value.Obj?
  {
    Signature.ValidIffDigest(rawBody, secret, signatureHeader.value, hmac);
  }

  /** The event id: `eventId` unless nullish, then `id` unless nullish, then `data.id`. */
  lemma EventIdPrecedence(p: Bag)
    ensures !IsNullish(Get(p, "eventId")) ==> EventId(p) == Get(p, "eventId")
    ensures IsNullish(Get(p, "eventId")) && !IsNullish(Get(p, "id")) ==> EventId(p) == Get(p, "id")
    ensures IsNullish(Get(p, "eventId")) && IsNullish(Get(p, "id")) ==> EventId(p) == OptProp(Get(p, "data"), "id")
  {
  }

  /** An empty `eventId` is not nullish: it hides `id` and the request is refused. */
  lemma EmptyEventIdRefused(p: Bag, insert: InsertOutcome)
    requires Get(p, "eventId") == Str("")
    ensures !Truthy(EventId(p)) && Payload(Some(Obj(p)), insert) == Refuse(400)
  {
  }

  /** `data.status` wins over the top-level `status` unless it is nullish. */
  lemma StatusPrecedence(p: Bag, s: string)
    requires OptProp(Get(p, "data"), "status") == Str(s) && s != ""
    ensures StatusOf(p) == Some(MapPaymentStatus(Some(s)))
  {
  }

  /** A duplicate event answers 200 with `ok` and issues no update. */
  lemma DuplicateUpdatesNothing(secret: string, secretParam: Option<string>, signatureHeader: Option<string>, rawBody: string,
                                hmac: (string, string) -> string, parseJson: string -> Option<JsValue>)
    requires Handle(secret, secretParam, signatureHeader, rawBody, hmac, parseJson, DuplicateEvent).recordedEvent.Some?
    ensures var r := Handle(secret, secretParam, signatureHeader, rawBody, hmac, parseJson, DuplicateEvent);
      r.status == 200 && r.ok && r.updates == []
  {
  }

  /** Only an approved or failed status issues updates. */
  lemma OnlyFinalStatusesUpdate(p: Bag, status: PaymentStatus)
    requires Updates(p, status) != []
    ensures status == Approved || status == Failed
  {
  }

  /**
   * With an approved or failed status the payment is matched by its provider
   * id when that is truthy, otherwise by `externalId`; the application is set
   * to paid exactly when the status is approved and `externalId` is truthy.
   */
  lemma WhichUpdates(p: Bag, status: PaymentStatus)
    requires status == Approved || status == Failed
    ensures var pid := Coalesce(OptProp(Get(p, "data"), "id"), Get(p, "id"));
      var ref := OptProp(Get(p, "data"), "externalId");
      var u := Updates(p, status);
      (Truthy(pid) ==> u[0] == PaymentByProviderId(pid, status)) &&
      (!Truthy(pid) && Truthy(ref) ==> u[0] == PaymentByReference(ref, status)) &&
      (ApplicationPaid(ref) in u <==> status == Approved && Truthy(ref)) &&
      (forall x | x in u && x.ApplicationPaid? :: x.applicationId == ref)
  {
  }
}
