/** The payment provider's webhook: a chain of gates that answer early and
    change nothing, then, for a completed checkout session, the
    reconciliation that marks the registration paid and completes (or
    creates) its payment row. Signature verification is the oracle
    `ConstructEvent`; the current time is a parameter. */
module Webhook {
  import opened Wrappers
  import opened Text
  import opened Schema
  import opened Db
  import Query

  /** The checkout session the event carries, as far as it is read. */
  datatype SessionObject = SessionObject(
    id: string,
    clientReferenceId: Option<string>,
    metadataRegistrationId: Option<string>,
    paymentIntent: Option<string>,
    amountTotal: int,              // minor units
    currency: Option<string>)

  datatype StripeEvent = StripeEvent(id: string, eventType: string, session: SessionObject)

  /** `constructEvent(body, signature, secret)`: the event when the
      signature verifies, `None` when it throws. */
  type ConstructEvent = (string, string, string) -> Option<StripeEvent>

  datatype WebhookRequest = WebhookRequest(body: string, signature: Option<string>)

  datatype WebhookResponse =
    | MissingSignature      // 400 "Missing signature"
    | SecretNotConfigured   // 500 "Webhook secret not configured"
    | SignatureRejected     // 400 "Webhook Error: …"
    | Verified              // {verified: true}
    | Received              // {received: true}
    | ProcessingFailed      // 500 "Error processing webhook"

  function StatusCode(r: WebhookResponse): int {
    match r
    case MissingSignature => 400
    case SecretNotConfigured => 500
    case SignatureRejected => 400
    case Verified => 200
    case Received => 200
    case ProcessingFailed => 500
  }

  datatype WebhookOutcome = WebhookOutcome(store: Store, response: WebhookResponse)

  const CompletedType: string := "checkout.session.completed"
  const TestPrefix: string := "evt_test_"

  predicate Truthy(s: Option<string>) {
    s.Some? && s.value != ""
  }

  /** `parseInt(client_reference_id || metadata.registration_id)`; `None` is `NaN`. */
  function SessionRegistrationId(session: SessionObject): Option<int> {
    var raw := if Truthy(session.clientReferenceId) then session.clientReferenceId else session.metadataRegistrationId;
    if raw.None? then None else ParseInt(raw.value)
  }

  /** The registration the event names: a parsed, non-zero id. */
  function NamedRegistration(session: SessionObject): (r: Option<int>)
    ensures r.Some? ==> r.value != 0 && SessionRegistrationId(session) == r
    ensures r.None? ==> SessionRegistrationId(session) == None || SessionRegistrationId(session) == Some(0)
  {
    var id := SessionRegistrationId(session);
    if id.None? || id.value == 0 then None else id
  }

  function Paying(session: SessionObject): PaymentData {
    PaymentData(session.id, session.paymentIntent)
  }

  /** The columns an existing payment is completed with. */
  function CompletionPatch(session: SessionObject, now: int): PaymentPatch {
    PaymentPatch(Some(Completed), Some(session.paymentIntent), Some(Some(Paying(session))), Some(Some(now)))
  }

  /** The payment created when none exists; the amount in minor units is
      already cents, and the currency is upper-cased. */
  function CompletionPayment(registrationId: int, session: SessionObject, currency: string, now: int): NewPayment {
    NewPayment(registrationId, "stripe", session.paymentIntent, session.amountTotal, Some(ToUpperAscii(currency)),
      Some(Completed), Some(Paying(session)), Some(now))
  }

  /** A reconciliation: the store afterwards, and whether it threw. */
  datatype Handled = Handled(store: Store, failed: bool)

  /** The `checkout.session.completed` case for the named registration. */
  function Reconcile(s: Store, registrationId: int, session: SessionObject, now: int): (h: Handled)
    ensures h.store == s.(registrations := h.store.registrations, payments := h.store.payments,
                          nextPaymentId := h.store.nextPaymentId)
    ensures !s.available ==> h == Handled(s, true)
  {
    var marked := SetRegistration(s, registrationId, RegistrationPatch(Some(Paid)));
    if marked.result.Failure? then Handled(s, true)
    else
      var s1 := marked.store;
      match GetPaymentByRegistrationId(s1, registrationId).value
      case Some(existing) =>
        var st := SetPayment(s1, existing.id, CompletionPatch(session, now));
        Handled(st.store, st.result.Failure?)
      case None =>
        if session.currency.None? then Handled(s1, true)
        else
          var st := InsertPayment(s1, CompletionPayment(registrationId, session, session.currency.value, now), now);
          Handled(st.store, st.result.Failure?)
  }

  /** `handleStripeWebhook`. */
  function WebhookEffect(s: Store, req: WebhookRequest, secret: Option<string>, constructEvent: ConstructEvent, now: int)
    : (o: WebhookOutcome)
    ensures !Truthy(req.signature) ==> o == WebhookOutcome(s, MissingSignature)
    ensures Truthy(req.signature) && !Truthy(secret) ==> o == WebhookOutcome(s, SecretNotConfigured)
    ensures Truthy(req.signature) && Truthy(secret) && constructEvent(req.body, req.signature.value, secret.value).None?
      ==> o == WebhookOutcome(s, SignatureRejected)
    ensures o.response == Verified <==>
      (Truthy(req.signature) && Truthy(secret)
       && constructEvent(req.body, req.signature.value, secret.value).Some?
       && TestPrefix <= constructEvent(req.body, req.signature.value, secret.value).value.id)
    ensures o.response == Verified ==> o.store == s
    ensures o.store != s ==>
      (Truthy(req.signature) && Truthy(secret)
       && constructEvent(req.body, req.signature.value, secret.value).Some?
       && constructEvent(req.body, req.signature.value, secret.value).value.eventType == CompletedType
       && NamedRegistration(constructEvent(req.body, req.signature.value, secret.value).value.session).Some?)
    ensures o.store == s.(registrations := o.store.registrations, payments := o.store.payments,
                          nextPaymentId := o.store.nextPaymentId)
  {
    if !Truthy(req.signature) then WebhookOutcome(s, MissingSignature)
    else if !Truthy(secret) then WebhookOutcome(s, SecretNotConfigured)
    else
      match constructEvent(req.body, req.signature.value, secret.value)
      case None => WebhookOutcome(s, SignatureRejected)
      case Some(event) =>
        if TestPrefix <= event.id then WebhookOutcome(s, Verified)
        else if event.eventType != CompletedType then WebhookOutcome(s, Received)
        else
          match NamedRegistration(event.session)
          case None => WebhookOutcome(s, Received)
          case Some(registrationId) =>
            var h := Reconcile(s, registrationId, event.session, now);
            WebhookOutcome(h.store, if h.failed then ProcessingFailed else Received)
  }

  /** The verified event of a request, when every gate passes. */
  predicate Delivers(req: WebhookRequest, secret: Option<string>, constructEvent: ConstructEvent, event: StripeEvent) {
    Truthy(req.signature) && Truthy(secret)
    && constructEvent(req.body, req.signature.value, secret.value) == Some(event)
    && !(TestPrefix <= event.id)
  }

  /** Events other than a completed checkout, and a completed checkout that
      names no registration, are acknowledged and change nothing. */
  lemma WebhookIgnores(s: Store, req: WebhookRequest, secret: Option<string>, constructEvent: ConstructEvent,
                       now: int, event: StripeEvent)
    requires Delivers(req, secret, constructEvent, event)
    requires event.eventType != CompletedType || NamedRegistration(event.session).None?
    ensures WebhookEffect(s, req, secret, constructEvent, now) == WebhookOutcome(s, Received)
  {
  }

  lemma ReconcileKeepsKeys(s: Store, registrationId: int, session: SessionObject, now: int)
    requires WellFormed(s)
    ensures WellFormed(Reconcile(s, registrationId, session, now).store)
  {
    var marked := SetRegistration(s, registrationId, RegistrationPatch(Some(Paid)));
    SetRegistrationKeepsKeys(s, registrationId, RegistrationPatch(Some(Paid)));
    if marked.result.Success? {
      var s1 := marked.store;
      match GetPaymentByRegistrationId(s1, registrationId).value
      case Some(existing) =>
        SetPaymentKeepsKeys(s1, existing.id, CompletionPatch(session, now));
      case None =>
        if session.currency.Some? {
          InsertPaymentKeepsKeys(s1, CompletionPayment(registrationId, session, session.currency.value, now), now);
        }
    }
  }

  /** The webhook keeps every key of the schema, so a registration never has
      two payments. */
  lemma WebhookKeepsKeys(s: Store, req: WebhookRequest, secret: Option<string>, constructEvent: ConstructEvent, now: int)
    requires WellFormed(s)
    ensures WellFormed(WebhookEffect(s, req, secret, constructEvent, now).store)
  {
    var o := WebhookEffect(s, req, secret, constructEvent, now);
    if o.store != s {
      var event := constructEvent(req.body, req.signature.value, secret.value).value;
      ReconcileKeepsKeys(s, NamedRegistration(event.session).value, event.session, now);
    }
  }

  /** What a fully reconciled payment looks like. */
  predicate CompletedBy(p: Payment, registrationId: int, session: SessionObject, now: int) {
    p.registrationId == registrationId && p.status == Completed && p.transactionId == session.paymentIntent
    && p.paymentData == Some(Paying(session)) && p.paidAt == Some(now)
  }

  /** A successful reconciliation leaves every row of the registration paid
      and its one payment completed with the session's payment intent; a new
      payment records the session's total and currency. */
  lemma ReconcileCompletes(s: Store, registrationId: int, session: SessionObject, now: int)
    requires WellFormed(s) && !Reconcile(s, registrationId, session, now).failed
    ensures var h := Reconcile(s, registrationId, session, now);
      var before := GetPaymentByRegistrationId(s, registrationId);
      var after := GetPaymentByRegistrationId(h.store, registrationId);
      (forall i :: 0 <= i < |h.store.registrations| && h.store.registrations[i].id == registrationId ==>
         h.store.registrations[i].paymentStatus == Paid)
      && after.Success? && after.value.Some? && CompletedBy(after.value.value, registrationId, session, now)
      && (before.value.Some? ==>
            after.value.value.id == before.value.value.id
            && after.value.value.amount == before.value.value.amount
            && |h.store.payments| == |s.payments|)
      && (before.value.None? ==>
            after.value.value.amount == session.amountTotal
            && after.value.value.currency == ToUpperAscii(session.currency.value)
            && after.value.value.paymentMethod == "stripe"
            && |h.store.payments| == |s.payments| + 1)
      && FitsOptVarchar(session.paymentIntent, 255)
  {
    var h := Reconcile(s, registrationId, session, now);
    var s1 := SetRegistration(s, registrationId, RegistrationPatch(Some(Paid))).store;
    SetRegistrationKeepsKeys(s, registrationId, RegistrationPatch(Some(Paid)));
    ReconcileKeepsKeys(s, registrationId, session, now);
    assert s1.payments == s.payments;
    match GetPaymentByRegistrationId(s1, registrationId).value
    case Some(existing) =>
      var k :| 0 <= k < |s1.payments| && s1.payments[k] == existing;
      assert h.store.payments[k] == PatchPayment(s1.payments[k], CompletionPatch(session, now));
      GetPaymentFindsTheOne(h.store, k);
    case None =>
      GetPaymentFindsTheOne(h.store, |s1.payments|);
  }

  /** A completed payment the reconciliation finds again: completing it once
      more only moves `paidAt`. */
  lemma RecompleteMovesPaidAt(p: Payment, registrationId: int, session: SessionObject, now: int, later: int)
    requires CompletedBy(p, registrationId, session, now)
    ensures PatchPayment(p, CompletionPatch(session, later)) == p.(paidAt := Some(later))
  {
  }

  /** Marking paid rows paid again changes nothing. */
  lemma MarkPaidAgain(s: Store, registrationId: int)
    requires s.available
    requires forall i :: 0 <= i < |s.registrations| && s.registrations[i].id == registrationId ==>
      s.registrations[i].paymentStatus == Paid
    ensures SetRegistration(s, registrationId, RegistrationPatch(Some(Paid))) == Step(s, Success(()))
  {
    var marked := SetRegistration(s, registrationId, RegistrationPatch(Some(Paid)));
    assert marked.store.registrations == s.registrations;
  }

  /** Reconciling a registration whose payment `k` is already completed by
      the same session moves that payment's `paidAt` and nothing else. */
  lemma ReconcileCompleted(s: Store, registrationId: int, session: SessionObject, now: int, later: int, k: nat)
    requires WellFormed(s) && s.available && k < |s.payments|
    requires CompletedBy(s.payments[k], registrationId, session, now)
    requires FitsOptVarchar(session.paymentIntent, 255)
    requires forall i :: 0 <= i < |s.registrations| && s.registrations[i].id == registrationId ==>
      s.registrations[i].paymentStatus == Paid
    ensures Reconcile(s, registrationId, session, later)
      == Handled(s.(payments := s.payments[k := s.payments[k].(paidAt := Some(later))]), false)
  {
    MarkPaidAgain(s, registrationId);
    GetPaymentFindsTheOne(s, k);
    var st := SetPayment(s, s.payments[k].id, CompletionPatch(session, later));
    RecompleteMovesPaidAt(s.payments[k], registrationId, session, now, later);
    forall i | 0 <= i < |s.payments|
      ensures st.store.payments[i] == s.payments[k := s.payments[k].(paidAt := Some(later))][i]
    {
      if i != k {
        assert PaymentId(s.payments[i]) != PaymentId(s.payments[k]);
      }
    }
    assert st.store.payments == s.payments[k := s.payments[k].(paidAt := Some(later))];
  }

  /** Replaying a completed event: the registration rows are as they were,
      no payment is added, and the payment differs only in `paidAt`. */
  lemma ReconcileReplay(s: Store, registrationId: int, session: SessionObject, now: int, later: int)
    requires WellFormed(s) && !Reconcile(s, registrationId, session, now).failed
    ensures var s1 := Reconcile(s, registrationId, session, now).store;
      var h2 := Reconcile(s1, registrationId, session, later);
      !h2.failed
      && h2.store.registrations == s1.registrations
      && h2.store.nextPaymentId == s1.nextPaymentId
      && |h2.store.payments| == |s1.payments|
      && forall i :: 0 <= i < |s1.payments| ==>
           h2.store.payments[i] == (if s1.payments[i].registrationId == registrationId
             then s1.payments[i].(paidAt := Some(later)) else s1.payments[i])
  {
    var s1 := Reconcile(s, registrationId, session, now).store;
    ReconcileCompletes(s, registrationId, session, now);
    ReconcileKeepsKeys(s, registrationId, session, now);
    ReplayOfCompleted(s1, registrationId, session, now, later);
  }

  /** The replay once the first reconciliation has left `s1` completed. */
  lemma ReplayOfCompleted(s1: Store, registrationId: int, session: SessionObject, now: int, later: int)
    requires WellFormed(s1)
    requires forall i :: 0 <= i < |s1.registrations| && s1.registrations[i].id == registrationId ==>
      s1.registrations[i].paymentStatus == Paid
    requires var after := GetPaymentByRegistrationId(s1, registrationId);
      after.Success? && after.value.Some? && CompletedBy(after.value.value, registrationId, session, now)
    requires FitsOptVarchar(session.paymentIntent, 255)
    ensures var h2 := Reconcile(s1, registrationId, session, later);
      !h2.failed
      && h2.store.registrations == s1.registrations
      && h2.store.nextPaymentId == s1.nextPaymentId
      && |h2.store.payments| == |s1.payments|
      && forall i :: 0 <= i < |s1.payments| ==>
           h2.store.payments[i] == (if s1.payments[i].registrationId == registrationId
             then s1.payments[i].(paidAt := Some(later)) else s1.payments[i])
  {
    var p := GetPaymentByRegistrationId(s1, registrationId).value.value;
    var k :| 0 <= k < |s1.payments| && s1.payments[k] == p;
    ReconcileCompleted(s1, registrationId, session, now, later, k);
    OnlyPaymentOf(s1, registrationId, k);
  }

  /** Under the schema's keys the payment `k` of a registration is its only one. */
  lemma OnlyPaymentOf(s: Store, registrationId: int, k: nat)
    requires WellFormed(s) && k < |s.payments| && s.payments[k].registrationId == registrationId
    ensures forall i :: 0 <= i < |s.payments| && i != k ==> s.payments[i].registrationId != registrationId
  {
    forall i | 0 <= i < |s.payments| && i != k
      ensures s.payments[i].registrationId != registrationId
    {
      assert PaymentRegistration(s.payments[i]) != PaymentRegistration(s.payments[k]);
    }
  }

  /** The same statement for the whole handler: a replayed event that was
      received the first time is received again and only moves `paidAt`. */
  lemma WebhookReplay(s: Store, req: WebhookRequest, secret: Option<string>, constructEvent: ConstructEvent,
                      now: int, later: int)
    requires WellFormed(s)
    requires WebhookEffect(s, req, secret, constructEvent, now).response == Received
    ensures var s1 := WebhookEffect(s, req, secret, constructEvent, now).store;
      var o2 := WebhookEffect(s1, req, secret, constructEvent, later);
      o2.response == Received
      && o2.store.registrations == s1.registrations
      && o2.store.nextPaymentId == s1.nextPaymentId
      && |o2.store.payments| == |s1.payments|
      && forall i :: 0 <= i < |s1.payments| ==>
           o2.store.payments[i] == s1.payments[i].(paidAt := o2.store.payments[i].paidAt)
  {
    var s1 := WebhookEffect(s, req, secret, constructEvent, now).store;
    var event := constructEvent(req.body, req.signature.value, secret.value).value;
    if event.eventType == CompletedType && NamedRegistration(event.session).Some? {
      ReconcileReplay(s, NamedRegistration(event.session).value, event.session, now, later);
    }
  }

  /** `handleStripeWebhook` on the database. */
  method HandleStripeWebhook(db: Database, req: WebhookRequest, secret: Option<string>,
                             constructEvent: ConstructEvent, now: int)
    returns (response: WebhookResponse)
    modifies db
    ensures db.State() == WebhookEffect(old(db.State()), req, secret, constructEvent, now).store
    ensures response == WebhookEffect(old(db.State()), req, secret, constructEvent, now).response
  {
    if !Truthy(req.signature) {
      return MissingSignature;
    }
    if !Truthy(secret) {
      return SecretNotConfigured;
    }
    var event := constructEvent(req.body, req.signature.value, secret.value);
    if event.None? {
      return SignatureRejected;
    }
    var e := event.value;
    if TestPrefix <= e.id {
      return Verified;
    }
    if e.eventType != CompletedType {
      return Received;
    }
    var named := NamedRegistration(e.session);
    if named.None? {
      return Received;
    }
    var registrationId := named.value;
    var marked := db.UpdateRegistration(registrationId, RegistrationPatch(Some(Paid)));
    if marked.Failure? {
      return ProcessingFailed;
    }
    var existing := GetPaymentByRegistrationId(db.State(), registrationId).value;
    if existing.Some? {
      var updated := db.UpdatePayment(existing.value.id, CompletionPatch(e.session, now));
      response := if updated.Failure? then ProcessingFailed else Received;
    } else if e.session.currency.None? {
      response := ProcessingFailed;
    } else {
      var created := db.CreatePayment(CompletionPayment(registrationId, e.session, e.session.currency.value, now), now);
      response := if created.Failure? then ProcessingFailed else Received;
    }
  }
}
