/** The registration-to-payment lifecycle as a whole: any sequence of
    registrations, payment intents and provider notifications, applied one
    after another to the store. */
module Lifecycle {
  import opened Wrappers
  import opened Text
  import opened Schema
  import opened Db
  import Query
  import Checkout
  import Routers
  import Webhook

  /** One request to the server, with what it depends on from outside. */
  datatype Call =
    | RegisterCall(registration: Routers.RegistrationRequest, origin: Routers.RequestOrigin, now: int)
    | IntentCall(intent: Routers.IntentRequest, createSession: Checkout.CreateSession, now: int)
    | WebhookCall(notification: Webhook.WebhookRequest, secret: Option<string>,
                  constructEvent: Webhook.ConstructEvent, now: int)

  /** The store after one call. */
  function Apply(s: Store, c: Call): Store {
    match c
    case RegisterCall(req, origin, now) => Routers.RegisterEffect(s, req, origin, now).store
    case IntentCall(req, createSession, now) => Routers.CreateIntentEffect(s, req, createSession, now).store
    case WebhookCall(req, secret, constructEvent, now) => Webhook.WebhookEffect(s, req, secret, constructEvent, now).store
  }

  /** The store after the calls, in order. */
  function Run(s: Store, calls: seq<Call>): Store
    decreases |calls|
  {
    if calls == [] then s else Run(Apply(s, calls[0]), calls[1..])
  }

  /** Every call keeps the schema's keys. */
  lemma ApplyKeepsKeys(s: Store, c: Call)
    requires WellFormed(s)
    ensures WellFormed(Apply(s, c))
  {
    match c
    case RegisterCall(req, origin, now) => Routers.RegisterKeepsKeys(s, req, origin, now);
    case IntentCall(req, createSession, now) => Routers.CreateIntentKeepsKeys(s, req, createSession, now);
    case WebhookCall(req, secret, constructEvent, now) => Webhook.WebhookKeepsKeys(s, req, secret, constructEvent, now);
  }

  /** However the calls are interleaved, the keys hold afterwards. */
  lemma {:induction false} RunKeepsKeys(s: Store, calls: seq<Call>)
    requires WellFormed(s)
    ensures WellFormed(Run(s, calls))
    decreases |calls|
  {
    if calls != [] {
      ApplyKeepsKeys(s, calls[0]);
      RunKeepsKeys(Apply(s, calls[0]), calls[1..]);
    }
  }

  /** No sequence of calls ever gives a registration two payment rows. */
  lemma RunAtMostOnePayment(s: Store, calls: seq<Call>, registrationId: int)
    requires WellFormed(s)
    ensures Query.CountWhere(Run(s, calls).payments, PaymentForRegistration(registrationId)) <= 1
  {
    RunKeepsKeys(s, calls);
    AtMostOnePayment(Run(s, calls).payments, registrationId);
  }

  /** The provider hands back the reference the session was created with. */
  predicate EchoesReference(params: Checkout.CheckoutParams, session: Webhook.SessionObject) {
    session.clientReferenceId == Some(params.clientReferenceId)
  }

  /** Or, without a reference, the metadata. */
  predicate EchoesMetadata(params: Checkout.CheckoutParams, session: Webhook.SessionObject) {
    (session.clientReferenceId.None? || session.clientReferenceId == Some(""))
    && "registration_id" in params.metadata
    && session.metadataRegistrationId == Some(params.metadata["registration_id"])
  }

  /** A completed session echoing what the checkout was created with names
      the registration it was created for. */
  lemma SessionNamesRegistration(req: Checkout.CheckoutRequest, session: Webhook.SessionObject)
    requires req.registrationId != 0
    requires EchoesReference(Checkout.BuildCheckoutParams(req), session)
          || EchoesMetadata(Checkout.BuildCheckoutParams(req), session)
    ensures Webhook.NamedRegistration(session) == Some(req.registrationId)
  {
    var p := Checkout.BuildCheckoutParams(req);
    var id := IntToDecimal(req.registrationId);
    assert p.clientReferenceId == id && p.metadata["registration_id"] == id;
    ParseIntOfIntToDecimal(req.registrationId);
    assert id != "";
    if EchoesReference(p, session) {
      assert Webhook.Truthy(session.clientReferenceId);
      assert Webhook.SessionRegistrationId(session) == Some(req.registrationId);
    } else {
      assert !Webhook.Truthy(session.clientReferenceId) && session.metadataRegistrationId == Some(id);
      assert Webhook.SessionRegistrationId(session) == Some(req.registrationId);
    }
  }

  /** The path the lifecycle is built for: a payment intent succeeds, the
      provider then reports that very session completed and the store
      takes it. Afterwards the registration is paid and its one payment
      row is completed with the session's payment intent. */
  lemma IntentThenCompletionPays(s: Store, req: Routers.IntentRequest, createSession: Checkout.CreateSession,
                                 now: int, notification: Webhook.WebhookRequest, secret: Option<string>,
                                 constructEvent: Webhook.ConstructEvent, event: Webhook.StripeEvent, later: int)
    requires WellFormed(s)
    requires Routers.CreateIntentEffect(s, req, createSession, now).result.Success?
    requires var o := Routers.CreateIntentEffect(s, req, createSession, now);
      Webhook.Delivers(notification, secret, constructEvent, event) && event.eventType == Webhook.CompletedType
      && EchoesReference(o.requested.value, event.session)
    requires Webhook.WebhookEffect(Routers.CreateIntentEffect(s, req, createSession, now).store,
                                   notification, secret, constructEvent, later).response == Webhook.Received
    ensures var s2 := Webhook.WebhookEffect(Routers.CreateIntentEffect(s, req, createSession, now).store,
                                            notification, secret, constructEvent, later).store;
      var after := GetPaymentByRegistrationId(s2, req.registrationId);
      (forall i :: 0 <= i < |s2.registrations| && s2.registrations[i].id == req.registrationId ==>
         s2.registrations[i].paymentStatus == Paid)
      && after.Success? && after.value.Some?
      && Webhook.CompletedBy(after.value.value, req.registrationId, event.session, later)
      && Query.CountWhere(s2.payments, PaymentForRegistration(req.registrationId)) <= 1
  {
    var o := Routers.CreateIntentEffect(s, req, createSession, now);
    Routers.CreateIntentKeepsKeys(s, req, createSession, now);
    IntentSessionNamesRegistration(s, req, createSession, now, event.session);
    var h := Webhook.Reconcile(o.store, req.registrationId, event.session, later);
    assert !h.failed;
    Webhook.ReconcileCompletes(o.store, req.registrationId, event.session, later);
    Webhook.ReconcileKeepsKeys(o.store, req.registrationId, event.session, later);
    AtMostOnePayment(h.store.payments, req.registrationId);
  }

  /** A session echoing the checkout a successful intent asked for names
      the intent's registration. */
  lemma IntentSessionNamesRegistration(s: Store, req: Routers.IntentRequest, createSession: Checkout.CreateSession,
                                       now: int, session: Webhook.SessionObject)
    requires WellFormed(s)
    requires Routers.CreateIntentEffect(s, req, createSession, now).result.Success?
    requires EchoesReference(Routers.CreateIntentEffect(s, req, createSession, now).requested.value, session)
    ensures Webhook.NamedRegistration(session) == Some(req.registrationId)
  {
    var o := Routers.CreateIntentEffect(s, req, createSession, now);
    var reg := GetRegistrationById(s, req.registrationId).value.value;
    var k :| 0 <= k < |s.registrations| && s.registrations[k] == reg;
    assert RegistrationId(s.registrations[k]) >= 1;
    var a := GetActivityById(s, reg.input.activityId).value.value;
    var checkout := Routers.IntentCheckout(req, reg, a);
    assert o.requested.value == Checkout.BuildCheckoutParams(checkout);
    SessionNamesRegistration(checkout, session);
  }
}
