/** The parameters of the hosted checkout session created for a
    registration's payment. The payment provider's SDK call itself is an
    oracle: `CreateSession` below is whatever function the caller passes. */
module Checkout {
  import opened Wrappers
  import opened Text
  import opened Schema

  /** What `createCheckoutSession` is given. */
  datatype CheckoutRequest = CheckoutRequest(
    registrationId: int,
    amount: Cents,
    activityTitle: string,
    studentName: string,
    guardianEmail: Option<string>,
    origin: string)

  datatype LineItem = LineItem(
    currency: string,
    productName: string,
    productDescription: string,
    unitAmount: int,
    quantity: int)

  /** The object handed to `checkout.sessions.create`. */
  datatype CheckoutParams = CheckoutParams(
    paymentMethodTypes: seq<string>,
    lineItems: seq<LineItem>,
    mode: string,
    successUrl: string,
    cancelUrl: string,
    clientReferenceId: string,
    customerEmail: Option<string>,
    metadata: map<string, string>,
    allowPromotionCodes: bool)

  /** What the provider answers: the session id and its hosted page. */
  datatype CheckoutSession = CheckoutSession(id: string, url: string)

  /** The SDK call: `None` when it throws. */
  type CreateSession = CheckoutParams -> Option<CheckoutSession>

  /** The product description: "学生：" followed by the student's name. */
  const StudentLabel: string := "学生："

  /** The session parameters for one registration. `unit_amount` is the
      amount in minor units, which the cents representation already is. */
  function BuildCheckoutParams(req: CheckoutRequest): CheckoutParams {
    var id := IntToDecimal(req.registrationId);
    CheckoutParams(
      ["card"],
      [LineItem("cny", req.activityTitle, StudentLabel + req.studentName, req.amount, 1)],
      "payment",
      req.origin + "/receipt/" + id,
      req.origin + "/payment/" + id,
      id,
      req.guardianEmail,
      map["registration_id" := id, "student_name" := req.studentName],
      true)
  }

  /** One card line item for the whole amount, charged once, in yuan. */
  lemma CheckoutCharge(req: CheckoutRequest)
    ensures var p := BuildCheckoutParams(req);
      p.paymentMethodTypes == ["card"] && p.mode == "payment"
      && |p.lineItems| == 1
      && p.lineItems[0].quantity == 1 && p.lineItems[0].currency == "cny"
      && p.lineItems[0].unitAmount == req.amount
      && p.lineItems[0].productName == req.activityTitle
      && p.lineItems[0].productDescription == StudentLabel + req.studentName
      && p.metadata["student_name"] == req.studentName
      && p.customerEmail == req.guardianEmail
  {
  }

  /** Both reference fields read back, as the webhook reads them, to the id. */
  lemma ReferenceRoundTrip(req: CheckoutRequest)
    ensures var p := BuildCheckoutParams(req);
      ParseInt(p.clientReferenceId) == Some(req.registrationId)
      && "registration_id" in p.metadata
      && ParseInt(p.metadata["registration_id"]) == Some(req.registrationId)
  {
    ParseIntOfIntToDecimal(req.registrationId);
  }

  /** The return pages are the origin's receipt and payment pages for the
      registration, and the id in their path reads back to the id. */
  lemma ReturnUrls(req: CheckoutRequest)
    ensures var p := BuildCheckoutParams(req);
      var receipt := req.origin + "/receipt/";
      var payment := req.origin + "/payment/";
      receipt <= p.successUrl && ParseInt(p.successUrl[|receipt|..]) == Some(req.registrationId)
      && payment <= p.cancelUrl && ParseInt(p.cancelUrl[|payment|..]) == Some(req.registrationId)
  {
    var p := BuildCheckoutParams(req);
    var id := IntToDecimal(req.registrationId);
    assert p.successUrl[|req.origin + "/receipt/"|..] == id;
    assert p.cancelUrl[|req.origin + "/payment/"|..] == id;
    ParseIntOfIntToDecimal(req.registrationId);
  }
}
