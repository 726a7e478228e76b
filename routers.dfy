/** The API procedures of the registration → payment lifecycle: creating a
    registration, opening a checkout for it, the admin registration search,
    the admin role guard, and the administrator login and update. Each
    procedure is a check-then-write method on the database object, proved
    equal to a pure effect function over the store value; the properties
    are proved about the effect functions. */
module Routers {
  import opened Wrappers
  import opened Text
  import opened Schema
  import opened Db
  import Query
  import Checkout
  import AdminsDb

  /** Why a procedure answers with an error. */
  datatype ApiError =
    | InvalidInput              // the input schema refused the request
    | NotSignedIn               // no session user reached an admin procedure
    | NotFound(message: string)
    | BadRequest(message: string)
    | Unauthorized(message: string)
    | Forbidden(message: string)
    | Internal(cause: InternalCause)

  /** An exception from below the procedure, surfaced unchanged. */
  datatype InternalCause =
    | Database(error: DbError)
    | AdminDatabase(adminError: AdminsDb.AdminError)
    | CheckoutFailed            // the checkout SDK call threw

  const ActivityMissing: string := "活动不存在"
  const ActivityClosed: string := "活动已关闭"
  const RegistrationMissing: string := "报名记录不存在"
  const AlreadyPaid: string := "该报名已支付"
  const BadCredentials: string := "用户名或密码错误"
  const AdminRequired: string := "需要管理员权限"

  /** The outcome of a procedure that may change the store. */
  datatype Outcome<+T> = Outcome(store: Store, result: Result<T, ApiError>)

  function DbFailure(e: DbError): ApiError {
    Internal(Database(e))
  }

  // ------------------------------------------------------------ admin guard

  /** `adminProcedure`: a signed-in user passes only with the admin role. */
  function AdminGuard(user: Option<User>): (r: Result<User, ApiError>)
    ensures r.Success? <==> user.Some? && user.value.role == AdminRole
    ensures r.Success? ==> r.value == user.value
    ensures user.None? ==> r == Failure(NotSignedIn)
    ensures user.Some? && user.value.role != AdminRole ==> r == Failure(Forbidden(AdminRequired))
  {
    match user
    case None => Failure(NotSignedIn)
    case Some(u) => if u.role != AdminRole then Failure(Forbidden(AdminRequired)) else Success(u)
  }

  // ------------------------------------------------------ the client address

  /** The request headers the address is read from; an absent or empty
      header is skipped. */
  datatype RequestOrigin = RequestOrigin(
    forwardedFor: Option<string>,   // x-forwarded-for
    realIp: Option<string>,         // x-real-ip
    remoteAddress: Option<string>)  // the socket's peer address

  predicate Truthy(s: Option<string>) {
    s.Some? && s.value != ""
  }

  /** The first non-empty of the three sources, or "". */
  function RawClientAddress(o: RequestOrigin): (r: string)
    ensures Truthy(o.forwardedFor) ==> r == o.forwardedFor.value
    ensures !Truthy(o.forwardedFor) && Truthy(o.realIp) ==> r == o.realIp.value
    ensures !Truthy(o.forwardedFor) && !Truthy(o.realIp) && Truthy(o.remoteAddress) ==> r == o.remoteAddress.value
    ensures r == "" <==> !Truthy(o.forwardedFor) && !Truthy(o.realIp) && !Truthy(o.remoteAddress)
  {
    if Truthy(o.forwardedFor) then o.forwardedFor.value
    else if Truthy(o.realIp) then o.realIp.value
    else if Truthy(o.remoteAddress) then o.remoteAddress.value
    else ""
  }

  /** The stored address: the first comma-separated entry, trimmed. */
  function ClientIp(o: RequestOrigin): (r: string)
    ensures ',' !in r && Trimmed(r)
    ensures |r| <= |RawClientAddress(o)|
  {
    var first := BeforeFirst(RawClientAddress(o), ',');
    TrimKeepsAbsent(first, ',');
    Trim(first)
  }

  /** A proxy chain `client, proxy1, …` stores the client's address. */
  lemma ClientIpOfProxyChain(o: RequestOrigin, client: string, rest: string)
    requires o.forwardedFor == Some(client + "," + rest)
    requires client != "" && ',' !in client && Trimmed(client)
    ensures ClientIp(o) == client
  {
    assert client + "," + rest == client + [','] + rest;
    BeforeFirstOfJoined(client, ',', rest);
  }

  /** Without any source the stored address is the empty string. */
  lemma ClientIpWithoutSources(o: RequestOrigin)
    requires !Truthy(o.forwardedFor) && !Truthy(o.realIp) && !Truthy(o.remoteAddress)
    ensures ClientIp(o) == ""
  {
  }

  // ------------------------------------------------------- registrations.create

  /** The `registrations.create` input, before the schema check. */
  datatype RegistrationRequest = RegistrationRequest(
    activityId: int,
    studentName: string,
    studentGender: string,
    studentSchool: string,
    studentGrade: string,
    studentClass: string,
    studentIdCard: Option<string>,
    guardianName: string,
    guardianPhone: string,
    emergencyContactName: Option<string>,
    emergencyContactPhone: Option<string>,
    remarks: Option<string>)

  /** The input schema: the required texts non-empty, the gender one of the
      two labels; the optional texts are unconstrained. */
  predicate ServerAccepts(req: RegistrationRequest) {
    req.studentName != "" && ParseGender(req.studentGender).Some?
    && req.studentSchool != "" && req.studentGrade != "" && req.studentClass != ""
    && req.guardianName != "" && req.guardianPhone != ""
  }

  /** The checked input as the columns it is stored in. */
  function ParseRegistrationInput(req: RegistrationRequest): (r: Option<RegistrationInput>)
    ensures r.Some? <==> ServerAccepts(req)
    ensures r.Some? ==> GenderLabel(r.value.studentGender) == req.studentGender
    ensures r.Some? ==> RequestOf(r.value) == req
  {
    if !ServerAccepts(req) then None
    else
      Some(RegistrationInput(req.activityId, req.studentName, ParseGender(req.studentGender).value,
        req.studentSchool, req.studentGrade, req.studentClass, req.studentIdCard, req.guardianName,
        req.guardianPhone, req.emergencyContactName, req.emergencyContactPhone, req.remarks))
  }

  /** The request that carries a stored input. */
  function RequestOf(i: RegistrationInput): RegistrationRequest {
    RegistrationRequest(i.activityId, i.studentName, GenderLabel(i.studentGender), i.studentSchool,
      i.studentGrade, i.studentClass, i.studentIdCard, i.guardianName, i.guardianPhone,
      i.emergencyContactName, i.emergencyContactPhone, i.remarks)
  }

  /** Every stored input with the required texts filled is accepted back. */
  lemma ParseRequestOf(i: RegistrationInput)
    requires i.studentName != "" && i.studentSchool != "" && i.studentGrade != "" && i.studentClass != ""
    requires i.guardianName != "" && i.guardianPhone != ""
    ensures ParseRegistrationInput(RequestOf(i)) == Some(i)
  {
    ParseGenderOfLabel(i.studentGender);
  }

  /** The row `registrations.create` inserts for an open activity. */
  function RegistrationInsert(input: RegistrationInput, a: Activity, origin: RequestOrigin): NewRegistration {
    NewRegistration(input, Some(Pending), a.price, Some(ClientIp(origin)), None)
  }

  /** `registrations.create`: the activity must exist and be open; the row
      records its price as the amount due, pending, with the client address. */
  function RegisterEffect(s: Store, req: RegistrationRequest, origin: RequestOrigin, now: int): (o: Outcome<int>)
    ensures o.result.Failure? ==> o.store == s
    ensures o.result == Failure(InvalidInput) <==> !ServerAccepts(req)
    ensures ServerAccepts(req) && !s.available ==> o.result == Failure(DbFailure(Unavailable))
    ensures ServerAccepts(req) && s.available && (forall i :: 0 <= i < |s.activities| ==> s.activities[i].id != req.activityId)
      ==> o.result == Failure(NotFound(ActivityMissing))
    ensures o.store.activities == s.activities && o.store.payments == s.payments && o.store.users == s.users
  {
    match ParseRegistrationInput(req)
    case None => Outcome(s, Failure(InvalidInput))
    case Some(input) =>
      match GetActivityById(s, input.activityId)
      case Failure(e) => Outcome(s, Failure(DbFailure(e)))
      case Success(None) => Outcome(s, Failure(NotFound(ActivityMissing)))
      case Success(Some(a)) =>
        if !a.isActive then Outcome(s, Failure(BadRequest(ActivityClosed)))
        else
          var st := InsertRegistration(s, RegistrationInsert(input, a, origin), now);
          match st.result
          case Failure(e) => Outcome(st.store, Failure(DbFailure(e)))
          case Success(id) => Outcome(st.store, Success(id))
  }

  /** A closed activity is refused with BAD_REQUEST and nothing is inserted. */
  lemma RegisterClosedActivity(s: Store, req: RegistrationRequest, origin: RequestOrigin, now: int, a: Activity)
    requires WellFormed(s) && s.available && ServerAccepts(req)
    requires a in s.activities && a.id == req.activityId && !a.isActive
    ensures RegisterEffect(s, req, origin, now) == Outcome(s, Failure(BadRequest(ActivityClosed)))
  {
    var k :| 0 <= k < |s.activities| && s.activities[k] == a;
    assert forall j :: 0 <= j < |s.activities| && j != k ==> ActivityId(s.activities[j]) != ActivityId(s.activities[k]);
    Query.FirstWhereOfUnique(s.activities, ActivityHasId(a.id), k);
  }

  /** A successful registration appends exactly one row: the next id, the
      checked input, the open activity's price, pending, the client address. */
  lemma RegisterStoresPendingRow(s: Store, req: RegistrationRequest, origin: RequestOrigin, now: int)
    requires RegisterEffect(s, req, origin, now).result.Success?
    ensures var o := RegisterEffect(s, req, origin, now);
      ServerAccepts(req) && o.result.value == s.nextRegistrationId
      && (exists a :: a in s.activities && a.id == req.activityId && a.isActive
           && o.store.registrations == s.registrations + [Registration(o.result.value,
                ParseRegistrationInput(req).value, Pending, a.price, Some(ClientIp(origin)), None, now)])
  {
    var input := ParseRegistrationInput(req).value;
    var a := GetActivityById(s, input.activityId).value.value;
    assert a in s.activities && a.id == req.activityId && a.isActive;
  }

  lemma RegisterKeepsKeys(s: Store, req: RegistrationRequest, origin: RequestOrigin, now: int)
    requires WellFormed(s)
    ensures WellFormed(RegisterEffect(s, req, origin, now).store)
  {
    var o := RegisterEffect(s, req, origin, now);
    if o.result.Success? {
      var input := ParseRegistrationInput(req).value;
      var a := GetActivityById(s, input.activityId).value.value;
      InsertRegistrationKeepsKeys(s, RegistrationInsert(input, a, origin), now);
    }
  }

  /** `registrations.create` on the database. */
  method Register(db: Database, req: RegistrationRequest, origin: RequestOrigin, now: int)
    returns (result: Result<int, ApiError>)
    modifies db
    ensures db.State() == RegisterEffect(old(db.State()), req, origin, now).store
    ensures result == RegisterEffect(old(db.State()), req, origin, now).result
  {
    var parsed := ParseRegistrationInput(req);
    if parsed.None? {
      return Failure(InvalidInput);
    }
    var input := parsed.value;
    var found := GetActivityById(db.State(), input.activityId);
    if found.Failure? {
      return Failure(DbFailure(found.error));
    }
    if found.value.None? {
      return Failure(NotFound(ActivityMissing));
    }
    var activity := found.value.value;
    if !activity.isActive {
      return Failure(BadRequest(ActivityClosed));
    }
    var inserted := db.CreateRegistration(RegistrationInsert(input, activity, origin), now);
    if inserted.Failure? {
      return Failure(DbFailure(inserted.error));
    }
    result := Success(inserted.value);
  }

  // ------------------------------------------------------ payments.createIntent

  datatype IntentRequest = IntentRequest(registrationId: int, origin: string)

  /** The answer: the hosted checkout page and the amount due. */
  datatype IntentReply = IntentReply(checkoutUrl: string, amount: Cents)

  /** The outcome, with the session parameters sent to the provider, if any. */
  datatype IntentOutcome = IntentOutcome(
    store: Store,
    result: Result<IntentReply, ApiError>,
    requested: Option<Checkout.CheckoutParams>)

  /** The checkout asked for a registration of an activity; no guardian e-mail is passed. */
  function IntentCheckout(req: IntentRequest, reg: Registration, a: Activity): Checkout.CheckoutRequest {
    Checkout.CheckoutRequest(req.registrationId, reg.paymentAmount, a.title, reg.input.studentName, None, req.origin)
  }

  /** The patch that reopens an existing payment for a new session. */
  function ReopenPatch(sessionId: string): PaymentPatch {
    PaymentPatch(Some(PaymentPending), Some(Some(sessionId)), None, None)
  }

  /** The first payment of a registration. */
  function IntentPayment(req: IntentRequest, reg: Registration, sessionId: string): NewPayment {
    NewPayment(req.registrationId, "stripe", Some(sessionId), reg.paymentAmount, Some("CNY"), Some(PaymentPending), None, None)
  }

  function ReplyOrFailure(r: Result<(), DbError>, reply: IntentReply): Result<IntentReply, ApiError> {
    match r
    case Failure(e) => Failure(DbFailure(e))
    case Success(_) => Success(reply)
  }

  /** Whether a stored payment for the registration is already completed. */
  predicate PaidFor(existing: Option<Payment>) {
    existing.Some? && existing.value.status == Completed
  }

  /** `payments.createIntent`. Three guards run before the provider is
      asked for a session: the registration exists, it is not already paid,
      its activity exists. Then the payment row is reopened or created. */
  function CreateIntentEffect(s: Store, req: IntentRequest, createSession: Checkout.CreateSession, now: int)
    : (o: IntentOutcome)
    ensures o.requested.None? ==> o.store == s && o.result.Failure?
    ensures o.store == s.(payments := o.store.payments, nextPaymentId := o.store.nextPaymentId)
    ensures !s.available ==> o == IntentOutcome(s, Failure(DbFailure(Unavailable)), None)
    ensures s.available && (forall i :: 0 <= i < |s.registrations| ==> s.registrations[i].id != req.registrationId)
      ==> o == IntentOutcome(s, Failure(NotFound(RegistrationMissing)), None)
    ensures s.available && PaidFor(GetPaymentByRegistrationId(s, req.registrationId).value)
      && (exists i :: 0 <= i < |s.registrations| && s.registrations[i].id == req.registrationId)
      ==> o == IntentOutcome(s, Failure(BadRequest(AlreadyPaid)), None)
    ensures s.available && GetRegistrationById(s, req.registrationId).value.Some?
      && !PaidFor(GetPaymentByRegistrationId(s, req.registrationId).value)
      && GetActivityById(s, GetRegistrationById(s, req.registrationId).value.value.input.activityId).value.None?
      ==> o == IntentOutcome(s, Failure(NotFound(ActivityMissing)), None)
    ensures o.requested.Some? && createSession(o.requested.value).None? ==>
      o == IntentOutcome(s, Failure(Internal(CheckoutFailed)), o.requested)
    ensures o.result == Failure(Internal(CheckoutFailed)) ==> o.store == s
    ensures o.result.Success? ==> |o.store.payments| <= |s.payments| + 1
    ensures o.result.Success? ==>
      s.available && GetRegistrationById(s, req.registrationId).value.Some?
      && o.result.value.amount == GetRegistrationById(s, req.registrationId).value.value.paymentAmount
  {
    match GetRegistrationById(s, req.registrationId)
    case Failure(e) => IntentOutcome(s, Failure(DbFailure(e)), None)
    case Success(None) => IntentOutcome(s, Failure(NotFound(RegistrationMissing)), None)
    case Success(Some(reg)) =>
      var existing := GetPaymentByRegistrationId(s, req.registrationId).value;
      if PaidFor(existing) then IntentOutcome(s, Failure(BadRequest(AlreadyPaid)), None)
      else
        match GetActivityById(s, reg.input.activityId).value
        case None => IntentOutcome(s, Failure(NotFound(ActivityMissing)), None)
        case Some(a) =>
          var params := Checkout.BuildCheckoutParams(IntentCheckout(req, reg, a));
          match createSession(params)
          case None => IntentOutcome(s, Failure(Internal(CheckoutFailed)), Some(params))
          case Some(session) =>
            var reply := IntentReply(session.url, reg.paymentAmount);
            if existing.Some? then
              var st := SetPayment(s, existing.value.id, ReopenPatch(session.id));
              IntentOutcome(st.store, ReplyOrFailure(st.result, reply), Some(params))
            else
              var st := InsertPayment(s, IntentPayment(req, reg, session.id), now);
              IntentOutcome(st.store, if st.result.Failure? then Failure(DbFailure(st.result.error)) else Success(reply),
                Some(params))
  }

  /** The session asked for is the registration's: its id, its stored
      amount, the activity title and the student's name. */
  lemma CreateIntentRequestsCheckout(s: Store, req: IntentRequest, createSession: Checkout.CreateSession, now: int)
    requires CreateIntentEffect(s, req, createSession, now).requested.Some?
    ensures var o := CreateIntentEffect(s, req, createSession, now);
      exists reg, a :: reg in s.registrations && reg.id == req.registrationId
        && a in s.activities && a.id == reg.input.activityId
        && o.requested.value == Checkout.BuildCheckoutParams(IntentCheckout(req, reg, a))
  {
    var reg := GetRegistrationById(s, req.registrationId).value.value;
    var a := GetActivityById(s, reg.input.activityId).value.value;
    assert reg in s.registrations && a in s.activities;
  }

  /** The index of a payment the store holds. */
  lemma PaymentIndex(s: Store, p: Payment) returns (k: nat)
    requires p in s.payments
    ensures k < |s.payments| && s.payments[k] == p
  {
    k :| 0 <= k < |s.payments| && s.payments[k] == p;
  }

  /** A completed payment is never changed or removed. */
  lemma CreateIntentKeepsCompleted(s: Store, req: IntentRequest, createSession: Checkout.CreateSession, now: int, i: nat)
    requires WellFormed(s) && i < |s.payments| && s.payments[i].status == Completed
    ensures var o := CreateIntentEffect(s, req, createSession, now);
      i < |o.store.payments| && o.store.payments[i] == s.payments[i]
  {
    var o := CreateIntentEffect(s, req, createSession, now);
    if o.store != s && s.available {
      var reg := GetRegistrationById(s, req.registrationId).value.value;
      var existing := GetPaymentByRegistrationId(s, req.registrationId).value;
      if existing.Some? {
        var k := PaymentIndex(s, existing.value);
        if k != i {
          assert PaymentId(s.payments[i]) != PaymentId(s.payments[k]);
        }
      }
    }
  }

  lemma CreateIntentKeepsKeys(s: Store, req: IntentRequest, createSession: Checkout.CreateSession, now: int)
    requires WellFormed(s)
    ensures WellFormed(CreateIntentEffect(s, req, createSession, now).store)
  {
    var o := CreateIntentEffect(s, req, createSession, now);
    if o.store != s {
      var reg := GetRegistrationById(s, req.registrationId).value.value;
      var existing := GetPaymentByRegistrationId(s, req.registrationId).value;
      var session := createSession(o.requested.value).value;
      if existing.Some? {
        SetPaymentKeepsKeys(s, existing.value.id, ReopenPatch(session.id));
      } else {
        InsertPaymentKeepsKeys(s, IntentPayment(req, reg, session.id), now);
      }
    }
  }

  /** On success the registration has one payment: pending, carrying the new
      session's id. A new one is a stripe payment in CNY for the stored
      amount; a reopened one keeps every other column. */
  predicate LeavesPendingPayment(s: Store, req: IntentRequest, createSession: Checkout.CreateSession, now: int) {
    var o := CreateIntentEffect(s, req, createSession, now);
    var after := GetPaymentByRegistrationId(o.store, req.registrationId);
    s.available && o.requested.Some? && createSession(o.requested.value).Some? && o.result.Success?
    && GetRegistrationById(s, req.registrationId).value.Some?
    && var due := GetRegistrationById(s, req.registrationId).value.value.paymentAmount;
    o.result.value.amount == due
    && var before := GetPaymentByRegistrationId(s, req.registrationId).value;
    var session := createSession(o.requested.value).value;
    o.result.value.checkoutUrl == session.url
    && after.Success? && after.value.Some?
    && after.value.value.status == PaymentPending
    && after.value.value.transactionId == Some(session.id)
    && (before.Some? ==> after.value.value == before.value.(status := PaymentPending, transactionId := Some(session.id)))
    && (before.None? ==>
          after.value.value.paymentMethod == "stripe" && after.value.value.currency == "CNY"
          && after.value.value.amount == due && |o.store.payments| == |s.payments| + 1)
  }

  lemma CreateIntentLeavesPendingPayment(s: Store, req: IntentRequest, createSession: Checkout.CreateSession, now: int)
    requires WellFormed(s)
    requires CreateIntentEffect(s, req, createSession, now).result.Success?
    ensures LeavesPendingPayment(s, req, createSession, now)
  {
    if GetPaymentByRegistrationId(s, req.registrationId).value.Some? {
      ReopenLeavesPending(s, req, createSession, now);
    } else {
      InsertLeavesPending(s, req, createSession, now);
    }
  }

  lemma ReopenLeavesPending(s: Store, req: IntentRequest, createSession: Checkout.CreateSession, now: int)
    requires WellFormed(s)
    requires CreateIntentEffect(s, req, createSession, now).result.Success?
    requires GetPaymentByRegistrationId(s, req.registrationId).value.Some?
    ensures LeavesPendingPayment(s, req, createSession, now)
  {
    var o := CreateIntentEffect(s, req, createSession, now);
    var existing := GetPaymentByRegistrationId(s, req.registrationId).value.value;
    var session := createSession(o.requested.value).value;
    CreateIntentKeepsKeys(s, req, createSession, now);
    var k := PaymentIndex(s, existing);
    assert o.store.payments[k] == PatchPayment(s.payments[k], ReopenPatch(session.id));
    GetPaymentFindsTheOne(o.store, k);
  }

  lemma InsertLeavesPending(s: Store, req: IntentRequest, createSession: Checkout.CreateSession, now: int)
    requires WellFormed(s)
    requires CreateIntentEffect(s, req, createSession, now).result.Success?
    requires GetPaymentByRegistrationId(s, req.registrationId).value.None?
    ensures LeavesPendingPayment(s, req, createSession, now)
  {
    var o := CreateIntentEffect(s, req, createSession, now);
    var reg := GetRegistrationById(s, req.registrationId).value.value;
    CreateIntentKeepsKeys(s, req, createSession, now);
    GetPaymentFindsTheOne(o.store, |s.payments|);
  }

  /** On a well-formed store the unique key is never hit: a new payment is
      only inserted when none exists for the registration. */
  lemma CreateIntentNeverDuplicates(s: Store, req: IntentRequest, createSession: Checkout.CreateSession, now: int)
    requires WellFormed(s)
    ensures CreateIntentEffect(s, req, createSession, now).result != Failure(DbFailure(DuplicateKey))
  {
  }

  /** `payments.createIntent` on the database. */
  method CreateIntent(db: Database, req: IntentRequest, createSession: Checkout.CreateSession, now: int)
    returns (result: Result<IntentReply, ApiError>)
    modifies db
    ensures db.State() == CreateIntentEffect(old(db.State()), req, createSession, now).store
    ensures result == CreateIntentEffect(old(db.State()), req, createSession, now).result
  {
    var registration := GetRegistrationById(db.State(), req.registrationId);
    if registration.Failure? {
      return Failure(DbFailure(registration.error));
    }
    if registration.value.None? {
      return Failure(NotFound(RegistrationMissing));
    }
    var reg := registration.value.value;
    var existing := GetPaymentByRegistrationId(db.State(), req.registrationId).value;
    if existing.Some? && existing.value.status == Completed {
      return Failure(BadRequest(AlreadyPaid));
    }
    var activity := GetActivityById(db.State(), reg.input.activityId).value;
    if activity.None? {
      return Failure(NotFound(ActivityMissing));
    }
    var session := createSession(Checkout.BuildCheckoutParams(IntentCheckout(req, reg, activity.value)));
    if session.None? {
      return Failure(Internal(CheckoutFailed));
    }
    var reply := IntentReply(session.value.url, reg.paymentAmount);
    if existing.Some? {
      var updated := db.UpdatePayment(existing.value.id, ReopenPatch(session.value.id));
      result := ReplyOrFailure(updated, reply);
    } else {
      var created := db.CreatePayment(IntentPayment(req, reg, session.value.id), now);
      result := if created.Failure? then Failure(DbFailure(created.error)) else Success(reply);
    }
  }

  // ----------------------------------------------------- registrations.search

  /** `Math.ceil(total / pageSize)`: a page count, or the two non-finite
      values a zero page size gives. */
  datatype PageCount = Pages(count: int) | Infinite | NotANumber

  function TotalPages(total: nat, pageSize: int): (r: PageCount)
    ensures pageSize != 0 <==> r.Pages?
    ensures pageSize > 0 ==> (r.count == 0 <==> total == 0)
    ensures pageSize > 0 && total > 0 ==> (r.count - 1) * pageSize < total <= r.count * pageSize
    ensures pageSize < 0 ==> r.count <= 0
    ensures pageSize == 0 ==> (r == NotANumber <==> total == 0)
  {
    if pageSize > 0 then
      CeilingBounds(total, pageSize);
      Pages((total + pageSize - 1) / pageSize)
    else if pageSize < 0 then Pages(-(total / -pageSize))
    else if total == 0 then NotANumber
    else Infinite
  }

  /** The ceiling of `total / size` by integer division. */
  lemma CeilingBounds(total: nat, size: int)
    requires size > 0
    ensures var n := (total + size - 1) / size;
      (n == 0 <==> total == 0) && (total > 0 ==> (n - 1) * size < total <= n * size)
  {
    var n := (total + size - 1) / size;
    var m := (total + size - 1) % size;
    assert n * size + m == total + size - 1 && 0 <= m < size;
    assert (n - 1) * size == n * size - size;
    if n >= 1 {
      MulMonotone(1, n, size);
    } else {
      MulMonotone(n, 0, size);
    }
  }

  /** The search input: filters, and the page (default 1) and page size
      (default 20). Date strings are already timestamps. */
  datatype SearchRequest = SearchRequest(filter: RegistrationFilter, page: Option<int>, pageSize: Option<int>)

  datatype SearchReply = SearchReply(items: seq<Registration>, total: nat, page: int, pageSize: int, totalPages: PageCount)

  function PageOf(req: SearchRequest): int { req.page.GetOr(1) }
  function PageSizeOf(req: SearchRequest): int { req.pageSize.GetOr(20) }

  /** The window the page asks the gateway for. */
  function PageWindow(req: SearchRequest): (q: SearchParams)
    ensures q.filter == req.filter && q.limit == Some(PageSizeOf(req))
    ensures q.offset == Some((PageOf(req) - 1) * PageSizeOf(req))
  {
    SearchParams(req.filter, Some(PageSizeOf(req)), Some((PageOf(req) - 1) * PageSizeOf(req)))
  }

  /** `registrations.search`: one page of the matching rows and their total. */
  function SearchRoute(s: Store, req: SearchRequest): (r: Result<SearchReply, ApiError>)
    ensures !s.available ==> r == Failure(DbFailure(Unavailable))
    ensures s.available ==> (r.Failure? <==> PageSizeOf(req) < 0 || (PageOf(req) - 1) * PageSizeOf(req) < 0)
    ensures r.Success? ==> r.value.page == PageOf(req) && r.value.pageSize == PageSizeOf(req)
    ensures r.Success? ==> r.value.total == |Matching(s, req.filter)|
    ensures r.Success? ==> r.value.totalPages == TotalPages(r.value.total, PageSizeOf(req))
    ensures r.Success? ==>
      Query.IsWindow(r.value.items, Ranked(s, req.filter), Some(PageSizeOf(req)), Some((PageOf(req) - 1) * PageSizeOf(req)))
    ensures r.Success? ==> forall x :: x in r.value.items ==> x in s.registrations && Matches(req.filter, x)
    ensures r.Success? ==> Query.SortedDesc(r.value.items, RegistrationCreatedAt)
    ensures r.Success? ==>
      |r.value.items| == Query.PageSize(r.value.total, Some(PageSizeOf(req)), Some((PageOf(req) - 1) * PageSizeOf(req)))
    ensures r.Success? && PageSizeOf(req) > 0 ==> |r.value.items| <= PageSizeOf(req)
  {
    match Search(s, PageWindow(req))
    case Failure(e) => Failure(DbFailure(e))
    case Success(items) =>
      match Count(s, req.filter)
      case Failure(e) => Failure(DbFailure(e))
      case Success(total) =>
        CountIsUnpagedSearchSize(s, req.filter);
        Query.PaginateNothing(Query.SortDesc(Matching(s, req.filter), RegistrationCreatedAt));
        Success(SearchReply(items, total, PageOf(req), PageSizeOf(req), TotalPages(total, PageSizeOf(req))))
  }

  lemma MulMonotone(a: int, b: int, c: int)
    requires a <= b && c >= 0
    ensures a * c <= b * c
  {
  }

  /** A page from 1 on of positive size is non-empty exactly when it is at
      most the ceiling of total over size. */
  lemma PageWithinCeiling(total: nat, size: int, page: int, n: int)
    requires size > 0 && page >= 1
    requires n == 0 <==> total == 0
    requires total > 0 ==> (n - 1) * size < total <= n * size
    ensures Query.PageSize(total, Some(size), Some((page - 1) * size)) > 0 <==> page <= n
  {
    var offset := (page - 1) * size;
    MulMonotone(0, page - 1, size);
    assert Query.PageSize(total, Some(size), Some(offset)) > 0 <==> total > offset;
    if total > 0 {
      if page <= n {
        MulMonotone(page - 1, n - 1, size);
      } else {
        MulMonotone(n, page - 1, size);
      }
    }
  }

  /** With a positive page size, a page from 1 on is non-empty exactly when
      it is at most the page count. */
  lemma SearchPageWithinCount(s: Store, req: SearchRequest)
    requires s.available && PageSizeOf(req) > 0 && PageOf(req) >= 1
    ensures SearchRoute(s, req).Success?
    ensures var r := SearchRoute(s, req).value;
      r.items != [] <==> PageOf(req) <= r.totalPages.count
  {
    MulMonotone(0, PageOf(req) - 1, PageSizeOf(req));
    var r := SearchRoute(s, req).value;
    PageCountWithin(r.total, PageSizeOf(req), PageOf(req), r.totalPages, |r.items|);
  }

  lemma PageCountWithin(total: nat, size: int, page: int, pages: PageCount, len: nat)
    requires size > 0 && page >= 1 && pages == TotalPages(total, size)
    requires len == Query.PageSize(total, Some(size), Some((page - 1) * size))
    ensures pages.Pages? && (len > 0 <==> page <= pages.count)
  {
    PageWithinCeiling(total, size, page, pages.count);
  }

  /** The next page carries on where a page stops: page `p` followed by
      page `p + 1` is one unbroken run of the matching rows, newest first.
      This needs the matches to have distinct `createdAt`: the database
      may order tied rows differently from one query to the next, and
      without ties `Ranked` is the only order (`Db.RankedWithoutTies`). */
  lemma NextPageContinues(s: Store, req: SearchRequest)
    requires s.available && PageSizeOf(req) > 0 && PageOf(req) >= 1
    requires Query.KeyInjective(Matching(s, req.filter), RegistrationCreatedAt)
    requires Query.Skip(PageWindow(req).offset) <= |Matching(s, req.filter)|
    ensures var next := req.(page := Some(PageOf(req) + 1));
      SearchRoute(s, req).Success? && SearchRoute(s, next).Success?
      && var a := SearchRoute(s, req).value.items;
      var b := SearchRoute(s, next).value.items;
      var k := Query.Skip(PageWindow(req).offset);
      k + |a| + |b| <= |Ranked(s, req.filter)| && a + b == Ranked(s, req.filter)[k..k + |a| + |b|]
  {
    var next := req.(page := Some(PageOf(req) + 1));
    var k := NextWindow(req);
    var a := RouteWindow(s, req);
    var b := RouteWindow(s, next);
    Query.ConsecutiveWindows(Ranked(s, req.filter), PageSizeOf(req), k, a, b);
  }

  /** The offset of the next page is the offset of this one plus one page. */
  lemma NextWindow(req: SearchRequest) returns (k: nat)
    requires PageSizeOf(req) > 0 && PageOf(req) >= 1
    ensures PageWindow(req).offset == Some(k) && Query.Skip(PageWindow(req).offset) == k
    ensures PageWindow(req.(page := Some(PageOf(req) + 1))).offset == Some(k + PageSizeOf(req))
    ensures PageWindow(req.(page := Some(PageOf(req) + 1))).limit == Some(PageSizeOf(req))
  {
    MulMonotone(0, PageOf(req) - 1, PageSizeOf(req));
    k := (PageOf(req) - 1) * PageSizeOf(req);
    assert PageOf(req.(page := Some(PageOf(req) + 1))) == PageOf(req) + 1;
    assert (PageOf(req) + 1 - 1) * PageSizeOf(req) == k + PageSizeOf(req);
  }

  /** The items of a page from 1 on, as a window of the ranked matches. */
  lemma RouteWindow(s: Store, req: SearchRequest) returns (items: seq<Registration>)
    requires s.available && PageSizeOf(req) > 0 && PageOf(req) >= 1
    ensures SearchRoute(s, req).Success? && items == SearchRoute(s, req).value.items
    ensures Query.IsWindow(items, Ranked(s, req.filter), PageWindow(req).limit, PageWindow(req).offset)
  {
    MulMonotone(0, PageOf(req) - 1, PageSizeOf(req));
    items := SearchRoute(s, req).value.items;
  }

  /** `registrations.search` on the database. */
  method SearchRegistrationsRoute(db: Database, req: SearchRequest) returns (result: Result<SearchReply, ApiError>)
    ensures result == SearchRoute(db.State(), req)
  {
    var items := db.SearchRegistrations(PageWindow(req));
    if items.Failure? {
      return Failure(DbFailure(items.error));
    }
    var total := db.CountRegistrations(req.filter);
    if total.Failure? {
      assert false;
    }
    var page, pageSize := PageOf(req), PageSizeOf(req);
    result := Success(SearchReply(items.value, total.value, page, pageSize, TotalPages(total.value, pageSize)));
  }

  // -------------------------------------------------------------- admin.login

  datatype LoginRequest = LoginRequest(username: string, password: string)

  /** What a successful login answers about the administrator. */
  datatype AdminSummary = AdminSummary(id: int, username: string, name: string, email: Option<string>)

  /** `bcrypt.compare(plain, hash)`. */
  type PasswordCheck = (string, string) -> bool

  datatype LoginOutcome = LoginOutcome(table: AdminsDb.AdminTable, result: Result<AdminSummary, ApiError>)

  function Summary(a: AdminsDb.Admin): AdminSummary {
    AdminSummary(a.id, a.username, a.name, a.email)
  }

  /** `admin.login`: an unknown name, a disabled account and a wrong
      password are refused alike; success records the login time. */
  function LoginEffect(t: AdminsDb.AdminTable, req: LoginRequest, passwordMatches: PasswordCheck, now: int)
    : (o: LoginOutcome)
    ensures o.result.Failure? ==> o.table == t
    ensures o.result == Failure(InvalidInput) <==> req.username == "" || req.password == ""
    ensures o.result.Failure? && req.username != "" && req.password != "" ==> o.result.error == Unauthorized(BadCredentials)
    ensures o.result.Success? <==>
      (req.username != "" && req.password != ""
       && var a := AdminsDb.GetAdminByUsername(t, req.username);
          a.Some? && a.value.isActive && passwordMatches(req.password, a.value.password))
    ensures o.result.Success? ==>
      var a := AdminsDb.GetAdminByUsername(t, req.username).value;
      o.result.value == Summary(a) && o.table == AdminsDb.TouchLastLogin(t, a.id, now)
  {
    if req.username == "" || req.password == "" then LoginOutcome(t, Failure(InvalidInput))
    else
      match AdminsDb.GetAdminByUsername(t, req.username)
      case None => LoginOutcome(t, Failure(Unauthorized(BadCredentials)))
      case Some(a) =>
        if !a.isActive then LoginOutcome(t, Failure(Unauthorized(BadCredentials)))
        else if !passwordMatches(req.password, a.password) then LoginOutcome(t, Failure(Unauthorized(BadCredentials)))
        else LoginOutcome(AdminsDb.TouchLastLogin(t, a.id, now), Success(Summary(a)))
  }

  /** A successful login changes only the administrator's last-login time. */
  lemma LoginTouchesOnlyLastLogin(t: AdminsDb.AdminTable, req: LoginRequest, passwordMatches: PasswordCheck, now: int)
    requires AdminsDb.WellFormed(t)
    requires LoginEffect(t, req, passwordMatches, now).result.Success?
    ensures var o := LoginEffect(t, req, passwordMatches, now);
      |o.table.admins| == |t.admins| && o.table.nextId == t.nextId
      && (forall i :: 0 <= i < |t.admins| ==>
            o.table.admins[i] == (if t.admins[i].id == o.result.value.id
              then t.admins[i].(lastLoginAt := Some(now)) else t.admins[i]))
      && (exists i :: 0 <= i < |t.admins| && t.admins[i].id == o.result.value.id
            && t.admins[i].username == req.username && t.admins[i].isActive)
  {
    var a := AdminsDb.GetAdminByUsername(t, req.username).value;
    var k :| 0 <= k < |t.admins| && t.admins[k] == a;
    assert t.admins[k].id == a.id;
  }

  /** `admin.login` on the administrators table. */
  method AdminLogin(store: AdminsDb.AdminStore, req: LoginRequest, passwordMatches: PasswordCheck, now: int)
    returns (result: Result<AdminSummary, ApiError>)
    modifies store
    ensures store.State() == LoginEffect(old(store.State()), req, passwordMatches, now).table
    ensures result == LoginEffect(old(store.State()), req, passwordMatches, now).result
  {
    if req.username == "" || req.password == "" {
      return Failure(InvalidInput);
    }
    var admin := AdminsDb.GetAdminByUsername(store.State(), req.username);
    if admin.None? || !admin.value.isActive {
      return Failure(Unauthorized(BadCredentials));
    }
    if !passwordMatches(req.password, admin.value.password) {
      return Failure(Unauthorized(BadCredentials));
    }
    store.UpdateLastLoginAt(admin.value.id, now);
    result := Success(Summary(admin.value));
  }

  // ------------------------------------------------------------- admin.update

  /** The `admin.update` input. */
  datatype AdminUpdateRequest = AdminUpdateRequest(
    id: int,
    name: Option<string>,
    email: Option<string>,
    phone: Option<string>,
    password: Option<string>,
    isActive: Option<bool>)

  /** The input schema: a given name is non-empty and a given password has
      at least four characters. */
  predicate UpdateAccepted(req: AdminUpdateRequest) {
    (req.name.Some? ==> req.name.value != "") && (req.password.Some? ==> |req.password.value| >= 4)
  }

  /** The updates object: a truthy name or password (the latter hashed), and
      every other field that is given. */
  method BuildAdminUpdates(req: AdminUpdateRequest, hash: string -> string) returns (updates: AdminsDb.AdminUpdates)
    ensures req.name.Some? && req.name.value != "" ==> updates.name == req.name
    ensures req.name.None? || req.name.value == "" ==> updates.name.None?
    ensures updates.email == req.email && updates.phone == req.phone && updates.isActive == req.isActive
    ensures req.password.Some? && req.password.value != "" ==> updates.password == Some(hash(req.password.value))
    ensures req.password.None? || req.password.value == "" ==> updates.password.None?
  {
    updates := AdminsDb.AdminUpdates(None, None, None, None, None);
    if req.name.Some? && req.name.value != "" {
      updates := updates.(name := req.name);
    }
    if req.email.Some? {
      updates := updates.(email := req.email);
    }
    if req.phone.Some? {
      updates := updates.(phone := req.phone);
    }
    if req.isActive.Some? {
      updates := updates.(isActive := req.isActive);
    }
    if req.password.Some? && req.password.value != "" {
      updates := updates.(password := Some(hash(req.password.value)));
    }
  }

  /** The updates of an accepted request, as one value. */
  function UpdatesOf(req: AdminUpdateRequest, hash: string -> string): AdminsDb.AdminUpdates {
    AdminsDb.AdminUpdates(req.name, req.email, req.phone, req.isActive,
      if req.password.Some? then Some(hash(req.password.value)) else None)
  }

  /** An accepted update answers the row with exactly the given fields
      changed, the password stored as its hash. */
  lemma AdminUpdateChangesGivenFields(t: AdminsDb.AdminTable, req: AdminUpdateRequest, hash: string -> string, i: nat)
    requires AdminsDb.WellFormed(t) && t.available && UpdateAccepted(req)
    requires i < |t.admins| && t.admins[i].id == req.id
    ensures var r := AdminsDb.SetAdmin(t, req.id, UpdatesOf(req, hash)).result;
      var a := t.admins[i];
      r.Success? && r.value.id == a.id && r.value.username == a.username && r.value.createdAt == a.createdAt
      && r.value.lastLoginAt == a.lastLoginAt
      && r.value.name == req.name.GetOr(a.name)
      && r.value.email == (if req.email.Some? then req.email else a.email)
      && r.value.phone == (if req.phone.Some? then req.phone else a.phone)
      && r.value.isActive == req.isActive.GetOr(a.isActive)
      && r.value.password == (if req.password.Some? then hash(req.password.value) else a.password)
  {
    AdminsDb.SetAdminAnswersUpdatedRow(t, req.id, UpdatesOf(req, hash), i);
  }

  /** `admin.update` on the administrators table. */
  method AdminUpdate(store: AdminsDb.AdminStore, req: AdminUpdateRequest, hash: string -> string)
    returns (result: Result<AdminsDb.Admin, ApiError>)
    modifies store
    ensures !UpdateAccepted(req) ==> result == Failure(InvalidInput) && store.State() == old(store.State())
    ensures UpdateAccepted(req) ==> store.State() == AdminsDb.SetAdmin(old(store.State()), req.id, UpdatesOf(req, hash)).table
    ensures UpdateAccepted(req) ==> match AdminsDb.SetAdmin(old(store.State()), req.id, UpdatesOf(req, hash)).result
      case Success(a) => result == Success(a)
      case Failure(e) => result == Failure(Internal(AdminDatabase(e)))
  {
    if !UpdateAccepted(req) {
      return Failure(InvalidInput);
    }
    var updates := BuildAdminUpdates(req, hash);
    assert updates == UpdatesOf(req, hash);
    var updated := store.UpdateAdmin(req.id, updates);
    result := match updated
      case Success(a) => Success(a)
      case Failure(e) => Failure(Internal(AdminDatabase(e)));
  }
}
