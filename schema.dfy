/** The four tables of the registration system: record shapes, enum
    columns, defaults and the column bounds MySQL enforces in strict mode.
    Money is held in cents: a decimal(10,2) column stores whole cents
    exactly. Timestamps are integers. */
module Schema {
  import opened Wrappers

  /** A decimal(10,2) amount, in cents. */
  type Cents = int

  /** decimal(10,2) holds at most 8 integer digits and 2 fractional ones. */
  const DecimalLimit: int := 10_000_000_000

  predicate FitsDecimal(c: Cents) {
    -DecimalLimit < c < DecimalLimit
  }

  /** A signed 32-bit `int` column. */
  predicate FitsInt(n: int) {
    -0x8000_0000 <= n < 0x8000_0000
  }

  /** A `varchar(n)` column: at most `n` characters. */
  predicate FitsVarchar(s: string, n: nat) {
    |s| <= n
  }

  predicate FitsOptVarchar(s: Option<string>, n: nat) {
    s.Some? ==> |s.value| <= n
  }

  /** `studentGender`: the enum of the two labels 男 and 女. */
  datatype Gender = Male | Female

  function GenderLabel(g: Gender): string {
    match g
    case Male => "男"
    case Female => "女"
  }

  /** Reads a gender label; nothing else is a member of the enum. */
  function ParseGender(s: string): (r: Option<Gender>)
    ensures r.Some? <==> s == "男" || s == "女"
    ensures r.Some? ==> GenderLabel(r.value) == s
  {
    if s == "男" then Some(Male) else if s == "女" then Some(Female) else None
  }

  lemma ParseGenderOfLabel(g: Gender)
    ensures ParseGender(GenderLabel(g)) == Some(g)
  {
  }

  /** `registrations.paymentStatus`. */
  datatype RegistrationStatus = Pending | Paid | Refunded

  const DefaultRegistrationStatus: RegistrationStatus := Pending

  function RegistrationStatusName(s: RegistrationStatus): string {
    match s
    case Pending => "pending"
    case Paid => "paid"
    case Refunded => "refunded"
  }

  /** Status names are distinct, so a filter on the name selects one status. */
  lemma RegistrationStatusNameInjective(a: RegistrationStatus, b: RegistrationStatus)
    ensures RegistrationStatusName(a) == RegistrationStatusName(b) <==> a == b
  {
  }

  /** `payments.status`. */
  datatype PaymentStatus = PaymentPending | Completed | Failed | PaymentRefunded

  const DefaultPaymentStatus: PaymentStatus := PaymentPending

  /** `users.role`. */
  datatype Role = UserRole | AdminRole

  const DefaultRole: Role := UserRole

  /** The currency a payment row gets when the insert names none. */
  const DefaultCurrency: string := "CNY"

  /** `activities`: one row per research-study activity. */
  datatype Activity = Activity(
    id: int,
    title: string,
    description: Option<string>,
    price: Cents,
    contactPerson: Option<string>,
    contactPhone: Option<string>,
    contactWechat: Option<string>,
    itinerary: Option<string>,
    isActive: bool,
    createdBy: int,
    createdAt: int)

  /** The price an activity row gets when the insert names none: "0.00". */
  const DefaultPrice: Cents := 0

  /** The columns of a registration that the caller supplies. */
  datatype RegistrationInput = RegistrationInput(
    activityId: int,
    studentName: string,
    studentGender: Gender,
    studentSchool: string,
    studentGrade: string,
    studentClass: string,
    studentIdCard: Option<string>,
    guardianName: string,
    guardianPhone: string,
    emergencyContactName: Option<string>,
    emergencyContactPhone: Option<string>,
    remarks: Option<string>)

  /** `registrations`: one row per submitted registration form. */
  datatype Registration = Registration(
    id: int,
    input: RegistrationInput,
    paymentStatus: RegistrationStatus,
    paymentAmount: Cents,
    ipAddress: Option<string>,
    location: Option<string>,
    createdAt: int)

  /** An insert into `registrations`: the columns without defaults, and the
      ones a caller may leave for the database to fill. */
  datatype NewRegistration = NewRegistration(
    input: RegistrationInput,
    paymentStatus: Option<RegistrationStatus>,
    paymentAmount: Cents,
    ipAddress: Option<string>,
    location: Option<string>)

  /** Every column of the insert fits its declared type. */
  predicate RegistrationFits(r: NewRegistration) {
    var i := r.input;
    FitsInt(i.activityId)
    && FitsVarchar(i.studentName, 100)
    && FitsVarchar(i.studentSchool, 200)
    && FitsVarchar(i.studentGrade, 50)
    && FitsVarchar(i.studentClass, 50)
    && FitsOptVarchar(i.studentIdCard, 18)
    && FitsVarchar(i.guardianName, 100)
    && FitsVarchar(i.guardianPhone, 20)
    && FitsOptVarchar(i.emergencyContactName, 100)
    && FitsOptVarchar(i.emergencyContactPhone, 20)
    && FitsDecimal(r.paymentAmount)
    && FitsOptVarchar(r.ipAddress, 50)
    && FitsOptVarchar(r.location, 200)
  }

  /** The row an insert produces: absent status defaults to pending. */
  function RegistrationRow(id: int, r: NewRegistration, now: int): (row: Registration)
    ensures row.id == id && row.input == r.input && row.paymentAmount == r.paymentAmount
    ensures row.paymentStatus == r.paymentStatus.GetOr(DefaultRegistrationStatus)
    ensures r.paymentStatus.None? ==> row.paymentStatus == Pending
  {
    Registration(id, r.input, r.paymentStatus.GetOr(DefaultRegistrationStatus),
      r.paymentAmount, r.ipAddress, r.location, now)
  }

  /** `paymentData`: the session and payment-intent ids, kept as a pair
      rather than as the JSON text the column holds. */
  datatype PaymentData = PaymentData(sessionId: string, paymentIntent: Option<string>)

  /** `payments`: at most one row per registration. */
  datatype Payment = Payment(
    id: int,
    registrationId: int,
    paymentMethod: string,
    transactionId: Option<string>,
    amount: Cents,
    currency: string,
    status: PaymentStatus,
    paymentData: Option<PaymentData>,
    paidAt: Option<int>,
    createdAt: int)

  /** An insert into `payments`; `currency` and `status` have defaults. */
  datatype NewPayment = NewPayment(
    registrationId: int,
    paymentMethod: string,
    transactionId: Option<string>,
    amount: Cents,
    currency: Option<string>,
    status: Option<PaymentStatus>,
    paymentData: Option<PaymentData>,
    paidAt: Option<int>)

  predicate PaymentFits(p: NewPayment) {
    FitsInt(p.registrationId)
    && FitsVarchar(p.paymentMethod, 50)
    && FitsOptVarchar(p.transactionId, 255)
    && FitsDecimal(p.amount)
    && FitsOptVarchar(p.currency, 10)
  }

  /** The row an insert produces: CNY and pending unless given. */
  function PaymentRow(id: int, p: NewPayment, now: int): (row: Payment)
    ensures row.id == id && row.registrationId == p.registrationId && row.amount == p.amount
    ensures p.currency.None? ==> row.currency == "CNY"
    ensures p.status.None? ==> row.status == PaymentPending
    ensures p.currency.Some? ==> row.currency == p.currency.value
    ensures p.status.Some? ==> row.status == p.status.value
  {
    Payment(id, p.registrationId, p.paymentMethod, p.transactionId, p.amount,
      p.currency.GetOr(DefaultCurrency), p.status.GetOr(DefaultPaymentStatus),
      p.paymentData, p.paidAt, now)
  }

  /** `users`: one row per OAuth identity, keyed by the unique `openId`. */
  datatype User = User(
    id: int,
    openId: string,
    name: Option<string>,
    email: Option<string>,
    loginMethod: Option<string>,
    role: Role,
    createdAt: int,
    lastSignedIn: int)
}
