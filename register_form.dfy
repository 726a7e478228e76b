/** The public registration page: the form's own validation, the activity id
    read from the route, and what a submit sends to `registrations.create`. */
module RegisterForm {
  import opened Wrappers
  import opened Text
  import opened Schema
  import Routers
  import Checkout
  import Query

  /** The form's values; the gender stays unset until one is picked. */
  datatype FormValues = FormValues(
    studentName: string,
    studentGender: Option<string>,
    studentSchool: string,
    studentGrade: string,
    studentClass: string,
    studentIdCard: Option<string>,
    guardianName: string,
    guardianPhone: string,
    emergencyContactName: Option<string>,
    emergencyContactPhone: Option<string>,
    remarks: Option<string>)

  /** The fields the form schema can reject. */
  datatype FormField =
    | StudentName | StudentGender | StudentSchool | StudentGrade | StudentClass
    | GuardianName | GuardianPhone

  /** The length a mobile number must have. */
  const PhoneLength: nat := 11

  /** The empty form the page starts from. */
  const DefaultValues: FormValues :=
    FormValues("", None, "", "", "", Some(""), "", "", Some(""), Some(""), Some(""))

  predicate ValidGender(g: Option<string>) {
    g.Some? && (g.value == "男" || g.value == "女")
  }

  /** The rule of one field. */
  predicate FieldValid(v: FormValues, f: FormField) {
    match f
    case StudentName => |v.studentName| >= 1
    case StudentGender => ValidGender(v.studentGender)
    case StudentSchool => |v.studentSchool| >= 1
    case StudentGrade => |v.studentGrade| >= 1
    case StudentClass => |v.studentClass| >= 1
    case GuardianName => |v.guardianName| >= 1
    case GuardianPhone => PhoneLength <= |v.guardianPhone| <= PhoneLength
  }

  /** The whole schema: every checked field passes. */
  predicate FormAccepts(v: FormValues) {
    forall f: FormField :: FieldValid(v, f)
  }

  /** The checked fields in the order the schema lists them. */
  const SchemaOrder: seq<FormField> :=
    [StudentName, StudentGender, StudentSchool, StudentGrade, StudentClass, GuardianName, GuardianPhone]

  function Fails(v: FormValues): FormField -> bool {
    (f: FormField) => !FieldValid(v, f)
  }

  lemma AllFieldsListed()
    ensures forall f: FormField :: f in SchemaOrder
    ensures forall i, j :: 0 <= i < j < |SchemaOrder| ==> SchemaOrder[i] != SchemaOrder[j]
  {
    forall f: FormField
      ensures f in SchemaOrder
    {
      var k := match f
        case StudentName => 0
        case StudentGender => 1
        case StudentSchool => 2
        case StudentGrade => 3
        case StudentClass => 4
        case GuardianName => 5
        case GuardianPhone => 6;
      assert SchemaOrder[k] == f;
    }
  }

  /** The fields the schema reports, in the order the schema lists them. */
  function FormErrors(v: FormValues): (r: seq<FormField>)
    ensures forall f :: f in r <==> !FieldValid(v, f)
    ensures r == [] <==> FormAccepts(v)
    ensures forall i, j :: 0 <= i < j < |r| ==> r[i] != r[j]
  {
    AllFieldsListed();
    Query.FilterKeepsDistinct(SchemaOrder, Fails(v));
    Query.Filter(SchemaOrder, Fails(v))
  }

  /** The empty form is refused on every field. */
  lemma DefaultValuesRefused()
    ensures forall f :: f in FormErrors(DefaultValues)
    ensures |FormErrors(DefaultValues)| == |SchemaOrder|
  {
    FormErrorsOfAllFailing(DefaultValues);
  }

  /** When every field fails, every field is reported once, in schema order. */
  lemma FormErrorsOfAllFailing(v: FormValues)
    requires forall f :: !FieldValid(v, f)
    ensures FormErrors(v) == SchemaOrder
  {
    Query.FilterAll(SchemaOrder, Fails(v));
  }

  /** The `:activityId` route parameter read with `parseInt`: `None` stands
      for a missing parameter as well as for NaN. */
  function RouteActivityId(param: Option<string>): (r: Option<int>)
    ensures param.None? || param == Some("") ==> r.None?
    ensures forall n :: param == Some(IntToDecimal(n)) ==> r == Some(n)
  {
    ParseIntOfDecimals();
    if param.Some? && param.value != "" then ParseInt(param.value) else None
  }

  lemma ParseIntOfDecimals()
    ensures forall n {:trigger IntToDecimal(n)} :: ParseInt(IntToDecimal(n)) == Some(n)
  {
    forall n: int
      ensures ParseInt(IntToDecimal(n)) == Some(n)
    {
      ParseIntOfIntToDecimal(n);
    }
  }

  /** What a submit does: refuse a falsy id (missing, NaN or 0) without a
      request, or send the id with the values. */
  datatype Submission = InvalidActivityId | Sent(request: Routers.RegistrationRequest)

  function Payload(activityId: int, v: FormValues): Routers.RegistrationRequest {
    Routers.RegistrationRequest(activityId, v.studentName, v.studentGender.GetOr(""), v.studentSchool,
      v.studentGrade, v.studentClass, v.studentIdCard, v.guardianName, v.guardianPhone,
      v.emergencyContactName, v.emergencyContactPhone, v.remarks)
  }

  /** `onSubmit`, reached only with values the schema accepted. */
  function OnSubmit(activityId: Option<int>, v: FormValues): (r: Submission)
    requires FormAccepts(v)
    ensures r == InvalidActivityId <==> activityId.None? || activityId.value == 0
    ensures r.Sent? ==> r.request.activityId == activityId.value && r.request.activityId != 0
    ensures r.Sent? ==> (r.request.studentName == v.studentName && r.request.guardianPhone == v.guardianPhone
      && Some(r.request.studentGender) == v.studentGender && r.request.remarks == v.remarks)
  {
    assert FieldValid(v, StudentGender);
    if activityId.None? || activityId.value == 0 then InvalidActivityId
    else Sent(Payload(activityId.value, v))
  }

  /** Whatever the form lets through, the server's input schema accepts,
      and the stored input is the values as entered. */
  lemma FormRefinesServer(activityId: Option<int>, v: FormValues)
    requires FormAccepts(v)
    requires OnSubmit(activityId, v).Sent?
    ensures var req := OnSubmit(activityId, v).request;
      Routers.ServerAccepts(req)
      && Routers.ParseRegistrationInput(req).Some?
      && GenderLabel(Routers.ParseRegistrationInput(req).value.studentGender) == v.studentGender.value
      && Routers.ParseRegistrationInput(req).value.guardianPhone == v.guardianPhone
  {
    assert FieldValid(v, StudentName) && FieldValid(v, StudentGender) && FieldValid(v, StudentSchool);
    assert FieldValid(v, StudentGrade) && FieldValid(v, StudentClass) && FieldValid(v, GuardianName);
    assert FieldValid(v, GuardianPhone);
  }

  /** The server is the looser of the two: it takes a phone number of any
      non-zero length, which the form refuses. */
  lemma ServerLooserThanForm()
    ensures exists v: FormValues :: !FormAccepts(v) && Routers.ServerAccepts(Payload(1, v))
  {
    var v := FormValues("a", Some("男"), "s", "g", "c", None, "n", "1", None, None, None);
    assert !FieldValid(v, GuardianPhone);
    assert !FormAccepts(v) && Routers.ServerAccepts(Payload(1, v));
  }

  /** Where a created registration leads: its payment page. */
  function PaymentPage(registrationId: int): string {
    "/payment/" + IntToDecimal(registrationId)
  }

  /** The page a new registration is sent to is the one the checkout's
      cancel link returns to. */
  lemma PaymentPageIsCheckoutReturn(req: Checkout.CheckoutRequest)
    ensures Checkout.BuildCheckoutParams(req).cancelUrl == req.origin + PaymentPage(req.registrationId)
  {
  }
}
