/** The persistence gateway of the registration system: the activities,
    registrations, payments and users tables, the lookups over them, the
    inserts, updates and deletes, the registration search and count, and the
    merge that `upsertUser` performs. A `Store` value is the whole database;
    `Database` holds one and changes it in place. */
module Db {
  import opened Wrappers
  import opened Schema
  import opened Text
  import Query

  /** Why a gateway call throws instead of answering. */
  datatype DbError =
    | Unavailable      // no connection: "Database not available"
    | BadValue         // strict mode refuses a value too long or too large for its column
    | DuplicateKey     // a unique key would be repeated
    | BadQuery         // a negative LIMIT or OFFSET
    | MissingOpenId    // "User openId is required for upsert"

  datatype Store = Store(
    available: bool,
    activities: seq<Activity>,
    registrations: seq<Registration>,
    payments: seq<Payment>,
    users: seq<User>,
    nextActivityId: int,
    nextRegistrationId: int,
    nextPaymentId: int,
    nextUserId: int)

  /** The outcome of a call that may change the store. */
  datatype Step<+T> = Step(store: Store, result: Result<T, DbError>)

  // ---------------------------------------------------------------- keys

  function ActivityId(a: Activity): int { a.id }
  function RegistrationId(r: Registration): int { r.id }
  function PaymentId(p: Payment): int { p.id }
  function PaymentRegistration(p: Payment): int { p.registrationId }
  function UserId(u: User): int { u.id }
  function UserOpenId(u: User): string { u.openId }

  /** Every key of the schema holds: auto-increment primary keys drawn
      below their counters, `payments.registrationId` and `users.openId`
      unique. */
  ghost predicate WellFormed(s: Store) {
    1 <= s.nextActivityId && 1 <= s.nextRegistrationId && 1 <= s.nextPaymentId && 1 <= s.nextUserId
    && Query.DistinctKeys(s.activities, ActivityId) && Query.KeysIn(s.activities, ActivityId, 1, s.nextActivityId)
    && Query.DistinctKeys(s.registrations, RegistrationId)
    && Query.KeysIn(s.registrations, RegistrationId, 1, s.nextRegistrationId)
    && Query.DistinctKeys(s.payments, PaymentId) && Query.KeysIn(s.payments, PaymentId, 1, s.nextPaymentId)
    && Query.DistinctKeys(s.payments, PaymentRegistration)
    && Query.DistinctKeys(s.users, UserId) && Query.KeysIn(s.users, UserId, 1, s.nextUserId)
    && Query.DistinctKeys(s.users, UserOpenId)
  }

  // ------------------------------------------------------------- lookups

  function ActivityHasId(id: int): Activity -> bool {
    (a: Activity) => a.id == id
  }

  function RegistrationHasId(id: int): Registration -> bool {
    (r: Registration) => r.id == id
  }

  function RegistrationLacksId(id: int): Registration -> bool {
    (r: Registration) => r.id != id
  }

  function PaymentHasId(id: int): Payment -> bool {
    (p: Payment) => p.id == id
  }

  function PaymentForRegistration(registrationId: int): Payment -> bool {
    (p: Payment) => p.registrationId == registrationId
  }

  function UserHasOpenId(openId: string): User -> bool {
    (u: User) => u.openId == openId
  }

  /** `getActivityById`. */
  function GetActivityById(s: Store, id: int): (r: Result<Option<Activity>, DbError>)
    ensures r.Failure? <==> !s.available
    ensures r.Failure? ==> r.error == Unavailable
    ensures r.Success? ==> (r.value.None? <==> forall i :: 0 <= i < |s.activities| ==> s.activities[i].id != id)
    ensures r.Success? && r.value.Some? ==> r.value.value in s.activities && r.value.value.id == id
  {
    if !s.available then Failure(Unavailable)
    else Success(Query.FirstWhere(s.activities, ActivityHasId(id)))
  }

  function IsActive(a: Activity): bool {
    a.isActive
  }

  function ActivityCreatedAt(a: Activity): int {
    a.createdAt
  }

  /** `getActiveActivities`: exactly the active rows, newest first. */
  function GetActiveActivities(s: Store): (r: Result<seq<Activity>, DbError>)
    ensures r.Failure? <==> !s.available
    ensures r.Success? ==> forall a :: a in r.value <==> a in s.activities && a.isActive
    ensures r.Success? ==> multiset(r.value) == multiset(Query.Filter(s.activities, IsActive))
    ensures r.Success? ==> Query.SortedDesc(r.value, ActivityCreatedAt)
  {
    if !s.available then Failure(Unavailable)
    else Success(Query.Ordered(s.activities, IsActive, ActivityCreatedAt))
  }

  /** `getRegistrationById`. */
  function GetRegistrationById(s: Store, id: int): (r: Result<Option<Registration>, DbError>)
    ensures r.Failure? <==> !s.available
    ensures r.Failure? ==> r.error == Unavailable
    ensures r.Success? ==> (r.value.None? <==> forall i :: 0 <= i < |s.registrations| ==> s.registrations[i].id != id)
    ensures r.Success? && r.value.Some? ==> r.value.value in s.registrations && r.value.value.id == id
  {
    if !s.available then Failure(Unavailable)
    else Success(Query.FirstWhere(s.registrations, RegistrationHasId(id)))
  }

  /** `getPaymentByRegistrationId`. */
  function GetPaymentByRegistrationId(s: Store, registrationId: int): (r: Result<Option<Payment>, DbError>)
    ensures r.Failure? <==> !s.available
    ensures r.Failure? ==> r.error == Unavailable
    ensures r.Success? ==> (r.value.None? <==>
      forall i :: 0 <= i < |s.payments| ==> s.payments[i].registrationId != registrationId)
    ensures r.Success? && r.value.Some? ==>
      r.value.value in s.payments && r.value.value.registrationId == registrationId
  {
    if !s.available then Failure(Unavailable)
    else Success(Query.FirstWhere(s.payments, PaymentForRegistration(registrationId)))
  }

  /** With the unique key in force, the payment found is the only one. */
  lemma GetPaymentFindsTheOne(s: Store, i: nat)
    requires WellFormed(s) && s.available && i < |s.payments|
    ensures GetPaymentByRegistrationId(s, s.payments[i].registrationId) == Success(Some(s.payments[i]))
  {
    var rid := s.payments[i].registrationId;
    assert forall j :: 0 <= j < |s.payments| && j != i ==> PaymentRegistration(s.payments[j]) != rid;
    Query.FirstWhereOfUnique(s.payments, PaymentForRegistration(rid), i);
  }

  /** At most one payment row names any registration. */
  lemma {:induction false} AtMostOnePayment(rows: seq<Payment>, registrationId: int)
    requires Query.DistinctKeys(rows, PaymentRegistration)
    ensures Query.CountWhere(rows, PaymentForRegistration(registrationId)) <= 1
  {
    if rows != [] {
      Query.DistinctKeysTail(rows, PaymentRegistration);
      AtMostOnePayment(rows[1..], registrationId);
      if rows[0].registrationId == registrationId {
        Query.CountWhereNone(rows[1..], PaymentForRegistration(registrationId));
      }
    }
  }

  // ---------------------------------------------------------- registrations

  /** `createRegistration`: appends the row under the next fresh id and
      answers that id (the insert's `insertId`). */
  function InsertRegistration(s: Store, r: NewRegistration, now: int): (st: Step<int>)
    ensures st.result.Failure? ==> st.store == s
    ensures st.result.Failure? <==> !s.available || !RegistrationFits(r)
    ensures !s.available ==> st.result == Failure(Unavailable)
    ensures st.result.Success? ==>
      st.result.value == s.nextRegistrationId
      && st.store.registrations == s.registrations + [RegistrationRow(st.result.value, r, now)]
      && st.store.activities == s.activities && st.store.payments == s.payments && st.store.users == s.users
  {
    if !s.available then Step(s, Failure(Unavailable))
    else if !RegistrationFits(r) then Step(s, Failure(BadValue))
    else
      var id := s.nextRegistrationId;
      Step(s.(registrations := s.registrations + [RegistrationRow(id, r, now)],
              nextRegistrationId := id + 1),
           Success(id))
  }

  lemma InsertRegistrationKeepsKeys(s: Store, r: NewRegistration, now: int)
    requires WellFormed(s)
    ensures WellFormed(InsertRegistration(s, r, now).store)
  {
    var st := InsertRegistration(s, r, now);
    if st.result.Success? {
      Query.AppendFreshKey(s.registrations, RegistrationRow(s.nextRegistrationId, r, now), RegistrationId,
        1, s.nextRegistrationId);
    }
  }

  /** The inserted row is the one the new id finds. */
  lemma InsertRegistrationFound(s: Store, r: NewRegistration, now: int)
    requires WellFormed(s)
    requires InsertRegistration(s, r, now).result.Success?
    ensures var st := InsertRegistration(s, r, now);
      GetRegistrationById(st.store, st.result.value) == Success(Some(RegistrationRow(st.result.value, r, now)))
  {
    var st := InsertRegistration(s, r, now);
    var rows := st.store.registrations;
    Query.FirstWhereOfUnique(rows, RegistrationHasId(st.result.value), |rows| - 1);
  }

  /** The columns `updateRegistration` is called with. */
  datatype RegistrationPatch = RegistrationPatch(paymentStatus: Option<RegistrationStatus>)

  function PatchRegistration(r: Registration, patch: RegistrationPatch): Registration {
    r.(paymentStatus := patch.paymentStatus.GetOr(r.paymentStatus))
  }

  function RegistrationPatcher(patch: RegistrationPatch): Registration -> Registration {
    (r: Registration) => PatchRegistration(r, patch)
  }

  /** `updateRegistration`: only the row with that id changes, and only in
      the patched columns; a missing id changes nothing. */
  function SetRegistration(s: Store, id: int, patch: RegistrationPatch): (st: Step<()>)
    ensures !s.available ==> st == Step(s, Failure(Unavailable))
    ensures s.available ==> (st.result.Success?
      && st.store == s.(registrations := st.store.registrations)
      && |st.store.registrations| == |s.registrations|
      && forall i :: 0 <= i < |s.registrations| ==>
           st.store.registrations[i] ==
             if s.registrations[i].id == id then PatchRegistration(s.registrations[i], patch)
             else s.registrations[i])
  {
    if !s.available then Step(s, Failure(Unavailable))
    else
      Step(s.(registrations := Query.UpdateWhere(s.registrations, RegistrationHasId(id), RegistrationPatcher(patch))),
           Success(()))
  }

  lemma SetRegistrationKeepsKeys(s: Store, id: int, patch: RegistrationPatch)
    requires WellFormed(s)
    ensures WellFormed(SetRegistration(s, id, patch).store)
  {
    var rows := SetRegistration(s, id, patch).store.registrations;
    assert forall i :: 0 <= i < |rows| ==> RegistrationId(rows[i]) == RegistrationId(s.registrations[i]);
    Query.SameKeysKeep(s.registrations, rows, RegistrationId);
    Query.SameIntKeysKeep(s.registrations, rows, RegistrationId, 1, s.nextRegistrationId);
  }

  /** `deleteRegistration`: every other row stays, in order. */
  function RemoveRegistration(s: Store, id: int): (st: Step<()>)
    ensures !s.available ==> st == Step(s, Failure(Unavailable))
    ensures s.available ==> (st.result.Success?
      && st.store == s.(registrations := st.store.registrations)
      && forall r :: r in st.store.registrations <==> r in s.registrations && r.id != id)
  {
    if !s.available then Step(s, Failure(Unavailable))
    else Step(s.(registrations := Query.Filter(s.registrations, RegistrationLacksId(id))), Success(()))
  }

  lemma RemoveRegistrationKeepsKeys(s: Store, id: int)
    requires WellFormed(s)
    ensures WellFormed(RemoveRegistration(s, id).store)
  {
    if s.available {
      Query.FilterKeepsKeys(s.registrations, RegistrationLacksId(id), RegistrationId, 1, s.nextRegistrationId);
    }
  }

  // ------------------------------------------------------------ search

  /** The filters `searchRegistrations` and `countRegistrations` accept;
      dates are already timestamps. */
  datatype RegistrationFilter = RegistrationFilter(
    activityId: Option<int>,
    studentName: Option<string>,
    paymentStatus: Option<string>,
    startDate: Option<int>,
    endDate: Option<int>)

  /** A condition pushed for one truthy filter value. */
  datatype Condition =
    | ActivityIs(activityId: int)
    | NameLike(fragment: string)
    | StatusIs(status: string)
    | CreatedFrom(start: int)
    | CreatedUntil(end: int)

  predicate Holds(c: Condition, r: Registration) {
    match c
    case ActivityIs(a) => r.input.activityId == a
    case NameLike(f) => Contains(r.input.studentName, f)
    case StatusIs(st) => RegistrationStatusName(r.paymentStatus) == st
    case CreatedFrom(t) => r.createdAt >= t
    case CreatedUntil(t) => r.createdAt <= t
  }

  /** `and(...conditions)`. */
  predicate AllHold(cs: seq<Condition>, r: Registration) {
    forall i :: 0 <= i < |cs| ==> Holds(cs[i], r)
  }

  /** What a row must satisfy: every filter with a truthy value (a non-zero
      id, a non-empty name or status, any date) constrains it. */
  predicate Matches(f: RegistrationFilter, r: Registration) {
    (f.activityId.Some? && f.activityId.value != 0 ==> r.input.activityId == f.activityId.value)
    && (f.studentName.Some? && f.studentName.value != "" ==> Contains(r.input.studentName, f.studentName.value))
    && (f.paymentStatus.Some? && f.paymentStatus.value != "" ==>
          RegistrationStatusName(r.paymentStatus) == f.paymentStatus.value)
    && (f.startDate.Some? ==> r.createdAt >= f.startDate.value)
    && (f.endDate.Some? ==> r.createdAt <= f.endDate.value)
  }

  function MatchesFilter(f: RegistrationFilter): Registration -> bool {
    (r: Registration) => Matches(f, r)
  }

  function RegistrationCreatedAt(r: Registration): int {
    r.createdAt
  }

  lemma AllHoldAppend(cs: seq<Condition>, c: Condition, r: Registration)
    ensures AllHold(cs + [c], r) <==> AllHold(cs, r) && Holds(c, r)
  {
    if AllHold(cs, r) && Holds(c, r) {
      forall i | 0 <= i < |cs + [c]|
        ensures Holds((cs + [c])[i], r)
      {
        if i < |cs| {
          assert (cs + [c])[i] == cs[i];
        }
      }
    }
    if AllHold(cs + [c], r) {
      assert (cs + [c])[|cs|] == c;
      forall i | 0 <= i < |cs|
        ensures Holds(cs[i], r)
      {
        assert (cs + [c])[i] == cs[i];
      }
    }
  }

  /** The condition list both queries build, one push per truthy filter. */
  method BuildConditions(f: RegistrationFilter) returns (cs: seq<Condition>)
    ensures forall r :: AllHold(cs, r) <==> Matches(f, r)
  {
    cs := [];
    if f.activityId.Some? && f.activityId.value != 0 {
      cs := cs + [ActivityIs(f.activityId.value)];
    }
    ghost var c1 := cs;
    if f.studentName.Some? && f.studentName.value != "" {
      cs := cs + [NameLike(f.studentName.value)];
    }
    ghost var c2 := cs;
    if f.paymentStatus.Some? && f.paymentStatus.value != "" {
      cs := cs + [StatusIs(f.paymentStatus.value)];
    }
    ghost var c3 := cs;
    if f.startDate.Some? {
      cs := cs + [CreatedFrom(f.startDate.value)];
    }
    ghost var c4 := cs;
    if f.endDate.Some? {
      cs := cs + [CreatedUntil(f.endDate.value)];
    }
    forall r
      ensures AllHold(cs, r) <==> Matches(f, r)
    {
      if f.activityId.Some? && f.activityId.value != 0 { AllHoldAppend([], ActivityIs(f.activityId.value), r); }
      if f.studentName.Some? && f.studentName.value != "" { AllHoldAppend(c1, NameLike(f.studentName.value), r); }
      if f.paymentStatus.Some? && f.paymentStatus.value != "" { AllHoldAppend(c2, StatusIs(f.paymentStatus.value), r); }
      if f.startDate.Some? { AllHoldAppend(c3, CreatedFrom(f.startDate.value), r); }
      if f.endDate.Some? { AllHoldAppend(c4, CreatedUntil(f.endDate.value), r); }
    }
  }

  /** `searchRegistrations` parameters: the filters and the page window. */
  datatype SearchParams = SearchParams(filter: RegistrationFilter, limit: Option<int>, offset: Option<int>)

  /** The rows a filter selects, in storage order. */
  function Matching(s: Store, f: RegistrationFilter): (r: seq<Registration>)
    ensures forall x :: x in r <==> x in s.registrations && Matches(f, x)
  {
    Query.Filter(s.registrations, MatchesFilter(f))
  }

  /** The matching rows newest first, before any window: the same rows as
      `Matching`, each as often. */
  function Ranked(s: Store, f: RegistrationFilter): (r: seq<Registration>)
    ensures multiset(r) == multiset(Matching(s, f)) && |r| == |Matching(s, f)|
    ensures Query.SortedDesc(r, RegistrationCreatedAt)
  {
    Query.Ordered(s.registrations, MatchesFilter(f), RegistrationCreatedAt)
  }
  /** When no two matching rows share `createdAt`, `Ranked` is the only
      newest-first arrangement of the matches, so the order the model gives
      tied rows plays no part. */
  lemma RankedWithoutTies(s: Store, f: RegistrationFilter, x: seq<Registration>)
    requires Query.KeyInjective(Matching(s, f), RegistrationCreatedAt)
    requires Query.SortedDesc(x, RegistrationCreatedAt) && multiset(x) == multiset(Matching(s, f))
    ensures x == Ranked(s, f)
  {
    Query.OrderedIsUnique(s.registrations, MatchesFilter(f), RegistrationCreatedAt, x);
  }


  /** What `searchRegistrations` answers: the matching rows, newest first,
      then `offset` rows skipped and at most `limit` kept. */
  function Search(s: Store, q: SearchParams): (r: Result<seq<Registration>, DbError>)
    ensures !s.available ==> r == Failure(Unavailable)
    ensures s.available ==> (r.Failure? <==>
      (Query.IsSet(q.limit) && q.limit.value < 0) || (Query.IsSet(q.offset) && q.offset.value < 0))
    ensures r.Success? ==> Query.IsWindow(r.value, Ranked(s, q.filter), q.limit, q.offset)
    ensures r.Success? ==> forall x :: x in r.value ==> x in s.registrations && Matches(q.filter, x)
    ensures r.Success? ==> Query.SortedDesc(r.value, RegistrationCreatedAt)
    ensures r.Success? ==> |r.value| == Query.PageSize(|Matching(s, q.filter)|, q.limit, q.offset)
    ensures r.Success? && Query.IsSet(q.limit) ==> |r.value| <= q.limit.value
  {
    if !s.available then Failure(Unavailable)
    else
      var sorted := Ranked(s, q.filter);
      match Query.Paginate(sorted, q.limit, q.offset)
      case Failure(_) => Failure(BadQuery)
      case Success(page) =>
        Query.PaginateSubset(sorted, q.limit, q.offset);
        Query.PaginateSorted(sorted, RegistrationCreatedAt, q.limit, q.offset);
        Success(page)
  }

  /** What `countRegistrations` answers. */
  function Count(s: Store, f: RegistrationFilter): (r: Result<nat, DbError>)
    ensures r.Failure? <==> !s.available
    ensures r.Success? ==> r.value <= |s.registrations|
  {
    if !s.available then Failure(Unavailable)
    else
      Query.CountWhereIsFilterSize(s.registrations, MatchesFilter(f));
      Success(Query.CountWhere(s.registrations, MatchesFilter(f)))
  }

  /** The count is the number of rows the unpaged search returns. */
  lemma CountIsUnpagedSearchSize(s: Store, f: RegistrationFilter)
    requires s.available
    ensures Search(s, SearchParams(f, None, None)).Success?
    ensures Count(s, f) == Success(|Search(s, SearchParams(f, None, None)).value|)
  {
    Query.CountWhereIsFilterSize(s.registrations, MatchesFilter(f));
  }

  // -------------------------------------------------------------- payments

  /** `createPayment`. The unique key on `registrationId` refuses a second
      payment for the same registration. */
  function InsertPayment(s: Store, p: NewPayment, now: int): (st: Step<int>)
    ensures st.result.Failure? ==> st.store == s
    ensures !s.available ==> st.result == Failure(Unavailable)
    ensures st.result == Failure(DuplicateKey) <==> (s.available && PaymentFits(p)
      && exists i :: 0 <= i < |s.payments| && s.payments[i].registrationId == p.registrationId)
    ensures st.result.Success? <==> (s.available && PaymentFits(p)
      && forall i :: 0 <= i < |s.payments| ==> s.payments[i].registrationId != p.registrationId)
    ensures st.result.Success? ==>
      st.result.value == s.nextPaymentId
      && st.store.payments == s.payments + [PaymentRow(st.result.value, p, now)]
      && st.store.activities == s.activities && st.store.registrations == s.registrations
      && st.store.users == s.users
  {
    if !s.available then Step(s, Failure(Unavailable))
    else if !PaymentFits(p) then Step(s, Failure(BadValue))
    else if Query.FirstWhere(s.payments, PaymentForRegistration(p.registrationId)).Some? then
      Step(s, Failure(DuplicateKey))
    else
      var id := s.nextPaymentId;
      Step(s.(payments := s.payments + [PaymentRow(id, p, now)], nextPaymentId := id + 1), Success(id))
  }

  lemma InsertPaymentKeepsKeys(s: Store, p: NewPayment, now: int)
    requires WellFormed(s)
    ensures WellFormed(InsertPayment(s, p, now).store)
  {
    var st := InsertPayment(s, p, now);
    if st.result.Success? {
      var row := PaymentRow(s.nextPaymentId, p, now);
      Query.AppendFreshKey(s.payments, row, PaymentId, 1, s.nextPaymentId);
      assert forall i :: 0 <= i < |s.payments| ==> PaymentRegistration(s.payments[i]) != PaymentRegistration(row);
      Query.AppendKeepsDistinct(s.payments, row, PaymentRegistration);
    }
  }

  /** The columns `updatePayment` is called with; `Some(None)` writes NULL. */
  datatype PaymentPatch = PaymentPatch(
    status: Option<PaymentStatus>,
    transactionId: Option<Option<string>>,
    paymentData: Option<Option<PaymentData>>,
    paidAt: Option<Option<int>>)

  predicate PatchFits(patch: PaymentPatch) {
    patch.transactionId.Some? ==> FitsOptVarchar(patch.transactionId.value, 255)
  }

  function PatchPayment(p: Payment, patch: PaymentPatch): Payment {
    p.(status := patch.status.GetOr(p.status),
       transactionId := patch.transactionId.GetOr(p.transactionId),
       paymentData := patch.paymentData.GetOr(p.paymentData),
       paidAt := patch.paidAt.GetOr(p.paidAt))
  }

  function PaymentPatcher(patch: PaymentPatch): Payment -> Payment {
    (p: Payment) => PatchPayment(p, patch)
  }

  /** `updatePayment`: only the row with that id changes. A value too long
      for `transactionId` is refused when a row is to be written. */
  function SetPayment(s: Store, id: int, patch: PaymentPatch): (st: Step<()>)
    ensures st.result.Failure? ==> st.store == s
    ensures !s.available ==> st.result == Failure(Unavailable)
    ensures st.result.Success? ==>
      st.store == s.(payments := st.store.payments)
      && |st.store.payments| == |s.payments|
      && forall i :: 0 <= i < |s.payments| ==>
           st.store.payments[i] ==
             if s.payments[i].id == id then PatchPayment(s.payments[i], patch) else s.payments[i]
    ensures s.available && PatchFits(patch) ==> st.result.Success?
  {
    if !s.available then Step(s, Failure(Unavailable))
    else if !PatchFits(patch) && Query.FirstWhere(s.payments, PaymentHasId(id)).Some? then
      Step(s, Failure(BadValue))
    else
      Step(s.(payments := Query.UpdateWhere(s.payments, PaymentHasId(id), PaymentPatcher(patch))), Success(()))
  }

  lemma SetPaymentKeepsKeys(s: Store, id: int, patch: PaymentPatch)
    requires WellFormed(s)
    ensures WellFormed(SetPayment(s, id, patch).store)
  {
    var rows := SetPayment(s, id, patch).store.payments;
    assert forall i :: 0 <= i < |rows| ==>
      PaymentId(rows[i]) == PaymentId(s.payments[i])
      && PaymentRegistration(rows[i]) == PaymentRegistration(s.payments[i]);
    Query.SameKeysKeep(s.payments, rows, PaymentId);
    Query.SameKeysKeep(s.payments, rows, PaymentRegistration);
    Query.SameIntKeysKeep(s.payments, rows, PaymentId, 1, s.nextPaymentId);
  }

  // ---------------------------------------------------------------- users

  /** A text field of `InsertUser`: left out (`undefined`), `null`, or a string. */
  datatype Field = Omitted | Null | Given(text: string)

  /** The argument of `upsertUser`. */
  datatype InsertUser = InsertUser(
    openId: Option<string>,
    name: Field,
    email: Field,
    loginMethod: Field,
    lastSignedIn: Option<int>,
    role: Option<Role>)

  /** The columns `upsertUser` may write besides `openId`. */
  datatype UserColumn = NameColumn | EmailColumn | LoginMethodColumn | LastSignedInColumn | RoleColumn

  datatype UserValue = TextValue(text: Option<string>) | TimeValue(time: int) | RoleValue(role: Role)

  /** `textFields`, in the order `forEach` visits them. */
  const TextColumns: seq<UserColumn> := [NameColumn, EmailColumn, LoginMethodColumn]

  function FieldOf(u: InsertUser, c: UserColumn): Field {
    match c
    case NameColumn => u.name
    case EmailColumn => u.email
    case LoginMethodColumn => u.loginMethod
    case _ => Omitted
  }

  /** `value ?? null`. */
  function Normalized(f: Field): UserValue {
    TextValue(if f.Given? then Some(f.text) else None)
  }

  /** The assignments `assignNullable` makes for the columns `cols`. */
  function TextAssignments(u: InsertUser, cols: seq<UserColumn>): map<UserColumn, UserValue> {
    map c | c in cols && FieldOf(u, c) != Omitted :: Normalized(FieldOf(u, c))
  }

  /** Nothing but `openId` would be written: no text field given, no
      `lastSignedIn`, no role, and not the owner. */
  predicate NothingGiven(u: InsertUser, ownerOpenId: string) {
    (forall c :: c in TextColumns ==> FieldOf(u, c) == Omitted)
    && u.lastSignedIn.None? && u.role.None? && u.openId != Some(ownerOpenId)
  }

  /** What the pass over the text fields and the `lastSignedIn` and role
      assignments write, identically, into the insert values and the update
      set. */
  function Assigned(u: InsertUser, ownerOpenId: string): (m: map<UserColumn, UserValue>)
    ensures forall c :: c in TextColumns ==> (c in m <==> FieldOf(u, c) != Omitted)
    ensures forall c :: c in TextColumns && c in m ==> m[c] == Normalized(FieldOf(u, c))
    ensures LastSignedInColumn in m <==> u.lastSignedIn.Some?
    ensures u.lastSignedIn.Some? ==> m[LastSignedInColumn] == TimeValue(u.lastSignedIn.value)
    ensures u.role.Some? ==> RoleColumn in m && m[RoleColumn] == RoleValue(u.role.value)
    ensures u.role.None? && u.openId == Some(ownerOpenId) ==> RoleColumn in m && m[RoleColumn] == RoleValue(AdminRole)
    ensures u.role.None? && u.openId != Some(ownerOpenId) ==> RoleColumn !in m
    ensures m == map[] <==> NothingGiven(u, ownerOpenId)
  {
    var text := TextAssignments(u, TextColumns);
    var timed := if u.lastSignedIn.Some? then text[LastSignedInColumn := TimeValue(u.lastSignedIn.value)] else text;
    var m := if u.role.Some? then timed[RoleColumn := RoleValue(u.role.value)]
      else if u.openId == Some(ownerOpenId) then timed[RoleColumn := RoleValue(AdminRole)]
      else timed;
    assert m == map[] <==> NothingGiven(u, ownerOpenId) by {
      if NothingGiven(u, ownerOpenId) {
        assert forall k :: k !in m;
      } else if u.lastSignedIn.Some? {
        assert LastSignedInColumn in m;
      } else if u.role.Some? || u.openId == Some(ownerOpenId) {
        assert RoleColumn in m;
      } else {
        var c :| c in TextColumns && FieldOf(u, c) != Omitted;
        assert c in m;
      }
    }
    m
  }

  /** The insert values: what was assigned, with `lastSignedIn` now when not given. */
  function PlanValues(u: InsertUser, ownerOpenId: string, now: int): (m: map<UserColumn, UserValue>)
    ensures LastSignedInColumn in m && m[LastSignedInColumn] == TimeValue(u.lastSignedIn.GetOr(now))
    ensures forall c :: c != LastSignedInColumn ==>
      (c in m <==> c in Assigned(u, ownerOpenId)) && (c in m ==> m[c] == Assigned(u, ownerOpenId)[c])
  {
    var a := Assigned(u, ownerOpenId);
    if LastSignedInColumn !in a then a[LastSignedInColumn := TimeValue(now)] else a
  }

  /** The `ON DUPLICATE KEY UPDATE` set: what was assigned, or only
      `lastSignedIn` := now when that is nothing. It is never empty. */
  function PlanUpdateSet(u: InsertUser, ownerOpenId: string, now: int): (m: map<UserColumn, UserValue>)
    ensures m != map[]
    ensures NothingGiven(u, ownerOpenId) ==> m == map[LastSignedInColumn := TimeValue(now)]
    ensures !NothingGiven(u, ownerOpenId) ==> m == Assigned(u, ownerOpenId)
  {
    var a := Assigned(u, ownerOpenId);
    if a == map[] then
      assert LastSignedInColumn in map[LastSignedInColumn := TimeValue(now)];
      map[LastSignedInColumn := TimeValue(now)]
    else a
  }

  lemma TextAssignmentsStep(u: InsertUser, cols: seq<UserColumn>, c: UserColumn)
    ensures TextAssignments(u, cols + [c]) ==
      if FieldOf(u, c) != Omitted then TextAssignments(u, cols)[c := Normalized(FieldOf(u, c))]
      else TextAssignments(u, cols)
  {
    var after := TextAssignments(u, cols + [c]);
    assert forall k :: k in after <==> (k in cols || k == c) && FieldOf(u, k) != Omitted;
  }

  /** `upsertUser` between the checks and the statement: the
      `forEach(assignNullable)` pass and the assignments after it. */
  method PlanUpsert(u: InsertUser, ownerOpenId: string, now: int)
    returns (values: map<UserColumn, UserValue>, updateSet: map<UserColumn, UserValue>)
    ensures values == PlanValues(u, ownerOpenId, now)
    ensures updateSet == PlanUpdateSet(u, ownerOpenId, now)
  {
    values, updateSet := map[], map[];
    for i := 0 to |TextColumns|
      invariant values == TextAssignments(u, TextColumns[..i])
      invariant updateSet == values
    {
      var c := TextColumns[i];
      TextAssignmentsStep(u, TextColumns[..i], c);
      assert TextColumns[..i + 1] == TextColumns[..i] + [c];
      var field := FieldOf(u, c);
      if field != Omitted {
        values := values[c := Normalized(field)];
        updateSet := updateSet[c := Normalized(field)];
      }
    }
    assert TextColumns[..|TextColumns|] == TextColumns;
    if u.lastSignedIn.Some? {
      values := values[LastSignedInColumn := TimeValue(u.lastSignedIn.value)];
      updateSet := updateSet[LastSignedInColumn := TimeValue(u.lastSignedIn.value)];
    }
    if u.role.Some? {
      values := values[RoleColumn := RoleValue(u.role.value)];
      updateSet := updateSet[RoleColumn := RoleValue(u.role.value)];
    } else if u.openId == Some(ownerOpenId) {
      values := values[RoleColumn := RoleValue(AdminRole)];
      updateSet := updateSet[RoleColumn := RoleValue(AdminRole)];
    }
    assert values == Assigned(u, ownerOpenId);
    if LastSignedInColumn !in values {
      values := values[LastSignedInColumn := TimeValue(now)];
    }
    if updateSet == map[] {
      updateSet := updateSet[LastSignedInColumn := TimeValue(now)];
    }
  }

  function TextOr(m: map<UserColumn, UserValue>, c: UserColumn, default: Option<string>): Option<string> {
    if c in m && m[c].TextValue? then m[c].text else default
  }

  function TimeOr(m: map<UserColumn, UserValue>, default: int): int {
    if LastSignedInColumn in m && m[LastSignedInColumn].TimeValue? then m[LastSignedInColumn].time else default
  }

  function RoleOr(m: map<UserColumn, UserValue>, default: Role): Role {
    if RoleColumn in m && m[RoleColumn].RoleValue? then m[RoleColumn].role else default
  }

  /** The row the insert creates when the `openId` is new. */
  function NewUserRow(id: int, openId: string, values: map<UserColumn, UserValue>, now: int): User {
    User(id, openId, TextOr(values, NameColumn, None), TextOr(values, EmailColumn, None),
      TextOr(values, LoginMethodColumn, None), RoleOr(values, DefaultRole), now, TimeOr(values, now))
  }

  /** The existing row with the update set applied. */
  function ApplyUpdateSet(row: User, updateSet: map<UserColumn, UserValue>): User {
    row.(name := TextOr(updateSet, NameColumn, row.name),
         email := TextOr(updateSet, EmailColumn, row.email),
         loginMethod := TextOr(updateSet, LoginMethodColumn, row.loginMethod),
         role := RoleOr(updateSet, row.role),
         lastSignedIn := TimeOr(updateSet, row.lastSignedIn))
  }

  /** The insert values fit their columns. */
  predicate UserValuesFit(openId: string, values: map<UserColumn, UserValue>) {
    FitsVarchar(openId, 64)
    && FitsOptVarchar(TextOr(values, EmailColumn, None), 320)
    && FitsOptVarchar(TextOr(values, LoginMethodColumn, None), 64)
  }

  /** `upsertUser`: without a connection it does nothing and does not throw;
      otherwise it inserts the row, or on a repeated `openId` updates it. */
  function Upsert(s: Store, u: InsertUser, ownerOpenId: string, now: int): (st: Step<()>)
    ensures st.result == Failure(MissingOpenId) <==> u.openId.None? || u.openId.value == ""
    ensures st.result.Failure? ==> st.store == s
    ensures !s.available ==> st.store == s
    ensures st.store == s.(users := st.store.users, nextUserId := st.store.nextUserId)
  {
    if u.openId.None? || u.openId.value == "" then Step(s, Failure(MissingOpenId))
    else if !s.available then Step(s, Success(()))
    else
      var openId := u.openId.value;
      var values := PlanValues(u, ownerOpenId, now);
      var updateSet := PlanUpdateSet(u, ownerOpenId, now);
      if !UserValuesFit(openId, values) then Step(s, Failure(BadValue))
      else
        var k := Query.FirstIndex(s.users, UserHasOpenId(openId));
        if k < |s.users| then
          Step(s.(users := s.users[k := ApplyUpdateSet(s.users[k], updateSet)]), Success(()))
        else
          Step(s.(users := s.users + [NewUserRow(s.nextUserId, openId, values, now)], nextUserId := s.nextUserId + 1),
               Success(()))
  }

  lemma UpsertKeepsKeys(s: Store, u: InsertUser, ownerOpenId: string, now: int)
    requires WellFormed(s)
    ensures WellFormed(Upsert(s, u, ownerOpenId, now).store)
  {
    var st := Upsert(s, u, ownerOpenId, now);
    if st.result.Success? && s.available && st.store != s {
      var openId := u.openId.value;
      var k := Query.FirstIndex(s.users, UserHasOpenId(openId));
      var values := PlanValues(u, ownerOpenId, now);
      var rows := st.store.users;
      if k < |s.users| {
        assert forall i :: 0 <= i < |rows| ==>
          UserId(rows[i]) == UserId(s.users[i]) && UserOpenId(rows[i]) == UserOpenId(s.users[i]);
        Query.SameKeysKeep(s.users, rows, UserId);
        Query.SameKeysKeep(s.users, rows, UserOpenId);
        Query.SameIntKeysKeep(s.users, rows, UserId, 1, s.nextUserId);
      } else {
        var row := NewUserRow(s.nextUserId, openId, values, now);
        Query.AppendFreshKey(s.users, row, UserId, 1, s.nextUserId);
        assert forall i :: 0 <= i < |s.users| ==> UserOpenId(s.users[i]) != UserOpenId(row);
        Query.AppendKeepsDistinct(s.users, row, UserOpenId);
      }
    }
  }

  /** After a successful upsert exactly one row carries the `openId`; its role
      is the explicit one, else admin for the owner, else what it was (or
      `user` for a new row). */
  lemma UpsertRole(s: Store, u: InsertUser, ownerOpenId: string, now: int)
    requires WellFormed(s) && s.available && u.openId.Some? && u.openId.value != ""
    requires Upsert(s, u, ownerOpenId, now).result.Success?
    ensures var users := Upsert(s, u, ownerOpenId, now).store.users;
      exists k :: 0 <= k < |users| && users[k].openId == u.openId.value
        && (forall j :: 0 <= j < |users| && j != k ==> users[j].openId != u.openId.value)
        && (u.role.Some? ==> users[k].role == u.role.value)
        && (u.role.None? && u.openId == Some(ownerOpenId) ==> users[k].role == AdminRole)
        && (u.role.None? && u.openId != Some(ownerOpenId) ==>
              users[k].role == (if k < |s.users| then s.users[k].role else UserRole))
  {
    var st := Upsert(s, u, ownerOpenId, now);
    var users := st.store.users;
    var openId := u.openId.value;
    var k := Query.FirstIndex(s.users, UserHasOpenId(openId));
    assert users[k].openId == openId;
    if k < |s.users| {
      forall j | 0 <= j < |users| && j != k
        ensures users[j].openId != openId
      {
        assert users[j] == s.users[j];
        assert UserOpenId(s.users[j]) != UserOpenId(s.users[k]);
      }
    } else {
      forall j | 0 <= j < |users| && j != k
        ensures users[j].openId != openId
      {
        assert users[j] == s.users[j];
      }
    }
  }

  /** A text column after the upsert: an omitted field keeps `before`,
      `null` clears it, a string sets it. */
  function FieldText(f: Field, before: Option<string>): Option<string> {
    match f
    case Omitted => before
    case Null => None
    case Given(text) => Some(text)
  }

  /** The role after the upsert: the explicit one, else admin for the owner, else `before`. */
  function RoleAfter(u: InsertUser, ownerOpenId: string, before: Role): Role {
    if u.role.Some? then u.role.value else if u.openId == Some(ownerOpenId) then AdminRole else before
  }

  /** The merged row of a repeated `openId`: each given text field, role and
      `lastSignedIn` replace the stored one; when nothing at all is given,
      `lastSignedIn` becomes now; every other column is kept. */
  function MergedUser(row: User, u: InsertUser, ownerOpenId: string, now: int): User {
    row.(name := FieldText(u.name, row.name), email := FieldText(u.email, row.email),
         loginMethod := FieldText(u.loginMethod, row.loginMethod),
         role := RoleAfter(u, ownerOpenId, row.role),
         lastSignedIn := if u.lastSignedIn.Some? then u.lastSignedIn.value
                         else if NothingGiven(u, ownerOpenId) then now else row.lastSignedIn)
  }

  /** The row a new `openId` gets: the given text fields (null otherwise), the
      role rule over `user`, created now, signed in at the given time or now. */
  function FreshUser(id: int, u: InsertUser, ownerOpenId: string, now: int): User {
    User(id, u.openId.GetOr(""), FieldText(u.name, None), FieldText(u.email, None),
      FieldText(u.loginMethod, None), RoleAfter(u, ownerOpenId, DefaultRole), now, u.lastSignedIn.GetOr(now))
  }

  /** A successful upsert on a connected database either merges the input
      into the one row holding the `openId`, or, when no row holds it,
      appends a fresh row with the next id; no other row changes. */
  lemma UpsertMergesRow(s: Store, u: InsertUser, ownerOpenId: string, now: int)
    requires WellFormed(s) && s.available && Upsert(s, u, ownerOpenId, now).result.Success?
    ensures var st := Upsert(s, u, ownerOpenId, now).store;
      (exists k :: 0 <= k < |s.users| && s.users[k].openId == u.openId.value
         && st.users == s.users[k := MergedUser(s.users[k], u, ownerOpenId, now)] && st.nextUserId == s.nextUserId)
      || ((forall i :: 0 <= i < |s.users| ==> s.users[i].openId != u.openId.value)
         && st.users == s.users + [FreshUser(s.nextUserId, u, ownerOpenId, now)] && st.nextUserId == s.nextUserId + 1)
  {
    var openId := u.openId.value;
    var k := Query.FirstIndex(s.users, UserHasOpenId(openId));
    if k < |s.users| {
      MergedIsApplied(s.users[k], u, ownerOpenId, now);
    } else {
      FreshIsNewRow(s.nextUserId, u, ownerOpenId, now);
    }
  }

  lemma MergedIsApplied(row: User, u: InsertUser, ownerOpenId: string, now: int)
    ensures ApplyUpdateSet(row, PlanUpdateSet(u, ownerOpenId, now)) == MergedUser(row, u, ownerOpenId, now)
  {
    var a := Assigned(u, ownerOpenId);
    assert NameColumn in TextColumns && EmailColumn in TextColumns && LoginMethodColumn in TextColumns;
  }

  lemma FreshIsNewRow(id: int, u: InsertUser, ownerOpenId: string, now: int)
    requires u.openId.Some?
    ensures NewUserRow(id, u.openId.value, PlanValues(u, ownerOpenId, now), now) == FreshUser(id, u, ownerOpenId, now)
  {
    var a := Assigned(u, ownerOpenId);
    assert NameColumn in TextColumns && EmailColumn in TextColumns && LoginMethodColumn in TextColumns;
  }

  // ------------------------------------------------------------ the class

  /** The connected database: the tables the gateway changes in place. */
  class Database {
    const available: bool
    var activities: seq<Activity>
    var registrations: seq<Registration>
    var payments: seq<Payment>
    var users: seq<User>
    var nextActivityId: int
    var nextRegistrationId: int
    var nextPaymentId: int
    var nextUserId: int

    function State(): Store
      reads this
    {
      Store(available, activities, registrations, payments, users,
        nextActivityId, nextRegistrationId, nextPaymentId, nextUserId)
    }

    constructor (s: Store)
      ensures State() == s
    {
      available := s.available;
      activities := s.activities;
      registrations := s.registrations;
      payments := s.payments;
      users := s.users;
      nextActivityId := s.nextActivityId;
      nextRegistrationId := s.nextRegistrationId;
      nextPaymentId := s.nextPaymentId;
      nextUserId := s.nextUserId;
    }

    method CreateRegistration(r: NewRegistration, now: int) returns (result: Result<int, DbError>)
      modifies this
      ensures State() == InsertRegistration(old(State()), r, now).store
      ensures result == InsertRegistration(old(State()), r, now).result
    {
      if !available {
        return Failure(Unavailable);
      }
      if !RegistrationFits(r) {
        return Failure(BadValue);
      }
      result := Success(nextRegistrationId);
      registrations := registrations + [RegistrationRow(nextRegistrationId, r, now)];
      nextRegistrationId := nextRegistrationId + 1;
    }

    method UpdateRegistration(id: int, patch: RegistrationPatch) returns (result: Result<(), DbError>)
      modifies this
      ensures State() == SetRegistration(old(State()), id, patch).store
      ensures result == SetRegistration(old(State()), id, patch).result
    {
      if !available {
        return Failure(Unavailable);
      }
      registrations := Query.UpdateWhere(registrations, RegistrationHasId(id), RegistrationPatcher(patch));
      result := Success(());
    }

    method DeleteRegistration(id: int) returns (result: Result<(), DbError>)
      modifies this
      ensures State() == RemoveRegistration(old(State()), id).store
      ensures result == RemoveRegistration(old(State()), id).result
    {
      if !available {
        return Failure(Unavailable);
      }
      registrations := Query.Filter(registrations, RegistrationLacksId(id));
      result := Success(());
    }

    method CreatePayment(p: NewPayment, now: int) returns (result: Result<int, DbError>)
      modifies this
      ensures State() == InsertPayment(old(State()), p, now).store
      ensures result == InsertPayment(old(State()), p, now).result
    {
      if !available {
        return Failure(Unavailable);
      }
      if !PaymentFits(p) {
        return Failure(BadValue);
      }
      if Query.FirstWhere(payments, PaymentForRegistration(p.registrationId)).Some? {
        return Failure(DuplicateKey);
      }
      result := Success(nextPaymentId);
      payments := payments + [PaymentRow(nextPaymentId, p, now)];
      nextPaymentId := nextPaymentId + 1;
    }

    method UpdatePayment(id: int, patch: PaymentPatch) returns (result: Result<(), DbError>)
      modifies this
      ensures State() == SetPayment(old(State()), id, patch).store
      ensures result == SetPayment(old(State()), id, patch).result
    {
      if !available {
        return Failure(Unavailable);
      }
      if !PatchFits(patch) && Query.FirstWhere(payments, PaymentHasId(id)).Some? {
        return Failure(BadValue);
      }
      payments := Query.UpdateWhere(payments, PaymentHasId(id), PaymentPatcher(patch));
      result := Success(());
    }

    /** `searchRegistrations`: push the conditions, then filter, order and page. */
    method SearchRegistrations(q: SearchParams) returns (result: Result<seq<Registration>, DbError>)
      ensures result == Search(State(), q)
    {
      if !available {
        return Failure(Unavailable);
      }
      var conditions := BuildConditions(q.filter);
      var rows := registrations;
      if |conditions| > 0 {
        rows := Query.Filter(rows, (r: Registration) => AllHold(conditions, r));
        Query.FilterEquivalent(registrations, (r: Registration) => AllHold(conditions, r), MatchesFilter(q.filter));
      } else {
        Query.FilterAll(registrations, MatchesFilter(q.filter));
      }
      rows := Query.SortDesc(rows, RegistrationCreatedAt);
      var page := Query.Paginate(rows, q.limit, q.offset);
      if page.Failure? {
        return Failure(BadQuery);
      }
      result := Success(page.value);
    }

    /** `countRegistrations`: the same conditions, `count(*)`. */
    method CountRegistrations(f: RegistrationFilter) returns (result: Result<nat, DbError>)
      ensures result == Count(State(), f)
    {
      if !available {
        return Failure(Unavailable);
      }
      var conditions := BuildConditions(f);
      var n: nat;
      if |conditions| > 0 {
        n := Query.CountWhere(registrations, (r: Registration) => AllHold(conditions, r));
        Query.CountWhereIsFilterSize(registrations, (r: Registration) => AllHold(conditions, r));
        Query.FilterEquivalent(registrations, (r: Registration) => AllHold(conditions, r), MatchesFilter(f));
      } else {
        n := |registrations|;
        Query.FilterAll(registrations, MatchesFilter(f));
      }
      Query.CountWhereIsFilterSize(registrations, MatchesFilter(f));
      result := Success(n);
    }

    method UpsertUser(u: InsertUser, ownerOpenId: string, now: int) returns (result: Result<(), DbError>)
      modifies this
      ensures State() == Upsert(old(State()), u, ownerOpenId, now).store
      ensures result == Upsert(old(State()), u, ownerOpenId, now).result
    {
      if u.openId.None? || u.openId.value == "" {
        return Failure(MissingOpenId);
      }
      if !available {
        return Success(());
      }
      var openId := u.openId.value;
      var values, updateSet := PlanUpsert(u, ownerOpenId, now);
      if !UserValuesFit(openId, values) {
        return Failure(BadValue);
      }
      var k := Query.FirstIndex(users, UserHasOpenId(openId));
      if k < |users| {
        users := users[k := ApplyUpdateSet(users[k], updateSet)];
      } else {
        users := users + [NewUserRow(nextUserId, openId, values, now)];
        nextUserId := nextUserId + 1;
      }
      result := Success(());
    }
  }
}
