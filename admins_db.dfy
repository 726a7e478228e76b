/** The administrators table and its gateway. Unlike the main gateway, the
    readers here answer "nothing" instead of throwing when there is no
    connection, and `updateLastLoginAt` silently does nothing. */
module AdminsDb {
  import opened Wrappers
  import Query

  /** A row of `admins`; `password` holds the bcrypt hash. */
  datatype Admin = Admin(
    id: int,
    username: string,
    password: string,
    name: string,
    email: Option<string>,
    phone: Option<string>,
    isActive: bool,
    lastLoginAt: Option<int>,
    createdBy: Option<int>,
    createdAt: int)

  /** An insert into `admins`; a new administrator is active. */
  datatype NewAdmin = NewAdmin(
    username: string,
    password: string,
    name: string,
    email: Option<string>,
    phone: Option<string>,
    createdBy: Option<int>)

  /** `Partial<InsertAdmin>` as `admin.update` builds it: only given fields are written. */
  datatype AdminUpdates = AdminUpdates(
    name: Option<string>,
    email: Option<string>,
    phone: Option<string>,
    isActive: Option<bool>,
    password: Option<string>)

  datatype AdminError =
    | AdminDbUnavailable   // "Database not available"
    | CreateFailed         // "Failed to create admin"
    | UpdateFailed         // "Failed to update admin"

  datatype AdminTable = AdminTable(available: bool, admins: seq<Admin>, nextId: int)

  datatype AdminStep<+T> = AdminStep(table: AdminTable, result: Result<T, AdminError>)

  function AdminId(a: Admin): int { a.id }

  /** Auto-increment ids: distinct and below the counter. */
  ghost predicate WellFormed(t: AdminTable) {
    1 <= t.nextId && Query.DistinctKeys(t.admins, AdminId) && Query.KeysIn(t.admins, AdminId, 1, t.nextId)
  }

  function AdminHasId(id: int): Admin -> bool {
    (a: Admin) => a.id == id
  }

  function AdminLacksId(id: int): Admin -> bool {
    (a: Admin) => a.id != id
  }

  function AdminHasUsername(username: string): Admin -> bool {
    (a: Admin) => a.username == username
  }

  /** `getAdminByUsername`: the first row with that username, if any. */
  function GetAdminByUsername(t: AdminTable, username: string): (r: Option<Admin>)
    ensures !t.available ==> r.None?
    ensures t.available ==> (r.None? <==> forall i :: 0 <= i < |t.admins| ==> t.admins[i].username != username)
    ensures r.Some? ==> r.value in t.admins && r.value.username == username
  {
    if !t.available then None else Query.FirstWhere(t.admins, AdminHasUsername(username))
  }

  /** `getAdminById`. */
  function GetAdminById(t: AdminTable, id: int): (r: Option<Admin>)
    ensures !t.available ==> r.None?
    ensures t.available ==> (r.None? <==> forall i :: 0 <= i < |t.admins| ==> t.admins[i].id != id)
    ensures r.Some? ==> r.value in t.admins && r.value.id == id
  {
    if !t.available then None else Query.FirstWhere(t.admins, AdminHasId(id))
  }

  /** With distinct ids, the row found by id is the row at that position. */
  lemma GetAdminByIdUnique(t: AdminTable, i: nat)
    requires WellFormed(t) && t.available && i < |t.admins|
    ensures GetAdminById(t, t.admins[i].id) == Some(t.admins[i])
  {
    assert forall j :: 0 <= j < |t.admins| && j != i ==> AdminId(t.admins[j]) != AdminId(t.admins[i]);
    Query.FirstWhereOfUnique(t.admins, AdminHasId(t.admins[i].id), i);
  }

  /** `getAllAdmins`: every row, or none without a connection. */
  function GetAllAdmins(t: AdminTable): (r: seq<Admin>)
    ensures t.available ==> r == t.admins
    ensures !t.available ==> r == []
  {
    if !t.available then [] else t.admins
  }

  function AdminRow(id: int, a: NewAdmin, now: int): Admin {
    Admin(id, a.username, a.password, a.name, a.email, a.phone, true, None, a.createdBy, now)
  }

  /** `createAdmin`: insert, then answer the row re-read under the new id. */
  function InsertAdmin(t: AdminTable, a: NewAdmin, now: int): (st: AdminStep<Admin>)
    ensures !t.available ==> st == AdminStep(t, Failure(AdminDbUnavailable))
    ensures t.available ==> st.table.admins == t.admins + [AdminRow(t.nextId, a, now)]
    ensures st.result.Success? ==> st.result.value in st.table.admins && st.result.value.id == t.nextId
  {
    if !t.available then AdminStep(t, Failure(AdminDbUnavailable))
    else
      var t' := t.(admins := t.admins + [AdminRow(t.nextId, a, now)], nextId := t.nextId + 1);
      match GetAdminById(t', t.nextId)
      case None => AdminStep(t', Failure(CreateFailed))
      case Some(row) => AdminStep(t', Success(row))
  }

  /** On a well-formed table the re-read finds exactly the inserted row. */
  lemma InsertAdminAnswersNewRow(t: AdminTable, a: NewAdmin, now: int)
    requires WellFormed(t) && t.available
    ensures InsertAdmin(t, a, now).result == Success(AdminRow(t.nextId, a, now))
    ensures WellFormed(InsertAdmin(t, a, now).table)
  {
    var row := AdminRow(t.nextId, a, now);
    Query.AppendFreshKey(t.admins, row, AdminId, 1, t.nextId);
    var t' := InsertAdmin(t, a, now).table;
    GetAdminByIdUnique(t', |t.admins|);
  }

  function ApplyAdminUpdates(a: Admin, u: AdminUpdates): Admin {
    a.(name := u.name.GetOr(a.name),
       email := if u.email.Some? then u.email else a.email,
       phone := if u.phone.Some? then u.phone else a.phone,
       isActive := u.isActive.GetOr(a.isActive),
       password := u.password.GetOr(a.password))
  }

  function AdminUpdater(u: AdminUpdates): Admin -> Admin {
    (a: Admin) => ApplyAdminUpdates(a, u)
  }

  /** `updateAdmin`: change the given fields of that row, then answer the
      re-read row; a missing id throws after the (empty) update. */
  function SetAdmin(t: AdminTable, id: int, u: AdminUpdates): (st: AdminStep<Admin>)
    ensures !t.available ==> st == AdminStep(t, Failure(AdminDbUnavailable))
    ensures t.available ==> st.table == t.(admins := st.table.admins) && |st.table.admins| == |t.admins|
    ensures t.available ==> forall i :: 0 <= i < |t.admins| ==>
      st.table.admins[i] == if t.admins[i].id == id then ApplyAdminUpdates(t.admins[i], u) else t.admins[i]
    ensures t.available ==> (st.result == Failure(UpdateFailed) <==> forall i :: 0 <= i < |t.admins| ==> t.admins[i].id != id)
    ensures st.result.Success? ==> st.result.value in st.table.admins && st.result.value.id == id
  {
    if !t.available then AdminStep(t, Failure(AdminDbUnavailable))
    else
      var t' := t.(admins := Query.UpdateWhere(t.admins, AdminHasId(id), AdminUpdater(u)));
      assert forall i :: 0 <= i < |t.admins| ==> t'.admins[i].id == t.admins[i].id;
      match GetAdminById(t', id)
      case None => AdminStep(t', Failure(UpdateFailed))
      case Some(row) => AdminStep(t', Success(row))
  }

  /** The answer of a successful update is the stored row with the updates applied. */
  lemma SetAdminAnswersUpdatedRow(t: AdminTable, id: int, u: AdminUpdates, i: nat)
    requires WellFormed(t) && t.available && i < |t.admins| && t.admins[i].id == id
    ensures SetAdmin(t, id, u).result == Success(ApplyAdminUpdates(t.admins[i], u))
  {
    var t' := SetAdmin(t, id, u).table;
    assert forall j :: 0 <= j < |t.admins| ==> AdminId(t'.admins[j]) == AdminId(t.admins[j]);
    Query.SameKeysKeep(t.admins, t'.admins, AdminId);
    GetAdminByIdUnique(t', i);
  }

  /** `deleteAdmin`: every other row stays. */
  function RemoveAdmin(t: AdminTable, id: int): (st: AdminStep<()>)
    ensures !t.available ==> st == AdminStep(t, Failure(AdminDbUnavailable))
    ensures t.available ==> st.result.Success? && st.table == t.(admins := st.table.admins)
    ensures t.available ==> forall a :: a in st.table.admins <==> a in t.admins && a.id != id
  {
    if !t.available then AdminStep(t, Failure(AdminDbUnavailable))
    else AdminStep(t.(admins := Query.Filter(t.admins, AdminLacksId(id))), Success(()))
  }

  function LoggedIn(now: int): Admin -> Admin {
    (a: Admin) => a.(lastLoginAt := Some(now))
  }

  /** `updateLastLoginAt`: only `lastLoginAt` of that row changes; without a
      connection nothing happens and nothing is thrown. */
  function TouchLastLogin(t: AdminTable, id: int, now: int): (t': AdminTable)
    ensures !t.available ==> t' == t
    ensures t' == t.(admins := t'.admins) && |t'.admins| == |t.admins|
    ensures forall i :: 0 <= i < |t.admins| ==>
      t'.admins[i] == if t.available && t.admins[i].id == id then t.admins[i].(lastLoginAt := Some(now)) else t.admins[i]
  {
    if !t.available then t
    else t.(admins := Query.UpdateWhere(t.admins, AdminHasId(id), LoggedIn(now)))
  }

  /** The administrators table, changed in place. */
  class AdminStore {
    const available: bool
    var admins: seq<Admin>
    var nextId: int

    function State(): AdminTable
      reads this
    {
      AdminTable(available, admins, nextId)
    }

    constructor (t: AdminTable)
      ensures State() == t
    {
      available := t.available;
      admins := t.admins;
      nextId := t.nextId;
    }

    method CreateAdmin(a: NewAdmin, now: int) returns (result: Result<Admin, AdminError>)
      modifies this
      ensures State() == InsertAdmin(old(State()), a, now).table
      ensures result == InsertAdmin(old(State()), a, now).result
    {
      if !available {
        return Failure(AdminDbUnavailable);
      }
      var insertedId := nextId;
      admins := admins + [AdminRow(insertedId, a, now)];
      nextId := nextId + 1;
      var created := GetAdminById(State(), insertedId);
      if created.None? {
        return Failure(CreateFailed);
      }
      result := Success(created.value);
    }

    method UpdateAdmin(id: int, u: AdminUpdates) returns (result: Result<Admin, AdminError>)
      modifies this
      ensures State() == SetAdmin(old(State()), id, u).table
      ensures result == SetAdmin(old(State()), id, u).result
    {
      if !available {
        return Failure(AdminDbUnavailable);
      }
      admins := Query.UpdateWhere(admins, AdminHasId(id), AdminUpdater(u));
      var updated := GetAdminById(State(), id);
      if updated.None? {
        return Failure(UpdateFailed);
      }
      result := Success(updated.value);
    }

    method DeleteAdmin(id: int) returns (result: Result<(), AdminError>)
      modifies this
      ensures State() == RemoveAdmin(old(State()), id).table
      ensures result == RemoveAdmin(old(State()), id).result
    {
      if !available {
        return Failure(AdminDbUnavailable);
      }
      admins := Query.Filter(admins, AdminLacksId(id));
      result := Success(());
    }

    method UpdateLastLoginAt(id: int, now: int)
      modifies this
      ensures State() == TouchLastLogin(old(State()), id, now)
    {
      if !available {
        return;
      }
      admins := Query.UpdateWhere(admins, AdminHasId(id), LoggedIn(now));
    }
  }
}
