/** The employee administration page of components/users/UserManagement.tsx: the search
    and role filter, the department checkboxes and the form's submit,
    which either updates the user being edited or registers a new account. */
module UserManagement {
  import opened Common
  import opened Records
  import opened AuthService

  const PasswordRequired := "Password is required for new users."

  // ---------------------------------------------------------------------------
  // filteredUsers
  // ---------------------------------------------------------------------------

  /** The search box and the role select. */
  datatype UserFilter = UserFilter(searchTerm: string, role: Choice<Role>)

  predicate Shows(f: UserFilter, u: User) {
    (ContainsIgnoringCase(u.name, f.searchTerm) || ContainsIgnoringCase(u.email, f.searchTerm)) &&
    f.role.Admits(u.role)
  }

  /** `filteredUsers`: the users whose name or email holds the search term, ignoring case,
      and whose role the select admits, in the order of the list. */
  function FilteredUsers(users: seq<User>, f: UserFilter): (r: seq<User>)
    ensures |r| <= |users|
    ensures forall u :: u in r <==>
      (u in users && (ContainsIgnoringCase(u.name, f.searchTerm) || ContainsIgnoringCase(u.email, f.searchTerm)) &&
       f.role.Admits(u.role))
  {
    Filter(users, (u: User) => Shows(f, u))
  }

  /** With an empty search and the role select on 'all', every user shows, in order. */
  lemma UnfilteredShowsAll(users: seq<User>)
    ensures FilteredUsers(users, UserFilter("", All)) == users
  {
    forall u: User ensures Shows(UserFilter("", All), u) {
      EmptySearchMatches(u.name);
    }
    FilterAll(users, (u: User) => Shows(UserFilter("", All), u));
  }

  // ---------------------------------------------------------------------------
  // The form
  // ---------------------------------------------------------------------------

  /** `handleDepartmentToggle`: through a `Set`, so the list has no repeats, the
      department's membership flips and every other department stays as it was. */
  function DepartmentToggle(departmentIds: seq<string>, deptId: string): (r: seq<string>)
    ensures NoDuplicates(r)
    ensures deptId in r <==> deptId !in departmentIds
    ensures forall d :: d != deptId ==> (d in r <==> d in departmentIds)
  {
    ToggleFlips(departmentIds, deptId);
    Toggle(departmentIds, deptId)
  }

  /** Ticking a department twice leaves the selection as it was. */
  lemma DepartmentToggleTwice(departmentIds: seq<string>, deptId: string)
    ensures forall d :: d in DepartmentToggle(DepartmentToggle(departmentIds, deptId), deptId) <==> d in departmentIds
    ensures NoDuplicates(departmentIds) && deptId !in departmentIds ==>
      DepartmentToggle(DepartmentToggle(departmentIds, deptId), deptId) == departmentIds
  {
    ToggleTwice(departmentIds, deptId);
    if NoDuplicates(departmentIds) && deptId !in departmentIds {
      ToggleTwiceRestores(departmentIds, deptId);
    }
  }

  /** The form's fields; `editing` is the user being edited, `None` when adding. */
  datatype UserForm = UserForm(
    name: string, email: string, password: string, role: Role, managerId: Option<string>,
    departmentIds: seq<string>, companyId: Option<string>, rating: real, editing: Option<User>)

  /** `resetForm`: an empty employee form, preselecting the first manager and company. */
  function ResetForm(managers: seq<User>, companies: seq<Company>): (f: UserForm)
    ensures f.name == "" && f.email == "" && f.password == "" && f.role == Employee
    ensures f.managerId == (if |managers| > 0 then Some(managers[0].id) else None)
    ensures f.companyId == (if |companies| > 0 then Some(companies[0].id) else None)
    ensures f.departmentIds == [] && f.rating == 0.0 && f.editing.None?
  {
    UserForm("", "", "", Employee, if |managers| > 0 then Some(managers[0].id) else None, [],
             if |companies| > 0 then Some(companies[0].id) else None, 0.0, None)
  }

  /** `handleOpenEditModal`: the user's values, with the password box left empty. */
  function OpenEdit(u: User): (f: UserForm)
    ensures f.editing == Some(u) && f.password == ""
    ensures f.name == u.name && f.email == u.email && f.role == u.role && f.managerId == u.managerId
    ensures f.departmentIds == u.departmentIds.GetOr([]) && f.companyId == u.companyId
    ensures f.rating == u.rating.GetOr(0.0)
  {
    UserForm(u.name, u.email, "", u.role, u.managerId, u.departmentIds.GetOr([]), u.companyId,
             u.rating.GetOr(0.0), Some(u))
  }

  /** What `handleSubmit` asks of the auth service. */
  datatype UserRequest =
    | UpdateUser(userId: string, updates: UserPatch)
    | RegisterUser(credentials: Credentials)
    | Refused(message: string)

  /** `managerId: role === UserRole.EMPLOYEE ? managerId : undefined` */
  function ManagerSent(f: UserForm): Option<string> {
    if f.role == Employee then f.managerId else None
  }

  /** `handleSubmit`. An edit sends the name, role, departments, company, manager and
      rating, never the email or a password; adding needs a password. */
  function SubmitRequest(f: UserForm): (r: UserRequest)
    ensures r.UpdateUser? <==> f.editing.Some?
    ensures r.Refused? <==> f.editing.None? && f.password == ""
    ensures r.Refused? ==> r.message == PasswordRequired
    ensures r.UpdateUser? ==>
      (r.userId == f.editing.value.id &&
       r.updates == NoUserChange.(name := Some(f.name), role := Some(f.role),
         departmentIds := Some(Some(f.departmentIds)), companyId := Some(f.companyId),
         managerId := Some(ManagerSent(f)), rating := Some(Some(f.rating))))
    ensures r.RegisterUser? ==>
      r.credentials == Credentials(f.name, f.email, f.password, f.role, ManagerSent(f),
                                   Some(f.departmentIds), f.companyId)
  {
    if f.editing.Some? then
      UpdateUser(f.editing.value.id,
        NoUserChange.(name := Some(f.name), role := Some(f.role),
          departmentIds := Some(Some(f.departmentIds)), companyId := Some(f.companyId),
          managerId := Some(ManagerSent(f)), rating := Some(Some(f.rating))))
    else if f.password == "" then Refused(PasswordRequired)
    else RegisterUser(Credentials(f.name, f.email, f.password, f.role, ManagerSent(f),
                                  Some(f.departmentIds), f.companyId))
  }

  /** Only an employee is sent with a manager, and then with the one chosen; any other
      role is sent with the manager cleared, when adding as when editing. */
  lemma ManagerOnlyForEmployees(f: UserForm)
    ensures var r := SubmitRequest(f);
      (r.UpdateUser? ==> r.updates.managerId == Some(if f.role == Employee then f.managerId else None)) &&
      (r.RegisterUser? ==> r.credentials.managerId == (if f.role == Employee then f.managerId else None))
  {
  }

  /** An edit never touches the user's id or email, and so never their sign-in. */
  lemma EditKeepsSignIn(u: User, f: UserForm)
    requires f.editing == Some(u)
    ensures var r := SubmitRequest(f);
      r.UpdateUser? && MergeUser(u, r.updates).id == u.id && MergeUser(u, r.updates).email == u.email
  {
  }

  /** Opening a user for editing and saving without changes gives back the same user,
      when the record already lists its departments and rating and only an employee has
      a manager. */
  lemma EditRoundTrip(u: User)
    requires u.departmentIds.Some? && u.rating.Some?
    requires u.role == Employee || u.managerId.None?
    ensures MergeUser(u, SubmitRequest(OpenEdit(u)).updates) == u
  {
  }

  /** The page is for administrators and HR. */
  predicate PageAllowed(user: Option<User>) {
    user.Some? && user.value.role in {Admin, HR}
  }

  /** Adding a user from this page goes through `register`, which also signs the new
      account in: the session switches from the administrator to the new user. A taken
      email makes `register` throw; the page then shows the message and keeps the dialog
      open, and the account table is as it was. */
  method SubmitNewUser(store: AuthStore, id: string, f: UserForm, joinedDate: string) returns (r: Result<User>)
    requires f.editing.None? && f.password != ""
    modifies store
    ensures r.Ok? ==> store.current == Some(r.value) && r.value.id == id && r.value.email == f.email
    ensures r.Err? ==> store.current == old(store.current)
    ensures r.Err? <==> exists u :: u in old(store.users) && u.email == f.email
    ensures r.Err? ==> store.users == old(store.users) && store.passwords == old(store.passwords)
  {
    var req := SubmitRequest(f);
    r := store.Register(id, req.credentials, joinedDate);
  }
}
