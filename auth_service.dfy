/** The account table of services/authService.ts: the user list, the email-to-password
    table and the signed-in user, which the source keeps under three browser-storage keys
    and reads and writes back on every call. Here they are the three fields of one object;
    a thrown `Error` is an `Err` carrying the same message. */
module AuthService {
  import opened Common
  import opened Records

  const DuplicateEmail := "An account with this email already exists."
  const IncorrectPassword := "Incorrect current password."
  const ShortPassword := "New password must be at least 6 characters long."
  const InvalidLogin := "Invalid email or password."

  /** The shortest password `updatePassword` accepts. */
  const MinPasswordLength := 6

  /** `RegisterCredentials` */
  datatype Credentials = Credentials(
    name: string, email: string, password: string, role: Role,
    managerId: Option<string>, departmentIds: Option<seq<string>>, companyId: Option<string>)

  /** `users.find(u => u.email === email)`: the first user with the email. */
  function UserWithEmail(users: seq<User>, email: string): (r: Option<User>)
    ensures r.None? <==> forall u :: u in users ==> u.email != email
    ensures r.Some? ==>
      exists i :: 0 <= i < |users| && users[i] == r.value &&
        r.value.email == email && forall k :: 0 <= k < i ==> users[k].email != email
  {
    var i := FindIndex(users, (u: User) => u.email == email);
    if i < 0 then None else Some(users[i])
  }

  function UserIndex(users: seq<User>, id: string): int {
    FindIndex(users, (u: User) => u.id == id)
  }

  /** The profile of a newly registered account. */
  predicate FreshProfile(u: User) {
    u.jobTitle == Some("New Employee") && u.status == Some(Active) && u.skills == Some([]) &&
    u.stats == Some(UserStats(0, 0, 0, 0, Light)) && u.education.None? && u.rating.None?
  }

  /** The user `register` builds from the credentials. */
  function NewAccount(id: string, c: Credentials, joinedDate: string): (u: User)
    ensures FreshProfile(u)
    ensures u.id == id && u.name == c.name && u.email == c.email && u.role == c.role
    ensures u.companyId == c.companyId && u.managerId == c.managerId && u.departmentIds == c.departmentIds
    ensures u.joinedDate == Some(joinedDate)
  {
    User(id, c.name, c.email, c.role, c.companyId, c.managerId, c.departmentIds,
         Some("New Employee"), Some(Active), Some(joinedDate), Some([]),
         Some(UserStats(0, 0, 0, 0, Light)), None, None)
  }

  /** The outcome of `login`: the first user with the email, provided the stored password
      of that email is the one given (a missing entry is `undefined`, which never equals a
      string). */
  function Authenticate(users: seq<User>, passwords: map<string, string>, email: string, password: string): (r: Option<User>)
    ensures r.Some? <==> (exists u :: u in users && u.email == email) && email in passwords && passwords[email] == password
    ensures r.Some? ==> r == UserWithEmail(users, email)
  {
    var user := UserWithEmail(users, email);
    if user.None? || email !in passwords || passwords[email] != password then None else user
  }

  /** Registering an unused email lets the new account log in with its password, and
      `login` then returns exactly that account. */
  lemma RegisterEnablesLogin(users: seq<User>, passwords: map<string, string>, id: string, c: Credentials, joinedDate: string)
    requires UserWithEmail(users, c.email).None?
    ensures var u := NewAccount(id, c, joinedDate);
      Authenticate(users + [u], passwords[c.email := c.password], c.email, c.password) == Some(u)
  {
    var u := NewAccount(id, c, joinedDate);
    var all := users + [u];
    var p := (v: User) => v.email == c.email;
    var i := FindIndex(all, p);
    assert p(all[|users|]);
    assert forall j :: 0 <= j < |users| ==> all[j] == users[j] && !p(all[j]);
    assert i == |users|;
  }

  /** After a password change, the new password logs in and a different old one does not. */
  lemma PasswordChangeSwitchesLogin(users: seq<User>, passwords: map<string, string>, email: string, oldPass: string, newPass: string)
    requires exists u :: u in users && u.email == email
    requires oldPass != newPass
    ensures Authenticate(users, passwords[email := newPass], email, newPass).Some?
    ensures Authenticate(users, passwords[email := newPass], email, oldPass).None?
  {
  }

  /** Once the password entry of an email is dropped, nobody logs in with that email,
      whatever the user list still holds. */
  lemma DroppedPasswordBlocksLogin(users: seq<User>, passwords: map<string, string>, email: string, password: string)
    ensures Authenticate(users, passwords - {email}, email, password).None?
  {
  }

  class AuthStore {
    var users: seq<User>
    var passwords: map<string, string>
    /** The user stored under the current-user key, if any. */
    var current: Option<User>

    constructor (users: seq<User>, passwords: map<string, string>)
      ensures this.users == users && this.passwords == passwords && current.None?
    {
      this.users := users;
      this.passwords := passwords;
      current := None;
    }

    /** `register`: refuses an email that some user already has; otherwise appends the new
        account, stores its password and signs it in. */
    method Register(id: string, c: Credentials, joinedDate: string) returns (r: Result<User>)
      modifies this
      ensures (exists u :: u in old(users) && u.email == c.email) ==>
        r == Err(DuplicateEmail) && users == old(users) && passwords == old(passwords) && current == old(current)
      ensures (forall u :: u in old(users) ==> u.email != c.email) ==>
        r == Ok(NewAccount(id, c, joinedDate)) && users == old(users) + [r.value] &&
        passwords == old(passwords)[c.email := c.password] && current == Some(r.value)
    {
      if UserWithEmail(users, c.email).Some? {
        return Err(DuplicateEmail);
      }
      var u := NewAccount(id, c, joinedDate);
      users := users + [u];
      passwords := passwords[c.email := c.password];
      current := Some(u);
      r := Ok(u);
    }

    /** `updatePassword`: the old password is checked before the length of the new one,
        and only the entry of that email changes. */
    method UpdatePassword(email: string, oldPass: string, newPass: string) returns (r: Result<()>)
      modifies this`passwords
      ensures email !in old(passwords) || old(passwords)[email] != oldPass ==>
        r == Err(IncorrectPassword) && passwords == old(passwords)
      ensures email in old(passwords) && old(passwords)[email] == oldPass && |newPass| < MinPasswordLength ==>
        r == Err(ShortPassword) && passwords == old(passwords)
      ensures r.Ok? <==> email in old(passwords) && old(passwords)[email] == oldPass && |newPass| >= MinPasswordLength
      ensures r.Ok? ==> passwords == old(passwords)[email := newPass]
    {
      if email !in passwords || passwords[email] != oldPass {
        return Err(IncorrectPassword);
      }
      if |newPass| < MinPasswordLength {
        return Err(ShortPassword);
      }
      passwords := passwords[email := newPass];
      r := Ok(());
    }

    /** `updateUser`: merges the update into the first user with the id and refreshes the
        signed-in record only when it is that user. */
    method UpdateUser(userId: string, updates: UserPatch) returns (r: Option<User>)
      modifies this`users, this`current
      ensures var i := UserIndex(old(users), userId);
        if i < 0 then r == None && users == old(users) && current == old(current)
        else
          r == Some(MergeUser(old(users)[i], updates)) && users == old(users)[i := r.value] &&
          current == (if old(current).Some? && old(current).value.id == userId then r else old(current))
    {
      var i := UserIndex(users, userId);
      if i > -1 {
        users := users[i := MergeUser(users[i], updates)];
        if current.Some? && current.value.id == userId {
          current := Some(users[i]);
        }
        r := Some(users[i]);
      } else {
        r := None;
      }
    }

    /** `deleteUser`: drops the password entry of the first user with the id, if there is
        one, and removes every user with the id. */
    method DeleteUser(userId: string)
      modifies this`users, this`passwords
      ensures users == Filter(old(users), (u: User) => u.id != userId)
      ensures var i := UserIndex(old(users), userId);
        passwords == if i < 0 then old(passwords) else old(passwords) - {old(users)[i].email}
    {
      var i := UserIndex(users, userId);
      if i >= 0 {
        passwords := passwords - {users[i].email};
      }
      users := Filter(users, (u: User) => u.id != userId);
    }

    /** `login` */
    method Login(email: string, password: string) returns (r: Result<User>)
      modifies this`current
      ensures var a := Authenticate(users, passwords, email, password);
        if a.None? then r == Err(InvalidLogin) && current == old(current)
        else r == Ok(a.value) && current == a
    {
      var user := UserWithEmail(users, email);
      if user.None? || email !in passwords || passwords[email] != password {
        return Err(InvalidLogin);
      }
      current := user;
      r := Ok(user.value);
    }

    /** `logout` */
    method Logout()
      modifies this`current
      ensures current.None?
    {
      current := None;
    }

    /** `getTeamMembers` */
    function GetTeamMembers(managerId: string): (r: seq<User>)
      reads this
      ensures forall u :: u in r <==> u in users && u.role == Employee && u.managerId == Some(managerId)
    {
      Filter(users, (u: User) => u.role == Employee && u.managerId == Some(managerId))
    }

    /** `getManagers` */
    function GetManagers(): (r: seq<User>)
      reads this
      ensures forall u :: u in r <==> u in users && u.role == Manager
    {
      Filter(users, (u: User) => u.role == Manager)
    }
  }
}
