/** Signing in and out, restoring the saved session on start-up, and the
    guard in front of every page but the login page. The browser's saved
    session (`localStorage`) is modelled as an optional user. */
module Auth {
  import opened Options
  import opened Seqs
  import opened Records
  import Ledger
  import Seed

  /** Who is signed in, and the copy of the session the browser keeps. */
  datatype AuthState = AuthState(current: Option<User>, saved: Option<User>)

  const SignedOut := AuthState(None, None)

  const InvalidCredentials: string := "Invalid credentials"

  datatype LoginResult = LoggedIn(session: User) | Rejected(message: string)

  predicate Matches(u: User, username: string, password: string) {
    u.username == username && u.password == Some(password)
  }

  /** The session copy of an account: everything but the password. */
  function SessionOf(u: User): (s: User)
    ensures s.password.None?
    ensures s.(password := u.password) == u
  {
    u.(password := None)
  }

  /** `login`: the first account with that user name and password opens a
      session; anything else is "Invalid credentials". */
  function Login(users: seq<User>, username: string, password: string): (r: LoginResult)
    ensures r.LoggedIn? <==> exists i :: 0 <= i < |users| && Matches(users[i], username, password)
    ensures r.LoggedIn? ==> exists i :: 0 <= i < |users| && Matches(users[i], username, password)
                                        && r.session == SessionOf(users[i])
                                        && forall j :: 0 <= j < i ==> !Matches(users[j], username, password)
    ensures r.Rejected? ==> r.message == InvalidCredentials
  {
    if |users| == 0 then Rejected(InvalidCredentials)
    else if Matches(users[0], username, password) then LoggedIn(SessionOf(users[0]))
    else
      var r := Login(users[1..], username, password);
      assert forall k :: 1 <= k < |users| ==> users[k] == users[1..][k - 1];
      r
  }

  /** A successful login signs the session in and saves it; a failed one
      changes nothing. */
  function ApplyLogin(st: AuthState, r: LoginResult): (next: AuthState)
    ensures r.LoggedIn? ==> next.current == Some(r.session) && next.saved == next.current
    ensures r.Rejected? ==> next == st
  {
    if r.LoggedIn? then AuthState(Some(r.session), Some(r.session)) else st
  }

  /** `checkAuthStatus`: a saved session is resumed only while an account
      with its id still exists; otherwise it is thrown away. The saved copy
      is resumed as it was saved, not re-read from the account. */
  function RestoreSession(saved: Option<User>, users: seq<User>): (st: AuthState)
    ensures saved.None? ==> st == SignedOut
    ensures saved.Some? && (exists i :: 0 <= i < |users| && users[i].id == saved.value.id) ==>
              st == AuthState(saved, saved)
    ensures saved.Some? && (forall i :: 0 <= i < |users| ==> users[i].id != saved.value.id) ==>
              st == SignedOut
  {
    if saved.None? then SignedOut
    else if FindFirst(users, (u: User) => u.id == saved.value.id).Some? then AuthState(saved, saved)
    else SignedOut
  }

  /** `logout`: both the session and its saved copy are gone. */
  function Logout(st: AuthState): (next: AuthState)
    ensures next.current.None? && next.saved.None?
  {
    SignedOut
  }

  /** Reloading right after a successful login resumes the same session. */
  lemma LoginSurvivesReload(users: seq<User>, username: string, password: string)
    requires Login(users, username, password).LoggedIn?
    ensures var st := ApplyLogin(SignedOut, Login(users, username, password));
            RestoreSession(st.saved, users) == st
  {
    var r := Login(users, username, password);
    var i :| 0 <= i < |users| && Matches(users[i], username, password) && r.session == SessionOf(users[i]);
    assert users[i].id == r.session.id;
  }

  /** Deleting the account behind a saved session ends it at the next start. */
  lemma RemovedAccountSignsOut(saved: User, users: seq<User>)
    requires forall i :: 0 <= i < |users| ==> users[i].id != saved.id
    ensures RestoreSession(Some(saved), users) == SignedOut
  {
  }

  /** An account just created can sign in with its password; when no older
      account has the same user name and password, the session is the new
      account's. */
  lemma CreatedAccountSignsIn(users: seq<User>, u: User, newId: Id, password: string)
    requires newId != ""
    requires u.password == Some(password)
    ensures var c := Ledger.CreateUser(users, u, newId);
            && Login(c.table, u.username, password).LoggedIn?
            && ((forall i :: 0 <= i < |users| ==> !Matches(users[i], u.username, password)) ==>
                  Login(c.table, u.username, password).session == SessionOf(c.record))
  {
    var c := Ledger.CreateUser(users, u, newId);
    assert Matches(c.table[|users|], u.username, password);
    if forall i :: 0 <= i < |users| ==> !Matches(users[i], u.username, password) {
      var r := Login(c.table, u.username, password);
      var i :| 0 <= i < |c.table| && Matches(c.table[i], u.username, password) && r.session == SessionOf(c.table[i]);
      assert i == |users|;
    }
  }

  // ---------------------------------------------------------------------
  // Route guard

  datatype RouteDecision = RedirectToLogin | Unauthorized(requiredRole: string) | Allowed

  /** `ProtectedRoute`; a `requiredRole` of `""` means any signed-in user. */
  function Guard(current: Option<User>, requiredRole: string): (d: RouteDecision)
    ensures d == RedirectToLogin <==> current.None?
    ensures d == Allowed <==> current.Some? && (requiredRole == "" || current.value.role == requiredRole)
    ensures d.Unauthorized? ==> d.requiredRole == requiredRole
  {
    if current.None? then RedirectToLogin
    else if requiredRole != "" && current.value.role != requiredRole then Unauthorized(requiredRole)
    else Allowed
  }

  datatype Page = Dashboard | PointOfSale | InventoryPage | SalesPage | CustomersPage

  /** The role each protected page asks for: only the inventory is
      restricted, to the owner. */
  function RequiredRole(p: Page): string {
    if p == InventoryPage then OwnerRole else ""
  }

  /** A signed-in user reaches a page exactly when it is not the inventory
      or the user is the owner. */
  lemma PageAccess(current: Option<User>, p: Page)
    ensures Guard(current, RequiredRole(p)) == Allowed
            <==> current.Some? && (p != InventoryPage || current.value.role == OwnerRole)
  {
  }

  /** After signing out every page sends the user to the login page. */
  lemma LogoutLocksEveryPage(st: AuthState, p: Page)
    ensures Guard(Logout(st).current, RequiredRole(p)) == RedirectToLogin
  {
  }

  /** On a fresh install (store initialised, then seeded) both the default
      administrator and the seeded owner can sign in, and the owner's
      session reaches the inventory. */
  lemma FreshInstallOwnerSignsIn(adminId: Id, ids: seq<Id>, draws: seq<real>)
    requires adminId != ""
    requires |ids| == Seed.SeedIdCount && Seed.AllIdentified(ids) && Seed.ValidDraws(draws)
    ensures var s := Ledger.InitDB(Ledger.RawStore(None, None, None, None), adminId);
            var users := Seed.SeedDatabase(s, ids, draws).store.users;
            && Login(users, "admin", "admin123").LoggedIn?
            && Login(users, "Memory_owner", "owner123").LoggedIn?
            && Guard(Some(Login(users, "Memory_owner", "owner123").session), RequiredRole(InventoryPage)) == Allowed
  {
    var s := Ledger.InitDB(Ledger.RawStore(None, None, None, None), adminId);
    assert s.users == [Ledger.DefaultAdmin(adminId)];
    var users := Seed.SeedDatabase(s, ids, draws).store.users;
    assert users == [Ledger.DefaultAdmin(adminId)] + Seed.SeedUsers(ids);
    SeededAccountsSignIn(adminId, ids, users);
  }

  lemma SeededAccountsSignIn(adminId: Id, ids: seq<Id>, users: seq<User>)
    requires |ids| >= Seed.SeedUserCount
    requires users == [Ledger.DefaultAdmin(adminId)] + Seed.SeedUsers(ids)
    ensures Login(users, "admin", "admin123").LoggedIn?
    ensures Login(users, "Memory_owner", "owner123").LoggedIn?
    ensures Login(users, "Memory_owner", "owner123").session.role == OwnerRole
  {
    assert Matches(users[0], "admin", "admin123");
    assert Matches(users[1], "Memory_owner", "owner123");
    assert !Matches(users[0], "Memory_owner", "owner123");
    var r := Login(users, "Memory_owner", "owner123");
    var i :| 0 <= i < |users| && Matches(users[i], "Memory_owner", "owner123") && r.session == SessionOf(users[i])
             && forall j :: 0 <= j < i ==> !Matches(users[j], "Memory_owner", "owner123");
    assert i <= 1;
  }
}
