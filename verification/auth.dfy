/** The demo-mode session: three built-in accounts, a login that keeps the
    signed-in user in local or session storage depending on "remember me",
    a logout that clears both, and the check on start-up that restores a
    user from local storage only. */
module Auth {
  import opened Types
  import ProtectedRoute

  /** A demo account: the user record and its password, which is stored
      beside the record but never leaves this table. */
  datatype Account = Account(user: User, password: string)

  const AdminAccount := Account(
    User("1", "Admin User", "admin@sola.dev", Admin, None, "2024-01-01T00:00:00Z"), "admin123")
  const StaffAccount := Account(
    User("2", "Staff Member", "staff@sola.dev", Staff, None, "2024-01-15T00:00:00Z"), "staff123")
  const ViewerAccount := Account(
    User("3", "Viewer User", "viewer@sola.dev", Viewer, None, "2024-02-01T00:00:00Z"), "viewer123")

  /** The accounts by email. */
  const DemoAccounts: map<string, Account> := map[
    "admin@sola.dev" := AdminAccount,
    "staff@sola.dev" := StaffAccount,
    "viewer@sola.dev" := ViewerAccount
  ]

  /** The storage key of the signed-in user. */
  const StorageKey: string := "mock_user"

  const InvalidCredentials: string := "Invalid email or password"

  /** A stored value as `checkAuth` sees it: a serialized user, the empty
      string (falsy, so ignored), or text that `JSON.parse` rejects. */
  datatype Stored = Serialized(user: User) | EmptyText | Unparsable

  /** The provider's state together with the browser's two storage areas. */
  datatype AuthState = AuthState(
    user: Option<User>,
    isLoading: bool,
    local: map<string, Stored>,
    session: map<string, Stored>)

  datatype Credentials = Credentials(email: string, password: string, rememberMe: bool)

  /** `!!user`: a user object is always truthy. */
  function IsAuthenticated(st: AuthState): (b: bool)
    ensures b <==> st.user != None
  {
    st.user.Some?
  }

  /** The email names a demo account and the password is that account's. */
  predicate ValidCredentials(c: Credentials) {
    c.email in DemoAccounts && DemoAccounts[c.email].password == c.password
  }

  // ---------------------------------------------------------------- login

  /** `login`: on a match the user, stripped of the password, becomes the
      session user and is written to local storage with "remember me" and
      to session storage without; otherwise the call fails and nothing
      changes. */
  function Login(st: AuthState, c: Credentials): (r: Result<AuthState>)
    ensures r.Ok? <==> ValidCredentials(c)
    ensures r.Err? ==> r.message == InvalidCredentials
    ensures r.Ok? ==> r.value.user == Some(DemoAccounts[c.email].user) && r.value.isLoading == st.isLoading
    ensures r.Ok? && c.rememberMe ==>
      r.value.local == st.local[StorageKey := Serialized(DemoAccounts[c.email].user)]
      && r.value.session == st.session
    ensures r.Ok? && !c.rememberMe ==>
      r.value.session == st.session[StorageKey := Serialized(DemoAccounts[c.email].user)]
      && r.value.local == st.local
  {
    if c.email in DemoAccounts && DemoAccounts[c.email].password == c.password then
      var u := DemoAccounts[c.email].user;
      if c.rememberMe then Ok(st.(user := Some(u), local := st.local[StorageKey := Serialized(u)]))
      else Ok(st.(user := Some(u), session := st.session[StorageKey := Serialized(u)]))
    else Err(InvalidCredentials)
  }

  /** Exactly the three demo pairs sign in, each with its own role. */
  lemma DemoLogins(st: AuthState, c: Credentials)
    ensures ValidCredentials(c) <==>
      (c.email, c.password) in {("admin@sola.dev", "admin123"), ("staff@sola.dev", "staff123"),
                                ("viewer@sola.dev", "viewer123")}
    ensures c.email == "admin@sola.dev" && Login(st, c).Ok? ==> Login(st, c).value.user.value.role == Admin
    ensures c.email == "staff@sola.dev" && Login(st, c).Ok? ==> Login(st, c).value.user.value.role == Staff
    ensures c.email == "viewer@sola.dev" && Login(st, c).Ok? ==> Login(st, c).value.user.value.role == Viewer
  {
    assert "admin@sola.dev" in DemoAccounts && "staff@sola.dev" in DemoAccounts && "viewer@sola.dev" in DemoAccounts;
  }

  /** A user signed in through the form is one of the demo users, and the
      stored copy is that same record. */
  lemma LoginStoresAccountUser(st: AuthState, c: Credentials)
    requires ValidCredentials(c)
    ensures var r := Login(st, c).value;
      && r.user.value in {AdminAccount.user, StaffAccount.user, ViewerAccount.user}
      && Serialized(r.user.value) == (if c.rememberMe then r.local else r.session)[StorageKey]
  {
  }

  /** Signing in again with the same credentials changes nothing. */
  lemma LoginIdempotent(st: AuthState, c: Credentials)
    requires ValidCredentials(c)
    ensures Login(Login(st, c).value, c) == Login(st, c)
  {
    var u := DemoAccounts[c.email].user;
    var once := Login(st, c).value;
    if c.rememberMe {
      assert once.local[StorageKey := Serialized(u)] == once.local;
    } else {
      assert once.session[StorageKey := Serialized(u)] == once.session;
    }
  }

  // --------------------------------------------------------------- logout

  /** `logout`: both stored copies go and the user is cleared; other keys
      are kept. */
  function Logout(st: AuthState): (r: AuthState)
    ensures !IsAuthenticated(r)
    ensures StorageKey !in r.local && StorageKey !in r.session
    ensures forall k :: k != StorageKey ==> (k in r.local <==> k in st.local) && (k in r.session <==> k in st.session)
    ensures forall k :: k != StorageKey && k in st.local ==> r.local[k] == st.local[k]
    ensures forall k :: k != StorageKey && k in st.session ==> r.session[k] == st.session[k]
    ensures r.isLoading == st.isLoading
  {
    st.(user := None, local := st.local - {StorageKey}, session := st.session - {StorageKey})
  }

  /** Logging out twice is logging out once. */
  lemma LogoutIdempotent(st: AuthState)
    ensures Logout(Logout(st)) == Logout(st)
  {
    assert Logout(st).local - {StorageKey} == Logout(st).local;
    assert Logout(st).session - {StorageKey} == Logout(st).session;
  }

  // ------------------------------------------------------------ checkAuth

  /** `checkAuth`: a serialized user in local storage becomes the session
      user, an unparsable value signs out, an absent or empty value leaves
      the user alone; session storage is never consulted. */
  function CheckAuth(st: AuthState): (r: AuthState)
    ensures !r.isLoading && r.local == st.local && r.session == st.session
    ensures StorageKey in st.local && st.local[StorageKey].Serialized? ==> r.user == Some(st.local[StorageKey].user)
    ensures StorageKey in st.local && st.local[StorageKey].Unparsable? ==> r.user.None?
    ensures StorageKey !in st.local || st.local[StorageKey].EmptyText? ==> r.user == st.user
  {
    var user :=
      if StorageKey !in st.local then st.user
      else match st.local[StorageKey]
        case Serialized(u) => Some(u)
        case EmptyText => st.user
        case Unparsable => None;
    st.(user := user, isLoading := false)
  }

  /** A fresh provider after a page load: no user yet, loading, with the
      storage areas as the browser kept them. */
  function Reload(st: AuthState): (r: AuthState)
    ensures !IsAuthenticated(r) && r.isLoading
    ensures r.local == st.local && r.session == st.session
  {
    AuthState(None, true, st.local, st.session)
  }

  /** The state once the start-up check has run. */
  function Restart(st: AuthState): (r: AuthState)
    ensures !r.isLoading && r.local == st.local && r.session == st.session
    ensures IsAuthenticated(r) <==> StorageKey in st.local && st.local[StorageKey].Serialized?
    ensures IsAuthenticated(r) ==> r.user == Some(st.local[StorageKey].user)
  {
    CheckAuth(Reload(st))
  }

  /** Who is signed in after a reload depends on local storage alone. */
  lemma RestartReadsLocalOnly(st: AuthState, other: map<string, Stored>)
    ensures Restart(st).user == Restart(st.(session := other)).user
    ensures IsAuthenticated(Restart(st)) <==> StorageKey in st.local && st.local[StorageKey].Serialized?
  {
  }

  /** A remembered sign-in survives a reload as the same user. */
  lemma RememberedLoginSurvives(st: AuthState, c: Credentials)
    requires ValidCredentials(c) && c.rememberMe
    ensures Restart(Login(st, c).value).user == Login(st, c).value.user
  {
  }

  /** A sign-in that was not remembered is lost on reload, unless local
      storage still holds an older remembered user, who then comes back in
      its place. */
  lemma ForgottenLoginOnReload(st: AuthState, c: Credentials)
    requires ValidCredentials(c) && !c.rememberMe
    ensures StorageKey !in st.local ==> !IsAuthenticated(Restart(Login(st, c).value))
    ensures StorageKey in st.local && st.local[StorageKey].Serialized? ==>
      Restart(Login(st, c).value).user == Some(st.local[StorageKey].user)
  {
  }

  /** Signing in as the administrator with "remember me", then as the viewer
      without it: a reload brings back the administrator. */
  lemma StaleRememberedUser(st: AuthState)
    ensures var a := Login(st, Credentials("admin@sola.dev", "admin123", true));
      var v := Login(a.value, Credentials("viewer@sola.dev", "viewer123", false));
      && v.value.user.value.role == Viewer
      && Restart(v.value).user.value.role == Admin
  {
    assert "admin@sola.dev" in DemoAccounts && "viewer@sola.dev" in DemoAccounts;
  }

  /** After a logout a reload finds nobody. */
  lemma LogoutSurvivesReload(st: AuthState)
    ensures !IsAuthenticated(Restart(Logout(st)))
  {
  }

  // ------------------------------------------------------- route guarding

  /** Right after a reload every protected page shows the loading screen;
      once the check has run it shows its content exactly when a user was
      remembered, and otherwise redirects to the login page. */
  lemma ReloadThenRoute(st: AuthState, location: string)
    ensures var s := Reload(st);
      ProtectedRoute.Decide(s.isLoading, IsAuthenticated(s), location) == ProtectedRoute.Loading
    ensures var s := Restart(st);
      (ProtectedRoute.Decide(s.isLoading, IsAuthenticated(s), location) == ProtectedRoute.RenderChildren
       <==> StorageKey in st.local && st.local[StorageKey].Serialized?)
    ensures var s := Restart(st);
      !(StorageKey in st.local && st.local[StorageKey].Serialized?) ==>
        ProtectedRoute.Decide(s.isLoading, IsAuthenticated(s), location)
          == ProtectedRoute.Redirect(ProtectedRoute.LoginPath, location, true)
  {
  }

  /** A successful sign-in opens the protected pages at once; a failed one
      leaves the guard's verdict as it was. */
  lemma LoginOpensRoutes(st: AuthState, c: Credentials, location: string)
    requires !st.isLoading
    ensures var r := Login(st, c);
      r.Ok? ==> ProtectedRoute.Decide(r.value.isLoading, IsAuthenticated(r.value), location)
                  == ProtectedRoute.RenderChildren
  {
  }
}
