/**
 * The login page (app/page.tsx): the credential check against the store's
 * users, the session it writes, and the dashboard route for the user's role.
 * The browser's `currentUser` entry is the `session` field and the router's
 * destination the `route` field.
 */
module Login {
  import opened Wrappers
  import opened Types
  import opened Seqs
  import opened Store

  const BAD_CREDENTIALS := "Username atau password salah"
  const FALLBACK_ROUTE := "/dashboard"

  /** `roleRoutes[role] || "/dashboard"`: each of the five roles has its own dashboard. */
  function RouteForRole(role: string): (r: string)
    ensures role == ADMIN ==> r == "/dashboard/admin"
    ensures role == HR_DEVELOPMENT ==> r == "/dashboard/hr-development"
    ensures role == HR_ASSESSMENT ==> r == "/dashboard/hr-assessment"
    ensures role == EMPLOYEE ==> r == "/dashboard/employee"
    ensures role == USER_MANAJEMEN ==> r == "/dashboard/user-management"
    ensures r == FALLBACK_ROUTE <==> role !in {ADMIN, HR_DEVELOPMENT, HR_ASSESSMENT, EMPLOYEE, USER_MANAJEMEN}
  {
    if role == ADMIN then "/dashboard/admin"
    else if role == HR_DEVELOPMENT then "/dashboard/hr-development"
    else if role == HR_ASSESSMENT then "/dashboard/hr-assessment"
    else if role == EMPLOYEE then "/dashboard/employee"
    else if role == USER_MANAJEMEN then "/dashboard/user-management"
    else FALLBACK_ROUTE
  }

  /** Two different known roles never share a route. */
  lemma RoutesTellRolesApart(a: string, b: string)
    requires a in {ADMIN, HR_DEVELOPMENT, HR_ASSESSMENT, EMPLOYEE, USER_MANAJEMEN}
    requires RouteForRole(a) == RouteForRole(b)
    ensures a == b
  {
  }

  /**
   * The credential check: the first user with the username, when its password
   * is the one typed. A later user with the same username is never tried.
   */
  function Authenticate(users: seq<User>, username: string, password: string): (r: Option<User>)
    ensures r.Some? ==> r.value in users && r.value.username == username && r.value.password == password
    ensures r.Some? <==> Find(users, UsernameIs(username)).Some? && Find(users, UsernameIs(username)).value.password == password
    ensures r.Some? ==> r == Find(users, UsernameIs(username))
  {
    var user := Find(users, UsernameIs(username));
    if user.None? || user.value.password != password then None else user
  }

  /** When usernames are unique, login succeeds exactly for a stored username and password pair. */
  lemma AuthenticateWithUniqueUsernames(users: seq<User>, username: string, password: string)
    requires UniqueUsernames(users)
    ensures Authenticate(users, username, password).Some?
            <==> exists i :: 0 <= i < |users| && users[i].username == username && users[i].password == password
  {
    var first := Find(users, UsernameIs(username));
    if exists i :: 0 <= i < |users| && users[i].username == username && users[i].password == password {
      var i :| 0 <= i < |users| && users[i].username == username && users[i].password == password;
      var k :| 0 <= k < |users| && users[k] == first.value && UsernameIs(username)(users[k])
                && forall j :: 0 <= j < k ==> !UsernameIs(username)(users[j]);
      assert k == i;
    }
  }

  /** The accounts the store starts with log in and reach their dashboards. */
  lemma DefaultAccountsReachTheirDashboards()
    ensures var a := Authenticate(DEFAULT_USERS, "admin", "admin123");
            a.Some? && RouteForRole(a.value.role) == "/dashboard/admin"
    ensures var a := Authenticate(DEFAULT_USERS, "HRPengembangan", "HRPengembangan123");
            a.Some? && RouteForRole(a.value.role) == "/dashboard/hr-development"
    ensures var a := Authenticate(DEFAULT_USERS, "HRPenilaian", "HRPenilaian123");
            a.Some? && RouteForRole(a.value.role) == "/dashboard/hr-assessment"
  {
    assert UsernameIs("admin")(DEFAULT_USERS[0]);
    assert !UsernameIs("HRPengembangan")(DEFAULT_USERS[0]) && UsernameIs("HRPengembangan")(DEFAULT_USERS[1]);
    assert !UsernameIs("HRPenilaian")(DEFAULT_USERS[0]) && !UsernameIs("HRPenilaian")(DEFAULT_USERS[1]);
    assert UsernameIs("HRPenilaian")(DEFAULT_USERS[2]);
  }

  /** The login form and what a login leaves behind. */
  class LoginPage {
    var username: string
    var password: string
    var error: string
    var isLoading: bool
    var session: Option<User>
    var route: Option<string>

    constructor (session: Option<User>)
      ensures username == "" && password == "" && error == "" && !isLoading
      ensures this.session == session && route.None?
    {
      username, password, error, isLoading := "", "", "", false;
      this.session, route := session, None;
    }

    /**
     * `handleLogin`: with a wrong username or password, the error is shown
     * and neither the session nor the route changes; otherwise the user is
     * stored as the session and the browser goes to the role's dashboard.
     */
    method HandleLogin(db: Database) returns (outcome: Outcome)
      modifies this`error, this`isLoading, this`session, this`route
      ensures outcome == Done <==> Authenticate(db.users, username, password).Some?
      ensures outcome.Rejected? ==>
                && outcome.message == BAD_CREDENTIALS && error == BAD_CREDENTIALS && !isLoading
                && session == old(session) && route == old(route)
      ensures outcome == Done ==>
                var user := Authenticate(db.users, username, password).value;
                && session == Some(user) && route == Some(RouteForRole(user.role))
                && error == "" && isLoading
    {
      error, isLoading := "", true;
      var user := db.GetUserByUsername(username);
      if user.None? || user.value.password != password {
        error, isLoading := BAD_CREDENTIALS, false;
        return Rejected(BAD_CREDENTIALS);
      }
      session := user;
      route := Some(RouteForRole(user.value.role));
      outcome := Done;
    }
  }
}
