/**
 * Pages that choose what to show from the session user's role: the
 * dashboard's cards and the navigation bar's links. The session role is
 * always stored lower-cased, so a page that only compares against `ADMIN`
 * or `EMPLOYEE` never sees either.
 */
module RoleViews {

  import opened Common
  import opened AuthSession

  /** A dashboard card: its title and the page it links to. */
  datatype Card = Card(title: string, link: string)

  const AdminCards: seq<Card> := [
    Card("Employees", "/employees"),
    Card("Attendance", "/admin/attendance"),
    Card("Leave Requests", "/admin/leave"),
    Card("Payroll", "/admin/payroll")
  ]

  const EmployeeCards: seq<Card> := [
    Card("My Profile", "/profile"),
    Card("Attendance", "/attendance"),
    Card("Leave", "/leave"),
    Card("Payroll", "/payroll")
  ]

  /** `user?.role === 'ADMIN'`. */
  predicate UpperAdmin(user: Option<UserObject>) {
    user.Some? && "role" in user.value && user.value["role"] == JStr("ADMIN")
  }

  /** `user?.role === 'EMPLOYEE'`. */
  predicate UpperEmployee(user: Option<UserObject>) {
    user.Some? && "role" in user.value && user.value["role"] == JStr("EMPLOYEE")
  }

  /** The dashboard as written: the admin cards only for an upper-case `ADMIN` role. */
  function DashboardCardsAsWritten(user: Option<UserObject>): (cards: seq<Card>)
    ensures cards == AdminCards || cards == EmployeeCards
    ensures cards == AdminCards <==> UpperAdmin(user)
  {
    if UpperAdmin(user) then AdminCards else EmployeeCards
  }

  /**
   * An administrator signed in through the provider is shown the employee
   * cards: the stored role is `admin`, which the as-written comparison
   * misses, although the provider itself reports an administrator.
   */
  lemma AdminSeesEmployeeCards(userData: UserObject, profile: Option<UserObject>)
    requires "role" in userData && userData["role"] == JStr("ADMIN")
    ensures AdminRole(SessionUser(userData, profile))
    ensures DashboardCardsAsWritten(SessionUser(userData, profile)) == EmployeeCards
  {
    ServerRoles(userData, profile);
    assert ToLower("ADMIN") == "admin";
  }

  /** The dashboard as intended: the admin cards for whoever the provider calls an administrator. */
  function DashboardCards(user: Option<UserObject>): (cards: seq<Card>)
    ensures cards == AdminCards || cards == EmployeeCards
    ensures cards == AdminCards <==> AdminRole(user)
  {
    if AdminRole(user) then AdminCards else EmployeeCards
  }

  /** With the intended test, the server's `ADMIN` users see the admin cards and `EMPLOYEE` users the employee cards. */
  lemma DashboardFollowsServerRole(userData: UserObject, profile: Option<UserObject>)
    requires "role" in userData && userData["role"] in {JStr("ADMIN"), JStr("EMPLOYEE")}
    ensures userData["role"] == JStr("ADMIN") ==> DashboardCards(SessionUser(userData, profile)) == AdminCards
    ensures userData["role"] == JStr("EMPLOYEE") ==> DashboardCards(SessionUser(userData, profile)) == EmployeeCards
  {
    ServerRoles(userData, profile);
    assert AdminCards != EmployeeCards by { assert AdminCards[0] != EmployeeCards[0]; }
  }

  const AdminLinks: seq<string> := ["/employees", "/admin/attendance", "/admin/leave", "/admin/payroll"]
  const EmployeeLinks: seq<string> := ["/profile", "/attendance", "/leave", "/payroll"]

  /** The navigation bar as written: the dashboard, then the links of an upper-case role. */
  function NavbarLinksAsWritten(user: Option<UserObject>): (links: seq<string>)
    ensures |links| >= 1 && links[0] == "/dashboard"
    ensures forall l :: l in AdminLinks ==> (l in links <==> UpperAdmin(user))
    ensures forall l :: l in EmployeeLinks ==> (l in links <==> UpperEmployee(user))
  {
    ["/dashboard"]
      + (if UpperAdmin(user) then AdminLinks else [])
      + (if UpperEmployee(user) then EmployeeLinks else [])
  }

  /** Whoever signs in through the provider gets only the dashboard link in the bar as written. */
  lemma SignedInNavbarHasOnlyDashboard(userData: UserObject, profile: Option<UserObject>)
    requires "role" in userData && userData["role"] in {JStr("ADMIN"), JStr("EMPLOYEE")}
    ensures NavbarLinksAsWritten(SessionUser(userData, profile)) == ["/dashboard"]
  {
    assert ToLower("ADMIN") == "admin";
    assert ToLower("EMPLOYEE") == "employee";
  }

  /** The navigation bar as intended: the role tests of the provider. */
  function NavbarLinks(user: Option<UserObject>): (links: seq<string>)
    ensures |links| >= 1 && links[0] == "/dashboard"
    ensures forall l :: l in AdminLinks ==> (l in links <==> AdminRole(user))
    ensures forall l :: l in EmployeeLinks ==> (l in links <==> EmployeeRole(user))
  {
    ["/dashboard"]
      + (if AdminRole(user) then AdminLinks else [])
      + (if EmployeeRole(user) then EmployeeLinks else [])
  }

  /** With the intended tests each server role gets its own four links after the dashboard. */
  lemma NavbarFollowsServerRole(userData: UserObject, profile: Option<UserObject>)
    requires "role" in userData && userData["role"] in {JStr("ADMIN"), JStr("EMPLOYEE")}
    ensures NavbarLinks(SessionUser(userData, profile))
      == ["/dashboard"] + (if userData["role"] == JStr("ADMIN") then AdminLinks else EmployeeLinks)
  {
    ServerRoles(userData, profile);
  }
}
