/**
 * The side bar: the menu for the signed-in role, the entry matching the
 * current path, and the role label.
 */
module Sidebar {

  import opened Common
  import opened AuthSession

  /**
   * `pathname === path || pathname.startsWith(path + '/')`: the path
   * itself or anything below it, cut at a `/`.
   */
  predicate IsActive(pathname: string, path: string) {
    pathname == path || StartsWith(pathname, path + "/")
  }

  /** Active means `path` is a prefix of the current path that ends at a segment boundary. */
  lemma ActiveAtBoundary(pathname: string, path: string)
    ensures IsActive(pathname, path) <==>
      StartsWith(pathname, path) && (|pathname| == |path| || pathname[|path|] == '/')
  {
    if StartsWith(pathname, path) && |pathname| > |path| && pathname[|path|] == '/' {
      assert pathname[..|path| + 1] == pathname[..|path|] + [pathname[|path|]];
    }
    if StartsWith(pathname, path + "/") {
      assert pathname[..|path|] == pathname[..|path| + 1][..|path|];
    }
  }

  /** Examples of the boundary rule: `/leave` is active under `/leave/admin` but not on `/leaves`. */
  lemma ActiveExamples()
    ensures IsActive("/leave/admin", "/leave")
    ensures !IsActive("/leaves", "/leave")
  {
    ActiveAtBoundary("/leaves", "/leave");
    assert "/leave/admin"[..7] == "/leave/";
  }

  datatype MenuItem = MenuItem(title: string, path: string)

  const EmployeeMenu: seq<MenuItem> := [
    MenuItem("Dashboard", "/dashboard"),
    MenuItem("Profile", "/profile"),
    MenuItem("Attendance", "/attendance"),
    MenuItem("Leave", "/leave"),
    MenuItem("Payroll", "/payroll")
  ]

  const AdminMenu: seq<MenuItem> := [
    MenuItem("Dashboard", "/dashboard"),
    MenuItem("Employees", "/employees"),
    MenuItem("Attendance", "/attendance"),
    MenuItem("Leave Approvals", "/leave/admin"),
    MenuItem("Payroll", "/payroll/admin")
  ]

  function MenuFor(user: Option<UserObject>): (m: seq<MenuItem>)
    ensures AdminRole(user) ==> m == AdminMenu
    ensures !AdminRole(user) ==> m == EmployeeMenu
  {
    if AdminRole(user) then AdminMenu else EmployeeMenu
  }

  predicate HasPath(menu: seq<MenuItem>, path: string) {
    exists i :: 0 <= i < |menu| && menu[i].path == path
  }

  /** Both menus have five entries, and both lead to the dashboard and the attendance page. */
  lemma MenusShape(user: Option<UserObject>)
    ensures |MenuFor(user)| == 5
    ensures HasPath(MenuFor(user), "/dashboard") && HasPath(MenuFor(user), "/attendance")
  {
    assert MenuFor(user)[0].path == "/dashboard" && MenuFor(user)[2].path == "/attendance";
  }

  /** The label under the user's name. */
  function RoleLabel(user: Option<UserObject>): (text: string)
    ensures text == "Administrator" <==> AdminRole(user)
    ensures text == "Employee" <==> !AdminRole(user)
  {
    if user.Some? && "role" in user.value && user.value["role"] in {JStr("ADMIN"), JStr("admin")} then "Administrator"
    else "Employee"
  }

  /** No path of a menu is another's prefix. */
  predicate PrefixFree(menu: seq<MenuItem>) {
    forall i, j :: 0 <= i < |menu| && 0 <= j < |menu| && i != j ==> !StartsWith(menu[j].path, menu[i].path)
  }

  /** Two prefixes of one string: the shorter is a prefix of the longer. */
  lemma PrefixesNest(s: string, p: string, q: string)
    requires StartsWith(s, p) && StartsWith(s, q) && |p| <= |q|
    ensures StartsWith(q, p)
  {
    assert q[..|p|] == s[..|q|][..|p|] == s[..|p|];
  }

  /** In a prefix-free menu at most one entry is highlighted. */
  lemma OneActiveEntry(menu: seq<MenuItem>, pathname: string, i: nat, j: nat)
    requires PrefixFree(menu) && i < |menu| && j < |menu| && i != j
    ensures !(IsActive(pathname, menu[i].path) && IsActive(pathname, menu[j].path))
  {
    ActiveAtBoundary(pathname, menu[i].path);
    ActiveAtBoundary(pathname, menu[j].path);
    if StartsWith(pathname, menu[i].path) && StartsWith(pathname, menu[j].path) {
      if |menu[i].path| <= |menu[j].path| {
        PrefixesNest(pathname, menu[i].path, menu[j].path);
      } else {
        PrefixesNest(pathname, menu[j].path, menu[i].path);
      }
    }
  }

  /** Both menus are prefix-free, so each highlights at most one entry at a time. */
  lemma MenusPrefixFree()
    ensures PrefixFree(EmployeeMenu) && PrefixFree(AdminMenu)
  {
    EmployeeMenuPrefixFree();
    AdminMenuPrefixFree();
  }

  /** `/profile` and `/payroll` part at their third character, every other pair at the second. */
  lemma EmployeeMenuPrefixFree()
    ensures PrefixFree(EmployeeMenu)
  {
    var m := EmployeeMenu;
    assert m[0].path[1] == 'd' && m[1].path[1] == 'p' && m[2].path[1] == 'a' && m[3].path[1] == 'l';
    assert m[4].path[1] == 'p' && m[1].path[2] == 'r' && m[4].path[2] == 'a';
    forall i, j | 0 <= i < 5 && 0 <= j < 5 && i != j
      ensures !StartsWith(m[j].path, m[i].path)
    {
      DifferAt(m[j].path, m[i].path, if m[j].path[1] == m[i].path[1] then 2 else 1);
    }
  }

  lemma AdminMenuPrefixFree()
    ensures PrefixFree(AdminMenu)
  {
    var m := AdminMenu;
    assert m[0].path[1] == 'd' && m[1].path[1] == 'e' && m[2].path[1] == 'a' && m[3].path[1] == 'l';
    assert m[4].path[1] == 'p';
    forall i, j | 0 <= i < 5 && 0 <= j < 5 && i != j
      ensures !StartsWith(m[j].path, m[i].path)
    {
      DifferAt(m[j].path, m[i].path, 1);
    }
  }

  lemma DifferAt(s: string, p: string, k: nat)
    requires k < |p| && k < |s| && s[k] != p[k]
    ensures !StartsWith(s, p)
  {
    if |p| <= |s| {
      assert s[..|p|][k] == s[k];
    }
  }
}
