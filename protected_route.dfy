/**
 * The route guard of the front end: a loading screen while the session is
 * being restored, a redirect to `/login` without a user, a redirect to
 * `/dashboard` for a non-administrator on an administrator-only route, and
 * otherwise the page inside the layout.
 */
module ProtectedRoute {

  import opened Common
  import opened AuthSession

  datatype Screen =
    | LoadingScreen
    /** `<Navigate to={to} replace />`. */
    | Redirect(to: string)
    /** `<Layout>{children}</Layout>`. */
    | Render

  function Guard(loading: bool, user: Option<UserObject>, adminOnly: bool): (s: Screen)
    ensures loading ==> s == LoadingScreen
    ensures !loading && user.None? ==> s == Redirect("/login")
    ensures !loading && user.Some? && adminOnly && !AdminRole(user) ==> s == Redirect("/dashboard")
    ensures s == Render <==> !loading && user.Some? && (!adminOnly || AdminRole(user))
  {
    if loading then LoadingScreen
    else if user.None? then Redirect("/login")
    else if adminOnly && !AdminRole(user) then Redirect("/dashboard")
    else Render
  }

  /** The guard as the provider feeds it. */
  function GuardFor(auth: AuthProvider, adminOnly: bool): (s: Screen)
    reads auth
    ensures s == Guard(auth.loading, auth.user, adminOnly)
  {
    if auth.loading then LoadingScreen
    else if !auth.IsAuthenticated() then Redirect("/login")
    else if adminOnly && !auth.IsAdmin() then Redirect("/dashboard")
    else Render
  }

  /**
   * Once the session is restored from a server user with role `ADMIN` or
   * `EMPLOYEE`, every route renders for the administrator and the
   * administrator-only routes send the employee to the dashboard.
   */
  lemma GuardAfterSignIn(userData: UserObject, profile: Option<UserObject>, adminOnly: bool)
    requires "role" in userData && userData["role"] in {JStr("ADMIN"), JStr("EMPLOYEE")}
    ensures var s := Guard(false, SessionUser(userData, profile), adminOnly);
      && (userData["role"] == JStr("ADMIN") ==> s == Render)
      && (userData["role"] == JStr("EMPLOYEE") ==> s == if adminOnly then Redirect("/dashboard") else Render)
  {
    ServerRoles(userData, profile);
  }
}
