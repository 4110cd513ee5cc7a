/**
 * The front end's session: the provider keeps the current user object,
 * the token, a loading flag, the token saved in local storage and the
 * `Authorization` header of the HTTP client. The server's answers to
 * `/api/auth/login`, `/api/auth/me` and `/api/employees/:id` are
 * parameters (`None` when the request fails).
 */
module AuthSession {

  import opened Common

  /** A JSON scalar; nested arrays and objects are not distinguished here. */
  datatype Json = JNull | JBool(b: bool) | JNum(n: int) | JStr(s: string)

  /** A JSON object: its own keys and their values. */
  type UserObject = map<string, Json>

  /** `userData.role.toLowerCase()`; `None` when `role` is not a string, where the call throws. */
  function LowerRole(userData: UserObject): (r: Option<string>)
    ensures r.Some? <==> "role" in userData && userData["role"].JStr?
    ensures r.Some? ==> r.value == ToLower(userData["role"].s) && AllLower(r.value)
  {
    ToLowerIsLower(if "role" in userData && userData["role"].JStr? then userData["role"].s else "");
    if "role" in userData && userData["role"].JStr? then Some(ToLower(userData["role"].s)) else None
  }

  /** `{...a, ...b}`: the keys of both, the values of `b` winning. */
  function Spread(a: UserObject, b: UserObject): (r: UserObject)
    ensures forall k :: k in r <==> k in a || k in b
    ensures forall k :: k in b ==> r[k] == b[k]
    ensures forall k :: k in a && k !in b ==> r[k] == a[k]
  {
    a + b
  }

  /**
   * The user the provider stores after login or the current-user fetch:
   * `{...userData, ...profile, role: userData.role.toLowerCase()}`, without
   * the profile when its request failed. `None` when the role is not a
   * string, so that lower-casing throws.
   */
  function SessionUser(userData: UserObject, profile: Option<UserObject>): (u: Option<UserObject>)
    ensures u.None? <==> LowerRole(userData).None?
    ensures u.Some? ==> "role" in u.value && u.value["role"] == JStr(LowerRole(userData).value)
    ensures u.Some? ==> forall k :: k != "role" ==>
      (k in u.value <==> k in userData || (profile.Some? && k in profile.value))
    ensures u.Some? && profile.Some? ==> forall k :: k != "role" && k in profile.value ==> u.value[k] == profile.value[k]
    ensures u.Some? ==> forall k :: k != "role" && k in userData && !(profile.Some? && k in profile.value) ==>
      u.value[k] == userData[k]
  {
    match LowerRole(userData)
    case None => None
    case Some(role) =>
      var merged := if profile.Some? then Spread(userData, profile.value) else userData;
      Some(merged["role" := JStr(role)])
  }

  /** `user?.role === 'admin' || user?.role === 'ADMIN'`. */
  predicate AdminRole(user: Option<UserObject>) {
    user.Some? && "role" in user.value && (user.value["role"] == JStr("admin") || user.value["role"] == JStr("ADMIN"))
  }

  /** `user?.role === 'employee' || user?.role === 'EMPLOYEE'`. */
  predicate EmployeeRole(user: Option<UserObject>) {
    user.Some? && "role" in user.value && (user.value["role"] == JStr("employee") || user.value["role"] == JStr("EMPLOYEE"))
  }

  /**
   * For the two roles the server issues, the stored session user is an
   * administrator exactly for `ADMIN` and an employee exactly for
   * `EMPLOYEE`, whatever the profile holds.
   */
  lemma ServerRoles(userData: UserObject, profile: Option<UserObject>)
    requires "role" in userData && userData["role"] in {JStr("ADMIN"), JStr("EMPLOYEE")}
    ensures SessionUser(userData, profile).Some?
    ensures AdminRole(SessionUser(userData, profile)) <==> userData["role"] == JStr("ADMIN")
    ensures EmployeeRole(SessionUser(userData, profile)) <==> userData["role"] == JStr("EMPLOYEE")
  {
    assert ToLower("ADMIN") == "admin";
    assert ToLower("EMPLOYEE") == "employee";
  }

  /** `updateProfile`: `{...user, ...updatedData}`; spreading `null` adds nothing. */
  function Overlay(user: Option<UserObject>, updated: UserObject): (r: UserObject)
    ensures forall k :: k in r <==> k in updated || (user.Some? && k in user.value)
    ensures forall k :: k in updated ==> r[k] == updated[k]
    ensures forall k :: user.Some? && k in user.value && k !in updated ==> r[k] == user.value[k]
  {
    Spread(if user.Some? then user.value else map[], updated)
  }

  /** A login response: the token and the `user` object. */
  datatype LoginResponse = LoginResponse(token: string, user: UserObject)

  const Bearer := "Bearer "

  /** JavaScript truthiness of a text that may be null: present and not empty. */
  predicate Truthy(t: Option<string>) {
    t.Some? && t.value != ""
  }

  class AuthProvider {
    var user: Option<UserObject>
    var token: Option<string>
    var loading: bool
    /** `localStorage.getItem('token')`. */
    var storedToken: Option<string>
    /** `axios.defaults.headers.common['Authorization']`. */
    var authorization: Option<string>

    /** The provider mounts with the stored token, no user, and loading. */
    constructor (stored: Option<string>)
      ensures user.None? && token == stored && loading
      ensures storedToken == stored && authorization.None?
    {
      user, token, loading := None, stored, true;
      storedToken, authorization := stored, None;
    }

    /** The session is cleared: no user, no token, nothing stored, no header. */
    predicate LoggedOut()
      reads this
    {
      user.None? && token.None? && storedToken.None? && authorization.None?
    }

    /** `logout`. */
    method Logout()
      modifies this
      ensures LoggedOut() && loading == old(loading)
    {
      storedToken := None;
      token := None;
      user := None;
      authorization := None;
    }

    /**
     * `fetchCurrentUser`: `me` is the `user` of `/api/auth/me` and
     * `profile` the body of `/api/employees/:id`. A failed `/me`, or a role
     * that is not a string, logs out; loading ends either way.
     */
    method FetchCurrentUser(me: Option<UserObject>, profile: Option<UserObject>)
      modifies this
      ensures !loading
      ensures var u := if me.Some? then SessionUser(me.value, profile) else None;
        if u.Some? then
          && user == u
          && token == old(token) && storedToken == old(storedToken) && authorization == old(authorization)
        else LoggedOut()
    {
      var u := if me.Some? then SessionUser(me.value, profile) else None;
      if u.Some? {
        user := u;
      } else {
        Logout();
      }
      loading := false;
    }

    /**
     * The effect on `token`: with a truthy token (present and not empty) the
     * header is set and the current user fetched; otherwise loading just
     * ends.
     */
    method OnToken(me: Option<UserObject>, profile: Option<UserObject>)
      modifies this
      ensures !loading
      ensures !Truthy(old(token)) ==>
        && user == old(user) && token == old(token) && storedToken == old(storedToken)
        && authorization == old(authorization)
      ensures Truthy(old(token)) ==>
        var u := if me.Some? then SessionUser(me.value, profile) else None;
        if u.Some? then
          && user == u && token == old(token) && storedToken == old(storedToken)
          && authorization == Some(Bearer + old(token).value)
        else LoggedOut()
    {
      if token.Some? && token.value != "" {
        authorization := Some(Bearer + token.value);
        FetchCurrentUser(me, profile);
      } else {
        loading := false;
      }
    }

    /**
     * `login`: `response` is the body of `/api/auth/login` (`None` when the
     * request fails, and the error reaches the caller with nothing
     * changed). The token is saved, kept and put in the header before the
     * profile is read; the stored user is then the session user, which is
     * also returned (`None` when the role is not a string and the call
     * throws, leaving the user as it was).
     */
    method Login(response: Option<LoginResponse>, profile: Option<UserObject>) returns (r: Option<UserObject>)
      modifies this
      ensures loading == old(loading)
      ensures response.None? ==>
        && r.None? && user == old(user) && token == old(token) && storedToken == old(storedToken)
        && authorization == old(authorization)
      ensures response.Some? ==>
        && storedToken == Some(response.value.token) && token == Some(response.value.token)
        && authorization == Some(Bearer + response.value.token)
        && r == SessionUser(response.value.user, profile)
        && user == (if r.Some? then r else old(user))
    {
      if response.None? {
        return None;
      }
      var t := response.value.token;
      storedToken := Some(t);
      token := Some(t);
      authorization := Some(Bearer + t);
      r := SessionUser(response.value.user, profile);
      if r.Some? {
        user := r;
      }
    }

    /** `updateProfile`. */
    method UpdateProfile(updated: UserObject)
      modifies this`user
      ensures user == Some(Overlay(old(user), updated))
    {
      user := Some(Overlay(user, updated));
    }

    function IsAdmin(): bool
      reads this
    {
      AdminRole(user)
    }

    function IsEmployee(): bool
      reads this
    {
      EmployeeRole(user)
    }

    /** `isAuthenticated: !!user`: an object is always truthy. */
    function IsAuthenticated(): bool
      reads this
    {
      user.Some?
    }
  }
}
