/**
 * The role gate (`roleMiddleware(allowedRoles)`): a closure over an
 * allow-list that either lets the request through unchanged or answers
 * it. It runs after the authentication gate, which attaches `req.user`.
 */
module RoleGate {

  import opened Common

  /** What the gate does with a request: call `next()` or send a response. */
  datatype Decision = Next | Respond(status: nat, code: Code, message: string)

  /**
   * The gate's decision. `allowedRoles` is `None` when the configured value
   * is not an array, so that `allowedRoles.includes` throws inside the
   * `try` block.
   */
  function RoleMiddleware(allowedRoles: Option<seq<string>>, user: Option<Identity>): (d: Decision)
    ensures d.Respond? ==> d.status in {401, 403, 500}
  {
    if user.None? || user.value.role == "" then
      Respond(401, MissingAuth, "Authentication required")
    else if allowedRoles.None? then
      Respond(500, InternalError, InternalMessage)
    else if user.value.role !in allowedRoles.value then
      Respond(403, InsufficientPermissions, "Access denied")
    else
      Next
  }

  /**
   * Without an identity (no `req.user`, or one whose role is empty) the
   * answer is 401 `MISSING_AUTH` whatever the allow-list, never 403: the
   * identity check comes first.
   */
  lemma IdentityCheckedFirst(allowedRoles: Option<seq<string>>, user: Option<Identity>)
    requires user.None? || user.value.role == ""
    ensures RoleMiddleware(allowedRoles, user) == Respond(401, MissingAuth, "Authentication required")
    ensures RoleMiddleware(allowedRoles, user).status != 403
  {
  }

  /**
   * With an identity and an array allow-list the request goes on iff the
   * role is listed, and otherwise gets 403 `INSUFFICIENT_PERMISSIONS`.
   */
  lemma AdmitIffListed(allowed: seq<string>, user: Identity)
    requires user.role != ""
    ensures RoleMiddleware(Some(allowed), Some(user)).Next? <==> user.role in allowed
    ensures user.role !in allowed ==>
      RoleMiddleware(Some(allowed), Some(user)) == Respond(403, InsufficientPermissions, "Access denied")
  {
  }

  /** Membership is exact string equality: `'admin'` is refused by `['ADMIN']`. */
  lemma CaseSensitive(user: Identity)
    requires user.role == "admin"
    ensures RoleMiddleware(Some(["ADMIN"]), Some(user)).status == 403
  {
    assert "admin" != "ADMIN" by { assert "admin"[0] != "ADMIN"[0]; }
  }

  /** An empty allow-list refuses every identified request. */
  lemma EmptyListRefusesAll(user: Identity)
    requires user.role != ""
    ensures RoleMiddleware(Some([]), Some(user)).code == InsufficientPermissions
  {
  }

  /** An exception raised by the check itself is answered with 500 `INTERNAL_ERROR`. */
  lemma FaultIsInternalError(user: Identity)
    requires user.role != ""
    ensures RoleMiddleware(None, Some(user)) == Respond(500, InternalError, InternalMessage)
  {
  }

  /** An `ADMIN`-only route refuses an `EMPLOYEE` with 403 and admits an `ADMIN`. */
  lemma AdminOnlyRoute(user: Identity)
    ensures user.role == "EMPLOYEE" ==> RoleMiddleware(Some(["ADMIN"]), Some(user)).code == InsufficientPermissions
    ensures user.role == "ADMIN" ==> RoleMiddleware(Some(["ADMIN"]), Some(user)) == Next
  {
    assert "EMPLOYEE" != "ADMIN" by { assert "EMPLOYEE"[0] != "ADMIN"[0]; }
  }
}
