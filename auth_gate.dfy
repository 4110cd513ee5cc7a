/**
 * The authentication gate (`authMiddleware`): reads the `Authorization`
 * header, hands the bearer token to the token verifier, classifies the
 * verifier's outcome, and on success attaches `{id, email, role}` to the
 * request before calling `next()`.
 *
 * The verifier (`jwt.verify` with the server secret and the clock) is a
 * parameter: a function from the token text to its outcome.
 */
module AuthGate {

  import opened Common

  /** The claims a token carries. */
  datatype Claims = Claims(id: Id, email: string, role: string)

  /**
   * What the verifier does with a token: returns its claims, or throws a
   * `TokenExpiredError`, a `JsonWebTokenError` (malformed or forged), or any
   * other error.
   */
  datatype Verification = Verified(claims: Claims) | Expired | Malformed | Fault

  /** The gate's decision: attach the identity and go on, or answer the request. */
  datatype Outcome = Proceed(user: Identity) | Reject(status: nat, code: Code, message: string)

  const Bearer := "Bearer "

  /** `authHeader.substring(7)` when the header starts with `"Bearer "`, else nothing. */
  function ExtractToken(header: Option<string>): (t: Option<string>)
    ensures t.Some? <==> header.Some? && StartsWith(header.value, Bearer)
    ensures t.Some? ==> header.value == Bearer + t.value
  {
    if header.Some? && StartsWith(header.value, Bearer) then
      assert header.value == header.value[..7] + header.value[7..];
      Some(header.value[7..])
    else None
  }

  /** The `catch` block's classification of a verifier outcome. */
  function Classify(v: Verification): (o: Outcome)
  {
    match v
    case Verified(c) => Proceed(Identity(c.id, c.email, c.role))
    case Expired => Reject(401, TokenExpired, "Session expired, please login again")
    case Malformed => Reject(401, InvalidToken, "Invalid token")
    case Fault => Reject(500, InternalError, InternalMessage)
  }

  /** The gate's decision for a request with this header. */
  function Authenticate(header: Option<string>, verify: string -> Verification): (o: Outcome)
  {
    match ExtractToken(header)
    case None => Reject(401, MissingToken, "Authentication required")
    case Some(token) => Classify(verify(token))
  }

  /** Token extraction round-trips: `"Bearer " + t` yields exactly `t`. */
  lemma TokenRoundTrip(t: string)
    ensures ExtractToken(Some(Bearer + t)) == Some(t)
  {
    assert (Bearer + t)[..7] == Bearer;
    assert (Bearer + t)[7..] == t;
  }

  /**
   * A missing header, or one not starting with exactly `"Bearer "`, gets
   * 401 `MISSING_TOKEN`, and the verifier is never consulted: the answer is
   * the same whatever the verifier would have said.
   */
  lemma NoBearerNoVerify(header: Option<string>, v1: string -> Verification, v2: string -> Verification)
    requires header.None? || !StartsWith(header.value, Bearer)
    ensures Authenticate(header, v1) == Authenticate(header, v2) == Reject(401, MissingToken, "Authentication required")
  {
  }

  /** With a bearer header, the decision depends only on what the verifier says of `t`. */
  lemma VerifiesExactlyTheToken(t: string, verify: string -> Verification)
    ensures Authenticate(Some(Bearer + t), verify) == Classify(verify(t))
  {
    TokenRoundTrip(t);
  }

  /**
   * Expired and malformed or forged tokens are both 401 but carry distinct
   * codes; any other verifier fault is 500 and never 401.
   */
  lemma ErrorClassesDistinct(t: string, verify: string -> Verification)
    ensures verify(t).Expired? ==> Authenticate(Some(Bearer + t), verify).code == TokenExpired
    ensures verify(t).Malformed? ==> Authenticate(Some(Bearer + t), verify).code == InvalidToken
    ensures verify(t).Fault? ==> Authenticate(Some(Bearer + t), verify) == Reject(500, InternalError, InternalMessage)
    ensures !verify(t).Verified? ==> Authenticate(Some(Bearer + t), verify).Reject?
  {
    TokenRoundTrip(t);
  }

  /**
   * The request goes on iff there is a bearer token that verifies, and then
   * the attached identity is exactly the token's `{id, email, role}`.
   */
  lemma OnlyVerifiedProceeds(header: Option<string>, verify: string -> Verification)
    ensures Authenticate(header, verify).Proceed? <==>
      ExtractToken(header).Some? && verify(ExtractToken(header).value).Verified?
    ensures Authenticate(header, verify).Proceed? ==>
      var c := verify(ExtractToken(header).value).claims;
      Authenticate(header, verify).user == Identity(c.id, c.email, c.role)
  {
  }

  /** An incoming request; the gate fills in `user`. */
  class Request {
    const authorization: Option<string>
    var user: Option<Identity>

    constructor (authorization: Option<string>)
      ensures this.authorization == authorization && user.None?
    {
      this.authorization := authorization;
      user := None;
    }
  }

  /**
   * The middleware itself: on success it assigns `req.user` and calls
   * `next()`; otherwise it leaves the request alone and sends the response.
   */
  method AuthMiddleware(req: Request, verify: string -> Verification)
      returns (nextCalled: bool, response: Option<Outcome>)
    modifies req
    ensures nextCalled <==> Authenticate(req.authorization, verify).Proceed?
    ensures nextCalled ==> req.user == Some(Authenticate(req.authorization, verify).user) && response.None?
    ensures !nextCalled ==> req.user == old(req.user) && response == Some(Authenticate(req.authorization, verify))
  {
    var o := Authenticate(req.authorization, verify);
    if o.Proceed? {
      req.user := Some(o.user);
      nextCalled, response := true, None;
    } else {
      nextCalled, response := false, Some(o);
    }
  }
}
