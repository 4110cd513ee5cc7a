/**
 * `/api/auth`: `POST /login` checks the credentials against the `users`
 * table and signs a token, `GET /me` echoes the identity the
 * authentication gate attached, `POST /logout` only acknowledges (the
 * client discards the token). Nothing here writes to the database.
 *
 * `bcrypt.compare` and `jwt.sign` are parameters: `compare(password, hash)`
 * and `sign(claims)`.
 */
module AuthRoutes {

  import opened Common
  import opened Tables
  import opened AuthGate

  datatype LoginBody = LoginBody(email: Option<string>, password: Option<string>)

  /** The login reply: the token and the user's `{id, email, role}`. */
  datatype LoginResult = LoginResult(token: string, user: Identity)

  /** The single 401 reply for an unknown e-mail and for a wrong password alike. */
  const BadCredentials: Reply<LoginResult> := Failure(401, InvalidCredentials, "Invalid email or password")

  /** `SELECT ... FROM users WHERE email = $1`: the matching row, unique by the constraint. */
  function FindByEmail(users: map<Id, User>, email: string): (r: Option<Id>)
    requires UniqueEmails(users)
    ensures r.Some? <==> EmailTaken(users, email)
    ensures r.Some? ==> r.value in users && users[r.value].email == email
  {
    if EmailTaken(users, email) then
      var k :| k in users && users[k].email == email;
      Some(k)
    else None
  }

  function Login(users: map<Id, User>, body: LoginBody, compare: (string, string) -> bool, sign: Claims -> string)
    : (r: Reply<LoginResult>)
    requires UniqueEmails(users)
    ensures r.Failure? ==> r.status in {400, 401}
  {
    if !Given(body.email) || !Given(body.password) then
      Failure(400, MissingCredentials, "Email and password are required")
    else
      match FindByEmail(users, body.email.value)
      case None => BadCredentials
      case Some(id) =>
        var u := users[id];
        if !compare(body.password.value, u.passwordHash) then BadCredentials
        else Success(200, LoginResult(sign(Claims(id, u.email, u.role)), Identity(id, u.email, u.role)))
  }

  /** A missing e-mail or password is refused with 400 before the table is looked at. */
  lemma MissingCredentialsFirst(users1: map<Id, User>, users2: map<Id, User>, body: LoginBody,
                                compare: (string, string) -> bool, sign: Claims -> string)
    requires UniqueEmails(users1) && UniqueEmails(users2)
    requires !Given(body.email) || !Given(body.password)
    ensures Login(users1, body, compare, sign) == Login(users2, body, compare, sign)
    ensures Login(users1, body, compare, sign) == Failure(400, MissingCredentials, "Email and password are required")
  {
  }

  /**
   * An unknown e-mail and a known e-mail with a wrong password get the same
   * reply, so the reply does not reveal which e-mails exist.
   */
  lemma UnknownEmailAndWrongPasswordAlike(users: map<Id, User>, body: LoginBody,
                                          compare: (string, string) -> bool, sign: Claims -> string)
    requires UniqueEmails(users)
    requires Given(body.email) && Given(body.password)
    ensures !EmailTaken(users, body.email.value) ==> Login(users, body, compare, sign) == BadCredentials
    ensures forall id ::
      (id in users && users[id].email == body.email.value &&
       !compare(body.password.value, users[id].passwordHash)) ==> Login(users, body, compare, sign) == BadCredentials
  {
  }

  /**
   * A login succeeds exactly for a stored e-mail whose hash matches the
   * password; the token signs that row's `{id, email, role}` and the reply
   * carries the same three fields.
   */
  lemma SuccessfulLogin(users: map<Id, User>, body: LoginBody, compare: (string, string) -> bool, sign: Claims -> string)
    requires UniqueEmails(users)
    ensures Login(users, body, compare, sign).Success? <==>
      Given(body.email) && Given(body.password) &&
      exists id :: id in users && users[id].email == body.email.value &&
        compare(body.password.value, users[id].passwordHash)
    ensures Login(users, body, compare, sign).Success? ==>
      var id := FindByEmail(users, body.email.value).value;
      var res := Login(users, body, compare, sign).body;
      && res.user == Identity(id, users[id].email, users[id].role)
      && res.token == sign(Claims(id, users[id].email, users[id].role))
  {
  }

  /** `GET /me`: the identity attached by the authentication gate, field for field. */
  function Me(user: Identity): (r: Reply<Identity>)
    ensures r.Success? && r.status == 200
    ensures r.body.id == user.id && r.body.email == user.email && r.body.role == user.role
  {
    Success(200, Identity(user.id, user.email, user.role))
  }

  /** `POST /logout`: always succeeds; it reads and writes nothing. */
  function Logout(): (r: Reply<string>)
    ensures r.Success? && r.status == 200
  {
    Success(200, "Logout successful")
  }

  /**
   * Logging in and then calling `/me` with the issued token returns the
   * identity the token was issued for, provided the verifier accepts what
   * the signer produced.
   */
  lemma LoginThenMe(users: map<Id, User>, body: LoginBody, compare: (string, string) -> bool,
                    sign: Claims -> string, verify: string -> Verification)
    requires UniqueEmails(users)
    requires forall c :: verify(sign(c)) == Verified(c)
    requires Login(users, body, compare, sign).Success?
    ensures
      var res := Login(users, body, compare, sign).body;
      && Authenticate(Some(Bearer + res.token), verify) == Proceed(res.user)
      && Me(Authenticate(Some(Bearer + res.token), verify).user) == Success(200, res.user)
  {
    var res := Login(users, body, compare, sign).body;
    var id := FindByEmail(users, body.email.value).value;
    VerifiesExactlyTheToken(res.token, verify);
    assert verify(res.token) == Verified(Claims(id, users[id].email, users[id].role));
  }
}
