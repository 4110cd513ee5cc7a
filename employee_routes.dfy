/**
 * `/api/employees`: the listing and the single read (a `users LEFT JOIN
 * employee_profiles` row), creation of a user with its profile in one
 * transaction, the partial profile update with its per-role field whitelist,
 * and deletion.
 */
module EmployeeRoutes {

  import opened Common
  import opened Tables
  import opened Sorting
  import LoginIds

  /** A row of `users LEFT JOIN employee_profiles` (`created_at` is not modelled). */
  datatype EmployeeRow = EmployeeRow(
    id: Id,
    email: string,
    role: string,
    firstName: Option<string>,
    lastName: Option<string>,
    phone: Option<string>,
    department: Option<string>,
    position: Option<string>,
    hireDate: Option<string>)

  /** The joined row of user `id`; the profile columns are null without a profile. */
  function JoinRow(users: map<Id, User>, profiles: map<Id, Profile>, id: Id): (e: EmployeeRow)
    requires id in users
    ensures e.id == id && e.email == users[id].email && e.role == users[id].role
    ensures id in profiles ==>
      var p := profiles[id];
      e.firstName == p.firstName && e.lastName == p.lastName && e.phone == p.phone &&
      e.department == p.department && e.position == p.position && e.hireDate == p.hireDate
    ensures id !in profiles ==>
      e.firstName.None? && e.lastName.None? && e.phone.None? &&
      e.department.None? && e.position.None? && e.hireDate.None?
  {
    var u := users[id];
    if id in profiles then
      var p := profiles[id];
      EmployeeRow(id, u.email, u.role, p.firstName, p.lastName, p.phone, p.department, p.position, p.hireDate)
    else
      EmployeeRow(id, u.email, u.role, None, None, None, None, None, None)
  }

  /** The joined rows of the users with ids below `n`, in id order. */
  function JoinedBelow(users: map<Id, User>, profiles: map<Id, Profile>, n: nat): (r: seq<EmployeeRow>)
    ensures forall e :: e in r ==> e.id in users && e.id < n && e == JoinRow(users, profiles, e.id)
    ensures forall id :: id in users && id < n ==> JoinRow(users, profiles, id) in r
    ensures Distinct(r)
  {
    if n == 0 then []
    else
      var rest := JoinedBelow(users, profiles, n - 1);
      if n - 1 in users then
        var row := JoinRow(users, profiles, n - 1);
        assert row !in rest;
        rest + [row]
      else rest
  }

  /** The joined rows of all users (`FROM users u LEFT JOIN employee_profiles ep`). */
  function JoinedRows(users: map<Id, User>, profiles: map<Id, Profile>): (r: seq<EmployeeRow>)
    ensures forall e :: e in r ==> e.id in users && e == JoinRow(users, profiles, e.id)
    ensures forall id :: id in users ==> JoinRow(users, profiles, id) in r
    ensures Distinct(r)
  {
    JoinedBelow(users, profiles, Bound(users))
  }

  /** `ORDER BY ep.first_name, ep.last_name`. */
  function ByName(): (le: (EmployeeRow, EmployeeRow) -> bool)
    ensures TotalPreorder(le)
  {
    var first := ByText((e: EmployeeRow) => e.firstName);
    var last := ByText((e: EmployeeRow) => e.lastName);
    ByTextPreorder((e: EmployeeRow) => e.firstName);
    ByTextPreorder((e: EmployeeRow) => e.lastName);
    ThenPreorder(first, last);
    Then(first, last)
  }

  /** The directory order compares first names, then last names among equal first names; nulls sort last. */
  lemma ByNameKeys(x: EmployeeRow, y: EmployeeRow)
    ensures ByName()(x, y) <==>
      NullableStrLe(x.firstName, y.firstName) &&
      (NullableStrLe(y.firstName, x.firstName) ==> NullableStrLe(x.lastName, y.lastName))
    ensures x.firstName.Some? && y.firstName.None? ==> ByName()(x, y) && !ByName()(y, x)
  {
  }

  /**
   * `GET /`: an `ADMIN` gets every user whose role is `EMPLOYEE`, by first
   * and then last name; any other caller gets their own row only.
   */
  function ListEmployees(users: map<Id, User>, profiles: map<Id, Profile>, caller: Identity): (r: seq<EmployeeRow>)
    ensures caller.role == "ADMIN" ==>
      && SortedBy(r, ByName())
      && multiset(r) == multiset(Filter(JoinedRows(users, profiles), (e: EmployeeRow) => e.role == "EMPLOYEE"))
      && (forall e :: e in r ==> e.id in users && users[e.id].role == "EMPLOYEE" && e == JoinRow(users, profiles, e.id))
      && (forall id :: id in users && users[id].role == "EMPLOYEE" ==> JoinRow(users, profiles, id) in r)
    ensures caller.role != "ADMIN" ==>
      r == (if caller.id in users then [JoinRow(users, profiles, caller.id)] else [])
  {
    if caller.role == "ADMIN" then
      Sort(Filter(JoinedRows(users, profiles), (e: EmployeeRow) => e.role == "EMPLOYEE"), ByName())
    else if caller.id in users then [JoinRow(users, profiles, caller.id)]
    else []
  }

  // ---- the self-or-admin rule of GET /:id and PUT /:id ----

  /**
   * An `EMPLOYEE` may only name their own id; every other role may name any
   * id. Ids are compared by value (see `DeniedAsWritten` for the comparison
   * the handler actually makes).
   */
  predicate Denied(caller: Identity, id: Id) {
    caller.role == "EMPLOYEE" && caller.id != id
  }

  /** A value as JavaScript sees it: the token's id is a number, a path parameter text. */
  datatype JsValue = JsNumber(n: int) | JsText(s: string)

  /**
   * The handler's test `role === 'EMPLOYEE' && currentUserId !== id`, with
   * the token id a number and `req.params.id` a string: `!==` on values of
   * different types is always true.
   */
  predicate DeniedAsWritten(caller: Identity, pathId: string) {
    caller.role == "EMPLOYEE" && JsNumber(caller.id) != JsText(pathId)
  }

  /** As written, an `EMPLOYEE` is refused even their own record, whatever the path says. */
  lemma OwnRecordDeniedAsWritten(caller: Identity, pathId: string)
    requires caller.role == "EMPLOYEE"
    ensures DeniedAsWritten(caller, pathId)
  {
  }

  /** With ids compared by value, an `EMPLOYEE` is refused exactly the ids of others. */
  lemma SelfOrAdmin(caller: Identity, id: Id)
    ensures caller.role == "EMPLOYEE" ==> (Denied(caller, id) <==> id != caller.id)
    ensures caller.role != "EMPLOYEE" ==> !Denied(caller, id)
    ensures !Denied(caller, caller.id)
  {
  }

  const AccessDeniedReply := Failure(403, AccessDenied, "You can only access your own data")
  const UserNotFoundMessage := "User not found"

  /** `GET /:id`: 403 for someone else's id, 404 for an unknown one, else the joined row. */
  function GetEmployee(users: map<Id, User>, profiles: map<Id, Profile>, caller: Identity, id: Id)
    : (r: Reply<EmployeeRow>)
    ensures Denied(caller, id) ==> r == AccessDeniedReply
    ensures !Denied(caller, id) && id !in users ==> r == Failure(404, UserNotFound, UserNotFoundMessage)
    ensures r.Success? <==> !Denied(caller, id) && id in users
    ensures r.Success? ==> r.status == 200 && r.body == JoinRow(users, profiles, id)
  {
    if Denied(caller, id) then AccessDeniedReply
    else if id !in users then Failure(404, UserNotFound, UserNotFoundMessage)
    else Success(200, JoinRow(users, profiles, id))
  }

  /** The path parameter `:id` as the handler receives it: the id's decimal text. */
  function PathText(id: Id): string {
    LoginIds.NatText(id)
  }

  /**
   * `GET /:id` as written: the refusal is `DeniedAsWritten` on the path
   * text, so every `EMPLOYEE` is refused; other roles go on to the lookup.
   */
  function GetEmployeeAsWritten(users: map<Id, User>, profiles: map<Id, Profile>, caller: Identity, id: Id)
    : (r: Reply<EmployeeRow>)
    ensures caller.role == "EMPLOYEE" ==> r == AccessDeniedReply
    ensures caller.role != "EMPLOYEE" && id !in users ==> r == Failure(404, UserNotFound, UserNotFoundMessage)
    ensures r.Success? <==> caller.role != "EMPLOYEE" && id in users
    ensures r.Success? ==> r.status == 200 && r.body == JoinRow(users, profiles, id)
  {
    if DeniedAsWritten(caller, PathText(id)) then AccessDeniedReply
    else if id !in users then Failure(404, UserNotFound, UserNotFoundMessage)
    else Success(200, JoinRow(users, profiles, id))
  }

  /**
   * An `EMPLOYEE` asking for their own record: as written the handler
   * answers 403, the intended rule answers 200 with the row. Every other
   * role is answered alike by both.
   */
  lemma OwnRecordAsWritten(users: map<Id, User>, profiles: map<Id, Profile>, caller: Identity, id: Id)
    ensures caller.role == "EMPLOYEE" && caller.id in users ==>
      && GetEmployeeAsWritten(users, profiles, caller, caller.id) == AccessDeniedReply
      && GetEmployee(users, profiles, caller, caller.id) == Success(200, JoinRow(users, profiles, caller.id))
    ensures caller.role != "EMPLOYEE" ==>
      GetEmployeeAsWritten(users, profiles, caller, id) == GetEmployee(users, profiles, caller, id)
  {
  }

  // ---- the e-mail validator `/^[^\s@]+@[^\s@]+\.[^\s@]+$/` ----

  /** The character class `[^\s@]`. */
  predicate Plain(c: char) {
    !IsWhitespace(c) && c != '@'
  }

  /** Every character is in `[^\s@]`. */
  predicate NoSpaceNorAt(s: string) {
    forall k :: 0 <= k < |s| ==> Plain(s[k])
  }

  /** A `.` with at least one character on each side. */
  predicate InnerDot(d: string) {
    exists k :: 1 <= k < |d| - 1 && d[k] == '.'
  }

  /** The validator: a non-empty local part, `@`, and a domain with an inner dot, none holding white space or `@`. */
  predicate IsValidEmail(e: string) {
    exists i :: 1 <= i < |e| && e[i] == '@' && NoSpaceNorAt(e[..i]) && NoSpaceNorAt(e[i + 1..]) && InnerDot(e[i + 1..])
  }

  /** The text `l@d1.d2`. */
  function Assemble(l: string, d1: string, d2: string): string {
    l + "@" + d1 + "." + d2
  }

  /** The language of the regular expression, piece by piece. */
  ghost predicate MatchesEmailPattern(e: string) {
    exists l, d1, d2 :: e == Assemble(l, d1, d2) &&
      l != [] && d1 != [] && d2 != [] && NoSpaceNorAt(l) && NoSpaceNorAt(d1) && NoSpaceNorAt(d2)
  }

  lemma NoSpaceNorAtPrefix(s: string, hi: int)
    requires 0 <= hi <= |s| && NoSpaceNorAt(s)
    ensures NoSpaceNorAt(s[..hi])
  {
    assert forall k :: 0 <= k < hi ==> s[..hi][k] == s[k];
  }

  lemma NoSpaceNorAtSuffix(s: string, lo: int)
    requires 0 <= lo <= |s| && NoSpaceNorAt(s)
    ensures NoSpaceNorAt(s[lo..])
  {
    assert forall k :: 0 <= k < |s| - lo ==> s[lo..][k] == s[lo + k];
  }

  /** The three pieces of an accepted address, cut at the `@` and at an inner dot of the domain. */
  lemma EmailParts(e: string) returns (l: string, d1: string, d2: string)
    requires IsValidEmail(e)
    ensures e == Assemble(l, d1, d2)
    ensures l != [] && d1 != [] && d2 != [] && NoSpaceNorAt(l) && NoSpaceNorAt(d1) && NoSpaceNorAt(d2)
  {
    var i :| 1 <= i < |e| && e[i] == '@' && NoSpaceNorAt(e[..i]) && NoSpaceNorAt(e[i + 1..]) && InnerDot(e[i + 1..]);
    var d := e[i + 1..];
    var k :| 1 <= k < |d| - 1 && d[k] == '.';
    l, d1, d2 := e[..i], d[..k], d[k + 1..];
    NoSpaceNorAtPrefix(d, k);
    NoSpaceNorAtSuffix(d, k + 1);
    assert e == l + "@" + d by {
      Around(e, i);
      assert [e[i]] == "@";
    }
    assert d == d1 + "." + d2 by {
      Around(d, k);
      assert [d[k]] == ".";
    }
    AssembleParts(l, d1, d2);
  }

  /** Every string the validator accepts matches the regular expression. */
  lemma ValidEmailMatches(e: string)
    requires IsValidEmail(e)
    ensures MatchesEmailPattern(e)
  {
    var l, d1, d2 := EmailParts(e);
  }

  lemma Around(s: string, i: nat)
    requires i < |s|
    ensures s == s[..i] + [s[i]] + s[i + 1..]
  {
  }

  lemma AssembleParts(l: string, d1: string, d2: string)
    ensures Assemble(l, d1, d2) == l + "@" + (d1 + "." + d2)
  {
  }

  /** Every string the regular expression matches is accepted by the validator. */
  lemma MatchesIsValidEmail(e: string)
    requires MatchesEmailPattern(e)
    ensures IsValidEmail(e)
  {
    var l, d1, d2 :| e == Assemble(l, d1, d2) &&
      l != [] && d1 != [] && d2 != [] && NoSpaceNorAt(l) && NoSpaceNorAt(d1) && NoSpaceNorAt(d2);
    var i := |l|;
    var d := d1 + "." + d2;
    AssembleParts(l, d1, d2);
    assert e[..i] == l && e[i] == '@' && e[i + 1..] == d by {
      assert e == l + ("@" + d);
    }
    assert d[|d1|] == '.';
    assert NoSpaceNorAt(d) by {
      NoSpaceNorAtConcat(d1, ".");
      NoSpaceNorAtConcat(d1 + ".", d2);
    }
    assert 1 <= i < |e| && e[i] == '@' && NoSpaceNorAt(e[..i]) && NoSpaceNorAt(e[i + 1..]) && InnerDot(e[i + 1..]);
  }

  lemma NoSpaceNorAtConcat(a: string, b: string)
    requires NoSpaceNorAt(a) && NoSpaceNorAt(b)
    ensures NoSpaceNorAt(a + b)
  {
    assert forall k :: |a| <= k < |a + b| ==> (a + b)[k] == b[k - |a|];
  }

  /** The validator accepts exactly the strings the regular expression matches. */
  lemma EmailValidatorMatchesPattern(e: string)
    ensures IsValidEmail(e) <==> MatchesEmailPattern(e)
  {
    if IsValidEmail(e) { ValidEmailMatches(e); }
    if MatchesEmailPattern(e) { MatchesIsValidEmail(e); }
  }

  /** Cutting at position `i`: every other character is plain iff both sides are. */
  lemma PlainAround(e: string, i: nat)
    requires i < |e|
    ensures (forall k :: 0 <= k < |e| && k != i ==> Plain(e[k])) <==> NoSpaceNorAt(e[..i]) && NoSpaceNorAt(e[i + 1..])
  {
    assert forall k :: 0 <= k < i ==> e[..i][k] == e[k];
    assert forall k :: i < k < |e| ==> e[i + 1..][k - i - 1] == e[k];
  }

  /** An `@` at `i` is the only one an accepted address can have. */
  lemma OnlyAt(e: string, i: nat, j: nat)
    requires i < |e| && e[i] == '@'
    requires 1 <= j < |e| && e[j] == '@' && NoSpaceNorAt(e[..j]) && NoSpaceNorAt(e[j + 1..])
    ensures i == j
  {
  }

  /**
   * The validator's rule in words, given an `@` at `i`: it is the only `@`,
   * there is no white space (every other character is in `[^\s@]`), the
   * local part is non-empty, and the domain has a dot with a character
   * before and after it.
   */
  lemma EmailValidatorRule(e: string, i: nat)
    requires i < |e| && e[i] == '@'
    ensures IsValidEmail(e) <==>
      i >= 1 && (forall k :: 0 <= k < |e| && k != i ==> Plain(e[k])) && InnerDot(e[i + 1..])
  {
    PlainAround(e, i);
    if IsValidEmail(e) {
      var j :| 1 <= j < |e| && e[j] == '@' && NoSpaceNorAt(e[..j]) && NoSpaceNorAt(e[j + 1..]) && InnerDot(e[j + 1..]);
      OnlyAt(e, i, j);
    }
  }

  /** Examples of the rule: a few inputs the expression accepts and rejects. */
  lemma EmailValidatorExamples()
    ensures IsValidEmail("a@b.c")
    ensures !IsValidEmail("a@b")
    ensures !IsValidEmail("@b.c")
  {
    var e := "a@b.c";
    assert e[1] == '@' && e[..1] == "a" && e[2..] == "b.c";
    assert "b.c"[1] == '.';
    assert NoSpaceNorAt("a") && NoSpaceNorAt("b.c");
    EmailValidatorRule("a@b", 1);
    assert "a@b"[2..] == "b";
    EmailValidatorRule("@b.c", 0);
  }

  // ---- POST / ----

  datatype NewEmployee = NewEmployee(
    email: Option<string>,
    password: Option<string>,
    firstName: Option<string>,
    lastName: Option<string>,
    phone: Option<string>,
    department: Option<string>,
    position: Option<string>,
    hireDate: Option<string>)

  /** The statements of the create transaction, any of which may fail. */
  datatype CreateStep = CreateBegin | CreateHash | CreateUser | CreateProfile | CreateCommit

  predicate CreateFieldsGiven(b: NewEmployee) {
    Given(b.email) && Given(b.password) && Given(b.firstName) && Given(b.lastName)
  }

  /** The profile row a create inserts; empty optional fields become null. */
  function NewProfile(b: NewEmployee): (p: Profile)
    requires CreateFieldsGiven(b)
    ensures p.firstName == b.firstName && p.lastName == b.lastName
    ensures p.phone == OrNull(b.phone) && p.department == OrNull(b.department)
    ensures p.position == OrNull(b.position) && p.hireDate == OrNull(b.hireDate)
  {
    Profile(b.firstName, b.lastName, OrNull(b.phone), OrNull(b.department), OrNull(b.position), OrNull(b.hireDate))
  }

  /** The reply of a failed create, in the order the handler checks. */
  function CreateFailure(b: NewEmployee, users: map<Id, User>, fault: Option<CreateStep>): (r: Reply<EmployeeRow>)
  {
    if !CreateFieldsGiven(b) then
      Failure(400, MissingRequiredFields, "Email, password, first name, and last name are required")
    else if !IsValidEmail(b.email.value) then Failure(400, InvalidEmail, "Invalid email format")
    else if fault == Some(CreateBegin) || fault == Some(CreateHash) || fault == Some(CreateUser) then Internal()
    else if EmailTaken(users, b.email.value) then Failure(409, DuplicateEmail, "Email already exists")
    else Internal()
  }

  predicate CreateSucceeds(b: NewEmployee, users: map<Id, User>, fault: Option<CreateStep>) {
    CreateFieldsGiven(b) && IsValidEmail(b.email.value) && fault.None? && !EmailTaken(users, b.email.value)
  }

  /**
   * The error classes of a create: the two 400s come before any write, a taken
   * e-mail reached by the user insert is 409, every other fault is 500.
   */
  lemma CreateFailureClasses(b: NewEmployee, users: map<Id, User>, fault: Option<CreateStep>)
    ensures !CreateFieldsGiven(b) ==> CreateFailure(b, users, fault).code == MissingRequiredFields
    ensures CreateFieldsGiven(b) && !IsValidEmail(b.email.value) ==> CreateFailure(b, users, fault).code == InvalidEmail
    ensures (CreateFieldsGiven(b) && IsValidEmail(b.email.value) && EmailTaken(users, b.email.value) &&
             fault != Some(CreateBegin) && fault != Some(CreateHash) && fault != Some(CreateUser)) ==>
      CreateFailure(b, users, fault) == Failure(409, DuplicateEmail, "Email already exists")
    ensures CreateFieldsGiven(b) && IsValidEmail(b.email.value) && !EmailTaken(users, b.email.value) ==>
      CreateFailure(b, users, fault).status == 500
  {
  }

  /** Adding a user whose e-mail is not yet taken keeps e-mails unique. */
  lemma AddKeepsEmailsUnique(users: map<Id, User>, id: Id, u: User)
    requires UniqueEmails(users) && id !in users && !EmailTaken(users, u.email)
    ensures UniqueEmails(users[id := u])
  {
    var m := users[id := u];
    forall a, b | a in m && b in m && m[a].email == m[b].email
      ensures a == b
    {
      if a != id && b != id {
        assert users[a].email == users[b].email;
      }
    }
  }

  /**
   * `POST /`. `passwordHash` is what `bcrypt.hash` returns for the password;
   * `fault` names the statement that throws, if any. The user and its
   * profile are committed together or not at all.
   */
  method CreateEmployee(db: Store, b: NewEmployee, passwordHash: string, fault: Option<CreateStep>)
      returns (r: Reply<EmployeeRow>)
    requires db.Valid()
    modifies db
    ensures db.Valid()
    ensures r.Success? <==> CreateSucceeds(b, old(db.users), fault)
    ensures r.Failure? ==> r == CreateFailure(b, old(db.users), fault)
    ensures r.Failure? ==> db.users == old(db.users) && db.profiles == old(db.profiles)
    ensures db.company == old(db.company) && db.attendance == old(db.attendance)
    ensures db.leaves == old(db.leaves) && db.payroll == old(db.payroll)
    ensures r.Success? ==>
      && r.status == 201
      && r.body.id !in old(db.users)
      && db.users == old(db.users)[r.body.id := User(b.email.value, passwordHash, "EMPLOYEE", None, None)]
      && db.profiles == old(db.profiles)[r.body.id := NewProfile(b)]
      && r.body == JoinRow(db.users, db.profiles, r.body.id)
  {
    if !CreateFieldsGiven(b) || !IsValidEmail(b.email.value) {
      return CreateFailure(b, db.users, fault);
    }
    // BEGIN, bcrypt.hash
    if fault == Some(CreateBegin) || fault == Some(CreateHash) {
      return CreateFailure(b, db.users, fault);
    }
    // INSERT INTO users; a taken e-mail is a unique violation (23505)
    var id := db.NewId();
    var email := b.email.value;
    if fault == Some(CreateUser) || EmailTaken(db.users, email) {
      return CreateFailure(b, db.users, fault);
    }
    var user := User(email, passwordHash, "EMPLOYEE", None, None);
    // INSERT INTO employee_profiles, then COMMIT: the only steps `fault` can still name
    var profile := NewProfile(b);
    if fault.Some? {
      return CreateFailure(b, db.users, fault);
    }
    AddKeepsEmailsUnique(db.users, id, user);
    db.users := db.users[id := user];
    db.profiles := db.profiles[id := profile];
    r := Success(201, JoinRow(db.users, db.profiles, id));
  }

  // ---- PUT /:id ----

  /** A body field: absent (`undefined`), `null`, or a text. */
  datatype Field = Absent | Null | Text(s: string)

  datatype ProfileChanges = ProfileChanges(
    email: Option<string>,
    firstName: Field,
    lastName: Field,
    phone: Field,
    department: Field,
    position: Field,
    hireDate: Field)

  datatype Column = FirstName | LastName | Phone | Department | Position | HireDate

  /** The columns only an `ADMIN` may change. */
  predicate AdminOnly(c: Column) {
    c == Position || c == HireDate
  }

  function FieldOf(c: ProfileChanges, col: Column): Field {
    match col
    case FirstName => c.firstName
    case LastName => c.lastName
    case Phone => c.phone
    case Department => c.department
    case Position => c.position
    case HireDate => c.hireDate
  }

  /** The value a supplied field writes: `null` or the text. */
  function ValueOf(f: Field): Option<string> {
    if f.Text? then Some(f.s) else None
  }

  function ColumnValue(p: Profile, col: Column): Option<string> {
    match col
    case FirstName => p.firstName
    case LastName => p.lastName
    case Phone => p.phone
    case Department => p.department
    case Position => p.position
    case HireDate => p.hireDate
  }

  function SetColumn(p: Profile, col: Column, v: Option<string>): (q: Profile)
    ensures ColumnValue(q, col) == v
    ensures forall other :: other != col ==> ColumnValue(q, other) == ColumnValue(p, other)
  {
    match col
    case FirstName => p.(firstName := v)
    case LastName => p.(lastName := v)
    case Phone => p.(phone := v)
    case Department => p.(department := v)
    case Position => p.(position := v)
    case HireDate => p.(hireDate := v)
  }

  /** Whether the caller's change of `col` is applied: supplied, and not admin-only for a non-admin. */
  predicate Applies(c: ProfileChanges, isAdmin: bool, col: Column) {
    FieldOf(c, col) != Absent && (AdminOnly(col) ==> isAdmin)
  }

  /** The position of a column in the handler's order of tests. */
  function Rank(col: Column): nat {
    match col
    case FirstName => 0
    case LastName => 1
    case Phone => 2
    case Department => 3
    case Position => 4
    case HireDate => 5
  }

  /** The `SET` entry for `col`, when the change applies. */
  function Edit(c: ProfileChanges, isAdmin: bool, col: Column): (r: seq<(Column, Option<string>)>)
    ensures |r| <= 1
    ensures forall e :: e in r <==> e.0 == col && Applies(c, isAdmin, col) && e.1 == ValueOf(FieldOf(c, col))
  {
    if Applies(c, isAdmin, col) then [(col, ValueOf(FieldOf(c, col)))] else []
  }

  /** Entries in strictly increasing column order, all before column rank `n`. */
  predicate InOrderBelow(r: seq<(Column, Option<string>)>, n: nat) {
    && (forall i, j :: 0 <= i < j < |r| ==> Rank(r[i].0) < Rank(r[j].0))
    && (forall e :: e in r ==> Rank(e.0) < n)
  }

  lemma InOrderExtend(r: seq<(Column, Option<string>)>, c: ProfileChanges, isAdmin: bool, col: Column)
    requires InOrderBelow(r, Rank(col))
    ensures InOrderBelow(r + Edit(c, isAdmin, col), Rank(col) + 1)
  {
    var s := r + Edit(c, isAdmin, col);
    forall i, j | 0 <= i < j < |s| ensures Rank(s[i].0) < Rank(s[j].0) {
      if j >= |r| {
        assert s[i] in r;
        assert s[j] in Edit(c, isAdmin, col);
      }
    }
  }

  /**
   * The `SET` list of the profile update: the applied changes, in the
   * handler's order `first_name`, `last_name`, `phone`, `department`,
   * `position`, `hire_date`, each column at most once.
   */
  function Edits(c: ProfileChanges, isAdmin: bool): seq<(Column, Option<string>)> {
    Edit(c, isAdmin, FirstName) + Edit(c, isAdmin, LastName) + Edit(c, isAdmin, Phone) +
    Edit(c, isAdmin, Department) + Edit(c, isAdmin, Position) + Edit(c, isAdmin, HireDate)
  }

  /** The column the handler checks at position `n`. */
  function ColumnAt(n: nat): (col: Column)
    requires n < 6
    ensures Rank(col) == n
  {
    [FirstName, LastName, Phone, Department, Position, HireDate][n]
  }

  /** The `SET` list after the first `n` tests of the handler. */
  function EditsUpTo(c: ProfileChanges, isAdmin: bool, n: nat): seq<(Column, Option<string>)>
    requires n <= 6
  {
    if n == 0 then [] else EditsUpTo(c, isAdmin, n - 1) + Edit(c, isAdmin, ColumnAt(n - 1))
  }

  lemma {:induction false} EditsUpToInOrder(c: ProfileChanges, isAdmin: bool, n: nat)
    requires n <= 6
    ensures InOrderBelow(EditsUpTo(c, isAdmin, n), n)
    ensures forall e :: e in EditsUpTo(c, isAdmin, n) <==>
      Rank(e.0) < n && Applies(c, isAdmin, e.0) && e.1 == ValueOf(FieldOf(c, e.0))
  {
    if n > 0 {
      var prev := EditsUpTo(c, isAdmin, n - 1);
      EditsUpToInOrder(c, isAdmin, n - 1);
      InOrderExtend(prev, c, isAdmin, ColumnAt(n - 1));
      forall e ensures e in EditsUpTo(c, isAdmin, n) <==>
        Rank(e.0) < n && Applies(c, isAdmin, e.0) && e.1 == ValueOf(FieldOf(c, e.0))
      {
        assert e in EditsUpTo(c, isAdmin, n) <==> e in prev || e in Edit(c, isAdmin, ColumnAt(n - 1));
        if Rank(e.0) == n - 1 {
          assert e.0 == ColumnAt(n - 1);
        }
      }
    }
  }

  /** The `SET` list holds exactly the applied changes, in the handler's column order. */
  lemma EditsInOrder(c: ProfileChanges, isAdmin: bool)
    ensures forall e :: e in Edits(c, isAdmin) <==> Applies(c, isAdmin, e.0) && e.1 == ValueOf(FieldOf(c, e.0))
    ensures var r := Edits(c, isAdmin); forall i, j :: 0 <= i < j < |r| ==> Rank(r[i].0) < Rank(r[j].0)
  {
    EditsUpToInOrder(c, isAdmin, 6);
    assert Edits(c, isAdmin) == EditsUpTo(c, isAdmin, 6) by {
      assert ColumnAt(0) == FirstName && ColumnAt(1) == LastName && ColumnAt(2) == Phone;
      assert ColumnAt(3) == Department && ColumnAt(4) == Position && ColumnAt(5) == HireDate;
      assert EditsUpTo(c, isAdmin, 1) == [] + Edit(c, isAdmin, FirstName) == Edit(c, isAdmin, FirstName);
      assert EditsUpTo(c, isAdmin, 2) == EditsUpTo(c, isAdmin, 1) + Edit(c, isAdmin, LastName);
      assert EditsUpTo(c, isAdmin, 3) == EditsUpTo(c, isAdmin, 2) + Edit(c, isAdmin, Phone);
      assert EditsUpTo(c, isAdmin, 4) == EditsUpTo(c, isAdmin, 3) + Edit(c, isAdmin, Department);
      assert EditsUpTo(c, isAdmin, 5) == EditsUpTo(c, isAdmin, 4) + Edit(c, isAdmin, Position);
      assert EditsUpTo(c, isAdmin, 6) == EditsUpTo(c, isAdmin, 5) + Edit(c, isAdmin, HireDate);
    }
  }

  /** Writing the `SET` list in order. */
  function ApplyEdits(p: Profile, edits: seq<(Column, Option<string>)>): Profile
    decreases |edits|
  {
    if edits == [] then p else ApplyEdits(SetColumn(p, edits[0].0, edits[0].1), edits[1..])
  }

  /** With distinct columns, each listed column gets its value and every other column is kept. */
  lemma {:induction false} ApplyEditsColumn(p: Profile, edits: seq<(Column, Option<string>)>, col: Column)
    requires forall i, j :: 0 <= i < j < |edits| ==> edits[i].0 != edits[j].0
    ensures forall v :: (col, v) in edits ==> ColumnValue(ApplyEdits(p, edits), col) == v
    ensures (forall v :: (col, v) !in edits) ==> ColumnValue(ApplyEdits(p, edits), col) == ColumnValue(p, col)
    decreases |edits|
  {
    if edits != [] {
      var q := SetColumn(p, edits[0].0, edits[0].1);
      ApplyEditsColumn(q, edits[1..], col);
      forall v | (col, v) in edits ensures (col, v) == edits[0] || (col, v) in edits[1..] {
        var j :| 0 <= j < |edits| && edits[j] == (col, v);
        if j > 0 { assert edits[1..][j - 1] == (col, v); }
      }
    }
  }

  /**
   * The whitelist: after the update, a column holds the supplied value when
   * the caller may change it, and its old value otherwise. A non-admin never
   * changes `position` or `hire_date`; an absent field is never changed.
   */
  lemma UpdateWhitelist(p: Profile, c: ProfileChanges, isAdmin: bool, col: Column)
    ensures Applies(c, isAdmin, col) ==> ColumnValue(ApplyEdits(p, Edits(c, isAdmin)), col) == ValueOf(FieldOf(c, col))
    ensures !Applies(c, isAdmin, col) ==> ColumnValue(ApplyEdits(p, Edits(c, isAdmin)), col) == ColumnValue(p, col)
    ensures !isAdmin && AdminOnly(col) ==> ColumnValue(ApplyEdits(p, Edits(c, isAdmin)), col) == ColumnValue(p, col)
    ensures FieldOf(c, col) == Absent ==> ColumnValue(ApplyEdits(p, Edits(c, isAdmin)), col) == ColumnValue(p, col)
  {
    EditsInOrder(c, isAdmin);
    ApplyEditsColumn(p, Edits(c, isAdmin), col);
  }

  /** A bound parameter: a column value, or the row key. */
  datatype Param = Value(v: Option<string>) | Key(id: Id)

  function AsValue(v: Option<string>): Param {
    Value(v)
  }

  /**
   * The builder's state after the columns whose entries are `done`: the
   * assignments and values for them, and the counter one past the last
   * placeholder.
   */
  predicate Numbered(assignments: seq<(Column, nat)>, values: seq<Param>, paramCount: nat,
                     done: seq<(Column, Option<string>)>) {
    assignments == Numbering(done) && values == BoundValues(done, AsValue) && paramCount == |done| + 1
  }

  /** One `if (field !== undefined)` of the builder: append `col = $n` and the value when the change applies. */
  method PushColumn(c: ProfileChanges, isAdmin: bool, col: Column, ghost done: seq<(Column, Option<string>)>,
                    assignments: seq<(Column, nat)>, values: seq<Param>, paramCount: nat)
      returns (assignments': seq<(Column, nat)>, values': seq<Param>, paramCount': nat)
    requires Numbered(assignments, values, paramCount, done)
    ensures Numbered(assignments', values', paramCount', done + Edit(c, isAdmin, col))
  {
    if Applies(c, isAdmin, col) {
      ghost var next := done + Edit(c, isAdmin, col);
      assert next[..|next| - 1] == done;
      assignments', values', paramCount' := assignments + [(col, paramCount)], values + [Value(ValueOf(FieldOf(c, col)))], paramCount + 1;
    } else {
      assert done + Edit(c, isAdmin, col) == done;
      assignments', values', paramCount' := assignments, values, paramCount;
    }
  }

  /**
   * The handler's builder: each applied column appends `col = $n` with
   * `n` taken from `paramCount++` and its value to `values`; when any column
   * was appended, the id is appended last and referenced as the final
   * placeholder. Each assignment is a column and its placeholder number.
   */
  method BuildProfileUpdate(c: ProfileChanges, role: string, id: Id)
      returns (assignments: seq<(Column, nat)>, values: seq<Param>, keyPlaceholder: Option<nat>)
    ensures var edits := Edits(c, role == "ADMIN");
      && |assignments| == |edits|
      && (forall k :: 0 <= k < |edits| ==> assignments[k] == (edits[k].0, k + 1))
      && (edits == [] ==> values == [] && keyPlaceholder.None?)
      && (edits != [] ==>
            && |values| == |edits| + 1
            && (forall k :: 0 <= k < |edits| ==> values[k] == Value(edits[k].1))
            && values[|edits|] == Key(id) && keyPlaceholder == Some(|edits| + 1))
  {
    var isAdmin := role == "ADMIN";
    var paramCount: nat := 1;
    ghost var done := [];
    assignments, values := [], [];
    assignments, values, paramCount := PushColumn(c, isAdmin, FirstName, done, assignments, values, paramCount);
    done := done + Edit(c, isAdmin, FirstName);
    assignments, values, paramCount := PushColumn(c, isAdmin, LastName, done, assignments, values, paramCount);
    done := done + Edit(c, isAdmin, LastName);
    assignments, values, paramCount := PushColumn(c, isAdmin, Phone, done, assignments, values, paramCount);
    done := done + Edit(c, isAdmin, Phone);
    assignments, values, paramCount := PushColumn(c, isAdmin, Department, done, assignments, values, paramCount);
    done := done + Edit(c, isAdmin, Department);
    assignments, values, paramCount := PushColumn(c, isAdmin, Position, done, assignments, values, paramCount);
    done := done + Edit(c, isAdmin, Position);
    assignments, values, paramCount := PushColumn(c, isAdmin, HireDate, done, assignments, values, paramCount);
    done := done + Edit(c, isAdmin, HireDate);
    assert done == Edits(c, isAdmin);
    values, keyPlaceholder := AppendKey(assignments, values, paramCount, done, id);
  }

  /** `values.push(id)` and `WHERE user_id = $n`, when any column was appended. */
  method AppendKey(assignments: seq<(Column, nat)>, values: seq<Param>, paramCount: nat,
                   ghost done: seq<(Column, Option<string>)>, id: Id)
      returns (values': seq<Param>, keyPlaceholder: Option<nat>)
    requires Numbered(assignments, values, paramCount, done)
    ensures done == [] ==> values' == [] && keyPlaceholder.None?
    ensures done != [] ==>
      && |values'| == |done| + 1
      && (forall k :: 0 <= k < |done| ==> values'[k] == Value(done[k].1))
      && values'[|done|] == Key(id) && keyPlaceholder == Some(|done| + 1)
  {
    if |assignments| > 0 {
      values' := values + [Key(id)];
      keyPlaceholder := Some(paramCount);
    } else {
      values', keyPlaceholder := values, None;
    }
  }

  /** Some user other than `id` already has `email`. */
  predicate EmailTakenByOther(users: map<Id, User>, id: Id, email: string) {
    exists k :: k in users && k != id && users[k].email == email
  }

  /** The statements of the update, any of which may fail. */
  datatype UpdateStep = UpdateBegin | CheckUser | UpdateEmail | UpdateProfile | UpdateCommit | Refetch

  /** Whether the e-mail is rewritten: a non-empty e-mail from an `ADMIN` (it is not validated). */
  predicate ChangesEmail(caller: Identity, c: ProfileChanges) {
    Given(c.email) && caller.role == "ADMIN"
  }

  /** Whether the transaction reaches `COMMIT` and it succeeds. */
  predicate UpdateCommits(users: map<Id, User>, caller: Identity, id: Id, c: ProfileChanges, fault: Option<UpdateStep>) {
    && !Denied(caller, id)
    && fault != Some(UpdateBegin) && fault != Some(CheckUser)
    && id in users
    && !(ChangesEmail(caller, c) && (fault == Some(UpdateEmail) || EmailTakenByOther(users, id, c.email.value)))
    && !(AnyApplies(c, caller.role == "ADMIN") && fault == Some(UpdateProfile))
    && fault != Some(UpdateCommit)
  }

  /** The tables the committed update leaves. */
  function UpdatedUsers(users: map<Id, User>, caller: Identity, id: Id, c: ProfileChanges): map<Id, User>
    requires id in users
  {
    if ChangesEmail(caller, c) then users[id := users[id].(email := c.email.value)] else users
  }

  function UpdatedProfiles(profiles: map<Id, Profile>, caller: Identity, id: Id, c: ProfileChanges): map<Id, Profile>
  {
    var edits := Edits(c, caller.role == "ADMIN");
    if edits != [] && id in profiles then profiles[id := ApplyEdits(profiles[id], edits)] else profiles
  }

  /** The reply of an update that does not commit. */
  function UpdateFailure(users: map<Id, User>, caller: Identity, id: Id, fault: Option<UpdateStep>): Reply<EmployeeRow> {
    if Denied(caller, id) then AccessDeniedReply
    else if fault == Some(UpdateBegin) || fault == Some(CheckUser) then Internal()
    else if id !in users then Failure(404, UserNotFound, UserNotFoundMessage)
    else Internal()
  }

  /**
   * A committed update changes only the target's row: another user's e-mail
   * and profile stay as they were, and an `EMPLOYEE` never changes an e-mail.
   */
  lemma UpdateTouchesOnlyTarget(users: map<Id, User>, profiles: map<Id, Profile>, caller: Identity, id: Id,
                                c: ProfileChanges, other: Id)
    requires id in users && other != id
    ensures other in users ==> other in UpdatedUsers(users, caller, id, c) && UpdatedUsers(users, caller, id, c)[other] == users[other]
    ensures UpdatedUsers(users, caller, id, c).Keys == users.Keys
    ensures UpdatedProfiles(profiles, caller, id, c).Keys == profiles.Keys
    ensures other in profiles ==> UpdatedProfiles(profiles, caller, id, c)[other] == profiles[other]
    ensures caller.role != "ADMIN" ==> UpdatedUsers(users, caller, id, c) == users
  {
  }

  /**
   * `PUT /:id`. The e-mail rewrite and the profile update run in one
   * transaction; the row is read back after `COMMIT`, so a failure of that
   * read (`Refetch`) answers 500 although the update has been committed.
   */
  method UpdateEmployee(db: Store, caller: Identity, id: Id, c: ProfileChanges, fault: Option<UpdateStep>)
      returns (r: Reply<EmployeeRow>)
    requires db.Valid()
    modifies db
    ensures db.Valid()
    ensures db.company == old(db.company) && db.attendance == old(db.attendance)
    ensures db.leaves == old(db.leaves) && db.payroll == old(db.payroll) && db.nextId == old(db.nextId)
    ensures !UpdateCommits(old(db.users), caller, id, c, fault) ==>
      db.users == old(db.users) && db.profiles == old(db.profiles) && r == UpdateFailure(old(db.users), caller, id, fault)
    ensures UpdateCommits(old(db.users), caller, id, c, fault) ==>
      && db.users == UpdatedUsers(old(db.users), caller, id, c)
      && db.profiles == UpdatedProfiles(old(db.profiles), caller, id, c)
      && r == (if fault == Some(Refetch) then Internal() else Success(200, JoinRow(db.users, db.profiles, id)))
  {
    if Denied(caller, id) || fault == Some(UpdateBegin) || fault == Some(CheckUser) || id !in db.users {
      r := UpdateFailure(db.users, caller, id, fault);
    } else if ChangesEmail(caller, c) && (fault == Some(UpdateEmail) || EmailTakenByOther(db.users, id, c.email.value)) {
      r := Internal();
    } else {
      var updatesProfile := PrepareProfileUpdate(c, caller.role, id);
      if (updatesProfile && fault == Some(UpdateProfile)) || fault == Some(UpdateCommit) {
        r := Internal();
      } else {
        CommitUpdate(db, caller, id, c);
        r := if fault == Some(Refetch) then Internal() else Success(200, JoinRow(db.users, db.profiles, id));
      }
    }
  }

  /**
   * `PUT /:id` as written: the refusal is `DeniedAsWritten` on the path
   * text, so every `EMPLOYEE` is refused and nothing changes; other roles
   * go on to the update, which then never refuses them.
   */
  method UpdateEmployeeAsWritten(db: Store, caller: Identity, id: Id, c: ProfileChanges, fault: Option<UpdateStep>)
      returns (r: Reply<EmployeeRow>)
    requires db.Valid()
    modifies db
    ensures db.Valid()
    ensures db.company == old(db.company) && db.attendance == old(db.attendance)
    ensures db.leaves == old(db.leaves) && db.payroll == old(db.payroll) && db.nextId == old(db.nextId)
    ensures caller.role == "EMPLOYEE" ==>
      r == AccessDeniedReply && db.users == old(db.users) && db.profiles == old(db.profiles)
    ensures caller.role != "EMPLOYEE" && !UpdateCommits(old(db.users), caller, id, c, fault) ==>
      && db.users == old(db.users) && db.profiles == old(db.profiles)
      && r == UpdateFailure(old(db.users), caller, id, fault) && r != AccessDeniedReply
    ensures caller.role != "EMPLOYEE" && UpdateCommits(old(db.users), caller, id, c, fault) ==>
      && db.users == UpdatedUsers(old(db.users), caller, id, c)
      && db.profiles == UpdatedProfiles(old(db.profiles), caller, id, c)
      && r == (if fault == Some(Refetch) then Internal() else Success(200, JoinRow(db.users, db.profiles, id)))
  {
    if DeniedAsWritten(caller, PathText(id)) {
      r := AccessDeniedReply;
    } else {
      r := UpdateEmployee(db, caller, id, c, fault);
    }
  }

  /** Builds the profile statement; it is run only when it has at least one assignment. */
  method PrepareProfileUpdate(c: ProfileChanges, role: string, id: Id) returns (updatesProfile: bool)
    ensures updatesProfile <==> AnyApplies(c, role == "ADMIN")
  {
    var assignments, values, keyPlaceholder := BuildProfileUpdate(c, role, id);
    updatesProfile := |assignments| > 0;
    EditsInOrder(c, role == "ADMIN");
    if AnyApplies(c, role == "ADMIN") {
      var col :| Applies(c, role == "ADMIN", col);
      assert (col, ValueOf(FieldOf(c, col))) in Edits(c, role == "ADMIN");
    }
  }

  /** Some column of the profile is changed. */
  predicate AnyApplies(c: ProfileChanges, isAdmin: bool) {
    exists col :: Applies(c, isAdmin, col)
  }

  /** The writes of a committed update. */
  method CommitUpdate(db: Store, caller: Identity, id: Id, c: ProfileChanges)
    requires db.Valid() && id in db.users
    requires ChangesEmail(caller, c) ==> !EmailTakenByOther(db.users, id, c.email.value)
    modifies db`users, db`profiles
    ensures db.Valid()
    ensures db.users == UpdatedUsers(old(db.users), caller, id, c)
    ensures db.profiles == UpdatedProfiles(old(db.profiles), caller, id, c)
  {
    UpdateKeepsUserTables(db.users, db.profiles, caller, id, c, db.nextId);
    db.users, db.profiles := UpdatedUsers(db.users, caller, id, c), UpdatedProfiles(db.profiles, caller, id, c);
  }

  /** A committed update keeps the user tables' constraints. */
  lemma UpdateKeepsUserTables(users: map<Id, User>, profiles: map<Id, Profile>, caller: Identity, id: Id,
                              c: ProfileChanges, n: nat)
    requires UserTables(users, profiles, n) && id in users
    requires ChangesEmail(caller, c) ==> !EmailTakenByOther(users, id, c.email.value)
    ensures UserTables(UpdatedUsers(users, caller, id, c), UpdatedProfiles(profiles, caller, id, c), n)
  {
    if ChangesEmail(caller, c) {
      RenameKeepsEmailsUnique(users, id, c.email.value);
    }
  }

  /** Rewriting one user's e-mail to one no other user has keeps e-mails unique. */
  lemma RenameKeepsEmailsUnique(users: map<Id, User>, id: Id, email: string)
    requires UniqueEmails(users) && id in users && !EmailTakenByOther(users, id, email)
    ensures UniqueEmails(users[id := users[id].(email := email)])
  {
    var m := users[id := users[id].(email := email)];
    forall a, b | a in m && b in m && m[a].email == m[b].email ensures a == b {
      if a != id && b != id { assert users[a].email == users[b].email; }
    }
  }

  // ---- DELETE /:id ----

  /** The rows of `m` not owned by `user`. */
  function WithoutUser<V>(m: map<Id, V>, owner: V -> Id, user: Id): (r: map<Id, V>)
    ensures forall k :: k in r <==> k in m && owner(m[k]) != user
    ensures forall k :: k in r ==> r[k] == m[k]
  {
    map k | k in m && owner(m[k]) != user :: m[k]
  }

  /**
   * `DELETE /:id`: 404 for an unknown id; otherwise the user goes, and with
   * it (through the foreign keys) its profile, attendance, leave and payroll
   * rows.
   */
  method DeleteEmployee(db: Store, id: Id) returns (r: Reply<Deleted>)
    requires db.Valid()
    modifies db
    ensures db.Valid()
    ensures old(id !in db.users) ==>
      && r == Failure(404, UserNotFound, UserNotFoundMessage)
      && db.users == old(db.users) && db.profiles == old(db.profiles) && db.attendance == old(db.attendance)
      && db.leaves == old(db.leaves) && db.payroll == old(db.payroll)
    ensures old(id in db.users) ==>
      && r == Success(200, Deleted("Employee deleted successfully", id))
      && db.users == old(db.users) - {id} && db.profiles == old(db.profiles) - {id}
      && db.attendance == WithoutUser(old(db.attendance), (a: Attendance) => a.userId, id)
      && db.leaves == WithoutUser(old(db.leaves), (l: LeaveRequest) => l.userId, id)
      && db.payroll == WithoutUser(old(db.payroll), (p: Payroll) => p.userId, id)
    ensures db.company == old(db.company) && db.nextId == old(db.nextId)
  {
    if id !in db.users {
      return Failure(404, UserNotFound, UserNotFoundMessage);
    }
    db.users := db.users - {id};
    db.profiles := db.profiles - {id};
    db.attendance := WithoutUser(db.attendance, (a: Attendance) => a.userId, id);
    db.leaves := WithoutUser(db.leaves, (l: LeaveRequest) => l.userId, id);
    db.payroll := WithoutUser(db.payroll, (p: Payroll) => p.userId, id);
    r := Success(200, Deleted("Employee deleted successfully", id));
  }
}
