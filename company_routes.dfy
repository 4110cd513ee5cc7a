/**
 * `/api/company`: `GET /exists`, `GET /` and the one-time bootstrap
 * `POST /setup`, which creates the company, the admin user and the
 * admin's profile inside one transaction.
 */
module CompanyRoutes {

  import opened Common
  import opened Tables

  /** `GET /exists`: whether the company table has a row. */
  function Exists(company: map<Id, Company>): (r: Reply<bool>)
    ensures r.Success? && r.status == 200
    ensures r.body <==> company != map[]
  {
    Success(200, |company| > 0)
  }

  /** `GET /`: the company row (`LIMIT 1`; there is at most one), or 404. */
  function GetCompany(company: map<Id, Company>): (r: Reply<(Id, Company)>)
    requires |company| <= 1
    ensures r.Failure? <==> company == map[]
    ensures r.Failure? ==> r == Failure(404, CompanyNotFound, "Company not found")
    ensures r.Success? ==> r.status == 200 && r.body.0 in company && company[r.body.0] == r.body.1
  {
    if company == map[] then Failure(404, CompanyNotFound, "Company not found")
    else
      var k :| k in company;
      assert forall j :: j in company ==> j == k by {
        forall j | j in company ensures j == k {
          var rest := company.Keys - {k};
          assert company.Keys == rest + {k};
          assert |company.Keys| == |rest| + 1;
          assert rest == {};
        }
      }
      Success(200, (k, company[k]))
  }

  // ---- the admin name split: `admin_name.trim().split(' ')` ----

  /** How many white-space characters `s` starts with. */
  function LeadingSpace(s: string): (n: nat)
    ensures n <= |s|
    ensures forall k :: 0 <= k < n ==> IsWhitespace(s[k])
    ensures n == |s| || !IsWhitespace(s[n])
  {
    if s != [] && IsWhitespace(s[0]) then 1 + LeadingSpace(s[1..]) else 0
  }

  /** How many white-space characters `s` ends with. */
  function TrailingSpace(s: string): (n: nat)
    ensures n <= |s|
    ensures forall k :: |s| - n <= k < |s| ==> IsWhitespace(s[k])
    ensures n == |s| || !IsWhitespace(s[|s| - 1 - n])
  {
    if s != [] && IsWhitespace(s[|s| - 1]) then 1 + TrailingSpace(s[..|s| - 1]) else 0
  }

  /**
   * `String.prototype.trim`: the part of `s` between its leading and its
   * trailing white space.
   */
  function Trim(s: string): (r: string)
    ensures r == [] || (!IsWhitespace(r[0]) && !IsWhitespace(r[|r| - 1]))
    ensures exists i, j :: (0 <= i <= j <= |s| && r == s[i..j] &&
      (forall k :: 0 <= k < i ==> IsWhitespace(s[k])) && (forall k :: j <= k < |s| ==> IsWhitespace(s[k])))
  {
    var i := LeadingSpace(s);
    var j := |s| - TrailingSpace(s[i..]);
    TrimEnds(s, i, j);
    s[i..j]
  }

  lemma TrimEnds(s: string, i: nat, j: int)
    requires i == LeadingSpace(s) && j == |s| - TrailingSpace(s[i..])
    ensures i <= j <= |s|
    ensures var r := s[i..j]; r == [] || (!IsWhitespace(r[0]) && !IsWhitespace(r[|r| - 1]))
    ensures forall k :: 0 <= k < i ==> IsWhitespace(s[k])
    ensures forall k :: j <= k < |s| ==> IsWhitespace(s[k])
  {
    var a := s[i..];
    assert forall k :: j <= k < |s| ==> s[k] == a[k - i];
  }

  /** `s.split(sep)` for a one-character separator. */
  function Split(s: string, sep: char): (parts: seq<string>)
    ensures |parts| >= 1
    ensures forall k :: 0 <= k < |parts| ==> sep !in parts[k]
  {
    if s == [] then [""]
    else
      var rest := Split(s[1..], sep);
      if s[0] == sep then [""] + rest else [[s[0]] + rest[0]] + rest[1..]
  }

  /** `parts.join(sep)`. */
  function Join(parts: seq<string>, sep: char): string
  {
    if |parts| == 0 then ""
    else if |parts| == 1 then parts[0]
    else parts[0] + [sep] + Join(parts[1..], sep)
  }

  /** Joining the pieces of a split gives the string back. */
  lemma {:induction false} JoinSplit(s: string, sep: char)
    ensures Join(Split(s, sep), sep) == s
  {
    if s != [] {
      var rest := Split(s[1..], sep);
      JoinSplit(s[1..], sep);
      if s[0] == sep {
        assert Split(s, sep) == [""] + rest;
        assert ([""] + rest)[1..] == rest;
      } else {
        var parts := [[s[0]] + rest[0]] + rest[1..];
        assert Split(s, sep) == parts;
        if |rest| == 1 {
          assert Join(parts, sep) == [s[0]] + rest[0] == [s[0]] + s[1..];
        } else {
          assert parts[1..] == rest[1..];
          assert Join(rest, sep) == rest[0] + [sep] + Join(rest[1..], sep);
        }
      }
      assert s == [s[0]] + s[1..];
    }
  }

  /**
   * The first piece of a split is the text before the first separator; the
   * remaining pieces joined again are the text after it.
   */
  lemma {:induction false} SplitFirst(s: string, sep: char)
    ensures sep !in s ==> Split(s, sep) == [s]
    ensures sep in s ==> exists i :: (0 <= i < |s| && s[i] == sep && sep !in s[..i] &&
      Split(s, sep)[0] == s[..i] && Join(Split(s, sep)[1..], sep) == s[i + 1..])
  {
    if s != [] {
      SplitFirst(s[1..], sep);
      var rest := Split(s[1..], sep);
      if s[0] == sep {
        assert Split(s, sep) == [""] + rest;
        assert ([""] + rest)[1..] == rest;
        JoinSplit(s[1..], sep);
        assert s[..0] == "" && s[1..] == s[0 + 1..];
      } else if sep in s[1..] {
        var i :| 0 <= i < |s[1..]| && s[1..][i] == sep && sep !in s[1..][..i] &&
          rest[0] == s[1..][..i] && Join(rest[1..], sep) == s[1..][i + 1..];
        assert Split(s, sep) == [[s[0]] + rest[0]] + rest[1..];
        assert s[..i + 1] == [s[0]] + s[1..][..i];
        assert s[i + 1 + 1..] == s[1..][i + 1..];
      } else {
        assert Split(s, sep) == [[s[0]] + rest[0]] + rest[1..];
        assert s == [s[0]] + s[1..];
      }
    }
  }

  /**
   * The admin's first and last name: the first piece of the trimmed name
   * split on `' '`, and the other pieces joined by `' '`, or the first piece
   * again when that join is empty.
   */
  function SplitName(name: string): (r: (string, string))
  {
    var parts := Split(Trim(name), ' ');
    var rest := Join(parts[1..], ' ');
    (parts[0], if rest == "" then parts[0] else rest)
  }

  /**
   * Without a space in the trimmed name both parts are that name; with one,
   * the first name is the text before the first space and the last name
   * everything after it (never empty, since the trimmed name does not end in
   * a space).
   */
  lemma NameSplit(name: string)
    ensures ' ' !in Trim(name) ==> SplitName(name) == (Trim(name), Trim(name))
    ensures ' ' in Trim(name) ==> exists i :: (0 <= i < |Trim(name)| - 1 && Trim(name)[i] == ' ' &&
      ' ' !in Trim(name)[..i] && SplitName(name) == (Trim(name)[..i], Trim(name)[i + 1..]))
  {
    var t := Trim(name);
    SplitFirst(t, ' ');
    if ' ' in t {
      var i :| 0 <= i < |t| && t[i] == ' ' && ' ' !in t[..i] &&
        Split(t, ' ')[0] == t[..i] && Join(Split(t, ' ')[1..], ' ') == t[i + 1..];
      assert IsWhitespace(t[i]);
      assert i < |t| - 1;
    }
  }

  /** Text before a separator becomes a piece of its own. */
  lemma {:induction false} SplitAtFirst(a: string, sep: char, rest: string)
    requires sep !in a
    ensures Split(a + [sep] + rest, sep) == [a] + Split(rest, sep)
  {
    var s := a + [sep] + rest;
    if a == [] {
      assert s[0] == sep && s[1..] == rest;
    } else {
      SplitAtFirst(a[1..], sep, rest);
      assert s[0] == a[0] && a[0] != sep;
      assert s[1..] == a[1..] + [sep] + rest;
      var r := Split(s[1..], sep);
      assert r == [a[1..]] + Split(rest, sep);
      assert Split(s, sep) == [[s[0]] + r[0]] + r[1..];
      assert [a[0]] + a[1..] == a;
      assert r[1..] == Split(rest, sep);
    }
  }

  /**
   * A first name without spaces, one space and a last name (which may hold
   * further spaces) split into exactly those two.
   */
  lemma TwoPartName(first: string, last: string)
    requires first != [] && ' ' !in first && !IsWhitespace(first[0])
    requires last != [] && !IsWhitespace(last[|last| - 1])
    ensures SplitName(first + " " + last) == (first, last)
  {
    var t := first + " " + last;
    assert LeadingSpace(t) == 0 && TrailingSpace(t) == 0;
    assert t[0..|t|] == t;
    assert Trim(t) == t;
    assert t == first + [' '] + last;
    SplitAtFirst(first, ' ', last);
    JoinSplit(last, ' ');
    var parts := Split(t, ' ');
    assert parts[0] == first && parts[1..] == Split(last, ' ');
  }

  /** A single word is both the first and the last name. */
  lemma OneWordName(name: string)
    requires name != [] && ' ' !in name && !IsWhitespace(name[0]) && !IsWhitespace(name[|name| - 1])
    ensures SplitName(name) == (name, name)
  {
    assert LeadingSpace(name) == 0 && TrailingSpace(name) == 0;
    assert name[0..|name|] == name;
    assert Trim(name) == name;
    SplitFirst(name, ' ');
  }

  /**
   * A name of white space only passes the `!admin_name` check (it is not
   * empty) and yields an empty first and last name.
   */
  lemma BlankName(name: string)
    requires forall k :: 0 <= k < |name| ==> IsWhitespace(name[k])
    ensures SplitName(name) == ("", "")
  {
    assert LeadingSpace(name) == |name|;
  }

  // ---- POST /setup ----

  datatype SetupBody = SetupBody(
    companyName: Option<string>,
    companyCode: Option<string>,
    companyLogo: Option<string>,
    adminName: Option<string>,
    adminEmail: Option<string>,
    adminPassword: Option<string>)

  /** The statements of the transaction, any of which may fail. */
  datatype SetupStep = Begin | CountCompanies | InsertCompany | HashPassword | InsertUser | InsertProfile | Commit

  /** `201 {company, admin}`: the company row and the admin's `{id, email, role}`. */
  datatype SetupResult = SetupResult(companyId: Id, company: Company, admin: Identity)

  predicate SetupFieldsGiven(b: SetupBody) {
    Given(b.companyName) && Given(b.companyCode) && Given(b.adminName) && Given(b.adminEmail) && Given(b.adminPassword)
  }

  /** The company row the setup inserts: the code upper-cased, no logo unless one is given. */
  function NewCompany(b: SetupBody): (c: Company)
    requires SetupFieldsGiven(b)
    ensures c.code == ToUpper(b.companyCode.value) && c.name == b.companyName.value
    ensures c.logoUrl.None? <==> !Given(b.companyLogo)
  {
    Company(b.companyName.value, ToUpper(b.companyCode.value), OrNull(b.companyLogo))
  }

  /** Which reply a failed setup gets. */
  function SetupFailure(b: SetupBody, company: map<Id, Company>, fault: Option<SetupStep>): (r: Reply<SetupResult>)
  {
    if !SetupFieldsGiven(b) then Failure(400, MissingRequiredFields, "All fields are required")
    else if fault == Some(Begin) || fault == Some(CountCompanies) then Internal()
    else if company != map[] then Failure(409, CompanyExists, "Company already exists")
    else Internal()
  }

  /**
   * The setup succeeds only with every field given, an empty company table,
   * no failing statement and an unused admin e-mail.
   */
  predicate SetupSucceeds(b: SetupBody, company: map<Id, Company>, users: map<Id, User>, fault: Option<SetupStep>) {
    SetupFieldsGiven(b) && company == map[] && fault.None? && !EmailTaken(users, b.adminEmail.value)
  }

  /** The error classes of the setup, in the order the handler checks them. */
  lemma SetupFailureClasses(b: SetupBody, company: map<Id, Company>, fault: Option<SetupStep>)
    ensures !SetupFieldsGiven(b) ==> SetupFailure(b, company, fault).status == 400
    ensures SetupFieldsGiven(b) && company != map[] && fault != Some(Begin) && fault != Some(CountCompanies) ==>
      SetupFailure(b, company, fault) == Failure(409, CompanyExists, "Company already exists")
    ensures SetupFieldsGiven(b) && company == map[] ==> SetupFailure(b, company, fault).status == 500
  {
  }

  /** Adding a row whose e-mail is not yet taken keeps e-mails unique. */
  lemma InsertKeepsEmailsUnique(users: map<Id, User>, id: Id, u: User)
    requires UniqueEmails(users) && id !in users && !EmailTaken(users, u.email)
    ensures UniqueEmails(users[id := u])
  {
    var m := users[id := u];
    forall a, b | a in m && b in m && m[a].email == m[b].email
      ensures a == b
    {
      if a != id && b != id {
        assert users[a].email == users[b].email;
      }
    }
  }

  /**
   * `POST /setup`. `passwordHash` is what `bcrypt.hash` returns for the
   * admin password; `fault` names the statement that throws, if any. A
   * duplicate admin e-mail makes the user insert throw as well. The
   * transaction's inserts become visible together at `COMMIT`; on any
   * failure the tables are as before (the id sequence may have advanced,
   * as a PostgreSQL sequence does).
   */
  method Setup(db: Store, body: SetupBody, passwordHash: string, fault: Option<SetupStep>)
      returns (r: Reply<SetupResult>)
    requires db.Valid()
    modifies db
    ensures db.Valid()
    ensures r.Success? <==> SetupSucceeds(body, old(db.company), old(db.users), fault)
    ensures r.Failure? ==> r == SetupFailure(body, old(db.company), fault)
    ensures r.Failure? ==>
      db.company == old(db.company) && db.users == old(db.users) && db.profiles == old(db.profiles)
    ensures db.attendance == old(db.attendance) && db.leaves == old(db.leaves) && db.payroll == old(db.payroll)
    ensures r.Success? ==>
      var admin := r.body.admin.id;
      var names := SplitName(body.adminName.value);
      && r.status == 201
      && admin !in old(db.users)
      && db.company == map[r.body.companyId := NewCompany(body)]
      && r.body.company == NewCompany(body)
      && db.users == old(db.users)[admin := User(body.adminEmail.value, passwordHash, "ADMIN", Some(false), None)]
      && db.profiles == old(db.profiles)[admin := Profile(Some(names.0), Some(names.1), None, None, None, None)]
      && r.body.admin == Identity(admin, body.adminEmail.value, "ADMIN")
  {
    // the field check, BEGIN, then the count query
    if !SetupFieldsGiven(body) || fault == Some(Begin) || fault == Some(CountCompanies) || db.company != map[] {
      r := SetupFailure(body, db.company, fault);
    } else {
      // INSERT INTO company, then bcrypt.hash
      var companyId := db.NewId();
      var company := NewCompany(body);
      if fault == Some(InsertCompany) || fault == Some(HashPassword) {
        r := Internal();
      } else {
        // INSERT INTO users (whose unique e-mail constraint may throw), INSERT INTO employee_profiles, COMMIT
        var adminId := db.NewId();
        var email := body.adminEmail.value;
        if fault.Some? || EmailTaken(db.users, email) {
          r := Internal();
        } else {
          var names := SplitName(body.adminName.value);
          CommitSetup(db, companyId, company, adminId, User(email, passwordHash, "ADMIN", Some(false), None),
                      Profile(Some(names.0), Some(names.1), None, None, None, None));
          r := Success(201, SetupResult(companyId, company, Identity(adminId, email, "ADMIN")));
        }
      }
    }
  }

  /** The inserts of a committed setup: the one company, the admin user and its profile. */
  method CommitSetup(db: Store, companyId: Id, company: Company, adminId: Id, admin: User, profile: Profile)
    requires db.Valid() && db.company == map[] && companyId < db.nextId && adminId < db.nextId
    requires adminId !in db.users && !EmailTaken(db.users, admin.email)
    modifies db`company, db`users, db`profiles
    ensures db.Valid()
    ensures db.company == map[companyId := company]
    ensures db.users == old(db.users)[adminId := admin] && db.profiles == old(db.profiles)[adminId := profile]
  {
    InsertKeepsEmailsUnique(db.users, adminId, admin);
    db.company := map[companyId := company];
    db.users := db.users[adminId := admin];
    db.profiles := db.profiles[adminId := profile];
  }
}
