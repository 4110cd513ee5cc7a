/**
 * The database the handlers share: the tables `company`, `users`,
 * `employee_profiles`, `attendance`, `leave_requests` and `payroll`, each a
 * finite map from row id to row, and the table constraints the handlers
 * keep (unique e-mail, one attendance row per user and day, one payroll row per
 * user, month and year, one company, one profile per user).
 */
module Tables {

  import opened Common

  /** A calendar day (`YYYY-MM-DD`), as a day number. */
  type Date = int
  /** A timestamp (`NOW()`), supplied by the caller. */
  type Time = int

  datatype Company = Company(name: string, code: string, logoUrl: Option<string>)

  /**
   * A `users` row. `passwordChangeRequired` is `None` when the insert left
   * the column to its schema default.
   */
  datatype User = User(
    email: string,
    passwordHash: string,
    role: string,
    passwordChangeRequired: Option<bool>,
    loginId: Option<string>)

  /**
   * An `employee_profiles` row; the table is keyed by its `user_id`. Every
   * column is nullable here, since an update may write `null` to any of them.
   */
  datatype Profile = Profile(
    firstName: Option<string>,
    lastName: Option<string>,
    phone: Option<string>,
    department: Option<string>,
    position: Option<string>,
    hireDate: Option<string>)

  datatype Attendance = Attendance(userId: Id, date: Date, checkIn: Time, checkOut: Option<Time>)

  datatype LeaveStatus = Pending | Approved | Rejected

  datatype LeaveRequest = LeaveRequest(
    userId: Id,
    leaveType: string,
    startDate: Date,
    endDate: Date,
    reason: Option<string>,
    status: LeaveStatus,
    adminComments: Option<string>,
    createdAt: Time,
    updatedAt: Time)

  datatype Payroll = Payroll(userId: Id, month: int, year: int, baseSalary: int, deductions: int, netSalary: int)

  /** Every key of `m` is below `n`. */
  predicate KeysBelow<V>(m: map<Id, V>, n: nat) {
    forall k :: k in m ==> k < n
  }

  /** The rows of a table with ids below `n`, in id order (a `SELECT` without `ORDER BY`). */
  function Rows<V(!new)>(m: map<Id, V>, n: nat): (r: seq<(Id, V)>)
    ensures forall p :: p in r <==> p.0 in m && p.0 < n && p.1 == m[p.0]
    ensures forall i, j :: 0 <= i < j < |r| ==> r[i].0 < r[j].0
  {
    if n == 0 then [] else Rows(m, n - 1) + (if n - 1 in m then [(n - 1, m[n - 1])] else [])
  }

  /** The largest element of a non-empty finite set of naturals. */
  lemma {:induction false} LargestOf(s: set<nat>) returns (top: nat)
    requires s != {}
    ensures top in s && forall y :: y in s ==> y <= top
  {
    var x :| x in s;
    var rest := s - {x};
    if rest == {} {
      assert s == {x};
      top := x;
    } else {
      var z := LargestOf(rest);
      top := if x <= z then z else x;
      forall y | y in s ensures y <= top {
        if y != x { assert y in rest; }
      }
    }
  }

  /** Some finite set of naturals has a largest element. */
  lemma MaxExists(s: set<nat>)
    requires s != {}
    ensures exists x :: x in s && forall y :: y in s ==> y <= x
  {
    var top := LargestOf(s);
  }

  /** One more than the largest key, or 0 for an empty table. */
  function Bound<V>(m: map<Id, V>): (n: nat)
    ensures KeysBelow(m, n)
  {
    if m == map[] then 0
    else
      MaxExists(m.Keys);
      var x :| x in m.Keys && forall y :: y in m.Keys ==> y <= x;
      x + 1
  }

  /** All rows of a table, in id order. */
  function TableRows<V(!new)>(m: map<Id, V>): (r: seq<(Id, V)>)
    ensures forall p :: p in r <==> p.0 in m && p.1 == m[p.0]
    ensures forall i, j :: 0 <= i < j < |r| ==> r[i].0 < r[j].0
  {
    Rows(m, Bound(m))
  }

  /** A table's rows are listed once each. */
  lemma TableRowsDistinct<V(!new)>(m: map<Id, V>)
    ensures Distinct(TableRows(m))
  {
    var r := TableRows(m);
    forall i, j | 0 <= i < j < |r| ensures r[i] != r[j] {
      assert r[i].0 < r[j].0;
    }
  }

  predicate EmailTaken(users: map<Id, User>, email: string) {
    exists k :: k in users && users[k].email == email
  }

  /** The unique constraint on `users.email`. */
  predicate UniqueEmails(users: map<Id, User>) {
    forall a, b :: a in users && b in users && users[a].email == users[b].email ==> a == b
  }

  predicate HasAttendance(attendance: map<Id, Attendance>, user: Id, date: Date) {
    exists k :: k in attendance && attendance[k].userId == user && attendance[k].date == date
  }

  /** At most one attendance row per user and day. */
  predicate OnePerDay(attendance: map<Id, Attendance>) {
    forall a, b ::
      (a in attendance && b in attendance && attendance[a].userId == attendance[b].userId &&
       attendance[a].date == attendance[b].date) ==> a == b
  }

  /** Some row other than `except` already has this user, month and year. */
  predicate PayrollClash(payroll: map<Id, Payroll>, except: Option<Id>, user: Id, month: int, year: int) {
    exists k :: k in payroll && Some(k) != except &&
      payroll[k].userId == user && payroll[k].month == month && payroll[k].year == year
  }

  /** The unique constraint on `payroll (user_id, month, year)`. */
  predicate UniquePayroll(payroll: map<Id, Payroll>) {
    forall a, b ::
      (a in payroll && b in payroll && payroll[a].userId == payroll[b].userId &&
       payroll[a].month == payroll[b].month && payroll[a].year == payroll[b].year) ==> a == b
  }

  /** `users` and `employee_profiles`: ids below `n`, one profile per user, unique e-mails. */
  predicate UserTables(users: map<Id, User>, profiles: map<Id, Profile>, n: nat) {
    KeysBelow(users, n) && profiles.Keys == users.Keys && UniqueEmails(users)
  }

  predicate AttendanceTable(attendance: map<Id, Attendance>, n: nat) {
    KeysBelow(attendance, n) && OnePerDay(attendance)
  }

  predicate PayrollTable(payroll: map<Id, Payroll>, n: nat) {
    KeysBelow(payroll, n) && UniquePayroll(payroll)
  }

  /**
   * A row joined with its owner's e-mail (`JOIN users`) and profile name
   * (`LEFT JOIN employee_profiles`).
   */
  datatype OwnedRow<E> = OwnedRow(entry: E, email: string, firstName: Option<string>, lastName: Option<string>)

  function OwnerRow<E>(users: map<Id, User>, profiles: map<Id, Profile>, e: E, owner: Id): (row: OwnedRow<E>)
    requires owner in users
    ensures row.entry == e && row.email == users[owner].email
    ensures row.firstName == (if owner in profiles then profiles[owner].firstName else None)
    ensures row.lastName == (if owner in profiles then profiles[owner].lastName else None)
  {
    OwnedRow(e, users[owner].email, if owner in profiles then profiles[owner].firstName else None,
             if owner in profiles then profiles[owner].lastName else None)
  }

  /** The join over a list of rows, in order: a row whose owner is not in `users` drops out. */
  function JoinOwners<E(!new)>(users: map<Id, User>, profiles: map<Id, Profile>, s: seq<E>, owner: E -> Id)
    : (r: seq<OwnedRow<E>>)
    ensures forall row :: row in r ==>
      row.entry in s && owner(row.entry) in users && row == OwnerRow(users, profiles, row.entry, owner(row.entry))
    ensures forall e :: e in s && owner(e) in users ==> OwnerRow(users, profiles, e, owner(e)) in r
  {
    if s == [] then []
    else
      var rest := JoinOwners(users, profiles, s[1..], owner);
      if owner(s[0]) in users then [OwnerRow(users, profiles, s[0], owner(s[0]))] + rest else rest
  }

  /** Joining rows listed once each lists every joined row once. */
  lemma {:induction false} JoinOwnersDistinct<E(!new)>(users: map<Id, User>, profiles: map<Id, Profile>, s: seq<E>,
                                                      owner: E -> Id)
    requires Distinct(s)
    ensures Distinct(JoinOwners(users, profiles, s, owner))
    decreases |s|
  {
    if s != [] {
      var tail := s[1..];
      forall i, j | 0 <= i < j < |tail| ensures tail[i] != tail[j] {
        assert tail[i] == s[i + 1] && tail[j] == s[j + 1];
      }
      JoinOwnersDistinct(users, profiles, tail, owner);
      var rest := JoinOwners(users, profiles, tail, owner);
      if owner(s[0]) in users {
        var head := OwnerRow(users, profiles, s[0], owner(s[0]));
        var r := [head] + rest;
        forall k | 0 <= k < |tail| ensures tail[k] != s[0] {
          assert tail[k] == s[k + 1];
        }
        assert head !in rest;
        forall i, j | 0 <= i < j < |r| ensures r[i] != r[j] {
          assert r[j] == rest[j - 1];
          if i > 0 {
            assert r[i] == rest[i - 1];
          }
        }
      }
    }
  }

  class Store {
    var company: map<Id, Company>
    var users: map<Id, User>
    var profiles: map<Id, Profile>
    var attendance: map<Id, Attendance>
    var leaves: map<Id, LeaveRequest>
    var payroll: map<Id, Payroll>
    /** The next id the database hands out (a `SERIAL` starts at 1); ids are never reused. */
    var nextId: nat

    /** The table constraints the handlers keep, and every id below `nextId`. */
    ghost predicate Valid()
      reads this
    {
      && KeysBelow(company, nextId) && |company| <= 1
      && UserTables(users, profiles, nextId)
      && AttendanceTable(attendance, nextId)
      && KeysBelow(leaves, nextId)
      && PayrollTable(payroll, nextId)
    }

    constructor ()
      ensures Valid()
      ensures company == map[] && users == map[] && profiles == map[]
      ensures attendance == map[] && leaves == map[] && payroll == map[]
      ensures nextId == 1
    {
      company, users, profiles := map[], map[], map[];
      attendance, leaves, payroll := map[], map[], map[];
      nextId := 1;
    }

    /** The database's id generator. */
    method NewId() returns (id: Id)
      modifies this`nextId
      ensures id == old(nextId) && nextId == id + 1
      ensures old(Valid()) ==> Valid()
    {
      id := nextId;
      nextId := nextId + 1;
    }
  }
}
