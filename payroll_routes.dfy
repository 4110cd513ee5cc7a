/**
 * `/api/payroll`: an administrator creates, edits and deletes the monthly
 * payroll rows (one per user, month and year); an employee reads their own
 * rows and an administrator reads everyone's or one user's, newest period
 * first.
 *
 * Amounts are integers (the smallest currency unit). A body field is `None`
 * when the JSON body leaves it out (`undefined`).
 */
module PayrollRoutes {

  import opened Common
  import opened Tables
  import opened Sorting

  type Entry = (Id, Payroll)

  const MissingPayrollFields: Reply<Entry> :=
    Failure(400, MissingRequiredFields, "User ID, month, year, base salary, and net salary are required")
  const BadMonth: Reply<Entry> := Failure(400, InvalidMonth, "Month must be between 1 and 12")
  const NegativeAmount: Reply<Entry> := Failure(400, InvalidNumericValue, "Salary and deductions must be positive values")
  const PayrollUserNotFound: Reply<Entry> := Failure(404, UserNotFound, "User not found")
  const DuplicatePayrollReply: Reply<Entry> :=
    Failure(409, DuplicatePayroll, "Payroll entry already exists for this user, month, and year")
  const PayrollNotFoundReply: Reply<Entry> := Failure(404, PayrollNotFound, "Payroll entry not found")
  const NoUpdatesReply: Reply<Entry> := Failure(400, NoUpdates, "No fields to update")

  /** JavaScript truthiness of a number that may be absent: present and not 0. */
  predicate Truthy(n: Option<int>) {
    n.Some? && n.value != 0
  }

  /** Present and below zero. */
  predicate Negative(n: Option<int>) {
    n.Some? && n.value < 0
  }

  predicate MonthInRange(month: int) {
    1 <= month <= 12
  }

  // ---- POST / ----

  datatype PayrollBody = PayrollBody(
    userId: Option<int>,
    month: Option<int>,
    year: Option<int>,
    baseSalary: Option<int>,
    deductions: Option<int>,
    netSalary: Option<int>)

  /** The required fields: `user_id`, `month` and `year` truthy, both salaries present (0 is allowed). */
  predicate HasRequired(b: PayrollBody) {
    Truthy(b.userId) && Truthy(b.month) && Truthy(b.year) && b.baseSalary.Some? && b.netSalary.Some?
  }

  /**
   * The checks before the database is read, in order: required fields,
   * month range, then no negative amount. Deductions are checked only when
   * truthy, which for a number is the same as checking them when present.
   */
  function CreateFailure(b: PayrollBody): (r: Option<Reply<Entry>>)
    ensures r.None? <==>
      && HasRequired(b) && MonthInRange(b.month.value)
      && b.baseSalary.value >= 0 && b.netSalary.value >= 0 && !Negative(b.deductions)
    ensures !HasRequired(b) ==> r == Some(MissingPayrollFields)
    ensures HasRequired(b) && !MonthInRange(b.month.value) ==> r == Some(BadMonth)
    ensures (HasRequired(b) && MonthInRange(b.month.value) &&
             (b.baseSalary.value < 0 || b.netSalary.value < 0 || Negative(b.deductions))) ==>
      r == Some(NegativeAmount)
    ensures r.Some? ==> r.value.Failure? && r.value.status == 400
  {
    if !HasRequired(b) then Some(MissingPayrollFields)
    else if b.month.value < 1 || b.month.value > 12 then Some(BadMonth)
    else if b.baseSalary.value < 0 || b.netSalary.value < 0 || (Truthy(b.deductions) && b.deductions.value < 0) then
      Some(NegativeAmount)
    else None
  }

  /** `deductions || 0`: an absent deduction is stored as 0, a present one as given. */
  function StoredDeductions(d: Option<int>): (r: int)
    ensures r == (if d.Some? then d.value else 0)
  {
    if Truthy(d) then d.value else 0
  }

  /** `user_id` names an existing user. */
  predicate UserExists(users: map<Id, User>, userId: int) {
    userId >= 0 && userId as nat in users
  }

  /** The row a valid body inserts. */
  function NewRow(b: PayrollBody): (row: Payroll)
    requires CreateFailure(b).None? && b.userId.value >= 0
    ensures row.userId == b.userId.value && row.month == b.month.value && row.year == b.year.value
    ensures row.baseSalary == b.baseSalary.value && row.netSalary == b.netSalary.value
    ensures row.deductions == (if b.deductions.Some? then b.deductions.value else 0)
    ensures MonthInRange(row.month) && row.year != 0
    ensures row.baseSalary >= 0 && row.deductions >= 0 && row.netSalary >= 0
  {
    Payroll(b.userId.value, b.month.value, b.year.value, b.baseSalary.value, StoredDeductions(b.deductions),
            b.netSalary.value)
  }

  /** An insert that meets the unique constraint keeps the payroll table valid. */
  lemma InsertKeepsPayrollTable(payroll: map<Id, Payroll>, n: nat, row: Payroll)
    requires PayrollTable(payroll, n)
    requires !PayrollClash(payroll, None, row.userId, row.month, row.year)
    ensures n !in payroll && PayrollTable(payroll[n := row], n + 1)
  {
  }

  /**
   * `POST /`: the body checks, then 404 for an unknown user, then the
   * insert, which the unique constraint refuses (409) when the user already
   * has a row for that month and year. The failed insert still draws an id
   * from the sequence.
   */
  method CreatePayroll(db: Store, b: PayrollBody) returns (r: Reply<Entry>)
    requires db.Valid()
    modifies db`payroll, db`nextId
    ensures db.Valid()
    ensures CreateFailure(b).Some? ==>
      r == CreateFailure(b).value && db.payroll == old(db.payroll) && db.nextId == old(db.nextId)
    ensures CreateFailure(b).None? && !UserExists(db.users, b.userId.value) ==>
      r == PayrollUserNotFound && db.payroll == old(db.payroll) && db.nextId == old(db.nextId)
    ensures CreateFailure(b).None? && UserExists(db.users, b.userId.value) ==>
      var row := NewRow(b);
      if PayrollClash(old(db.payroll), None, row.userId, row.month, row.year) then
        r == DuplicatePayrollReply && db.payroll == old(db.payroll) && db.nextId == old(db.nextId) + 1
      else
        && old(db.nextId) !in old(db.payroll)
        && r == Success(201, (old(db.nextId), row))
        && db.payroll == old(db.payroll)[old(db.nextId) := row]
  {
    var failure := CreateFailure(b);
    if failure.Some? {
      return failure.value;
    }
    if !UserExists(db.users, b.userId.value) {
      return PayrollUserNotFound;
    }
    var row := NewRow(b);
    var id := db.NewId();
    if PayrollClash(db.payroll, None, row.userId, row.month, row.year) {
      return DuplicatePayrollReply;
    }
    InsertKeepsPayrollTable(db.payroll, id, row);
    db.payroll := db.payroll[id := row];
    r := Success(201, (id, row));
  }

  // ---- PUT /:id ----

  datatype PayrollChanges = PayrollChanges(
    month: Option<int>,
    year: Option<int>,
    baseSalary: Option<int>,
    deductions: Option<int>,
    netSalary: Option<int>)

  /** The columns the update may set, in the order the handler tests them. */
  datatype PayColumn = Month | Year | BaseSalary | Deductions | NetSalary

  function ChangeOf(c: PayrollChanges, col: PayColumn): Option<int> {
    match col
    case Month => c.month
    case Year => c.year
    case BaseSalary => c.baseSalary
    case Deductions => c.deductions
    case NetSalary => c.netSalary
  }

  /** One `if (field !== undefined)` test: the assignment it contributes, if any. */
  function Change(c: PayrollChanges, col: PayColumn): (r: seq<(PayColumn, int)>)
    ensures |r| <= 1
    ensures forall e :: e in r <==> e.0 == col && ChangeOf(c, col) == Some(e.1)
  {
    if ChangeOf(c, col).Some? then [(col, ChangeOf(c, col).value)] else []
  }

  /** The `SET` list's assignments, in the handler's order. */
  function Changes(c: PayrollChanges): seq<(PayColumn, int)> {
    Change(c, Month) + Change(c, Year) + Change(c, BaseSalary) + Change(c, Deductions) + Change(c, NetSalary)
  }

  function Assign(row: Payroll, e: (PayColumn, int)): Payroll {
    match e.0
    case Month => row.(month := e.1)
    case Year => row.(year := e.1)
    case BaseSalary => row.(baseSalary := e.1)
    case Deductions => row.(deductions := e.1)
    case NetSalary => row.(netSalary := e.1)
  }

  /** The effect of a `SET` list on a row, assignment by assignment. */
  function ApplyChanges(row: Payroll, changes: seq<(PayColumn, int)>): Payroll
    decreases |changes|
  {
    if changes == [] then row else Assign(ApplyChanges(row, changes[..|changes| - 1]), changes[|changes| - 1])
  }

  lemma {:induction false} ApplyAppend(row: Payroll, a: seq<(PayColumn, int)>, b: seq<(PayColumn, int)>)
    ensures ApplyChanges(row, a + b) == ApplyChanges(ApplyChanges(row, a), b)
    decreases |b|
  {
    if b != [] {
      var ab := a + b;
      assert ab[..|ab| - 1] == a + b[..|b| - 1];
      assert ab[|ab| - 1] == b[|b| - 1];
      ApplyAppend(row, a, b[..|b| - 1]);
    } else {
      assert a + b == a;
    }
  }

  lemma ApplyChange(row: Payroll, c: PayrollChanges, col: PayColumn)
    ensures ApplyChanges(row, Change(c, col)) ==
      if ChangeOf(c, col).Some? then Assign(row, (col, ChangeOf(c, col).value)) else row
  {
    var ch := Change(c, col);
    if ch != [] {
      assert ch[..|ch| - 1] == [];
    }
  }

  /** The updated row. */
  function UpdatedRow(row: Payroll, c: PayrollChanges): Payroll {
    ApplyChanges(row, Changes(c))
  }

  /**
   * The update writes exactly the supplied fields: each of them takes its
   * new value, every other column (and the owner) keeps its old one.
   */
  lemma {:induction false} UpdateSetsSuppliedFields(row: Payroll, c: PayrollChanges)
    ensures UpdatedRow(row, c).userId == row.userId
    ensures UpdatedRow(row, c).month == (if c.month.Some? then c.month.value else row.month)
    ensures UpdatedRow(row, c).year == (if c.year.Some? then c.year.value else row.year)
    ensures UpdatedRow(row, c).baseSalary == (if c.baseSalary.Some? then c.baseSalary.value else row.baseSalary)
    ensures UpdatedRow(row, c).deductions == (if c.deductions.Some? then c.deductions.value else row.deductions)
    ensures UpdatedRow(row, c).netSalary == (if c.netSalary.Some? then c.netSalary.value else row.netSalary)
  {
    var m, y, bs, d, n := Change(c, Month), Change(c, Year), Change(c, BaseSalary), Change(c, Deductions),
                          Change(c, NetSalary);
    ApplyAppend(row, m + y + bs + d, n);
    ApplyAppend(row, m + y + bs, d);
    ApplyAppend(row, m + y, bs);
    ApplyAppend(row, m, y);
    var r1 := ApplyChanges(row, m);
    var r2 := ApplyChanges(r1, y);
    var r3 := ApplyChanges(r2, bs);
    var r4 := ApplyChanges(r3, d);
    ApplyChange(row, c, Month);
    ApplyChange(r1, c, Year);
    ApplyChange(r2, c, BaseSalary);
    ApplyChange(r3, c, Deductions);
    ApplyChange(r4, c, NetSalary);
  }

  /** No field was supplied exactly when the `SET` list is empty. */
  lemma NoChanges(c: PayrollChanges)
    ensures Changes(c) == [] <==>
      c.month.None? && c.year.None? && c.baseSalary.None? && c.deductions.None? && c.netSalary.None?
  {
  }

  /**
   * Why an update is refused, in the handler's order: unknown id (404), a
   * supplied month out of range, a supplied negative amount, nothing to
   * update, and then the unique constraint on the updated row (409).
   */
  function UpdateFailure(payroll: map<Id, Payroll>, id: Id, c: PayrollChanges): (r: Option<Reply<Entry>>)
    ensures id !in payroll ==> r == Some(PayrollNotFoundReply)
    ensures r.None? <==>
      && id in payroll
      && !(c.month.Some? && !MonthInRange(c.month.value))
      && !Negative(c.baseSalary) && !Negative(c.netSalary) && !Negative(c.deductions)
      && Changes(c) != []
      && !PayrollClash(payroll, Some(id), payroll[id].userId, UpdatedRow(payroll[id], c).month,
                       UpdatedRow(payroll[id], c).year)
    ensures id in payroll && c.month.Some? && !MonthInRange(c.month.value) ==> r == Some(BadMonth)
    ensures (id in payroll && !(c.month.Some? && !MonthInRange(c.month.value)) &&
             (Negative(c.baseSalary) || Negative(c.netSalary) || Negative(c.deductions))) ==>
      r == Some(NegativeAmount)
    ensures (id in payroll && !(c.month.Some? && !MonthInRange(c.month.value)) &&
             !Negative(c.baseSalary) && !Negative(c.netSalary) && !Negative(c.deductions) &&
             Changes(c) == []) ==>
      r == Some(NoUpdatesReply)
    ensures (id in payroll && !(c.month.Some? && !MonthInRange(c.month.value)) &&
             !Negative(c.baseSalary) && !Negative(c.netSalary) && !Negative(c.deductions) &&
             Changes(c) != [] &&
             PayrollClash(payroll, Some(id), payroll[id].userId, UpdatedRow(payroll[id], c).month,
                          UpdatedRow(payroll[id], c).year)) ==>
      r == Some(DuplicatePayrollReply)
    ensures r.Some? ==> r.value.Failure? && r.value.status in {400, 404, 409}
  {
    if id !in payroll then Some(PayrollNotFoundReply)
    else if c.month.Some? && (c.month.value < 1 || c.month.value > 12) then Some(BadMonth)
    else if Negative(c.baseSalary) || Negative(c.netSalary) || Negative(c.deductions) then Some(NegativeAmount)
    else if Changes(c) == [] then Some(NoUpdatesReply)
    else
      UpdateSetsSuppliedFields(payroll[id], c);
      var row := UpdatedRow(payroll[id], c);
      if PayrollClash(payroll, Some(id), row.userId, row.month, row.year) then Some(DuplicatePayrollReply)
      else None
  }

  /** A bound parameter of the update: an amount, or the row key. */
  datatype PayParam = Amount(n: int) | Key(id: Id)

  function AsAmount(n: int): PayParam {
    Amount(n)
  }

  /** The builder's state after the columns whose assignments are `done`. */
  predicate Numbered(updates: seq<(PayColumn, nat)>, values: seq<PayParam>, paramCount: nat,
                     done: seq<(PayColumn, int)>) {
    updates == Numbering(done) && values == BoundValues(done, AsAmount) && paramCount == |done| + 1
  }

  /** One `if (field !== undefined)` of the builder. */
  method PushChange(c: PayrollChanges, col: PayColumn, ghost done: seq<(PayColumn, int)>,
                    updates: seq<(PayColumn, nat)>, values: seq<PayParam>, paramCount: nat)
      returns (updates': seq<(PayColumn, nat)>, values': seq<PayParam>, paramCount': nat)
    requires Numbered(updates, values, paramCount, done)
    ensures Numbered(updates', values', paramCount', done + Change(c, col))
  {
    var v := ChangeOf(c, col);
    if v.Some? {
      ghost var next := done + Change(c, col);
      assert next[..|next| - 1] == done;
      updates', values', paramCount' := updates + [(col, paramCount)], values + [Amount(v.value)], paramCount + 1;
    } else {
      assert done + Change(c, col) == done;
      updates', values', paramCount' := updates, values, paramCount;
    }
  }

  /**
   * The handler's builder: each supplied column appends `col = $n` (with
   * `n` from `paramCount++`) and its value. The `k`-th assignment takes
   * placeholder `k + 1`, and the counter ends one past the last.
   */
  method BuildPayrollUpdate(c: PayrollChanges)
      returns (updates: seq<(PayColumn, nat)>, values: seq<PayParam>, paramCount: nat)
    ensures |updates| == |values| == |Changes(c)| && paramCount == |Changes(c)| + 1
    ensures forall k :: 0 <= k < |updates| ==> updates[k] == (Changes(c)[k].0, k + 1)
    ensures forall k :: 0 <= k < |values| ==> values[k] == Amount(Changes(c)[k].1)
  {
    paramCount := 1;
    ghost var done := [];
    updates, values := [], [];
    updates, values, paramCount := PushChange(c, Month, done, updates, values, paramCount);
    done := done + Change(c, Month);
    updates, values, paramCount := PushChange(c, Year, done, updates, values, paramCount);
    done := done + Change(c, Year);
    updates, values, paramCount := PushChange(c, BaseSalary, done, updates, values, paramCount);
    done := done + Change(c, BaseSalary);
    updates, values, paramCount := PushChange(c, Deductions, done, updates, values, paramCount);
    done := done + Change(c, Deductions);
    updates, values, paramCount := PushChange(c, NetSalary, done, updates, values, paramCount);
    done := done + Change(c, NetSalary);
    assert done == Changes(c);
  }

  /** Rewriting a row's period where no other row of the user has it keeps the payroll table valid. */
  lemma RewriteKeepsPayrollTable(payroll: map<Id, Payroll>, n: nat, id: Id, row: Payroll)
    requires PayrollTable(payroll, n) && id in payroll && row.userId == payroll[id].userId
    requires !PayrollClash(payroll, Some(id), row.userId, row.month, row.year)
    ensures PayrollTable(payroll[id := row], n)
  {
  }

  /**
   * `PUT /:id`: the checks of `UpdateFailure`, the unique constraint raised
   * by the `UPDATE` itself; otherwise the row with exactly the supplied
   * fields changed. The id is bound last, as placeholder `paramCount`.
   */
  method UpdatePayroll(db: Store, id: Id, c: PayrollChanges) returns (r: Reply<Entry>)
    requires db.Valid()
    modifies db`payroll
    ensures db.Valid()
    ensures UpdateFailure(old(db.payroll), id, c).Some? ==>
      r == UpdateFailure(old(db.payroll), id, c).value && db.payroll == old(db.payroll)
    ensures UpdateFailure(old(db.payroll), id, c).None? ==>
      var row := UpdatedRow(old(db.payroll)[id], c);
      r == Success(200, (id, row)) && db.payroll == old(db.payroll)[id := row]
  {
    if id !in db.payroll {
      return PayrollNotFoundReply;
    }
    if c.month.Some? && (c.month.value < 1 || c.month.value > 12) {
      return BadMonth;
    }
    if Negative(c.baseSalary) || Negative(c.netSalary) || Negative(c.deductions) {
      return NegativeAmount;
    }
    var updates, values, paramCount := BuildPayrollUpdate(c);
    if |updates| == 0 {
      return NoUpdatesReply;
    }
    values := values + [Key(id)];
    assert values[paramCount - 1] == Key(id);
    UpdateSetsSuppliedFields(db.payroll[id], c);
    var row := UpdatedRow(db.payroll[id], c);
    if PayrollClash(db.payroll, Some(id), row.userId, row.month, row.year) {
      return DuplicatePayrollReply;
    }
    RewriteKeepsPayrollTable(db.payroll, db.nextId, id, row);
    db.payroll := db.payroll[id := row];
    r := Success(200, (id, row));
  }

  // ---- DELETE /:id ----

  /** `DELETE /:id`: 404 when no row has the id, otherwise that row goes and nothing else. */
  method DeletePayroll(db: Store, id: Id) returns (r: Reply<Deleted>)
    requires db.Valid()
    modifies db`payroll
    ensures db.Valid()
    ensures old(id !in db.payroll) ==>
      r == Failure(404, PayrollNotFound, "Payroll entry not found") && db.payroll == old(db.payroll)
    ensures old(id in db.payroll) ==>
      r == Success(200, Deleted("Payroll entry deleted successfully", id)) && db.payroll == old(db.payroll) - {id}
  {
    if id !in db.payroll {
      return Failure(404, PayrollNotFound, "Payroll entry not found");
    }
    db.payroll := db.payroll - {id};
    r := Success(200, Deleted("Payroll entry deleted successfully", id));
  }

  // ---- Listings ----

  function YearOf(p: Entry): int {
    p.1.year
  }

  function MonthOf(p: Entry): int {
    p.1.month
  }

  /** `ORDER BY year DESC, month DESC`. */
  function NewestPeriodFirst(): (le: (Entry, Entry) -> bool)
    ensures TotalPreorder(le)
    ensures forall x, y :: le(x, y) <==> YearOf(x) > YearOf(y) || (YearOf(x) == YearOf(y) && MonthOf(x) >= MonthOf(y))
  {
    ByKeyPreorder(YearOf);
    ByKeyPreorder(MonthOf);
    ThenPreorder(ByKeyDesc(YearOf), ByKeyDesc(MonthOf));
    Then(ByKeyDesc(YearOf), ByKeyDesc(MonthOf))
  }

  function PayrollOwner(p: Entry): Id {
    p.1.userId
  }

  /** The user's rows, in table order. */
  function UserRows(payroll: map<Id, Payroll>, user: Id): (r: seq<Entry>)
    ensures forall p :: p in r <==> p.0 in payroll && p.1 == payroll[p.0] && p.1.userId == user
    ensures Distinct(r)
  {
    var all := TableRows(payroll);
    assert Distinct(all) by {
      forall i, j | 0 <= i < j < |all| ensures all[i] != all[j] {
        assert all[i].0 < all[j].0;
      }
    }
    FilterDistinct(all, (p: Entry) => p.1.userId == user);
    Filter(all, (p: Entry) => p.1.userId == user)
  }

  /** `GET /my-payroll`: the caller's rows, newest period first. */
  function MyPayroll(payroll: map<Id, Payroll>, user: Id): (r: seq<Entry>)
    ensures SortedBy(r, NewestPeriodFirst())
    ensures multiset(r) == multiset(UserRows(payroll, user))
    ensures forall p :: p in r <==> p.0 in payroll && p.1 == payroll[p.0] && p.1.userId == user
  {
    Sort(UserRows(payroll, user), NewestPeriodFirst())
  }

  /** Strictly newer periods first. */
  predicate StrictlyNewestFirst(r: seq<Entry>) {
    forall i, j :: 0 <= i < j < |r| ==>
      YearOf(r[i]) > YearOf(r[j]) || (YearOf(r[i]) == YearOf(r[j]) && MonthOf(r[i]) > MonthOf(r[j]))
  }

  /**
   * Under the unique constraint the caller's list has one row per period,
   * so its order is strict: no two rows share a month and year.
   */
  lemma MyPayrollOnePerPeriod(payroll: map<Id, Payroll>, user: Id)
    requires UniquePayroll(payroll)
    ensures StrictlyNewestFirst(MyPayroll(payroll, user))
  {
    var r := MyPayroll(payroll, user);
    DistinctPermutation(UserRows(payroll, user), r);
    forall i, j | 0 <= i < j < |r|
      ensures YearOf(r[i]) > YearOf(r[j]) || (YearOf(r[i]) == YearOf(r[j]) && MonthOf(r[i]) > MonthOf(r[j]))
    {
      assert r[i] in r && r[j] in r;
      assert r[i].0 != r[j].0;
    }
  }

  function RowYear(row: OwnedRow<Entry>): int {
    row.entry.1.year
  }

  function RowMonth(row: OwnedRow<Entry>): int {
    row.entry.1.month
  }

  function RowFirstName(row: OwnedRow<Entry>): Option<string> {
    row.firstName
  }

  function RowLastName(row: OwnedRow<Entry>): Option<string> {
    row.lastName
  }

  /** `ORDER BY p.year DESC, p.month DESC`. */
  function RowNewestFirst(): (le: (OwnedRow<Entry>, OwnedRow<Entry>) -> bool)
    ensures TotalPreorder(le)
  {
    ByKeyPreorder(RowYear);
    ByKeyPreorder(RowMonth);
    ThenPreorder(ByKeyDesc(RowYear), ByKeyDesc(RowMonth));
    Then(ByKeyDesc(RowYear), ByKeyDesc(RowMonth))
  }

  /** The joined rows come later period first. */
  lemma RowNewestFirstKeys(x: OwnedRow<Entry>, y: OwnedRow<Entry>)
    ensures RowNewestFirst()(x, y) <==> RowYear(x) > RowYear(y) || (RowYear(x) == RowYear(y) && RowMonth(x) >= RowMonth(y))
  {
  }

  /** `ORDER BY p.year DESC, p.month DESC, ep.first_name, ep.last_name` (a missing name last). */
  function ListOrder(): (le: (OwnedRow<Entry>, OwnedRow<Entry>) -> bool)
    ensures TotalPreorder(le)
  {
    ByTextPreorder(RowFirstName);
    ByTextPreorder(RowLastName);
    ThenPreorder(RowNewestFirst(), ByText(RowFirstName));
    ThenPreorder(Then(RowNewestFirst(), ByText(RowFirstName)), ByText(RowLastName));
    Then(Then(RowNewestFirst(), ByText(RowFirstName)), ByText(RowLastName))
  }

  /** The admin order is period first, and within a period by first name, then by last name. */
  lemma ListOrderKeys(x: OwnedRow<Entry>, y: OwnedRow<Entry>)
    ensures ListOrder()(x, y) ==> RowNewestFirst()(x, y)
    ensures RowYear(x) == RowYear(y) && RowMonth(x) == RowMonth(y) ==>
      (ListOrder()(x, y) <==> NullableStrLe(x.firstName, y.firstName) &&
                               (NullableStrLe(y.firstName, x.firstName) ==> NullableStrLe(x.lastName, y.lastName)))
  {
  }

  /** `GET /`: every row whose owner exists, with the owner's e-mail and name. */
  function AllPayroll(users: map<Id, User>, profiles: map<Id, Profile>, payroll: map<Id, Payroll>)
    : (r: seq<OwnedRow<Entry>>)
    ensures SortedBy(r, ListOrder())
    ensures forall row :: row in r ==>
      && row.entry.0 in payroll && row.entry.1 == payroll[row.entry.0] && row.entry.1.userId in users
      && row == OwnerRow(users, profiles, row.entry, row.entry.1.userId)
    ensures forall id :: id in payroll && payroll[id].userId in users ==>
      OwnerRow(users, profiles, (id, payroll[id]), payroll[id].userId) in r
    ensures Distinct(r)
  {
    var rows := TableRows(payroll);
    var joined := JoinOwners(users, profiles, rows, PayrollOwner);
    assert forall id :: id in payroll ==> (id, payroll[id]) in rows;
    TableRowsDistinct(payroll);
    JoinOwnersDistinct(users, profiles, rows, PayrollOwner);
    var sorted := Sort(joined, ListOrder());
    DistinctPermutation(joined, sorted);
    sorted
  }

  /**
   * `GET /user/:id`: the user's rows, newest first, with the e-mail and
   * name. An unknown user has an empty list, not a 404.
   */
  function UserPayroll(users: map<Id, User>, profiles: map<Id, Profile>, payroll: map<Id, Payroll>, id: Id)
    : (r: seq<OwnedRow<Entry>>)
    ensures id !in users ==> r == []
    ensures SortedBy(r, RowNewestFirst())
    ensures forall row :: row in r ==>
      row.entry in UserRows(payroll, id) && row == OwnerRow(users, profiles, row.entry, id)
    ensures id in users ==> forall p :: p in UserRows(payroll, id) ==> OwnerRow(users, profiles, p, id) in r
    ensures Distinct(r)
  {
    var rows := UserRows(payroll, id);
    if id !in users then
      assert forall p :: p in rows ==> PayrollOwner(p) !in users;
      []
    else
      var joined := JoinOwners(users, profiles, rows, PayrollOwner);
      JoinOwnersDistinct(users, profiles, rows, PayrollOwner);
      var sorted := Sort(joined, RowNewestFirst());
      DistinctPermutation(joined, sorted);
      sorted
  }
}
