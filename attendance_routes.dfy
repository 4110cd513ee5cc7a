/**
 * `/api/attendance`: a user's day moves from not checked in, to checked in
 * (`POST /checkin` inserts the day's row), to checked out (`POST /checkout`
 * stamps `check_out`). `GET /daily` and `GET /weekly` read the caller's own
 * rows; `GET /user/:id` lets an administrator read one user's rows within
 * optional bounds.
 *
 * Today's date and `NOW()` are parameters. A date query parameter is
 * `None` when it is absent or empty (both falsy).
 */
module AttendanceRoutes {

  import opened Common
  import opened Tables
  import opened Sorting

  type Entry = (Id, Attendance)

  // ---- the per-user, per-day state machine ----

  datatype DayState = NotCheckedIn | CheckedIn | CheckedOut

  /** The row of `user` for `date`; there is at most one. */
  function RowOfDay(attendance: map<Id, Attendance>, user: Id, date: Date): (r: Option<Id>)
    requires OnePerDay(attendance)
    ensures r.Some? <==> HasAttendance(attendance, user, date)
    ensures forall k :: k in attendance && attendance[k].userId == user && attendance[k].date == date ==> r == Some(k)
  {
    if HasAttendance(attendance, user, date) then
      var k :| k in attendance && attendance[k].userId == user && attendance[k].date == date;
      Some(k)
    else None
  }

  /** How far `user` has got on `date`. */
  function StateOf(attendance: map<Id, Attendance>, user: Id, date: Date): DayState
    requires OnePerDay(attendance)
  {
    match RowOfDay(attendance, user, date)
    case None => NotCheckedIn
    case Some(k) => if attendance[k].checkOut.Some? then CheckedOut else CheckedIn
  }

  const DuplicateCheckinReply: Reply<Entry> := Failure(409, DuplicateCheckin, "Already checked in today")
  const NoCheckinReply: Reply<Entry> := Failure(400, NoCheckin, "No check-in found for today")
  const AlreadyCheckedOutReply: Reply<Entry> := Failure(409, AlreadyCheckedOut, "Already checked out today")

  /**
   * Inserting a fresh row for a day the user has no row for keeps one row
   * per user and day, moves that day to `CheckedIn`, and leaves every other
   * user's and day's state alone.
   */
  lemma CheckinTransition(attendance: map<Id, Attendance>, id: Id, user: Id, today: Date, now: Time,
                          otherUser: Id, otherDate: Date)
    requires OnePerDay(attendance) && id !in attendance
    requires StateOf(attendance, user, today) == NotCheckedIn
    ensures var m := attendance[id := Attendance(user, today, now, None)];
      && OnePerDay(m)
      && StateOf(m, user, today) == CheckedIn
      && ((otherUser, otherDate) != (user, today) ==> StateOf(m, otherUser, otherDate) == StateOf(attendance, otherUser, otherDate))
  {
    var m := attendance[id := Attendance(user, today, now, None)];
    forall a, b | a in m && b in m && m[a].userId == m[b].userId && m[a].date == m[b].date ensures a == b {
      if a != id && b != id {
        assert attendance[a].userId == attendance[b].userId && attendance[a].date == attendance[b].date;
      }
    }
    assert RowOfDay(m, user, today) == Some(id);
    if (otherUser, otherDate) != (user, today) {
      match RowOfDay(attendance, otherUser, otherDate)
      case None =>
        assert !HasAttendance(m, otherUser, otherDate);
      case Some(k) =>
        assert m[k] == attendance[k];
    }
  }

  /**
   * `POST /checkin`: 409 when the caller already has today's row; otherwise
   * a row for today with the check-in time and no check-out.
   */
  method Checkin(db: Store, user: Id, today: Date, now: Time) returns (r: Reply<Entry>)
    requires db.Valid()
    modifies db`attendance, db`nextId
    ensures db.Valid()
    ensures old(HasAttendance(db.attendance, user, today)) ==>
      r == DuplicateCheckinReply && db.attendance == old(db.attendance) && db.nextId == old(db.nextId)
    ensures !old(HasAttendance(db.attendance, user, today)) ==>
      && r == Success(201, (old(db.nextId), Attendance(user, today, now, None)))
      && old(db.nextId) !in old(db.attendance)
      && db.attendance == old(db.attendance)[old(db.nextId) := Attendance(user, today, now, None)]
  {
    if HasAttendance(db.attendance, user, today) {
      return DuplicateCheckinReply;
    }
    CheckinTransition(db.attendance, db.nextId, user, today, now, user, today);
    var id := db.NewId();
    db.attendance := db.attendance[id := Attendance(user, today, now, None)];
    r := Success(201, (id, Attendance(user, today, now, None)));
  }

  /** `UPDATE attendance SET check_out = NOW() WHERE user_id = $1 AND date = $2`. */
  function StampCheckout(attendance: map<Id, Attendance>, user: Id, today: Date, now: Time): map<Id, Attendance> {
    map k | k in attendance ::
      if attendance[k].userId == user && attendance[k].date == today then attendance[k].(checkOut := Some(now))
      else attendance[k]
  }

  /**
   * The update touches the caller's row for today only: it becomes
   * `CheckedOut` with check-out `now`, and every other row is as it was.
   */
  lemma CheckoutTransition(attendance: map<Id, Attendance>, user: Id, today: Date, now: Time)
    requires OnePerDay(attendance)
    requires StateOf(attendance, user, today) == CheckedIn
    ensures var k := RowOfDay(attendance, user, today).value;
      var m := StampCheckout(attendance, user, today, now);
      && m == attendance[k := attendance[k].(checkOut := Some(now))]
      && OnePerDay(m)
      && StateOf(m, user, today) == CheckedOut
  {
    var k := RowOfDay(attendance, user, today).value;
    var m := StampCheckout(attendance, user, today, now);
    assert m == attendance[k := attendance[k].(checkOut := Some(now))];
    forall a, b | a in m && b in m && m[a].userId == m[b].userId && m[a].date == m[b].date ensures a == b {
      assert attendance[a].userId == attendance[b].userId && attendance[a].date == attendance[b].date;
    }
    assert RowOfDay(m, user, today) == Some(k);
  }

  /**
   * `POST /checkout`: 400 without today's row, 409 when it already has a
   * check-out (which is kept), otherwise the row gets check-out `now`.
   */
  method Checkout(db: Store, user: Id, today: Date, now: Time) returns (r: Reply<Entry>)
    requires db.Valid()
    modifies db`attendance
    ensures db.Valid()
    ensures old(StateOf(db.attendance, user, today)) == NotCheckedIn ==>
      r == NoCheckinReply && db.attendance == old(db.attendance)
    ensures old(StateOf(db.attendance, user, today)) == CheckedOut ==>
      r == AlreadyCheckedOutReply && db.attendance == old(db.attendance)
    ensures old(StateOf(db.attendance, user, today)) == CheckedIn ==>
      var k := old(RowOfDay(db.attendance, user, today)).value;
      && db.attendance == StampCheckout(old(db.attendance), user, today, now)
      && r == Success(200, (k, db.attendance[k]))
      && db.attendance[k] == old(db.attendance)[k].(checkOut := Some(now))
  {
    var found := RowOfDay(db.attendance, user, today);
    if found.None? {
      return NoCheckinReply;
    }
    var k := found.value;
    if db.attendance[k].checkOut.Some? {
      return AlreadyCheckedOutReply;
    }
    CheckoutTransition(db.attendance, user, today, now);
    db.attendance := StampCheckout(db.attendance, user, today, now);
    r := Success(200, (k, db.attendance[k]));
  }

  // ---- GET /daily and GET /weekly ----

  const MissingDateReply: Reply<seq<Entry>> := Failure(400, MissingDate, "Date parameter is required (format: YYYY-MM-DD)")
  const MissingStartDateReply: Reply<seq<Entry>> :=
    Failure(400, MissingStartDate, "Start date parameter is required (format: YYYY-MM-DD)")

  /** The caller's rows for `date`, in table order. */
  function DayRows(attendance: map<Id, Attendance>, user: Id, date: Date): (r: seq<Entry>)
    ensures forall p :: p in r <==> p.0 in attendance && p.1 == attendance[p.0] && p.1.userId == user && p.1.date == date
    ensures Distinct(r)
  {
    var all := TableRows(attendance);
    assert forall i, j :: 0 <= i < j < |all| ==> all[i] != all[j];
    assert Distinct(all);
    FilterDistinct(all, (p: Entry) => p.1.userId == user && p.1.date == date);
    Filter(all, (p: Entry) => p.1.userId == user && p.1.date == date)
  }

  /** `GET /daily`: the caller's rows for the given day. */
  function Daily(attendance: map<Id, Attendance>, user: Id, date: Option<Date>): (r: Reply<seq<Entry>>)
    ensures date.None? ==> r == MissingDateReply
    ensures date.Some? ==> r == Success(200, DayRows(attendance, user, date.value))
  {
    if date.None? then MissingDateReply else Success(200, DayRows(attendance, user, date.value))
  }

  /** With one row per user and day, the daily reading is the day's row, or nothing. */
  lemma DailyAtMostOne(attendance: map<Id, Attendance>, user: Id, date: Date)
    requires OnePerDay(attendance)
    ensures DayRows(attendance, user, date) ==
      match RowOfDay(attendance, user, date)
      case None => []
      case Some(k) => [(k, attendance[k])]
  {
    var r := DayRows(attendance, user, date);
    DistinctCard(r);
    match RowOfDay(attendance, user, date)
    case None =>
      assert Elements(r) == {};
    case Some(k) =>
      assert Elements(r) == {(k, attendance[k])};
      assert r[0] in r;
  }

  function DateOf(p: Entry): int {
    p.1.date
  }

  /** The caller's rows with `start <= date < start + 7`, in table order. */
  function WeekRows(attendance: map<Id, Attendance>, user: Id, start: Date): (r: seq<Entry>)
    ensures forall p :: p in r <==>
      p.0 in attendance && p.1 == attendance[p.0] && p.1.userId == user && start <= p.1.date < start + 7
  {
    Filter(TableRows(attendance), (p: Entry) => p.1.userId == user && start <= p.1.date < start + 7)
  }

  /**
   * `GET /weekly`: exactly the caller's rows of the seven days from `start`
   * (the SQL bound is `date < start + 7 days`), in ascending date order.
   */
  function Weekly(attendance: map<Id, Attendance>, user: Id, start: Option<Date>): (r: Reply<seq<Entry>>)
    ensures start.None? ==> r == MissingStartDateReply
    ensures start.Some? ==>
      && r.Success? && r.status == 200
      && SortedBy(r.body, ByKey(DateOf))
      && multiset(r.body) == multiset(WeekRows(attendance, user, start.value))
      && (forall p :: p in r.body <==>
            p.0 in attendance && p.1 == attendance[p.0] && p.1.userId == user &&
            start.value <= p.1.date < start.value + 7)
  {
    if start.None? then MissingStartDateReply
    else
      ByKeyPreorder(DateOf);
      Success(200, Sort(WeekRows(attendance, user, start.value), ByKey(DateOf)))
  }

  // ---- GET /user/:id (administrators) ----

  /** A `WHERE` condition the builder appends, naming its placeholder `$n`. */
  datatype Condition = OnOrAfter(placeholder: nat) | OnOrBefore(placeholder: nat)

  /** A bound query parameter. */
  datatype QueryParam = UserParam(id: Id) | DateParam(d: Date)

  /** The condition holds for a row dated `d`, reading its placeholder from `params`. */
  predicate Holds(cond: Condition, params: seq<QueryParam>, d: Date) {
    && 1 <= cond.placeholder <= |params|
    && params[cond.placeholder - 1].DateParam?
    && (match cond
        case OnOrAfter(p) => d >= params[p - 1].d
        case OnOrBefore(p) => d <= params[p - 1].d)
  }

  predicate AllHold(conds: seq<Condition>, params: seq<QueryParam>, d: Date) {
    forall k :: 0 <= k < |conds| ==> Holds(conds[k], params, d)
  }

  /** The intended selection: inclusive bounds, each applied only when given. */
  predicate InRange(startDate: Option<Date>, endDate: Option<Date>, d: Date) {
    (startDate.Some? ==> d >= startDate.value) && (endDate.Some? ==> d <= endDate.value)
  }

  /**
   * The query builder: `$1` is the user id; each given bound appends a
   * condition whose placeholder is `params.length + 1` and then its value.
   * The conditions select exactly the dates within the given bounds.
   */
  method BuildAttendanceQuery(id: Id, startDate: Option<Date>, endDate: Option<Date>)
      returns (conds: seq<Condition>, params: seq<QueryParam>)
    ensures |params| == |conds| + 1 && params[0] == UserParam(id)
    ensures |conds| == (if startDate.Some? then 1 else 0) + (if endDate.Some? then 1 else 0)
    ensures forall k :: 0 <= k < |conds| ==> conds[k].placeholder == k + 2
    ensures forall d :: AllHold(conds, params, d) <==> InRange(startDate, endDate, d)
  {
    params := [UserParam(id)];
    conds := [];
    if startDate.Some? {
      conds := conds + [OnOrAfter(|params| + 1)];
      params := params + [DateParam(startDate.value)];
    }
    if endDate.Some? {
      conds := conds + [OnOrBefore(|params| + 1)];
      params := params + [DateParam(endDate.value)];
    }
    forall d ensures AllHold(conds, params, d) <==> InRange(startDate, endDate, d) {
      if startDate.Some? {
        assert Holds(conds[0], params, d) <==> d >= startDate.value;
      }
      if endDate.Some? {
        assert Holds(conds[|conds| - 1], params, d) <==> d <= endDate.value;
      }
    }
  }

  function AttendanceOwner(p: Entry): Id {
    p.1.userId
  }

  function AdminDate(row: OwnedRow<Entry>): int {
    row.entry.1.date
  }

  /** The user's rows within the bounds, in table order. */
  function RangeRows(attendance: map<Id, Attendance>, user: Id, startDate: Option<Date>, endDate: Option<Date>)
    : (r: seq<Entry>)
    ensures forall p :: p in r <==>
      p.0 in attendance && p.1 == attendance[p.0] && p.1.userId == user && InRange(startDate, endDate, p.1.date)
    ensures Distinct(r)
  {
    TableRowsDistinct(attendance);
    FilterDistinct(TableRows(attendance), (p: Entry) => p.1.userId == user && InRange(startDate, endDate, p.1.date));
    Filter(TableRows(attendance), (p: Entry) => p.1.userId == user && InRange(startDate, endDate, p.1.date))
  }

  /**
   * The administrator's reading of user `id`: the rows within the bounds,
   * newest first, each joined with the user's e-mail and (left-joined)
   * profile name. An unknown user has no rows (the join is empty); it is
   * not an error.
   */
  function UserAttendance(users: map<Id, User>, profiles: map<Id, Profile>, attendance: map<Id, Attendance>,
                          id: Id, startDate: Option<Date>, endDate: Option<Date>): (r: seq<OwnedRow<Entry>>)
    ensures id !in users ==> r == []
    ensures SortedBy(r, ByKeyDesc(AdminDate))
    ensures forall row :: row in r ==>
      row.entry in RangeRows(attendance, id, startDate, endDate) && row == OwnerRow(users, profiles, row.entry, id)
    ensures id in users ==>
      forall p :: p in RangeRows(attendance, id, startDate, endDate) ==> OwnerRow(users, profiles, p, id) in r
    ensures Distinct(r)
  {
    var rows := RangeRows(attendance, id, startDate, endDate);
    if id !in users then
      assert forall p :: p in rows ==> AttendanceOwner(p) !in users;
      []
    else
      ByKeyPreorder(AdminDate);
      var joined := JoinOwners(users, profiles, rows, AttendanceOwner);
      JoinOwnersDistinct(users, profiles, rows, AttendanceOwner);
      var sorted := Sort(joined, ByKeyDesc(AdminDate));
      DistinctPermutation(joined, sorted);
      sorted
  }
}
