/**
 * `/api/leave`: an employee files a request, which starts `PENDING`; an
 * administrator approves or rejects a pending request, and both outcomes
 * are final. Listings: the caller's own requests, the pending ones, and all.
 *
 * `NOW()` is a parameter. A date in the body is `None` when absent or empty.
 */
module LeaveRoutes {

  import opened Common
  import opened Tables
  import opened Sorting

  type Entry = (Id, LeaveRequest)

  // ---- POST /request ----

  datatype LeaveBody = LeaveBody(leaveType: Option<string>, startDate: Option<Date>, endDate: Option<Date>,
                                 reason: Option<string>)

  const LeaveTypes := ["PAID", "SICK", "UNPAID"]

  const MissingLeaveFields: Reply<Entry> :=
    Failure(400, MissingRequiredFields, "Leave type, start date and end date are required")
  const BadLeaveType: Reply<Entry> := Failure(400, InvalidLeaveType, "Leave type must be PAID, SICK, or UNPAID")
  const BadDateRange: Reply<Entry> := Failure(400, InvalidDateRange, "End date must be after start date")

  /**
   * The request's validation, in the handler's order: a missing field, then
   * an unknown leave type, then an end before the start. The same day for
   * both ends is accepted.
   */
  function LeaveFailure(b: LeaveBody): (r: Option<Reply<Entry>>)
    ensures r.None? <==>
      Given(b.leaveType) && b.startDate.Some? && b.endDate.Some? &&
      b.leaveType.value in LeaveTypes && b.startDate.value <= b.endDate.value
    ensures !Given(b.leaveType) || b.startDate.None? || b.endDate.None? ==> r == Some(MissingLeaveFields)
    ensures (Given(b.leaveType) && b.startDate.Some? && b.endDate.Some? && b.leaveType.value !in LeaveTypes) ==>
      r == Some(BadLeaveType)
    ensures r.Some? ==> r.value.Failure? && r.value.status == 400
  {
    if !Given(b.leaveType) || b.startDate.None? || b.endDate.None? then Some(MissingLeaveFields)
    else if b.leaveType.value !in LeaveTypes then Some(BadLeaveType)
    else if b.endDate.value < b.startDate.value then Some(BadDateRange)
    else None
  }

  /** The range check refuses exactly an end before the start, once the fields and type pass. */
  lemma DateRangeRule(b: LeaveBody)
    requires Given(b.leaveType) && b.startDate.Some? && b.endDate.Some? && b.leaveType.value in LeaveTypes
    ensures LeaveFailure(b) == Some(BadDateRange) <==> b.endDate.value < b.startDate.value
    ensures b.endDate.value == b.startDate.value ==> LeaveFailure(b).None?
  {
  }

  /**
   * `POST /request`: a validated request becomes a `PENDING` row owned by
   * the caller, with `reason` `null` when not given and no comments yet.
   */
  method RequestLeave(db: Store, user: Id, b: LeaveBody, now: Time) returns (r: Reply<Entry>)
    requires db.Valid()
    modifies db`leaves, db`nextId
    ensures db.Valid()
    ensures LeaveFailure(b).Some? ==>
      r == LeaveFailure(b).value && db.leaves == old(db.leaves) && db.nextId == old(db.nextId)
    ensures LeaveFailure(b).None? ==>
      var row := LeaveRequest(user, b.leaveType.value, b.startDate.value, b.endDate.value, OrNull(b.reason),
                              Pending, None, now, now);
      && old(db.nextId) !in old(db.leaves)
      && r == Success(201, (old(db.nextId), row))
      && db.leaves == old(db.leaves)[old(db.nextId) := row]
  {
    var failure := LeaveFailure(b);
    if failure.Some? {
      return failure.value;
    }
    var id := db.NewId();
    var row := LeaveRequest(user, b.leaveType.value, b.startDate.value, b.endDate.value, OrNull(b.reason),
                            Pending, None, now, now);
    db.leaves := db.leaves[id := row];
    r := Success(201, (id, row));
  }

  // ---- PUT /:id/approve and PUT /:id/reject ----

  function StatusText(s: LeaveStatus): string {
    match s
    case Pending => "PENDING"
    case Approved => "APPROVED"
    case Rejected => "REJECTED"
  }

  const LeaveNotFoundReply: Reply<Entry> := Failure(404, LeaveNotFound, "Leave request not found")

  /**
   * Why a review is refused: an unknown id (404), or a request that is no
   * longer pending (400, naming its status in lower case).
   */
  function ReviewFailure(leaves: map<Id, LeaveRequest>, id: Id): (r: Option<Reply<Entry>>)
    ensures r.None? <==> id in leaves && leaves[id].status == Pending
    ensures id !in leaves ==> r == Some(LeaveNotFoundReply)
    ensures id in leaves && leaves[id].status != Pending ==>
      r == Some(Failure(400, InvalidStatus, "Leave request is already " + ToLower(StatusText(leaves[id].status))))
  {
    if id !in leaves then Some(LeaveNotFoundReply)
    else if leaves[id].status != Pending then
      Some(Failure(400, InvalidStatus, "Leave request is already " + ToLower(StatusText(leaves[id].status))))
    else None
  }

  /** The `UPDATE` of a review: the decision, the comments (`null` when not given) and the time. */
  function Reviewed(leaves: map<Id, LeaveRequest>, id: Id, decision: LeaveStatus, comments: Option<string>, now: Time)
    : map<Id, LeaveRequest>
    requires id in leaves
  {
    leaves[id := leaves[id].(status := decision, adminComments := OrNull(comments), updatedAt := now)]
  }

  /**
   * Approved and rejected are final: once a review has gone through, every
   * further review of that request is refused with 400, whatever it
   * decides, and reports the status the first review set.
   */
  lemma ReviewIsFinal(leaves: map<Id, LeaveRequest>, id: Id, decision: LeaveStatus, comments: Option<string>, now: Time)
    requires ReviewFailure(leaves, id).None?
    requires decision == Approved || decision == Rejected
    ensures var after := Reviewed(leaves, id, decision, comments, now);
      && ReviewFailure(after, id).Some?
      && ReviewFailure(after, id).value.status == 400
      && ReviewFailure(after, id).value.message ==
           "Leave request is already " + (if decision == Approved then "approved" else "rejected")
  {
    var after := Reviewed(leaves, id, decision, comments, now);
    assert after[id].status == decision;
    if decision == Approved {
      assert ToLower(StatusText(decision)) == "approved";
    } else {
      assert ToLower(StatusText(decision)) == "rejected";
    }
  }

  /** A review changes the reviewed request only, and keeps its owner, type, dates and reason. */
  lemma ReviewTouchesOneRequest(leaves: map<Id, LeaveRequest>, id: Id, decision: LeaveStatus,
                                comments: Option<string>, now: Time, other: Id)
    requires id in leaves
    ensures var after := Reviewed(leaves, id, decision, comments, now);
      && after.Keys == leaves.Keys
      && (other != id && other in leaves ==> after[other] == leaves[other])
      && after[id].userId == leaves[id].userId && after[id].leaveType == leaves[id].leaveType
      && after[id].startDate == leaves[id].startDate && after[id].endDate == leaves[id].endDate
      && after[id].reason == leaves[id].reason && after[id].createdAt == leaves[id].createdAt
  {
  }

  /** Approve and reject share one handler shape; `decision` is the status they set. */
  method Review(db: Store, id: Id, decision: LeaveStatus, comments: Option<string>, now: Time) returns (r: Reply<Entry>)
    requires db.Valid()
    requires decision == Approved || decision == Rejected
    modifies db`leaves
    ensures db.Valid()
    ensures ReviewFailure(old(db.leaves), id).Some? ==>
      r == ReviewFailure(old(db.leaves), id).value && db.leaves == old(db.leaves)
    ensures ReviewFailure(old(db.leaves), id).None? ==>
      && db.leaves == Reviewed(old(db.leaves), id, decision, comments, now)
      && r == Success(200, (id, db.leaves[id]))
  {
    var failure := ReviewFailure(db.leaves, id);
    if failure.Some? {
      return failure.value;
    }
    db.leaves := Reviewed(db.leaves, id, decision, comments, now);
    r := Success(200, (id, db.leaves[id]));
  }

  /** `PUT /:id/approve`. */
  method Approve(db: Store, id: Id, comments: Option<string>, now: Time) returns (r: Reply<Entry>)
    requires db.Valid()
    modifies db`leaves
    ensures db.Valid()
    ensures ReviewFailure(old(db.leaves), id).Some? ==>
      r == ReviewFailure(old(db.leaves), id).value && db.leaves == old(db.leaves)
    ensures ReviewFailure(old(db.leaves), id).None? ==>
      && db.leaves == Reviewed(old(db.leaves), id, Approved, comments, now)
      && r == Success(200, (id, db.leaves[id])) && db.leaves[id].status == Approved
  {
    r := Review(db, id, Approved, comments, now);
  }

  /** `PUT /:id/reject`. */
  method Reject(db: Store, id: Id, comments: Option<string>, now: Time) returns (r: Reply<Entry>)
    requires db.Valid()
    modifies db`leaves
    ensures db.Valid()
    ensures ReviewFailure(old(db.leaves), id).Some? ==>
      r == ReviewFailure(old(db.leaves), id).value && db.leaves == old(db.leaves)
    ensures ReviewFailure(old(db.leaves), id).None? ==>
      && db.leaves == Reviewed(old(db.leaves), id, Rejected, comments, now)
      && r == Success(200, (id, db.leaves[id])) && db.leaves[id].status == Rejected
  {
    r := Review(db, id, Rejected, comments, now);
  }

  // ---- listings ----

  function CreatedOf(p: Entry): int {
    p.1.createdAt
  }

  /** The caller's requests, in table order. */
  function OwnRequests(leaves: map<Id, LeaveRequest>, user: Id): (r: seq<Entry>)
    ensures forall p :: p in r <==> p.0 in leaves && p.1 == leaves[p.0] && p.1.userId == user
  {
    Filter(TableRows(leaves), (p: Entry) => p.1.userId == user)
  }

  /** `GET /my-requests`: exactly the caller's requests, newest first. */
  function MyRequests(leaves: map<Id, LeaveRequest>, user: Id): (r: seq<Entry>)
    ensures SortedBy(r, ByKeyDesc(CreatedOf))
    ensures multiset(r) == multiset(OwnRequests(leaves, user))
    ensures forall p :: p in r <==> p.0 in leaves && p.1 == leaves[p.0] && p.1.userId == user
  {
    ByKeyPreorder(CreatedOf);
    Sort(OwnRequests(leaves, user), ByKeyDesc(CreatedOf))
  }

  function LeaveOwner(p: Entry): Id {
    p.1.userId
  }

  function RowCreated(row: OwnedRow<Entry>): int {
    row.entry.1.createdAt
  }

  /** The pending requests, in table order. */
  function PendingRequests(leaves: map<Id, LeaveRequest>): (r: seq<Entry>)
    ensures forall p :: p in r <==> p.0 in leaves && p.1 == leaves[p.0] && p.1.status == Pending
    ensures Distinct(r)
  {
    TableRowsDistinct(leaves);
    FilterDistinct(TableRows(leaves), (p: Entry) => p.1.status == Pending);
    Filter(TableRows(leaves), (p: Entry) => p.1.status == Pending)
  }

  /**
   * `GET /pending`: exactly the pending requests of existing users, oldest
   * first, each with its owner's e-mail and name.
   */
  function PendingList(users: map<Id, User>, profiles: map<Id, Profile>, leaves: map<Id, LeaveRequest>)
    : (r: seq<OwnedRow<Entry>>)
    ensures SortedBy(r, ByKey(RowCreated))
    ensures forall row :: row in r ==>
      && row.entry.0 in leaves && row.entry.1 == leaves[row.entry.0] && row.entry.1.status == Pending
      && row.entry.1.userId in users && row == OwnerRow(users, profiles, row.entry, row.entry.1.userId)
    ensures forall id :: id in leaves && leaves[id].status == Pending && leaves[id].userId in users ==>
      OwnerRow(users, profiles, (id, leaves[id]), leaves[id].userId) in r
    ensures Distinct(r)
  {
    ByKeyPreorder(RowCreated);
    var joined := JoinOwners(users, profiles, PendingRequests(leaves), LeaveOwner);
    JoinOwnersDistinct(users, profiles, PendingRequests(leaves), LeaveOwner);
    var sorted := Sort(joined, ByKey(RowCreated));
    DistinctPermutation(joined, sorted);
    sorted
  }

  /** `GET /all`: every request of an existing user, newest first. */
  function AllRequests(users: map<Id, User>, profiles: map<Id, Profile>, leaves: map<Id, LeaveRequest>)
    : (r: seq<OwnedRow<Entry>>)
    ensures SortedBy(r, ByKeyDesc(RowCreated))
    ensures forall row :: row in r ==>
      && row.entry.0 in leaves && row.entry.1 == leaves[row.entry.0]
      && row.entry.1.userId in users && row == OwnerRow(users, profiles, row.entry, row.entry.1.userId)
    ensures forall id :: id in leaves && leaves[id].userId in users ==>
      OwnerRow(users, profiles, (id, leaves[id]), leaves[id].userId) in r
    ensures Distinct(r)
  {
    ByKeyPreorder(RowCreated);
    var joined := JoinOwners(users, profiles, TableRows(leaves), LeaveOwner);
    TableRowsDistinct(leaves);
    JoinOwnersDistinct(users, profiles, TableRows(leaves), LeaveOwner);
    var sorted := Sort(joined, ByKeyDesc(RowCreated));
    DistinctPermutation(joined, sorted);
    sorted
  }
}
