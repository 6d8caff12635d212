/** `TimesheetService`: the timesheet lifecycle Draft -> Submitted ->
    Approved / Rejected, with its owner and status guards. The service owns the
    Timesheets table; users, projects and assignments are only read. */
module TimesheetService {
  import opened Wrappers
  import opened Text
  import opened Models
  import Seqs
  import opened TimesheetRepository
  import opened AssignmentRepository
  import opened TimesheetValidation
  import opened Approval

  const NotFoundMessage := "Timesheet not found."
  const UpdateNotOwnerMessage := "You can only update your own timesheets."
  const UpdateNotDraftMessage := "Only draft timesheets can be updated."
  const DeleteNotOwnerMessage := "You can only delete your own timesheets."
  const DeleteNotDraftMessage := "Only draft timesheets can be deleted."
  const SubmitNotOwnerMessage := "You can only submit your own timesheets."
  const ApproveDeniedMessage := "You are not authorized to approve this timesheet."
  const RejectDeniedMessage := "You are not authorized to reject this timesheet."
  const CommentsMandatoryMessage := "Rejection comments are mandatory."

  function SubmitNotFoundMessage(id: int): string {
    "Timesheet " + IntToString(id) + " not found."
  }

  function SubmitNotDraftMessage(id: int): string {
    "Timesheet " + IntToString(id) + " is not in draft status."
  }

  // ---------------------------------------------------------------------
  // Records as each operation leaves them

  /** The row `CreateTimesheetAsync` adds: the DTO's fields, the caller as
      owner, status Draft, no submission or decision yet. */
  function NewTimesheet(id: int, dto: TimesheetInput, userId: int, now: Instant): Timesheet {
    Timesheet(id, userId, dto.projectId, dto.date, dto.hoursWorked, dto.description,
              Draft, None, now, None, None, None)
  }

  /** `UpdateTimesheetAsync` replaces exactly ProjectId, Date, HoursWorked and Description. */
  function Edited(t: Timesheet, dto: TimesheetInput): Timesheet {
    t.(projectId := dto.projectId, date := dto.date, hoursWorked := dto.hoursWorked, description := dto.description)
  }

  function MarkSubmitted(t: Timesheet, now: Instant): Timesheet {
    t.(status := Submitted, submittedAt := Some(now))
  }

  function MarkApproved(t: Timesheet, approverId: int, now: Instant): Timesheet {
    t.(status := Approved, approvedAt := Some(now), approvedBy := Some(approverId), rejectionComments := None)
  }

  function MarkRejected(t: Timesheet, comments: string, approverId: int, now: Instant): Timesheet {
    t.(status := Rejected, rejectionComments := Some(comments), approvedBy := Some(approverId), approvedAt := Some(now))
  }

  // ---------------------------------------------------------------------
  // What the service keeps true of its table

  predicate IsManager(users: seq<User>, id: int) {
    FindUser(users, id).Some? && FindUser(users, id).value.role == ManagerRole
  }

  /** One row is consistent with the lifecycle: valid hours and description, a
      submission time exactly when past Draft, a decider exactly when decided
      (never the owner, always a manager), comments exactly when Rejected. */
  ghost predicate WellFormed(users: seq<User>, t: Timesheet) {
    && HoursInRange(t.hoursWorked)
    && !IsBlank(t.description)
    && (t.status == Draft <==> t.submittedAt.None?)
    && ((t.status == Approved || t.status == Rejected) <==> t.approvedBy.Some?)
    && (t.approvedBy.Some? <==> t.approvedAt.Some?)
    && (t.rejectionComments.Some? <==> t.status == Rejected)
    && (t.rejectionComments.Some? ==> !IsBlank(t.rejectionComments.value))
    && (t.approvedBy.Some? ==> t.approvedBy.value != t.userId && IsManager(users, t.approvedBy.value))
  }

  /** No user has more than 24 hours on any calendar day. */
  ghost predicate DailyCapHolds(ts: seq<Timesheet>) {
    forall u: int, d: nat :: DayTotal(ts, u, d) <= MaxDailyHours
  }

  ghost predicate TableInvariant(users: seq<User>, ts: seq<Timesheet>, nextId: int) {
    && UniqueTimesheetIds(ts)
    && (forall i :: 0 <= i < |ts| ==> ts[i].id < nextId)
    && UniqueEntries(ts)
    && DailyCapHolds(ts)
    && (forall i :: 0 <= i < |ts| ==> WellFormed(users, ts[i]))
  }

  /** A create that passed the duplicate and daily-cap checks keeps the invariant. */
  lemma CreateKeepsInvariant(users: seq<User>, ts: seq<Timesheet>, nextId: int, dto: TimesheetInput, userId: int, now: Instant)
    requires TableInvariant(users, ts, nextId)
    requires HoursInRange(dto.hoursWorked) && !IsBlank(dto.description)
    requires !IsDuplicateTimesheet(ts, userId, dto.projectId, dto.date, None)
    requires DayTotal(ts, userId, DayOf(dto.date)) + dto.hoursWorked <= MaxDailyHours
    ensures TableInvariant(users, ts + [NewTimesheet(nextId, dto, userId, now)], nextId + 1)
  {
    var t := NewTimesheet(nextId, dto, userId, now);
    var us := ts + [t];
    forall u: int, d: nat ensures DayTotal(us, u, d) <= MaxDailyHours {
      DayTotalAppend(ts, t, u, d);
    }
    forall i, j | 0 <= i < j < |us| ensures !SameEntry(us[j], us[i].userId, us[i].projectId, us[i].date) {
      if j == |ts| {
        assert !SameEntry(ts[i], userId, dto.projectId, dto.date);
      }
    }
  }

  /** An edit of a Draft row by its owner that passed the update checks keeps the invariant. */
  lemma EditKeepsInvariant(users: seq<User>, ts: seq<Timesheet>, nextId: int, i: nat, dto: TimesheetInput)
    requires TableInvariant(users, ts, nextId)
    requires i < |ts| && ts[i].status == Draft
    requires HoursInRange(dto.hoursWorked) && !IsBlank(dto.description)
    requires !IsDuplicateTimesheet(ts, ts[i].userId, dto.projectId, dto.date, Some(ts[i].id))
    requires (var total := DayTotal(ts, ts[i].userId, DayOf(dto.date));
              (if DayOf(ts[i].date) == DayOf(dto.date) then total - ts[i].hoursWorked else total) + dto.hoursWorked
              <= MaxDailyHours)
    ensures TableInvariant(users, ts[i := Edited(ts[i], dto)], nextId)
  {
    var t := Edited(ts[i], dto);
    var us := ts[i := t];
    forall u: int, d: nat ensures DayTotal(us, u, d) <= MaxDailyHours {
      DayTotalReplace(ts, i, t, u, d);
      assert DayHours(ts[i], u, d) >= 0;
    }
    forall a, b | 0 <= a < b < |us| ensures !SameEntry(us[b], us[a].userId, us[a].projectId, us[a].date) {
      if a == i {
        assert !(SameEntry(ts[b], ts[i].userId, dto.projectId, dto.date) && NotExcluded(ts[b], Some(ts[i].id)));
      } else if b == i {
        assert !(SameEntry(ts[a], ts[i].userId, dto.projectId, dto.date) && NotExcluded(ts[a], Some(ts[i].id)));
      }
    }
  }

  /** Deleting a row keeps the invariant. */
  lemma RemoveKeepsInvariant(users: seq<User>, ts: seq<Timesheet>, nextId: int, i: nat)
    requires TableInvariant(users, ts, nextId)
    requires i < |ts|
    ensures TableInvariant(users, Seqs.RemoveAt(ts, i), nextId)
  {
    var us := Seqs.RemoveAt(ts, i);
    forall u: int, d: nat ensures DayTotal(us, u, d) <= MaxDailyHours {
      DayTotalRemove(ts, i, u, d);
    }
    forall a, b | 0 <= a < b < |us| ensures !SameEntry(us[b], us[a].userId, us[a].projectId, us[a].date) {
      var a', b' := if a < i then a else a + 1, if b < i then b else b + 1;
      assert us[a] == ts[a'] && us[b] == ts[b'];
    }
    forall a, b | 0 <= a < b < |us| ensures us[a].id != us[b].id {
      var a', b' := if a < i then a else a + 1, if b < i then b else b + 1;
      assert us[a] == ts[a'] && us[b] == ts[b'];
    }
  }

  /** Rows that change only in status and decision fields: ids, keys and hours
      are those of the old rows, so only well-formedness needs re-checking. */
  ghost predicate SameWork(ts: seq<Timesheet>, us: seq<Timesheet>) {
    && |ts| == |us|
    && forall i :: 0 <= i < |ts| ==>
      && us[i].id == ts[i].id
      && us[i].userId == ts[i].userId
      && us[i].projectId == ts[i].projectId
      && us[i].date == ts[i].date
      && us[i].hoursWorked == ts[i].hoursWorked
      && us[i].description == ts[i].description
  }

  lemma SameWorkKeepsInvariant(users: seq<User>, ts: seq<Timesheet>, us: seq<Timesheet>, nextId: int)
    requires TableInvariant(users, ts, nextId)
    requires SameWork(ts, us)
    requires forall i :: 0 <= i < |us| ==> WellFormed(users, us[i])
    ensures TableInvariant(users, us, nextId)
  {
    forall u: int, d: nat ensures DayTotal(us, u, d) <= MaxDailyHours {
      DayTotalIgnoresStatus(ts, us, u, d);
    }
  }

  // ---------------------------------------------------------------------
  // Batch submit: every id is checked against a working copy, and the copy
  // is saved once at the end

  /** One iteration of the loop of `SubmitTimesheetsAsync` on the working copy. */
  function SubmitOne(work: seq<Timesheet>, id: int, userId: int, now: Instant): (r: Result<seq<Timesheet>, Error>)
    ensures r.Success? ==> exists i :: (0 <= i < |work| && work[i].id == id && work[i].userId == userId
                                        && work[i].status == Draft && r.value == work[i := MarkSubmitted(work[i], now)])
  {
    match TimesheetIndex(work, id)
    case None => Failure(InvalidOperation(SubmitNotFoundMessage(id)))
    case Some(i) =>
      if work[i].userId != userId then Failure(UnauthorizedAccess(SubmitNotOwnerMessage))
      else if work[i].status != Draft then Failure(InvalidOperation(SubmitNotDraftMessage(id)))
      else Success(work[i := MarkSubmitted(work[i], now)])
  }

  /** The whole loop: the first failing id's exception, or the final working copy. */
  function SubmitAll(work: seq<Timesheet>, ids: seq<int>, userId: int, now: Instant): Result<seq<Timesheet>, Error>
    decreases |ids|
  {
    if ids == [] then Success(work)
    else match SubmitOne(work, ids[0], userId, now)
      case Failure(e) => Failure(e)
      case Success(w) => SubmitAll(w, ids[1..], userId, now)
  }

  /** `id` names a Draft timesheet of `userId` in `work`. */
  predicate Submittable(work: seq<Timesheet>, id: int, userId: int) {
    exists i :: 0 <= i < |work| && work[i].id == id && work[i].userId == userId && work[i].status == Draft
  }

  ghost predicate Distinct(ids: seq<int>) {
    forall a, b :: 0 <= a < b < |ids| ==> ids[a] != ids[b]
  }

  /** One step succeeds exactly when `id` names a Draft of the caller: with
      unique ids, the first row carrying `id` is the only one. */
  lemma SubmitOneSucceedsIff(work: seq<Timesheet>, id: int, userId: int, now: Instant)
    requires UniqueTimesheetIds(work)
    ensures SubmitOne(work, id, userId, now).Success? <==> Submittable(work, id, userId)
  {
    if Submittable(work, id, userId) {
      var m :| 0 <= m < |work| && work[m].id == id && work[m].userId == userId && work[m].status == Draft;
      var i := TimesheetIndex(work, id).value;
      assert i == m;
    }
  }

  /** A successful step marks the row carrying `id` (a Draft of the caller)
      Submitted at `now` and leaves every other row as it was. */
  lemma SubmitOneEffect(work: seq<Timesheet>, id: int, userId: int, now: Instant)
    requires UniqueTimesheetIds(work)
    requires SubmitOne(work, id, userId, now).Success?
    ensures var w := SubmitOne(work, id, userId, now).value;
      && |w| == |work|
      && (forall i :: 0 <= i < |work| ==> w[i] == (if work[i].id == id then MarkSubmitted(work[i], now) else work[i]))
      && (forall i :: 0 <= i < |work| && work[i].id == id ==> work[i].status == Draft && work[i].userId == userId)
  {
    var w := SubmitOne(work, id, userId, now).value;
    var j :| 0 <= j < |work| && work[j].id == id && work[j].userId == userId
      && work[j].status == Draft && w == work[j := MarkSubmitted(work[j], now)];
    forall i | 0 <= i < |work| && i != j ensures work[i].id != id {
    }
  }

  /** After a successful step the ids are still unique, `id` can no longer be
      submitted, and every other id is exactly as submittable as before. */
  lemma SubmitOneSubmittable(work: seq<Timesheet>, id: int, userId: int, now: Instant)
    requires UniqueTimesheetIds(work)
    requires SubmitOne(work, id, userId, now).Success?
    ensures var w := SubmitOne(work, id, userId, now).value;
      && UniqueTimesheetIds(w)
      && !Submittable(w, id, userId)
      && forall x :: x != id ==> (Submittable(w, x, userId) <==> Submittable(work, x, userId))
  {
    var w := SubmitOne(work, id, userId, now).value;
    SubmitOneEffect(work, id, userId, now);
    assert forall i :: 0 <= i < |w| ==> w[i].id == work[i].id;
    forall x | x != id ensures Submittable(w, x, userId) <==> Submittable(work, x, userId) {
      if Submittable(work, x, userId) {
        var m :| 0 <= m < |work| && work[m].id == x && work[m].userId == userId && work[m].status == Draft;
        assert w[m] == work[m];
      }
      if Submittable(w, x, userId) {
        var m :| 0 <= m < |w| && w[m].id == x && w[m].userId == userId && w[m].status == Draft;
        assert w[m] == work[m];
      }
    }
  }

  /** A successful batch marks exactly the listed timesheets Submitted at `now`,
      each of which was a Draft of the caller, and leaves every other row as it was. */
  lemma {:induction false} SubmitAllEffect(work: seq<Timesheet>, ids: seq<int>, userId: int, now: Instant)
    requires UniqueTimesheetIds(work)
    requires SubmitAll(work, ids, userId, now).Success?
    ensures |SubmitAll(work, ids, userId, now).value| == |work|
    ensures forall i :: 0 <= i < |work| ==>
      SubmitAll(work, ids, userId, now).value[i] == (if work[i].id in ids then MarkSubmitted(work[i], now) else work[i])
    ensures forall i :: 0 <= i < |work| && work[i].id in ids ==> work[i].status == Draft && work[i].userId == userId
    decreases |ids|
  {
    if ids != [] {
      var w := SubmitOne(work, ids[0], userId, now).value;
      SubmitOneEffect(work, ids[0], userId, now);
      SubmitOneSubmittable(work, ids[0], userId, now);
      SubmitAllEffect(w, ids[1..], userId, now);
      assert ids == [ids[0]] + ids[1..];
    }
  }

  /** A batch succeeds exactly when its ids are pairwise distinct and each names
      a Draft timesheet of the caller; a repeated id fails on its second
      occurrence, because the first one already moved it to Submitted. */
  lemma {:induction false} SubmitAllSucceedsIff(work: seq<Timesheet>, ids: seq<int>, userId: int, now: Instant)
    requires UniqueTimesheetIds(work)
    ensures SubmitAll(work, ids, userId, now).Success? <==>
      Distinct(ids) && forall k :: 0 <= k < |ids| ==> Submittable(work, ids[k], userId)
    decreases |ids|
  {
    if ids != [] {
      var id := ids[0];
      SubmitOneSucceedsIff(work, id, userId, now);
      if Submittable(work, id, userId) {
        var w := SubmitOne(work, id, userId, now).value;
        SubmitOneSubmittable(work, id, userId, now);
        SubmitAllSucceedsIff(w, ids[1..], userId, now);
        if Distinct(ids) && forall k :: 0 <= k < |ids| ==> Submittable(work, ids[k], userId) {
          assert forall k :: 0 <= k < |ids| - 1 ==> ids[1..][k] != id && Submittable(work, ids[1..][k], userId);
        }
        if SubmitAll(w, ids[1..], userId, now).Success? {
          forall a, b | 0 <= a < b < |ids| ensures ids[a] != ids[b] {
            if a == 0 {
              assert Submittable(w, ids[1..][b - 1], userId);
            } else {
              assert ids[a] == ids[1..][a - 1] && ids[b] == ids[1..][b - 1];
            }
          }
          forall k | 0 <= k < |ids| ensures Submittable(work, ids[k], userId) {
            if k > 0 {
              assert ids[k] == ids[1..][k - 1];
              assert Submittable(w, ids[k], userId);
            }
          }
        }
      }
    }
  }

  /** A successful batch keeps the table invariant: only the status and the
      submission time change, and only on rows that were Drafts. */
  lemma SubmitAllKeepsInvariant(users: seq<User>, ts: seq<Timesheet>, nextId: int, ids: seq<int>, userId: int, now: Instant)
    requires TableInvariant(users, ts, nextId)
    requires SubmitAll(ts, ids, userId, now).Success?
    ensures TableInvariant(users, SubmitAll(ts, ids, userId, now).value, nextId)
  {
    SubmitAllEffect(ts, ids, userId, now);
    var us := SubmitAll(ts, ids, userId, now).value;
    forall i | 0 <= i < |us| ensures WellFormed(users, us[i]) {
      assert WellFormed(users, ts[i]);
    }
    SameWorkKeepsInvariant(users, ts, us, nextId);
  }

  // ---------------------------------------------------------------------
  // Terminal states

  /** Once Approved or Rejected, a timesheet can no longer be submitted, and no
      strategy answer lets it be approved or rejected again. */
  lemma DecidedIsTerminal(db: Db, i: nat, approverId: int, userId: int, now: Instant)
    requires UniqueTimesheetIds(db.timesheets)
    requires i < |db.timesheets|
    requires db.timesheets[i].status == Approved || db.timesheets[i].status == Rejected
    ensures !CanApprove(ManagerApproval, db, db.timesheets[i].id, approverId)
    ensures SubmitOne(db.timesheets, db.timesheets[i].id, userId, now).Failure?
  {
    if CanApprove(ManagerApproval, db, db.timesheets[i].id, approverId) {
      ApprovalNeverSelf(ManagerApproval, db, db.timesheets[i].id, approverId, i);
    }
    assert TimesheetIndex(db.timesheets, db.timesheets[i].id) == Some(i);
  }

  // ---------------------------------------------------------------------
  // The service

  class TimesheetService {
    var timesheets: seq<Timesheet>
    var nextId: int
    const users: seq<User>
    const projects: seq<Project>
    const assignments: seq<ProjectAssignment>
    const validator: Validator
    const strategy: ApprovalStrategy

    /** The tables as the validators and the strategy read them. */
    function Snapshot(): Db
      reads this
    {
      Db(users, projects, assignments, timesheets)
    }

    ghost predicate Valid()
      reads this
    {
      && validator == ServiceChain()
      && strategy == ManagerApproval
      && TableInvariant(users, timesheets, nextId)
    }

    /** The constructor builds the decorator chain base -> duplicate -> daily
        cap -> assignment. The stored rows are those this service has written. */
    constructor (users: seq<User>, projects: seq<Project>, assignments: seq<ProjectAssignment>,
                 timesheets: seq<Timesheet>, nextId: int)
      requires TableInvariant(users, timesheets, nextId)
      ensures Valid()
      ensures this.users == users && this.projects == projects && this.assignments == assignments
      ensures this.timesheets == timesheets && this.nextId == nextId
    {
      this.users := users;
      this.projects := projects;
      this.assignments := assignments;
      this.timesheets := timesheets;
      this.nextId := nextId;
      var chain := BaseValidator;
      chain := DuplicateCheckDecorator(chain);
      chain := DailyHoursLimitDecorator(chain);
      chain := ProjectAssignmentDecorator(chain);
      this.validator := chain;
      this.strategy := ManagerApproval;
    }

    /** `CreateTimesheetAsync`: stores a Draft of the caller only if the chain accepts. */
    method CreateTimesheet(dto: TimesheetInput, userId: int, now: Instant) returns (r: Result<Timesheet, Error>)
      requires Valid()
      modifies this
      ensures Valid()
      ensures var v := Validate(ServiceChain(), old(Snapshot()), CreateRequest(dto), userId);
        if v.isValid then
          && r == Success(NewTimesheet(old(nextId), dto, userId, now))
          && timesheets == old(timesheets) + [r.value]
          && nextId == old(nextId) + 1
        else
          && r == Failure(InvalidOperation(v.errorMessage))
          && timesheets == old(timesheets) && nextId == old(nextId)
    {
      var v := Validate(validator, Snapshot(), CreateRequest(dto), userId);
      if !v.isValid {
        r := Failure(InvalidOperation(v.errorMessage));
        return;
      }
      ServiceChainAccepts(Snapshot(), CreateRequest(dto), userId);
      CreateKeepsInvariant(users, timesheets, nextId, dto, userId, now);
      var t := NewTimesheet(nextId, dto, userId, now);
      timesheets := timesheets + [t];
      nextId := nextId + 1;
      r := Success(t);
    }

    /** `UpdateTimesheetAsync`: fails on a missing id, then a foreign owner, then
        a non-Draft status, then the chain's answer; otherwise edits the row. */
    method UpdateTimesheet(id: int, dto: TimesheetInput, userId: int) returns (r: Result<Timesheet, Error>)
      requires Valid()
      modifies this
      ensures Valid()
      ensures nextId == old(nextId)
      ensures var idx := TimesheetIndex(old(timesheets), id);
        if idx.None? then r == Failure(InvalidOperation(NotFoundMessage))
        else if old(timesheets)[idx.value].userId != userId then r == Failure(UnauthorizedAccess(UpdateNotOwnerMessage))
        else if old(timesheets)[idx.value].status != Draft then r == Failure(InvalidOperation(UpdateNotDraftMessage))
        else
          var v := Validate(ServiceChain(), old(Snapshot()), UpdateRequest(dto, id), userId);
          if !v.isValid then r == Failure(InvalidOperation(v.errorMessage))
          else r == Success(Edited(old(timesheets)[idx.value], dto))
               && timesheets == old(timesheets)[idx.value := r.value]
      ensures r.Failure? ==> timesheets == old(timesheets)
    {
      var idx := TimesheetIndex(timesheets, id);
      if idx.None? {
        r := Failure(InvalidOperation(NotFoundMessage));
        return;
      }
      var i := idx.value;
      if timesheets[i].userId != userId {
        r := Failure(UnauthorizedAccess(UpdateNotOwnerMessage));
        return;
      }
      if timesheets[i].status != Draft {
        r := Failure(InvalidOperation(UpdateNotDraftMessage));
        return;
      }
      var v := Validate(validator, Snapshot(), UpdateRequest(dto, id), userId);
      if !v.isValid {
        r := Failure(InvalidOperation(v.errorMessage));
        return;
      }
      ServiceChainAccepts(Snapshot(), UpdateRequest(dto, id), userId);
      EditKeepsInvariant(users, timesheets, nextId, i, dto);
      var t := Edited(timesheets[i], dto);
      timesheets := timesheets[i := t];
      r := Success(t);
    }

    /** `DeleteTimesheetAsync`: the same three guards in the same order, then removes the row. */
    method DeleteTimesheet(id: int, userId: int) returns (r: Result<(), Error>)
      requires Valid()
      modifies this
      ensures Valid()
      ensures nextId == old(nextId)
      ensures var idx := TimesheetIndex(old(timesheets), id);
        if idx.None? then r == Failure(InvalidOperation(NotFoundMessage))
        else if old(timesheets)[idx.value].userId != userId then r == Failure(UnauthorizedAccess(DeleteNotOwnerMessage))
        else if old(timesheets)[idx.value].status != Draft then r == Failure(InvalidOperation(DeleteNotDraftMessage))
        else r == Success(()) && timesheets == Seqs.RemoveAt(old(timesheets), idx.value)
      ensures r.Failure? ==> timesheets == old(timesheets)
    {
      var idx := TimesheetIndex(timesheets, id);
      if idx.None? {
        r := Failure(InvalidOperation(NotFoundMessage));
        return;
      }
      var i := idx.value;
      if timesheets[i].userId != userId {
        r := Failure(UnauthorizedAccess(DeleteNotOwnerMessage));
        return;
      }
      if timesheets[i].status != Draft {
        r := Failure(InvalidOperation(DeleteNotDraftMessage));
        return;
      }
      RemoveKeepsInvariant(users, timesheets, nextId, i);
      timesheets := Seqs.RemoveAt(timesheets, i);
      r := Success(());
    }

    /** `SubmitTimesheetsAsync`: marks every listed id Submitted on a working
        copy and saves once, so a failing id leaves the table untouched. */
    method SubmitTimesheets(ids: seq<int>, userId: int, now: Instant) returns (r: Result<(), Error>)
      requires Valid()
      modifies this`timesheets
      ensures Valid()
      ensures nextId == old(nextId)
      ensures var s := SubmitAll(old(timesheets), ids, userId, now);
        if s.Success? then r == Success(()) && timesheets == s.value
        else r == Failure(s.error) && timesheets == old(timesheets)
    {
      var work := timesheets;
      var k := 0;
      while k < |ids|
        invariant 0 <= k <= |ids|
        invariant UniqueTimesheetIds(work)
        invariant SubmitAll(timesheets, ids, userId, now) == SubmitAll(work, ids[k..], userId, now)
      {
        var idx := TimesheetIndex(work, ids[k]);
        if idx.None? {
          r := Failure(InvalidOperation(SubmitNotFoundMessage(ids[k])));
          return;
        }
        var i := idx.value;
        if work[i].userId != userId {
          r := Failure(UnauthorizedAccess(SubmitNotOwnerMessage));
          return;
        }
        if work[i].status != Draft {
          r := Failure(InvalidOperation(SubmitNotDraftMessage(ids[k])));
          return;
        }
        assert ids[k..][1..] == ids[k + 1..];
        work := work[i := MarkSubmitted(work[i], now)];
        k := k + 1;
      }
      assert ids[k..] == [];
      SubmitAllKeepsInvariant(users, timesheets, nextId, ids, userId, now);
      timesheets := work;
      r := Success(());
    }

    /** `ApproveTimesheetAsync`: changes the row only if the strategy says yes. */
    method ApproveTimesheet(timesheetId: int, approverId: int, now: Instant) returns (r: Result<(), Error>)
      requires Valid()
      modifies this
      ensures Valid()
      ensures nextId == old(nextId)
      ensures if CanApprove(ManagerApproval, old(Snapshot()), timesheetId, approverId) then
          var i := TimesheetIndex(old(timesheets), timesheetId).value;
          r == Success(()) && timesheets == old(timesheets)[i := MarkApproved(old(timesheets)[i], approverId, now)]
        else r == Failure(UnauthorizedAccess(ApproveDeniedMessage)) && timesheets == old(timesheets)
    {
      var canApprove := CanApprove(strategy, Snapshot(), timesheetId, approverId);
      if !canApprove {
        r := Failure(UnauthorizedAccess(ApproveDeniedMessage));
        return;
      }
      var i := TimesheetIndex(timesheets, timesheetId).value;
      ApprovalNeverSelf(strategy, Snapshot(), timesheetId, approverId, i);
      var t := MarkApproved(timesheets[i], approverId, now);
      SameWorkKeepsInvariant(users, timesheets, timesheets[i := t], nextId);
      timesheets := timesheets[i := t];
      r := Success(());
    }

    /** `RejectTimesheetAsync`: blank comments fail before the strategy is asked. */
    method RejectTimesheet(timesheetId: int, comments: string, approverId: int, now: Instant) returns (r: Result<(), Error>)
      requires Valid()
      modifies this
      ensures Valid()
      ensures nextId == old(nextId)
      ensures if IsBlank(comments) then r == Failure(InvalidOperation(CommentsMandatoryMessage)) && timesheets == old(timesheets)
        else if CanApprove(ManagerApproval, old(Snapshot()), timesheetId, approverId) then
          var i := TimesheetIndex(old(timesheets), timesheetId).value;
          r == Success(()) && timesheets == old(timesheets)[i := MarkRejected(old(timesheets)[i], comments, approverId, now)]
        else r == Failure(UnauthorizedAccess(RejectDeniedMessage)) && timesheets == old(timesheets)
    {
      if IsBlank(comments) {
        r := Failure(InvalidOperation(CommentsMandatoryMessage));
        return;
      }
      var canApprove := CanApprove(strategy, Snapshot(), timesheetId, approverId);
      if !canApprove {
        r := Failure(UnauthorizedAccess(RejectDeniedMessage));
        return;
      }
      var i := TimesheetIndex(timesheets, timesheetId).value;
      ApprovalNeverSelf(strategy, Snapshot(), timesheetId, approverId, i);
      var t := MarkRejected(timesheets[i], comments, approverId, now);
      SameWorkKeepsInvariant(users, timesheets, timesheets[i := t], nextId);
      timesheets := timesheets[i := t];
      r := Success(());
    }

    /** `GetUserTimesheetsAsync`. */
    method GetUserTimesheets(userId: int) returns (r: seq<Timesheet>)
      ensures forall t :: t in r <==> t in timesheets && t.userId == userId && Joined(users, projects, t)
      ensures multiset(r) == multiset(Seqs.Filter(timesheets, (t: Timesheet) => t.userId == userId && Joined(users, projects, t)))
      ensures SortedBy(r, ByDate, true)
    {
      r := TimesheetsByUser(Snapshot(), userId);
    }

    /** `GetTimesheetByIdAsync`: the row with that id, or nothing. */
    method GetTimesheetById(id: int) returns (r: Option<Timesheet>)
      ensures r.Some? ==> r.value in timesheets && r.value.id == id
      ensures r.None? <==> forall i :: 0 <= i < |timesheets| ==> timesheets[i].id != id
    {
      var idx := TimesheetIndex(timesheets, id);
      r := if idx.None? then None else Some(timesheets[idx.value]);
    }

    /** `GetPendingTimesheetsAsync`. */
    method GetPendingTimesheets() returns (r: seq<Timesheet>)
      ensures forall t :: t in r <==> t in timesheets && t.status == Submitted && Joined(users, projects, t)
      ensures multiset(r) == multiset(Seqs.Filter(timesheets, (t: Timesheet) => t.status == Submitted && Joined(users, projects, t)))
      ensures SortedBy(r, BySubmittedAt, false)
    {
      r := PendingTimesheets(Snapshot());
    }
  }
}
