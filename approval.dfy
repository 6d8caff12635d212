/** `ApprovalStrategy.cs`: who may approve or reject a timesheet, and the
    context object that holds the strategy in force. */
module Approval {
  import opened Wrappers
  import opened Models

  const ManagerRole := "Manager"

  /** The `IApprovalStrategy` implementations. */
  datatype ApprovalStrategy = ManagerApproval

  /** `GetStrategyName`. */
  function StrategyName(s: ApprovalStrategy): string {
    match s
    case ManagerApproval => "ManagerApproval"
  }

  /** `ManagerApprovalStrategy.CanApproveAsync`: the approver exists and has the
      role "Manager" exactly, the timesheet exists and is "Submitted", and the
      approver does not own it. Only reads the snapshot. */
  function ManagerCanApprove(db: Db, timesheetId: int, approverId: int): (r: bool)
    ensures FindUser(db.users, approverId).None? ==> !r
    ensures FindUser(db.users, approverId).Some? && FindUser(db.users, approverId).value.role != ManagerRole ==> !r
    ensures TimesheetIndex(db.timesheets, timesheetId).None? ==> !r
    ensures r <==>
      && FindUser(db.users, approverId).Some?
      && FindUser(db.users, approverId).value.role == ManagerRole
      && TimesheetIndex(db.timesheets, timesheetId).Some?
      && db.timesheets[TimesheetIndex(db.timesheets, timesheetId).value].status == Submitted
      && db.timesheets[TimesheetIndex(db.timesheets, timesheetId).value].userId != approverId
  {
    match FindUser(db.users, approverId)
    case None => false
    case Some(approver) =>
      if approver.role != ManagerRole then false
      else match TimesheetIndex(db.timesheets, timesheetId)
        case None => false
        case Some(i) =>
          if db.timesheets[i].status != Submitted then false
          else db.timesheets[i].userId != approverId
  }

  /** `CanApproveAsync` of a strategy. */
  function CanApprove(s: ApprovalStrategy, db: Db, timesheetId: int, approverId: int): (r: bool)
    ensures r ==> exists i :: (0 <= i < |db.timesheets| && db.timesheets[i].id == timesheetId
                               && db.timesheets[i].status == Submitted && db.timesheets[i].userId != approverId)
  {
    match s
    case ManagerApproval => ManagerCanApprove(db, timesheetId, approverId)
  }

  /** With unique timesheet ids: a yes means the approver is a manager who does
      not own the (submitted) timesheet, whichever row carries that id. */
  lemma ApprovalNeverSelf(s: ApprovalStrategy, db: Db, timesheetId: int, approverId: int, i: nat)
    requires UniqueTimesheetIds(db.timesheets)
    requires i < |db.timesheets| && db.timesheets[i].id == timesheetId
    requires CanApprove(s, db, timesheetId, approverId)
    ensures db.timesheets[i].userId != approverId && db.timesheets[i].status == Submitted
    ensures exists u :: u in db.users && u.id == approverId && u.role == ManagerRole
  {
    var k := TimesheetIndex(db.timesheets, timesheetId).value;
    assert k == i;
    assert FindUser(db.users, approverId).value in db.users;
  }

  /** `ApprovalContext`: holds the strategy in force and forwards to it. */
  class ApprovalContext {
    var strategy: ApprovalStrategy

    constructor (s: ApprovalStrategy)
      ensures strategy == s
    {
      strategy := s;
    }

    /** `SetStrategy`: later calls use `s`. */
    method SetStrategy(s: ApprovalStrategy)
      modifies this
      ensures strategy == s
    {
      strategy := s;
    }

    /** `CanApproveAsync`: exactly the current strategy's answer. */
    method CanApproveAsync(db: Db, timesheetId: int, approverId: int) returns (r: bool)
      ensures r == CanApprove(strategy, db, timesheetId, approverId)
    {
      r := CanApprove(strategy, db, timesheetId, approverId);
    }
  }
}
