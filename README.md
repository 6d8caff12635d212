# Timesheet workflow model

A Dafny model of the core of the TimeSheet application. The model covers both sides.

On the server (ASP.NET, `TimesheetAPI`):
- the timesheet service and its lifecycle: Draft, then Submitted, then Approved or Rejected;
- the chain of validators every create and update passes through: field rules, duplicate entry, 24-hour daily cap, project assignment;
- the manager approval strategy;
- the repositories' queries;
- the project and project-assignment services;
- the three reports the report factory builds.

On the client (Angular, `TimeSheetWeb`):
- the employee's batch entry form;
- the manager's project list;
- the store's status selectors.

Conventions:
- Each database table is a `seq` of rows in storage order. `GetByIdAsync` is the first row with that id. Each service keeps its ids unique.
- A query without `ORDER BY` returns its rows in storage order. SQL leaves that order unspecified, so this is the model's choice. A query with `OrderBy` promises only sortedness and the same rows; rows with equal keys may come in any order.
- A server hour amount (`decimal(5,2)`) is an `int` of hundredths, so 24 hours is `MaxDailyHours` = 2400. A `DateTime` is a tick count, and its calendar day is `DayOf`.
- Each service is a class holding its tables. A method returns a `Result`: `Failure` carries the exception the C# code throws, with its message. Every method states the tables it leaves behind.
- Clocks (`DateTime.UtcNow`) are a `now` parameter.
- On the client, a form row's hours are a `real` (a JavaScript number), and a cleared number input is `None`. A server reply is a parameter, or the batch a method would send is its result.

Files:
- `models.dfy`: entities and id lookups.
- `timesheet_repository.dfy` and `assignment_repository.dfy`: the queries.
- `validation.dfy`: the validator chain.
- `approval.dfy`: the approval strategy.
- `timesheet_service.dfy`, `project_service.dfy`, `assignment_service.dfy`: the services.
- `reports.dfy`: the reports.
- `submission_component.dfy`, `project_management.dfy`, `selectors.dfy`: the client.
- `text.dfy`, `seqs.dfy`, `wrappers.dfy`: shared helpers.

## Model

| member | source | states |
|---|---|---|
| Models.FindUser | TimesheetAPI/Patterns/ApprovalStrategy.cs:22 | a user with that id is returned exactly when one exists |
| Models.FindProject | TimesheetAPI/Services/ProjectAssignmentService.cs:47-49 | a project with that id is returned exactly when one exists |
| Models.TimesheetIndex | TimesheetAPI/Services/TimesheetService.cs:76-78 | the first position holding that id, or none exactly when no row has it |
| Models.AssignmentIndex | TimesheetAPI/Services/ProjectAssignmentService.cs:96-98 | a position holding that id, or none exactly when no row has it |
| Models.ProjectIndex | TimesheetAPI/Services/ProjectService.cs:66-68 | a position holding that id, or none exactly when no row has it |
| Text.Lower | TimesheetAPI/Patterns/ReportFactory.cs:150 | same length; each character lower-cased |
| Text.LowerIdempotent | TimesheetAPI/Patterns/ReportFactory.cs:150 | lower-casing twice equals lower-casing once |
| Text.ContainsEmpty | TimeSheetWeb/src/app/features/manager/project-management/project-management.component.ts:172-173 | every string includes the empty string |
| Text.NatToString | TimeSheetWeb/src/app/features/employee/timesheet-submission/timesheet-submission.component.ts:129 | digits only, reading back as the number, with no leading zero except for zero itself |
| Text.IntToString | TimesheetAPI/Services/TimesheetService.cs:124 | a '-' exactly for negatives, and the digits after it read back as the magnitude |
| Text.HundredthsToString | TimesheetAPI/Patterns/TimesheetValidationDecorator.cs:114 | a '-' exactly for negatives, the whole part reading back as the magnitude over 100, a '.', and two digits reading back as the remainder |
| TimesheetRepository.IsDuplicateTimesheet | TimesheetAPI/Repositories/TimesheetRepository.cs:51-61 | true exactly when some row has the user, the project and the calendar day and is not the excluded id |
| TimesheetRepository.NoSelfCollision | TimesheetAPI/Repositories/TimesheetRepository.cs:51-61 | in a table with unique entries, a row re-checked with its own id excluded is not a duplicate |
| TimesheetRepository.DayTotal | TimesheetAPI/Repositories/TimesheetRepository.cs:63-68 | zero when the user has no row that day; non-negative when all hours are |
| TimesheetRepository.DayTotalConcat | TimesheetAPI/Repositories/TimesheetRepository.cs:63-68 | the day total of two tables together is the sum of their day totals |
| TimesheetRepository.DayTotalAppend | TimesheetAPI/Repositories/TimesheetRepository.cs:63-68 | appending a row adds exactly that row's hours when it is the user's that day |
| TimesheetRepository.DayTotalReplace | TimesheetAPI/Repositories/TimesheetRepository.cs:63-68 | replacing a row changes the day total by the new row's hours minus the old row's |
| TimesheetRepository.DayTotalRemove | TimesheetAPI/Repositories/TimesheetRepository.cs:63-68 | removing a row subtracts exactly that row's hours when it is the user's that day |
| TimesheetRepository.DayTotalIgnoresStatus | TimesheetAPI/Repositories/TimesheetRepository.cs:63-68 | the day total reads only user, date and hours, so status changes do not move it |
| TimesheetRepository.Insert | TimesheetAPI/Repositories/TimesheetRepository.cs:19 | the list gains exactly one occurrence of the new row and keeps all its other rows |
| TimesheetRepository.InsertSorted | TimesheetAPI/Repositories/TimesheetRepository.cs:19 | inserting into a list sorted by the date key keeps it sorted |
| TimesheetRepository.Sort | TimesheetAPI/Repositories/TimesheetRepository.cs:19 | sorted by the key, in the direction asked, and a permutation of the input |
| TimesheetRepository.TimesheetsByUser | TimesheetAPI/Repositories/TimesheetRepository.cs:13-21 | exactly the user's joined rows, each as often as stored, newest date first |
| TimesheetRepository.TimesheetsByStatus | TimesheetAPI/Repositories/TimesheetRepository.cs:23-31 | exactly the joined rows with that status, as a multiset, latest submission first |
| TimesheetRepository.PendingTimesheets | TimesheetAPI/Repositories/TimesheetRepository.cs:70-78 | exactly the joined Submitted rows, as a multiset, earliest submission first |
| TimesheetRepository.TimesheetsByDateRange | TimesheetAPI/Repositories/TimesheetRepository.cs:33-40 | the joined rows whose date lies within both bounds inclusive, in storage order |
| TimesheetRepository.TimesheetsByUserAndDateRange | TimesheetAPI/Repositories/TimesheetRepository.cs:42-49 | the user's joined rows within both bounds, in storage order |
| TimesheetRepository.UserRangeIsRangeOfUser | TimesheetAPI/Repositories/TimesheetRepository.cs:42-49 | the per-user range query equals the range query narrowed to the user |
| AssignmentRepository.AnyGrants | TimesheetAPI/Repositories/ProjectAssignmentRepository.cs:58-68 | true exactly when some assignment grants the user, project and date |
| AssignmentRepository.IsUserAssignedToProject | TimesheetAPI/Repositories/ProjectAssignmentRepository.cs:58-68 | true exactly when an active assignment of an active project covers the date |
| AssignmentRepository.InactiveNeverGrants | TimesheetAPI/Repositories/ProjectAssignmentRepository.cs:64-65 | inactive assignments or an inactive project never let the user log time |
| AssignmentRepository.WindowIsInterval | TimesheetAPI/Repositories/ProjectAssignmentRepository.cs:66-67 | a grant on two dates is a grant on every date between them |
| AssignmentRepository.ActiveAssignments | TimesheetAPI/Repositories/ProjectAssignmentRepository.cs:31-42 | exactly the active, unexpired assignments of active projects and known users, in storage order |
| AssignmentRepository.ActiveAssignmentsOfUser | TimesheetAPI/Repositories/ProjectAssignmentRepository.cs:44-56 | the same rows restricted to one user, in storage order |
| AssignmentRepository.UserListNarrowsGlobalList | TimesheetAPI/Repositories/ProjectAssignmentRepository.cs:44-56 | the per-user list is the global list filtered by user, and a subsequence of it |
| TimesheetValidation.DailyCapMessage | TimesheetAPI/Patterns/TimesheetValidationDecorator.cs:114 | the daily-cap error message is never empty |
| TimesheetValidation.FieldCheck | TimesheetAPI/Patterns/TimesheetValidationDecorator.cs:15-43 | valid exactly when 0 < hours <= 24 and the description is not blank; the hours message takes precedence; the message is empty exactly when valid |
| TimesheetValidation.DuplicateCheck | TimesheetAPI/Patterns/TimesheetValidationDecorator.cs:57-89 | fails exactly when another row has the user, project and day; an update excludes its own id |
| TimesheetValidation.ExistingDayTotal | TimesheetAPI/Patterns/TimesheetValidationDecorator.cs:109-137 | a create sees the user's day total; an update sees nothing exactly when the edited row is missing |
| TimesheetValidation.DailyHoursCheck | TimesheetAPI/Patterns/TimesheetValidationDecorator.cs:103-145 | "Timesheet not found." when the edited row is missing; otherwise valid exactly when existing plus new hours stay within 24, with the cap message on failure |
| TimesheetValidation.AssignmentCheck | TimesheetAPI/Patterns/TimesheetValidationDecorator.cs:159-191 | valid exactly when an assignment grants the user the project on that date |
| TimesheetValidation.RunLink | TimesheetAPI/Patterns/TimesheetValidationDecorator.cs:7-11 | each link's answer carries an empty message exactly when it passes |
| TimesheetValidation.Validate | TimesheetAPI/Patterns/TimesheetValidationDecorator.cs:59-61 | a decorator returns its inner failure unchanged; a pass implies the field rules pass |
| TimesheetValidation.Links | TimesheetAPI/Services/TimesheetService.cs:36-40 | every chain starts with the base field rules |
| TimesheetValidation.FirstFailure | TimesheetAPI/Patterns/TimesheetValidationDecorator.cs:105-107 | passes exactly when every link passes; otherwise the answer of the first failing link |
| TimesheetValidation.FirstFailureAppend | TimesheetAPI/Patterns/TimesheetValidationDecorator.cs:122-124 | adding a link at the end runs it only when all earlier links passed |
| TimesheetValidation.ChainRunsLinksInOrder | TimesheetAPI/Patterns/TimesheetValidationDecorator.cs:159-163 | every decorator chain equals running its links innermost first |
| TimesheetValidation.ServiceChainOrder | TimesheetAPI/Services/TimesheetService.cs:36-40 | the service's chain runs fields, duplicate, daily cap, assignment, in that order |
| TimesheetValidation.ServiceChainAccepts | TimesheetAPI/Services/TimesheetService.cs:36-40 | the service's chain accepts exactly valid fields, no duplicate, the daily cap kept and an assignment |
| Approval.ManagerCanApprove | TimesheetAPI/Patterns/ApprovalStrategy.cs:20-32 | true exactly when the approver exists with role Manager, and the timesheet exists, is Submitted and is not the approver's |
| Approval.CanApprove | TimesheetAPI/Patterns/ApprovalStrategy.cs:7 | a positive answer means a Submitted timesheet with that id exists and is not the approver's |
| Approval.ApprovalNeverSelf | TimesheetAPI/Patterns/ApprovalStrategy.cs:30-31 | after a positive answer the row is Submitted, not the approver's, and the approver is a manager |
| Approval.ApprovalContext.constructor | TimesheetAPI/Patterns/ApprovalStrategy.cs:41-44 | the context holds the given strategy |
| Approval.ApprovalContext.SetStrategy | TimesheetAPI/Patterns/ApprovalStrategy.cs:46-49 | the context holds the new strategy |
| Approval.ApprovalContext.CanApproveAsync | TimesheetAPI/Patterns/ApprovalStrategy.cs:51-54 | the context answers what its current strategy answers |
| TimesheetService.CreateKeepsInvariant | TimesheetAPI/Services/TimesheetService.cs:55-67 | a create that passed the chain keeps ids unique, entries unique, the 24-hour cap and well-formed rows |
| TimesheetService.EditKeepsInvariant | TimesheetAPI/Services/TimesheetService.cs:86-96 | an update of a Draft that passed the chain keeps the invariant |
| TimesheetService.RemoveKeepsInvariant | TimesheetAPI/Services/TimesheetService.cs:114-115 | deleting a row keeps the invariant |
| TimesheetService.SameWorkKeepsInvariant | TimesheetAPI/Services/TimesheetService.cs:132-134 | a status change that leaves ids, users, projects, dates and hours alone keeps the invariant |
| TimesheetService.SubmitOne | TimesheetAPI/Services/TimesheetService.cs:122-134 | success means the id named a Draft of the caller, now marked Submitted at `now`, all else unchanged |
| TimesheetService.SubmitOneSucceedsIff | TimesheetAPI/Services/TimesheetService.cs:122-134 | one id passes exactly when it names a Draft of the caller |
| TimesheetService.SubmitOneEffect | TimesheetAPI/Services/TimesheetService.cs:122-134 | a passing id marks its row Submitted at `now` and leaves every other row as it was |
| TimesheetService.SubmitOneSubmittable | TimesheetAPI/Services/TimesheetService.cs:122-134 | after a passing id, that id can no longer be submitted and every other id is as submittable as before |
| TimesheetService.SubmitAllEffect | TimesheetAPI/Services/TimesheetService.cs:118-138 | a successful batch marks exactly the listed rows Submitted, each a Draft of the caller, and leaves the rest |
| TimesheetService.SubmitAllSucceedsIff | TimesheetAPI/Services/TimesheetService.cs:118-138 | a batch succeeds exactly when its ids are distinct and each names a Draft of the caller |
| TimesheetService.SubmitAllKeepsInvariant | TimesheetAPI/Services/TimesheetService.cs:118-138 | a successful batch keeps unique ids and keys, the daily cap and every row's lifecycle consistency |
| TimesheetService.DecidedIsTerminal | TimesheetAPI/Services/TimesheetService.cs:129-130 | an Approved or Rejected row can be neither approved, rejected nor submitted again |
| TimesheetService.TimesheetService.constructor | TimesheetAPI/Services/TimesheetService.cs:29-41 | the chain is base, duplicate, daily cap, assignment; the strategy is the manager strategy |
| TimesheetService.TimesheetService.CreateTimesheet | TimesheetAPI/Services/TimesheetService.cs:55-72 | a new Draft of the caller with a fresh id exactly when the chain accepts; otherwise the chain's message and no change |
| TimesheetService.TimesheetService.UpdateTimesheet | TimesheetAPI/Services/TimesheetService.cs:74-100 | not found, not owner, not Draft, chain failure, in that order; otherwise only project, date, hours and description replaced |
| TimesheetService.TimesheetService.DeleteTimesheet | TimesheetAPI/Services/TimesheetService.cs:102-116 | not found, not owner, not Draft, in that order; otherwise exactly that row removed |
| TimesheetService.TimesheetService.SubmitTimesheets | TimesheetAPI/Services/TimesheetService.cs:118-138 | the whole batch is saved, or on the first failing id nothing is saved and that id's exception is raised |
| TimesheetService.TimesheetService.ApproveTimesheet | TimesheetAPI/Services/TimesheetService.cs:140-157 | when the strategy allows it, the row becomes Approved by the approver at `now` with comments cleared; otherwise unauthorized and no change |
| TimesheetService.TimesheetService.RejectTimesheet | TimesheetAPI/Services/TimesheetService.cs:159-179 | blank comments refused first; when allowed, the row becomes Rejected with the comments; otherwise unauthorized and no change |
| TimesheetService.TimesheetService.GetUserTimesheets | TimesheetAPI/Services/TimesheetService.cs:43-47 | the user's joined rows, each as often as it is stored, newest date first |
| TimesheetService.TimesheetService.GetTimesheetById | TimesheetAPI/Services/TimesheetService.cs:49-53 | the row with that id, or nothing exactly when none has it |
| TimesheetService.TimesheetService.GetPendingTimesheets | TimesheetAPI/Services/TimesheetService.cs:181-185 | the joined Submitted rows, each as often as it is stored, earliest submission first |
| ProjectService.CodeTaken | TimesheetAPI/Services/ProjectService.cs:50 | true exactly when some project has that code |
| ProjectService.ActiveProjects | TimesheetAPI/Services/ProjectService.cs:36-40 | exactly the active projects, in table order |
| ProjectService.SetActiveDecidesMembership | TimesheetAPI/Services/ProjectService.cs:82-106 | after its flag is set, a project is listed as active exactly when the flag is true |
| ProjectService.SetActiveLeavesOthers | TimesheetAPI/Services/ProjectService.cs:82-106 | setting one project's flag leaves every other project's membership of the active list alone |
| ProjectService.ProjectService.constructor | TimesheetAPI/Services/ProjectService.cs:24-28 | the service holds the given catalogue, whose ids and codes are unique |
| ProjectService.ProjectService.GetAllProjects | TimesheetAPI/Services/ProjectService.cs:30-34 | every project, in table order |
| ProjectService.ProjectService.GetActiveProjects | TimesheetAPI/Services/ProjectService.cs:36-40 | exactly the active projects, in table order |
| ProjectService.ProjectService.GetProjectById | TimesheetAPI/Services/ProjectService.cs:42-46 | the project with that id, or nothing exactly when none has it |
| ProjectService.ProjectService.CreateProject | TimesheetAPI/Services/ProjectService.cs:48-62 | a taken code is refused with no change; otherwise an active project with a fresh id is appended; codes stay unique |
| ProjectService.ProjectService.UpdateProject | TimesheetAPI/Services/ProjectService.cs:64-80 | not found leaves the table alone; otherwise name, client, billable and active replaced, code kept, update time set |
| ProjectService.ProjectService.DeactivateProject | TimesheetAPI/Services/ProjectService.cs:82-93 | on success the flag is cleared and no project with that id is listed as active |
| ProjectService.ProjectService.ActivateProject | TimesheetAPI/Services/ProjectService.cs:95-106 | on success the flag is set and the project is listed as active |
| AssignmentService.CreateCheck | TimesheetAPI/Services/ProjectAssignmentService.cs:43-52 | no error exactly when the item is acceptable; otherwise a missing user first, then a missing project, then an end before the start, each with its message |
| AssignmentService.BatchCheck | TimesheetAPI/Services/ProjectAssignmentService.cs:70-79 | the same acceptance and order as a single create; the user and project messages carry the missing id |
| AssignmentService.FirstRejected | TimesheetAPI/Services/ProjectAssignmentService.cs:68-79 | every item before it passes and the item at it fails, or it is the batch length |
| AssignmentService.FirstRejectedIs | TimesheetAPI/Services/ProjectAssignmentService.cs:68-79 | that position is unique: any position with those two properties is it |
| AssignmentService.CreatedRows | TimesheetAPI/Services/ProjectAssignmentService.cs:81-89 | one row per accepted item |
| AssignmentService.CreatedRowsAt | TimesheetAPI/Services/ProjectAssignmentService.cs:81-89 | the j-th row is the j-th item's, active, created at `now`, with consecutive ids |
| AssignmentService.AppendKeepsInvariant | TimesheetAPI/Services/ProjectAssignmentService.cs:54-59 | appending an accepted item keeps ids unique and every row consistent |
| AssignmentService.ReplaceKeepsInvariant | TimesheetAPI/Services/ProjectAssignmentService.cs:103-108 | replacing a row by a consistent one with the same id keeps the invariant |
| AssignmentService.RemoveKeepsInvariant | TimesheetAPI/Services/ProjectAssignmentService.cs:120-121 | removing a row keeps the invariant |
| AssignmentService.AssignmentService.constructor | TimesheetAPI/Services/ProjectAssignmentService.cs:23-27 | the service holds the given tables |
| AssignmentService.AssignmentService.GetActiveAssignments | TimesheetAPI/Services/ProjectAssignmentService.cs:29-33 | exactly the active, unexpired assignments of active projects, in order |
| AssignmentService.AssignmentService.GetActiveAssignmentsOfUser | TimesheetAPI/Services/ProjectAssignmentService.cs:35-39 | the same rows restricted to one user, in order |
| AssignmentService.AssignmentService.CreateAssignment | TimesheetAPI/Services/ProjectAssignmentService.cs:41-63 | the first failing check's error and no change; otherwise an active row with a fresh id appended |
| AssignmentService.AssignmentService.Add | TimesheetAPI/Services/ProjectAssignmentService.cs:54-59 | an accepted item becomes a new active row with the next id |
| AssignmentService.AssignmentService.CreateAssignments | TimesheetAPI/Services/ProjectAssignmentService.cs:65-92 | the items before the first failure stay saved; that item's error is raised, or all rows are returned |
| AssignmentService.AssignmentService.UpdateAssignment | TimesheetAPI/Services/ProjectAssignmentService.cs:94-112 | not found, then end before start, leave the table alone; otherwise only window and active flag replaced |
| AssignmentService.AssignmentService.DeleteAssignment | TimesheetAPI/Services/ProjectAssignmentService.cs:114-122 | not found leaves the table alone; otherwise exactly that row removed |
| Reports.SplitSum | TimesheetAPI/Patterns/ReportFactory.cs:119-121 | the hours of rows meeting a test plus those failing it are all the hours |
| Reports.Rest | TimesheetAPI/Patterns/ReportFactory.cs:39 | the rows left after the first group are the later rows with another key |
| Reports.GroupKeysComeFromRows | TimesheetAPI/Patterns/ReportFactory.cs:39 | every group's key is the key of some row |
| Reports.GroupKeysDistinct | TimesheetAPI/Patterns/ReportFactory.cs:39 | no two groups share a key |
| Reports.TailKeysDiffer | TimesheetAPI/Patterns/ReportFactory.cs:39 | no group after the first has the first row's key |
| Reports.GroupKeysCoverRows | TimesheetAPI/Patterns/ReportFactory.cs:39 | every row's key has a group |
| Reports.GroupByMembers | TimesheetAPI/Patterns/ReportFactory.cs:39 | a group's members are exactly the rows with its key, in order |
| Reports.GroupByPreservesTotal | TimesheetAPI/Patterns/ReportFactory.cs:38-44 | the group totals add up to the total of the rows |
| Reports.Narrow | TimesheetAPI/Patterns/ReportFactory.cs:31-34 | the rows with the filter's id, or all rows when the filter has none |
| Reports.Approved | TimesheetAPI/Patterns/ReportFactory.cs:36 | exactly the Approved rows |
| Reports.EmployeeScope | TimesheetAPI/Patterns/ReportFactory.cs:28-36 | the Approved rows in the date range, of the filter's user if one is given |
| Reports.ProjectScope | TimesheetAPI/Patterns/ReportFactory.cs:67-75 | the Approved rows in the date range, of the filter's project if one is given |
| Reports.BillableScope | TimesheetAPI/Patterns/ReportFactory.cs:114-117 | the Approved rows in the date range |
| Reports.BillableSplit | TimesheetAPI/Patterns/ReportFactory.cs:45-46 | billable plus non-billable hours is the total |
| Reports.EmployeeRows | TimesheetAPI/Patterns/ReportFactory.cs:38-47 | one summary per group: its key, the user's name, its total, the hours of billable projects and the hours of the others, which add up to the total |
| Reports.EmployeeHoursReport | TimesheetAPI/Patterns/ReportFactory.cs:26-51 | every row's billable and non-billable hours add up to its total |
| Reports.EmployeeReportDistinct | TimesheetAPI/Patterns/ReportFactory.cs:39 | no user appears in two rows |
| Reports.EmployeeReportCovers | TimesheetAPI/Patterns/ReportFactory.cs:38-47 | every user with an approved row in scope has a row |
| Reports.EmployeeReportRow | TimesheetAPI/Patterns/ReportFactory.cs:42-46 | a row carries the user's name, and its total, billable and non-billable hours are those of exactly that user's rows in scope; it respects the user filter |
| Reports.EmployeeRowsTotal | TimesheetAPI/Patterns/ReportFactory.cs:44 | the summaries' totals add up to the groups' totals |
| Reports.EmployeeReportAddsUp | TimesheetAPI/Patterns/ReportFactory.cs:26-51 | the report's totals add up to all approved hours in scope |
| Reports.ProjectRows | TimesheetAPI/Patterns/ReportFactory.cs:78-94 | one summary per group: its key, its total, and the code, name, client and billable flag of the project with that key |
| Reports.ProjectHoursReport | TimesheetAPI/Patterns/ReportFactory.cs:65-98 | one row per project group of the scope |
| Reports.ProjectReportDistinct | TimesheetAPI/Patterns/ReportFactory.cs:78-85 | no project appears in two rows |
| Reports.ProjectReportCovers | TimesheetAPI/Patterns/ReportFactory.cs:77-95 | every project with an approved row in scope has a row |
| Reports.ProjectReportRow | TimesheetAPI/Patterns/ReportFactory.cs:88-93 | a row's total is the hours of exactly that project's rows in scope, and respects the project filter |
| Reports.ProjectRowsTotal | TimesheetAPI/Patterns/ReportFactory.cs:93 | the summaries' totals add up to the groups' totals |
| Reports.ProjectReportAddsUp | TimesheetAPI/Patterns/ReportFactory.cs:65-98 | the report's totals add up to all approved hours in scope |
| Reports.Percentage | TimesheetAPI/Patterns/ReportFactory.cs:128 | part/whole times 100 when whole > 0, else 0; within 0..100 when 0 <= part <= whole |
| Reports.BillableHoursReport | TimesheetAPI/Patterns/ReportFactory.cs:112-132 | billable = hours of rows whose project is billable, non-billable = the rest, total = their sum = all approved hours in range; the percentage is billable over total |
| Reports.HoursSumNonNegative | TimesheetAPI/Patterns/ReportFactory.cs:119-121 | non-negative hours sum to a non-negative total |
| Reports.BillablePercentageBounded | TimesheetAPI/Patterns/ReportFactory.cs:128 | the billable percentage lies between 0 and 100 |
| Reports.HoursSumAppend | TimesheetAPI/Patterns/ReportFactory.cs:119-120 | an appended row adds its hours to the sum |
| Reports.SplitSumsAppend | TimesheetAPI/Patterns/ReportFactory.cs:119-120 | an appended row adds its hours to the billable sum or to the non-billable sum, as its project is billable or not |
| Reports.ApprovedRowJoinsBillableScope | TimesheetAPI/Patterns/ReportFactory.cs:114-117 | a new approved, joined row in the range is appended to the rows the billable report reads |
| Reports.ApprovedRowCountsOnItsSide | TimesheetAPI/Patterns/ReportFactory.cs:119-121 | such a row raises the billable total by its hours when its project is billable, otherwise the non-billable total, and leaves the other total alone |
| Reports.RangeAfterAppend | TimesheetAPI/Repositories/TimesheetRepository.cs:33-40 | appending a row leaves the range query as it was or adds that row at its end |
| Reports.ApprovedIgnores | TimesheetAPI/Patterns/ReportFactory.cs:36 | an unapproved extra row does not change the approved rows |
| Reports.UnapprovedRowKeepsScopes | TimesheetAPI/Patterns/ReportFactory.cs:36 | an unapproved new row changes none of the three report scopes |
| Reports.UnapprovedRowIsIgnored | TimesheetAPI/Patterns/ReportFactory.cs:36 | an unapproved new row changes none of the three reports |
| Reports.CreateReport | TimesheetAPI/Patterns/ReportFactory.cs:146-157 | succeeds exactly for the three names ignoring case; otherwise an argument error naming the type |
| Reports.LowerReportName | TimesheetAPI/Patterns/ReportFactory.cs:146-157 | each report's name, lower-cased, is the name the factory compares against |
| Reports.CreateReportRoundTrip | TimesheetAPI/Patterns/ReportFactory.cs:53 | each report's own name creates that report |
| Reports.CreateReportIgnoresCase | TimesheetAPI/Patterns/ReportFactory.cs:150 | a name and its lower-cased form create the same report |
| SubmissionComponent.KeyTotalAbsent | TimeSheetWeb/src/app/features/employee/timesheet-submission/timesheet-submission.component.ts:89 | a key no row has totals 0 hours |
| SubmissionComponent.KeyTotalOfDistinct | TimeSheetWeb/src/app/features/employee/timesheet-submission/timesheet-submission.component.ts:89 | with distinct keys a key's total is its one row's hours |
| SubmissionComponent.AcceptedRowsStayWithinDay | TimeSheetWeb/src/app/features/employee/timesheet-submission/timesheet-submission.component.ts:88-90 | rows the duplicate check accepts put at most 24 hours on any date and project |
| SubmissionComponent.PruningKeepsNoDuplicates | TimeSheetWeb/src/app/features/employee/timesheet-submission/timesheet-submission.component.ts:153-157 | removing rows keeps an accepted form accepted |
| SubmissionComponent.ResolveProject | TimeSheetWeb/src/app/features/employee/timesheet-submission/timesheet-submission.component.ts:108-110 | nothing when no project has the code; otherwise the first such project's `projectId`, or its `id` when that is falsy |
| SubmissionComponent.ToDtos | TimeSheetWeb/src/app/features/employee/timesheet-submission/timesheet-submission.component.ts:107-115 | one DTO per row, with the row's date, hours, description and resolved project |
| SubmissionComponent.UnknownCodeStopsBatch | TimeSheetWeb/src/app/features/employee/timesheet-submission/timesheet-submission.component.ts:117-123 | a row whose code matches no project makes the batch unresolved |
| SubmissionComponent.ErrorText | TimeSheetWeb/src/app/features/employee/timesheet-submission/timesheet-submission.component.ts:136 | the server's message when present and non-empty, else the fallback; never empty when the fallback is not |
| SubmissionComponent.SubmissionForm.constructor | TimeSheetWeb/src/app/features/employee/timesheet-submission/timesheet-submission.component.ts:33-38 | one blank row, the given projects, no messages, not loading |
| SubmissionComponent.SubmissionForm.AddEntry | TimeSheetWeb/src/app/features/employee/timesheet-submission/timesheet-submission.component.ts:49-56 | one blank row appended, nothing else changed |
| SubmissionComponent.SubmissionForm.RemoveEntry | TimeSheetWeb/src/app/features/employee/timesheet-submission/timesheet-submission.component.ts:58-60 | the row at an existing index removed, nothing else changed |
| SubmissionComponent.SubmissionForm.EditTimesheet | TimeSheetWeb/src/app/features/employee/timesheet-submission/timesheet-submission.component.ts:228-237 | the form becomes the one row holding the timesheet's values |
| SubmissionComponent.SubmissionForm.BatchSaved | TimeSheetWeb/src/app/features/employee/timesheet-submission/timesheet-submission.component.ts:127-133 | the success message, not loading, and one blank row |
| SubmissionComponent.SubmissionForm.BatchFailed | TimeSheetWeb/src/app/features/employee/timesheet-submission/timesheet-submission.component.ts:134-137 | not loading and a non-empty error; rows kept |
| SubmissionComponent.SubmissionForm.ValidateNoDuplicates | TimeSheetWeb/src/app/features/employee/timesheet-submission/timesheet-submission.component.ts:81-93 | true exactly when no two rows share date and code and no row has over 24 hours |
| SubmissionComponent.SubmissionForm.RemoveEmptyEntries | TimeSheetWeb/src/app/features/employee/timesheet-submission/timesheet-submission.component.ts:141-148 | exactly the valid rows remain, in their order |
| SubmissionComponent.PrunedRowsAreValid | TimeSheetWeb/src/app/features/employee/timesheet-submission/timesheet-submission.component.ts:141-148 | after pruning, every row left is valid |
| SubmissionComponent.SubmissionForm.SaveAsDraft | TimeSheetWeb/src/app/features/employee/timesheet-submission/timesheet-submission.component.ts:95-123 | duplicate, then invalid, then unresolved stop it with their messages; otherwise the batch of all rows and loading |
| SubmissionComponent.SubmissionForm.SendBatch | TimeSheetWeb/src/app/features/employee/timesheet-submission/timesheet-submission.component.ts:106-122 | loading is raised and the rows' DTOs are the batch, unless a row has no project, which clears loading and sets the not-found message |
| SubmissionComponent.SubmissionForm.SubmitTimesheet | TimeSheetWeb/src/app/features/employee/timesheet-submission/timesheet-submission.component.ts:150-179 | invalid rows pruned first; duplicate or unresolved stop it; otherwise the batch and loading |
| ProjectManagement.FilteredView | TimeSheetWeb/src/app/features/manager/project-management/project-management.component.ts:170-178 | a project is shown exactly when code or name contains the term, ignoring case, and it is active if the switch is on |
| ProjectManagement.FilteredViewIsSubsequence | TimeSheetWeb/src/app/features/manager/project-management/project-management.component.ts:171 | the view keeps the list's order |
| ProjectManagement.EmptySearchShowsAll | TimeSheetWeb/src/app/features/manager/project-management/project-management.component.ts:172-174 | an empty term with the switch off shows the whole list |
| ProjectManagement.ReplaceFirst | TimeSheetWeb/src/app/features/manager/project-management/project-management.component.ts:129-132 | same length; only the first project with the id is replaced; unchanged when none has it |
| ProjectManagement.ReplaceFirstTouchesOnlyThatId | TimeSheetWeb/src/app/features/manager/project-management/project-management.component.ts:147-150 | projects with other ids stay; the reply is in the list when the id was |
| ProjectManagement.ToggledCopy | TimeSheetWeb/src/app/features/manager/project-management/project-management.component.ts:144 | the active flag negated and every other field kept |
| ProjectManagement.LoadFailedMessage | TimeSheetWeb/src/app/features/manager/project-management/project-management.component.ts:70 | the error's text, else its status, else "Unknown error", after the fixed prefix |
| ProjectManagement.ProjectList.constructor | TimeSheetWeb/src/app/features/manager/project-management/project-management.component.ts:25-34 | empty list, empty search, active-only switch on, not editing, no error |
| ProjectManagement.ProjectList.ApplyFilters | TimeSheetWeb/src/app/features/manager/project-management/project-management.component.ts:170-178 | the view becomes the filtered list; nothing else changes |
| ProjectManagement.ProjectList.ProjectsLoaded | TimeSheetWeb/src/app/features/manager/project-management/project-management.component.ts:58-67 | the list is the loaded data, the error cleared, the view refreshed |
| ProjectManagement.ProjectList.ProjectsLoadFailed | TimeSheetWeb/src/app/features/manager/project-management/project-management.component.ts:68-73 | the error set; list and view kept |
| ProjectManagement.ProjectList.OnSearch | TimeSheetWeb/src/app/features/manager/project-management/project-management.component.ts:160-163 | the term stored and the view refreshed |
| ProjectManagement.ProjectList.OnFilterChange | TimeSheetWeb/src/app/features/manager/project-management/project-management.component.ts:165-168 | the switch stored and the view refreshed |
| ProjectManagement.ProjectList.OpenCreateForm | TimeSheetWeb/src/app/features/manager/project-management/project-management.component.ts:77-83 | edit mode left and no project being edited |
| ProjectManagement.ProjectList.EditProject | TimeSheetWeb/src/app/features/manager/project-management/project-management.component.ts:90-96 | edit mode on; the edited id is the project's id, or none when missing or 0 |
| ProjectManagement.ProjectList.CreateProject | TimeSheetWeb/src/app/features/manager/project-management/project-management.component.ts:108-121 | the created project appended and the view refreshed, or the create error set |
| ProjectManagement.ProjectList.UpdateProject | TimeSheetWeb/src/app/features/manager/project-management/project-management.component.ts:123-141 | sent exactly when an id is being edited; the reply replaces the first project with that id, or the update error is set |
| ProjectManagement.ProjectList.ToggleProjectStatus | TimeSheetWeb/src/app/features/manager/project-management/project-management.component.ts:143-158 | sends the negated copy to `id or 0`; the reply replaces the first project with that id, or the toggle error is set |
| Selectors.SelectByStatus | TimeSheetWeb/src/app/store/timesheet.selectors.ts:21-24 | exactly the timesheets with that status |
| Selectors.SelectionsAreSubsequences | TimeSheetWeb/src/app/store/timesheet.selectors.ts:21-39 | each of the four views keeps the store's order |
| Selectors.SelectionsDisjoint | TimeSheetWeb/src/app/store/timesheet.selectors.ts:21-39 | no timesheet is in two views |
| Selectors.SelectionCountsAddUp | TimeSheetWeb/src/app/store/timesheet.selectors.ts:21-39 | when every status is one of the four, the view sizes add up to the list's |

## Left out

- HTTP controllers, routing, authentication, JWT tokens and role attributes: these are the transport around the services, not their logic.
- AutoMapper DTO mapping: a result is the stored row itself rather than its DTO copy.
- Entity Framework transactions, change tracking across requests and concurrent requests: each service call runs alone on one consistent snapshot.
- Null strings and null DTOs: strings are never null in the model.
- `decimal` arithmetic: server hours are exact hundredths, and `decimal(5,2)` overflow is not modelled.
- Time zones: a calendar day is the tick count divided by a day's ticks.
- SQL collation: string comparison is exact.
- Text.Lower: maps only the ASCII letters, whereas .NET `ToLower` and JavaScript `toLowerCase` are Unicode-aware.
- TimesheetService.TimesheetService.SubmitTimesheets: all items share one `now`, because the clock is a parameter; the source reads the clock for each item.
- AssignmentService.AssignmentService.CreateAssignments: all items share one `now`, for the same reason.
- TimesheetService.TimesheetService.ApproveTimesheet: the "Timesheet not found." branch after a positive strategy answer is omitted, because the only strategy answers no for a missing timesheet.
- TimesheetService.TimesheetService.RejectTimesheet: the same branch is omitted for the same reason.
- Reports.Percentage: computes with exact reals, whereas the source divides `decimal` values and rounds.
- The constructors of the three services require a table that already satisfies the service's invariant: rows the services did not write are outside the model.
- The NgRx reducer, effects and `selectAll`: the selectors take the store's list as given. Its order comes from the entity adapter, which is not modelled.
- SubmissionComponent.Key: joins date and code with '-', so two different (date, code) pairs can collide when a code contains '-'; this is the source's behaviour and is kept.
- SubmissionComponent.SubmissionForm.RemoveEntry: a negative index, which Angular's `FormArray.removeAt` counts from the end, leaves the rows unchanged here.
- `getUserId`, `fetchProjects` and `fetchTimesheets` of the submission form: local storage and HTTP reads; the loaded projects are the constructor's parameter.
- `submitDraftTimesheet` and `deleteTimesheet` of the submission form: thin wrappers around an HTTP call and a confirmation dialog.
- `closeForm`, `onSubmit` and the reactive form's own state in the project page: `onSubmit` only dispatches to `createProject` or `updateProject` when the form is valid.
- Form validity in the project page: the form's validators are not modelled.
- The `createdAt` field of the client project: no operation of the page reads it. (The server's projects, assignments and timesheets keep theirs, set to `now` on create.)
- Console logging, change detection and loading indicators in the project page: they have no effect on the data.
- `GetStrategyName` and `GetReportName`: modelled as the constant functions `StrategyName` and `ReportName`, with no contract of their own.
