/** The validator chain of `TimesheetValidationDecorator.cs`: a base field check
    wrapped by three decorators (duplicate entry, 24-hour daily cap, project
    assignment). Every link only reads the store and answers `(IsValid,
    ErrorMessage)`; a decorator runs its wrapped validator first and returns
    that answer unchanged when it is a failure. */
module TimesheetValidation {
  import opened Wrappers
  import opened Text
  import opened Models
  import opened TimesheetRepository
  import opened AssignmentRepository

  /** `CreateTimesheetDto` and `UpdateTimesheetDto`, which have the same fields. */
  datatype TimesheetInput = TimesheetInput(projectId: int, date: Instant, hoursWorked: Hours, description: string)

  /** Which entry point is called: `ValidateAsync(dto, userId)` or
      `ValidateUpdateAsync(dto, timesheetId, userId)`. */
  datatype Request =
    | CreateRequest(dto: TimesheetInput)
    | UpdateRequest(dto: TimesheetInput, timesheetId: int)

  datatype ValidationResult = ValidationResult(isValid: bool, errorMessage: string)

  const Pass := ValidationResult(true, "")

  const HoursRangeMessage := "Hours worked must be between 0.1 and 24."
  const DescriptionRequiredMessage := "Description is required."
  const DuplicateEntryMessage := "A timesheet entry already exists for this project and date."
  const TimesheetNotFoundMessage := "Timesheet not found."
  const NotAssignedMessage := "You are not assigned to this project for the specified date."

  function DailyCapMessage(total: Hours): (m: string)
    ensures |m| > 0
  {
    "Total hours for the day cannot exceed 24. Current total: " + HundredthsToString(total) + " hours."
  }

  // ---------------------------------------------------------------------
  // The four links

  /** The range test of `BaseTimesheetValidator`: strictly positive, at most 24. */
  predicate HoursInRange(h: Hours) {
    0 < h <= MaxDailyHours
  }

  /** `BaseTimesheetValidator`, identical for create and update: hours first,
      then the description. */
  function FieldCheck(dto: TimesheetInput): (r: ValidationResult)
    ensures r.isValid <==> HoursInRange(dto.hoursWorked) && !IsBlank(dto.description)
    ensures !HoursInRange(dto.hoursWorked) ==> r.errorMessage == HoursRangeMessage
    ensures HoursInRange(dto.hoursWorked) && IsBlank(dto.description) ==> r.errorMessage == DescriptionRequiredMessage
    ensures r.isValid <==> r.errorMessage == ""
  {
    if dto.hoursWorked <= 0 || dto.hoursWorked > MaxDailyHours then ValidationResult(false, HoursRangeMessage)
    else if IsBlank(dto.description) then ValidationResult(false, DescriptionRequiredMessage)
    else Pass
  }

  /** The id the duplicate query leaves out: none on create, the edited timesheet on update. */
  function ExcludedId(req: Request): Option<int> {
    match req
    case CreateRequest(_) => None
    case UpdateRequest(_, id) => Some(id)
  }

  /** `DuplicateCheckDecorator`'s own test. */
  function DuplicateCheck(db: Db, req: Request, userId: int): (r: ValidationResult)
    ensures !r.isValid <==>
      exists i :: 0 <= i < |db.timesheets|
        && SameEntry(db.timesheets[i], userId, req.dto.projectId, req.dto.date)
        && NotExcluded(db.timesheets[i], ExcludedId(req))
    ensures r.isValid <==> r.errorMessage == ""
  {
    if IsDuplicateTimesheet(db.timesheets, userId, req.dto.projectId, req.dto.date, ExcludedId(req))
    then ValidationResult(false, DuplicateEntryMessage)
    else Pass
  }

  /** The day total the daily cap compares against. On update the edited
      timesheet's stored hours are left out, but only when its stored day is the
      new day; `None` when the edited timesheet does not exist. */
  function ExistingDayTotal(db: Db, req: Request, userId: int): (r: Option<Hours>)
    ensures req.CreateRequest? ==> r == Some(TotalHoursByUserAndDate(db.timesheets, userId, req.dto.date))
    ensures req.UpdateRequest? ==> (r.None? <==> TimesheetIndex(db.timesheets, req.timesheetId).None?)
  {
    match req
    case CreateRequest(dto) => Some(TotalHoursByUserAndDate(db.timesheets, userId, dto.date))
    case UpdateRequest(dto, id) =>
      match TimesheetIndex(db.timesheets, id)
      case None => None
      case Some(i) =>
        var stored := db.timesheets[i];
        var total := TotalHoursByUserAndDate(db.timesheets, userId, dto.date);
        Some(if DayOf(stored.date) == DayOf(dto.date) then total - stored.hoursWorked else total)
  }

  /** `DailyHoursLimitDecorator`'s own test: fails exactly when the total plus
      the new hours exceeds 24, so a day reaching exactly 24 is accepted. */
  function DailyHoursCheck(db: Db, req: Request, userId: int): (r: ValidationResult)
    ensures ExistingDayTotal(db, req, userId).None? ==> r == ValidationResult(false, TimesheetNotFoundMessage)
    ensures ExistingDayTotal(db, req, userId).Some? ==>
      (r.isValid <==> ExistingDayTotal(db, req, userId).value + req.dto.hoursWorked <= MaxDailyHours)
    ensures ExistingDayTotal(db, req, userId).Some? && !r.isValid ==>
      r.errorMessage == DailyCapMessage(ExistingDayTotal(db, req, userId).value)
    ensures r.isValid <==> r.errorMessage == ""
  {
    match ExistingDayTotal(db, req, userId)
    case None => ValidationResult(false, TimesheetNotFoundMessage)
    case Some(total) =>
      if total + req.dto.hoursWorked > MaxDailyHours then ValidationResult(false, DailyCapMessage(total))
      else Pass
  }

  /** `ProjectAssignmentDecorator`'s own test, identical for create and update. */
  function AssignmentCheck(db: Db, req: Request, userId: int): (r: ValidationResult)
    ensures r.isValid <==> exists a :: a in db.assignments && Grants(db.projects, a, userId, req.dto.projectId, req.dto.date)
    ensures !r.isValid ==> r.errorMessage == NotAssignedMessage
    ensures r.isValid <==> r.errorMessage == ""
  {
    if IsUserAssignedToProject(db, userId, req.dto.projectId, req.dto.date) then Pass
    else ValidationResult(false, NotAssignedMessage)
  }

  // ---------------------------------------------------------------------
  // Decorator composition

  /** `ITimesheetValidator` objects: the base validator and the decorators,
      each wrapping another validator. */
  datatype Validator =
    | BaseValidator
    | DuplicateCheckDecorator(inner: Validator)
    | DailyHoursLimitDecorator(inner: Validator)
    | ProjectAssignmentDecorator(inner: Validator)

  /** The chain `TimesheetService` builds in its constructor. */
  function ServiceChain(): Validator {
    ProjectAssignmentDecorator(DailyHoursLimitDecorator(DuplicateCheckDecorator(BaseValidator)))
  }

  /** The link a validator adds on top of what it wraps. */
  datatype Link = FieldRules | DuplicateRule | DailyHoursRule | AssignmentRule

  function RunLink(l: Link, db: Db, req: Request, userId: int): (r: ValidationResult)
    ensures r.isValid <==> r.errorMessage == ""
  {
    match l
    case FieldRules => FieldCheck(req.dto)
    case DuplicateRule => DuplicateCheck(db, req, userId)
    case DailyHoursRule => DailyHoursCheck(db, req, userId)
    case AssignmentRule => AssignmentCheck(db, req, userId)
  }

  /** `ValidateAsync` / `ValidateUpdateAsync` of a validator. A passing answer
      carries an empty message and a failing one a non-empty message, and a
      decorator hands back its inner validator's failure unchanged. */
  function Validate(v: Validator, db: Db, req: Request, userId: int): (r: ValidationResult)
    ensures r.isValid <==> r.errorMessage == ""
    ensures !v.BaseValidator? && !Validate(v.inner, db, req, userId).isValid ==> r == Validate(v.inner, db, req, userId)
    ensures r.isValid ==> FieldCheck(req.dto).isValid
    decreases v
  {
    match v
    case BaseValidator => FieldCheck(req.dto)
    case DuplicateCheckDecorator(inner) =>
      var b := Validate(inner, db, req, userId);
      if !b.isValid then b else DuplicateCheck(db, req, userId)
    case DailyHoursLimitDecorator(inner) =>
      var b := Validate(inner, db, req, userId);
      if !b.isValid then b else DailyHoursCheck(db, req, userId)
    case ProjectAssignmentDecorator(inner) =>
      var b := Validate(inner, db, req, userId);
      if !b.isValid then b else AssignmentCheck(db, req, userId)
  }

  /** The links of a chain, innermost (first to run) first. */
  function Links(v: Validator): (ls: seq<Link>)
    ensures |ls| >= 1 && ls[0] == FieldRules
    decreases v
  {
    match v
    case BaseValidator => [FieldRules]
    case DuplicateCheckDecorator(inner) => Links(inner) + [DuplicateRule]
    case DailyHoursLimitDecorator(inner) => Links(inner) + [DailyHoursRule]
    case ProjectAssignmentDecorator(inner) => Links(inner) + [AssignmentRule]
  }

  /** Link `i` is the first of `ls` to fail. */
  predicate FailsFirstAt(ls: seq<Link>, i: int, db: Db, req: Request, userId: int) {
    && 0 <= i < |ls|
    && !RunLink(ls[i], db, req, userId).isValid
    && forall j :: 0 <= j < i ==> RunLink(ls[j], db, req, userId).isValid
  }

  /** Reference semantics of a list of checks: run them in order, the first
      failure is the answer, all passing is `Pass`. */
  function FirstFailure(ls: seq<Link>, db: Db, req: Request, userId: int): (r: ValidationResult)
    ensures r.isValid <==> forall i :: 0 <= i < |ls| ==> RunLink(ls[i], db, req, userId).isValid
    ensures !r.isValid ==> exists i :: FailsFirstAt(ls, i, db, req, userId) && r == RunLink(ls[i], db, req, userId)
    decreases |ls|
  {
    if ls == [] then Pass
    else
      var r := RunLink(ls[0], db, req, userId);
      if !r.isValid then r
      else
        var rest := FirstFailure(ls[1..], db, req, userId);
        assert !rest.isValid ==> exists i :: FailsFirstAt(ls, i, db, req, userId) && rest == RunLink(ls[i], db, req, userId) by {
          if !rest.isValid {
            var k :| FailsFirstAt(ls[1..], k, db, req, userId) && rest == RunLink(ls[1..][k], db, req, userId);
            forall j | 0 <= j < k + 1 ensures RunLink(ls[j], db, req, userId).isValid {
              if j > 0 { assert ls[j] == ls[1..][j - 1]; }
            }
            assert FailsFirstAt(ls, k + 1, db, req, userId);
          }
        }
        rest
  }

  lemma {:induction false} FirstFailureAppend(ls: seq<Link>, l: Link, db: Db, req: Request, userId: int)
    ensures FirstFailure(ls + [l], db, req, userId)
         == (var p := FirstFailure(ls, db, req, userId); if !p.isValid then p else RunLink(l, db, req, userId))
    decreases |ls|
  {
    if ls == [] {
      assert [l][1..] == [];
    } else {
      assert (ls + [l])[1..] == ls[1..] + [l];
      FirstFailureAppend(ls[1..], l, db, req, userId);
    }
  }

  /** A decorator chain answers exactly what running its links in order,
      innermost first, answers. */
  lemma {:induction false} ChainRunsLinksInOrder(v: Validator, db: Db, req: Request, userId: int)
    ensures Validate(v, db, req, userId) == FirstFailure(Links(v), db, req, userId)
    decreases v
  {
    match v
    case BaseValidator =>
      assert Links(v)[1..] == [];
    case DuplicateCheckDecorator(inner) =>
      ChainRunsLinksInOrder(inner, db, req, userId);
      FirstFailureAppend(Links(inner), DuplicateRule, db, req, userId);
    case DailyHoursLimitDecorator(inner) =>
      ChainRunsLinksInOrder(inner, db, req, userId);
      FirstFailureAppend(Links(inner), DailyHoursRule, db, req, userId);
    case ProjectAssignmentDecorator(inner) =>
      ChainRunsLinksInOrder(inner, db, req, userId);
      FirstFailureAppend(Links(inner), AssignmentRule, db, req, userId);
  }

  /** The service's chain checks fields, then duplicates, then the daily cap,
      then the assignment, and the first failure is the answer. */
  lemma ServiceChainOrder(db: Db, req: Request, userId: int)
    ensures Links(ServiceChain()) == [FieldRules, DuplicateRule, DailyHoursRule, AssignmentRule]
    ensures Validate(ServiceChain(), db, req, userId)
         == FirstFailure([FieldRules, DuplicateRule, DailyHoursRule, AssignmentRule], db, req, userId)
  {
    ChainRunsLinksInOrder(ServiceChain(), db, req, userId);
  }

  /** What the service's chain accepts, spelled out. */
  lemma ServiceChainAccepts(db: Db, req: Request, userId: int)
    ensures Validate(ServiceChain(), db, req, userId).isValid <==>
      && HoursInRange(req.dto.hoursWorked)
      && !IsBlank(req.dto.description)
      && !IsDuplicateTimesheet(db.timesheets, userId, req.dto.projectId, req.dto.date, ExcludedId(req))
      && ExistingDayTotal(db, req, userId).Some?
      && ExistingDayTotal(db, req, userId).value + req.dto.hoursWorked <= MaxDailyHours
      && IsUserAssignedToProject(db, userId, req.dto.projectId, req.dto.date)
  {
  }
}
