/** The entities of the timesheet database (the `Models` classes of the API)
    and the lookups by primary key that every service uses. */
module Models {
  import opened Wrappers
  import Seqs

  /** A `DateTime`, as its count of 100-nanosecond ticks. */
  type Instant = nat

  const TicksPerDay: nat := 864_000_000_000

  /** `DateTime.Date`: the calendar day an instant falls on. */
  function DayOf(t: Instant): nat {
    t / TicksPerDay
  }

  /** A `decimal(5,2)` amount of hours, in hundredths of an hour. */
  type Hours = int

  /** 24 hours. */
  const MaxDailyHours: Hours := 2400

  /** The four values the services write into `Timesheet.Status`. */
  datatype Status = Draft | Submitted | Approved | Rejected

  datatype User = User(id: int, name: string, email: string, role: string, isActive: bool)

  datatype Project = Project(
    id: int,
    projectCode: string,
    projectName: string,
    clientName: string,
    isBillable: bool,
    isActive: bool,
    createdAt: Instant,
    updatedAt: Option<Instant>)

  datatype ProjectAssignment = ProjectAssignment(
    id: int,
    userId: int,
    projectId: int,
    startDate: Instant,
    endDate: Option<Instant>,
    isActive: bool,
    createdAt: Instant)

  datatype Timesheet = Timesheet(
    id: int,
    userId: int,
    projectId: int,
    date: Instant,
    hoursWorked: Hours,
    description: string,
    status: Status,
    rejectionComments: Option<string>,
    createdAt: Instant,
    submittedAt: Option<Instant>,
    approvedAt: Option<Instant>,
    approvedBy: Option<int>)

  /** One consistent snapshot of the four tables. */
  datatype Db = Db(
    users: seq<User>,
    projects: seq<Project>,
    assignments: seq<ProjectAssignment>,
    timesheets: seq<Timesheet>)

  /** The exceptions the services throw, with their messages. */
  datatype Error =
    | InvalidOperation(message: string)
    | UnauthorizedAccess(message: string)
    | Argument(message: string)

  /** `GetByIdAsync` on the Users table. */
  function FindUser(users: seq<User>, id: int): (r: Option<User>)
    ensures r.Some? ==> r.value in users && r.value.id == id
    ensures r.None? <==> forall i :: 0 <= i < |users| ==> users[i].id != id
  {
    match Seqs.FirstIndex(users, (u: User) => u.id == id)
    case None => None
    case Some(i) => Some(users[i])
  }

  /** `GetByIdAsync` on the Projects table. */
  function FindProject(projects: seq<Project>, id: int): (r: Option<Project>)
    ensures r.Some? ==> r.value in projects && r.value.id == id
    ensures r.None? <==> forall i :: 0 <= i < |projects| ==> projects[i].id != id
  {
    match Seqs.FirstIndex(projects, (p: Project) => p.id == id)
    case None => None
    case Some(i) => Some(projects[i])
  }

  /** Position of the timesheet `GetByIdAsync(id)` returns. */
  function TimesheetIndex(ts: seq<Timesheet>, id: int): (r: Option<nat>)
    ensures r.Some? ==> r.value < |ts| && ts[r.value].id == id
    ensures r.Some? ==> forall j :: 0 <= j < r.value ==> ts[j].id != id
    ensures r.None? <==> forall j :: 0 <= j < |ts| ==> ts[j].id != id
  {
    Seqs.FirstIndex(ts, (t: Timesheet) => t.id == id)
  }

  /** Position of the assignment `GetByIdAsync(id)` returns. */
  function AssignmentIndex(pas: seq<ProjectAssignment>, id: int): (r: Option<nat>)
    ensures r.Some? ==> r.value < |pas| && pas[r.value].id == id
    ensures r.None? <==> forall j :: 0 <= j < |pas| ==> pas[j].id != id
  {
    Seqs.FirstIndex(pas, (a: ProjectAssignment) => a.id == id)
  }

  /** Position of the project `GetByIdAsync(id)` returns. */
  function ProjectIndex(ps: seq<Project>, id: int): (r: Option<nat>)
    ensures r.Some? ==> r.value < |ps| && ps[r.value].id == id
    ensures r.None? <==> forall j :: 0 <= j < |ps| ==> ps[j].id != id
  {
    Seqs.FirstIndex(ps, (p: Project) => p.id == id)
  }

  /** A timesheet's navigation properties `User` and `Project` resolve, so an
      `Include` (an inner join) keeps it. */
  predicate Joined(users: seq<User>, projects: seq<Project>, t: Timesheet) {
    FindUser(users, t.userId).Some? && FindProject(projects, t.projectId).Some?
  }

  /** Primary keys are unique. */
  ghost predicate UniqueTimesheetIds(ts: seq<Timesheet>) {
    forall i, j :: 0 <= i < j < |ts| ==> ts[i].id != ts[j].id
  }
}
