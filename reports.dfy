/** `ReportFactory` and its three reports over approved timesheets. Hours are
    summed exactly, in hundredths. */
module Reports {
  import opened Wrappers
  import opened Text
  import opened Models
  import Seqs
  import opened TimesheetRepository

  datatype ReportFilter = ReportFilter(startDate: Instant, endDate: Instant, userId: Option<int>, projectId: Option<int>)

  /** The timesheet column a report narrows by or groups by. */
  datatype Field = UserField | ProjectField

  function FieldOf(t: Timesheet, field: Field): int {
    match field
    case UserField => t.userId
    case ProjectField => t.projectId
  }

  function HasKey(field: Field, k: int): Timesheet -> bool {
    (t: Timesheet) => FieldOf(t, field) == k
  }

  function LacksKey(field: Field, k: int): Timesheet -> bool {
    (t: Timesheet) => FieldOf(t, field) != k
  }

  /** `g.Sum(t => t.HoursWorked)`. */
  function HoursSum(rs: seq<Timesheet>): Hours
    decreases |rs|
  {
    if rs == [] then 0 else rs[0].hoursWorked + HoursSum(rs[1..])
  }

  /** A sum split by a predicate and its negation adds back up to the whole sum. */
  lemma {:induction false} SplitSum(rs: seq<Timesheet>, p: Timesheet -> bool, q: Timesheet -> bool)
    requires forall t :: q(t) == !p(t)
    ensures HoursSum(Seqs.Filter(rs, p)) + HoursSum(Seqs.Filter(rs, q)) == HoursSum(rs)
    decreases |rs|
  {
    if rs != [] {
      SplitSum(rs[1..], p, q);
      var x := rs[0];
      var fp, fq := Seqs.Filter(rs[1..], p), Seqs.Filter(rs[1..], q);
      assert ([x] + fp)[1..] == fp && ([x] + fq)[1..] == fq;
    }
  }

  // ---------------------------------------------------------------------
  // GroupBy

  /** One `IGrouping`: its key and its rows in their original order. */
  datatype Group = Group(key: int, members: seq<Timesheet>)

  /** LINQ `GroupBy` on a column: groups in order of their keys' first
      occurrence. */
  function GroupBy(rows: seq<Timesheet>, field: Field): (r: seq<Group>)
    decreases |rows|
  {
    if rows == [] then []
    else
      var k := FieldOf(rows[0], field);
      [Group(k, Seqs.Filter(rows, HasKey(field, k)))] + GroupBy(Rest(rows, field), field)
  }

  /** The rows after the first that `GroupBy` still has to group. */
  function Rest(rows: seq<Timesheet>, field: Field): (r: seq<Timesheet>)
    requires rows != []
    ensures |r| < |rows|
    ensures forall t :: t in r <==> t in rows[1..] && FieldOf(t, field) != FieldOf(rows[0], field)
  {
    Seqs.Filter(rows[1..], LacksKey(field, FieldOf(rows[0], field)))
  }

  predicate KeyOfSomeRow(rows: seq<Timesheet>, field: Field, k: int) {
    exists t :: t in rows && FieldOf(t, field) == k
  }

  predicate HasGroup(gs: seq<Group>, k: int) {
    exists i :: 0 <= i < |gs| && gs[i].key == k
  }

  /** Every group key is the key of some row. */
  lemma {:induction false} GroupKeysComeFromRows(rows: seq<Timesheet>, field: Field)
    ensures forall i :: 0 <= i < |GroupBy(rows, field)| ==> KeyOfSomeRow(rows, field, GroupBy(rows, field)[i].key)
    decreases |rows|
  {
    if rows != [] {
      var rest := Rest(rows, field);
      GroupKeysComeFromRows(rest, field);
      var gs := GroupBy(rows, field);
      var tail := GroupBy(rest, field);
      assert gs == [gs[0]] + tail;
      forall i | 0 <= i < |gs| ensures KeyOfSomeRow(rows, field, gs[i].key) {
        if i == 0 {
          assert rows[0] in rows;
        } else {
          assert gs[i] == tail[i - 1];
          assert KeyOfSomeRow(rest, field, tail[i - 1].key);
          var t :| t in rest && FieldOf(t, field) == tail[i - 1].key;
          assert t in rows;
        }
      }
    }
  }

  /** The groups built after the first never reuse the first row's key. */
  lemma TailKeysDiffer(rows: seq<Timesheet>, field: Field)
    requires rows != []
    ensures forall j :: 0 <= j < |GroupBy(Rest(rows, field), field)| ==>
      GroupBy(Rest(rows, field), field)[j].key != FieldOf(rows[0], field)
  {
    var rest := Rest(rows, field);
    var tail := GroupBy(rest, field);
    GroupKeysComeFromRows(rest, field);
    forall j | 0 <= j < |tail| ensures tail[j].key != FieldOf(rows[0], field) {
      assert KeyOfSomeRow(rest, field, tail[j].key);
      var t :| t in rest && FieldOf(t, field) == tail[j].key;
    }
  }

  /** Group keys are pairwise distinct. */
  lemma {:induction false} GroupKeysDistinct(rows: seq<Timesheet>, field: Field)
    ensures forall i, j :: 0 <= i < j < |GroupBy(rows, field)| ==> GroupBy(rows, field)[i].key != GroupBy(rows, field)[j].key
    decreases |rows|
  {
    if rows != [] {
      var rest := Rest(rows, field);
      GroupKeysDistinct(rest, field);
      TailKeysDiffer(rows, field);
      var gs := GroupBy(rows, field);
      var tail := GroupBy(rest, field);
      assert gs == [gs[0]] + tail;
      forall i, j | 0 <= i < j < |gs| ensures gs[i].key != gs[j].key {
        assert gs[j] == tail[j - 1];
        if i > 0 {
          assert gs[i] == tail[i - 1];
        }
      }
    }
  }

  /** Every row's key has its group. */
  lemma {:induction false} GroupKeysCoverRows(rows: seq<Timesheet>, field: Field)
    ensures forall t :: t in rows ==> HasGroup(GroupBy(rows, field), FieldOf(t, field))
    decreases |rows|
  {
    if rows != [] {
      var k := FieldOf(rows[0], field);
      var rest := Rest(rows, field);
      GroupKeysCoverRows(rest, field);
      var gs := GroupBy(rows, field);
      var tail := GroupBy(rest, field);
      assert gs == [gs[0]] + tail;
      forall t | t in rows ensures HasGroup(gs, FieldOf(t, field)) {
        if FieldOf(t, field) == k {
          assert gs[0].key == k;
        } else {
          assert rows == [rows[0]] + rows[1..];
          assert t in rest;
          assert HasGroup(tail, FieldOf(t, field));
          var i :| 0 <= i < |tail| && tail[i].key == FieldOf(t, field);
          assert gs[i + 1] == tail[i];
        }
      }
    }
  }

  /** For any other key, the rows still to group hold the same rows with that key. */
  lemma RestKeepsOtherKeys(rows: seq<Timesheet>, field: Field, k': int)
    requires rows != [] && k' != FieldOf(rows[0], field)
    ensures Seqs.Filter(Rest(rows, field), HasKey(field, k')) == Seqs.Filter(rows, HasKey(field, k'))
  {
    var k := FieldOf(rows[0], field);
    var both := (x: Timesheet) => FieldOf(x, field) != k && FieldOf(x, field) == k';
    Seqs.FilterFilter(rows[1..], LacksKey(field, k), HasKey(field, k'), both);
    Seqs.FilterExtensional(rows[1..], both, HasKey(field, k'));
  }

  /** Each group holds exactly the rows with its key, in their original order. */
  lemma {:induction false} GroupByMembers(rows: seq<Timesheet>, field: Field)
    ensures forall i :: 0 <= i < |GroupBy(rows, field)| ==>
      GroupBy(rows, field)[i].members == Seqs.Filter(rows, HasKey(field, GroupBy(rows, field)[i].key))
    decreases |rows|
  {
    if rows != [] {
      var rest := Rest(rows, field);
      GroupByMembers(rest, field);
      TailKeysDiffer(rows, field);
      var gs := GroupBy(rows, field);
      var tail := GroupBy(rest, field);
      assert gs == [gs[0]] + tail;
      forall i | 0 < i < |gs| ensures gs[i].members == Seqs.Filter(rows, HasKey(field, gs[i].key)) {
        assert gs[i] == tail[i - 1];
        RestKeepsOtherKeys(rows, field, gs[i].key);
      }
    }
  }

  function GroupsTotal(gs: seq<Group>): Hours
    decreases |gs|
  {
    if gs == [] then 0 else HoursSum(gs[0].members) + GroupsTotal(gs[1..])
  }

  /** Grouping loses and duplicates no hours: the group totals add up to the
      total of the rows. */
  lemma {:induction false} GroupByPreservesTotal(rows: seq<Timesheet>, field: Field)
    ensures GroupsTotal(GroupBy(rows, field)) == HoursSum(rows)
    decreases |rows|
  {
    if rows != [] {
      var k := FieldOf(rows[0], field);
      var rest := Seqs.Filter(rows[1..], LacksKey(field, k));
      GroupByPreservesTotal(rest, field);
      var gs := GroupBy(rows, field);
      assert gs[1..] == GroupBy(rest, field);
      assert rows == [rows[0]] + rows[1..];
      assert Seqs.Filter(rows, LacksKey(field, k)) == rest;
      SplitSum(rows, HasKey(field, k), LacksKey(field, k));
    }
  }

  // ---------------------------------------------------------------------
  // The rows each report reads

  /** `Where(t => t.<column> == id)` when the filter carries the id. */
  function Narrow(rows: seq<Timesheet>, id: Option<int>, field: Field): (r: seq<Timesheet>)
    ensures forall t :: t in r <==> t in rows && (id.Some? ==> FieldOf(t, field) == id.value)
  {
    if id.Some? then
      Seqs.FilterMembers(rows, HasKey(field, id.value));
      Seqs.Filter(rows, HasKey(field, id.value))
    else rows
  }

  function Approved(rows: seq<Timesheet>): (r: seq<Timesheet>)
    ensures forall t :: t in r <==> t in rows && t.status == Status.Approved
  {
    var keep := (t: Timesheet) => t.status == Status.Approved;
    Seqs.FilterMembers(rows, keep);
    Seqs.Filter(rows, keep)
  }

  /** The rows `EmployeeHoursReport` groups: approved, in the date range, of
      the filter's user when it names one. */
  function EmployeeScope(db: Db, f: ReportFilter): (r: seq<Timesheet>)
    ensures forall t :: t in r <==>
      && t in TimesheetsByDateRange(db, f.startDate, f.endDate)
      && t.status == Status.Approved
      && (f.userId.Some? ==> t.userId == f.userId.value)
  {
    Approved(Narrow(TimesheetsByDateRange(db, f.startDate, f.endDate), f.userId, UserField))
  }

  /** The rows `ProjectHoursReport` groups: the same with the filter's project. */
  function ProjectScope(db: Db, f: ReportFilter): (r: seq<Timesheet>)
    ensures forall t :: t in r <==>
      && t in TimesheetsByDateRange(db, f.startDate, f.endDate)
      && t.status == Status.Approved
      && (f.projectId.Some? ==> t.projectId == f.projectId.value)
  {
    Approved(Narrow(TimesheetsByDateRange(db, f.startDate, f.endDate), f.projectId, ProjectField))
  }

  /** The rows `BillableHoursReport` sums: approved and in the date range; the
      filter's user and project ids are not applied. */
  function BillableScope(db: Db, f: ReportFilter): (r: seq<Timesheet>)
    ensures forall t :: t in r <==> t in TimesheetsByDateRange(db, f.startDate, f.endDate) && t.status == Status.Approved
  {
    Approved(TimesheetsByDateRange(db, f.startDate, f.endDate))
  }

  /** `t.Project.IsBillable`. */
  predicate Billable(projects: seq<Project>, t: Timesheet) {
    FindProject(projects, t.projectId).Some? && FindProject(projects, t.projectId).value.isBillable
  }

  function BillableRow(projects: seq<Project>): Timesheet -> bool {
    (t: Timesheet) => Billable(projects, t)
  }

  function NonBillableRow(projects: seq<Project>): Timesheet -> bool {
    (t: Timesheet) => !Billable(projects, t)
  }

  function BillableSum(projects: seq<Project>, rows: seq<Timesheet>): Hours {
    HoursSum(Seqs.Filter(rows, BillableRow(projects)))
  }

  function NonBillableSum(projects: seq<Project>, rows: seq<Timesheet>): Hours {
    HoursSum(Seqs.Filter(rows, NonBillableRow(projects)))
  }

  /** Billable and non-billable hours partition the hours of any set of rows. */
  lemma BillableSplit(projects: seq<Project>, rows: seq<Timesheet>)
    ensures BillableSum(projects, rows) + NonBillableSum(projects, rows) == HoursSum(rows)
  {
    SplitSum(rows, BillableRow(projects), NonBillableRow(projects));
  }

  // ---------------------------------------------------------------------
  // EmployeeHoursReport

  datatype EmployeeHoursSummary = EmployeeHoursSummary(
    userId: int, userName: string, totalHours: Hours, billableHours: Hours, nonBillableHours: Hours)

  function UserName(users: seq<User>, id: int): string {
    match FindUser(users, id)
    case Some(u) => u.name
    case None => ""
  }

  /** One summary per group: the key, the user's name, the group's hours and
      their split by the billable flag of each row's project. */
  function EmployeeRows(users: seq<User>, projects: seq<Project>, gs: seq<Group>): (r: seq<EmployeeHoursSummary>)
    ensures |r| == |gs|
    ensures forall i :: 0 <= i < |gs| ==>
      && r[i].userId == gs[i].key
      && r[i].userName == UserName(users, gs[i].key)
      && r[i].totalHours == HoursSum(gs[i].members)
    ensures forall i :: 0 <= i < |gs| ==>
      && r[i].billableHours == BillableSum(projects, gs[i].members)
      && r[i].nonBillableHours == NonBillableSum(projects, gs[i].members)
    ensures forall i :: 0 <= i < |gs| ==> r[i].billableHours + r[i].nonBillableHours == r[i].totalHours
    decreases |gs|
  {
    if gs == [] then []
    else
      var g := gs[0];
      BillableSplit(projects, g.members);
      [EmployeeHoursSummary(g.key, UserName(users, g.key), HoursSum(g.members),
                            BillableSum(projects, g.members), NonBillableSum(projects, g.members))]
      + EmployeeRows(users, projects, gs[1..])
  }

  /** `EmployeeHoursReport.GenerateAsync`: one row per user with approved hours
      in scope, holding that user's total split into billable and non-billable. */
  function EmployeeHoursReport(db: Db, f: ReportFilter): (r: seq<EmployeeHoursSummary>)
    ensures forall i :: 0 <= i < |r| ==> r[i].billableHours + r[i].nonBillableHours == r[i].totalHours
  {
    EmployeeRows(db.users, db.projects, GroupBy(EmployeeScope(db, f), UserField))
  }

  /** No user appears twice in the employee report. */
  lemma EmployeeReportDistinct(db: Db, f: ReportFilter)
    ensures var r := EmployeeHoursReport(db, f);
      forall i, j :: 0 <= i < j < |r| ==> r[i].userId != r[j].userId
  {
    GroupKeysDistinct(EmployeeScope(db, f), UserField);
  }

  /** Every user with an approved row in scope has a row in the report. */
  lemma EmployeeReportCovers(db: Db, f: ReportFilter, t: Timesheet)
    requires t in EmployeeScope(db, f)
    ensures exists i :: 0 <= i < |EmployeeHoursReport(db, f)| && EmployeeHoursReport(db, f)[i].userId == t.userId
  {
    var rows := EmployeeScope(db, f);
    GroupKeysCoverRows(rows, UserField);
    var gs := GroupBy(rows, UserField);
    assert HasGroup(gs, FieldOf(t, UserField));
    var i :| 0 <= i < |gs| && gs[i].key == FieldOf(t, UserField);
    assert EmployeeHoursReport(db, f)[i].userId == t.userId;
  }

  /** Each row's total is the sum of that user's approved hours in scope, and
      only the filter's user appears when the filter names one. */
  lemma EmployeeReportRow(db: Db, f: ReportFilter, i: int)
    requires 0 <= i < |EmployeeHoursReport(db, f)|
    ensures var row := EmployeeHoursReport(db, f)[i];
      var mine := Seqs.Filter(EmployeeScope(db, f), HasKey(UserField, row.userId));
      && row.userName == UserName(db.users, row.userId)
      && row.totalHours == HoursSum(mine)
      && row.billableHours == BillableSum(db.projects, mine)
      && row.nonBillableHours == NonBillableSum(db.projects, mine)
      && (f.userId.Some? ==> row.userId == f.userId.value)
  {
    var rows := EmployeeScope(db, f);
    GroupByMembers(rows, UserField);
    GroupKeysComeFromRows(rows, UserField);
    assert KeyOfSomeRow(rows, UserField, GroupBy(rows, UserField)[i].key);
  }

  function EmployeeTotal(r: seq<EmployeeHoursSummary>): Hours
    decreases |r|
  {
    if r == [] then 0 else r[0].totalHours + EmployeeTotal(r[1..])
  }

  lemma {:induction false} EmployeeRowsTotal(users: seq<User>, projects: seq<Project>, gs: seq<Group>)
    ensures EmployeeTotal(EmployeeRows(users, projects, gs)) == GroupsTotal(gs)
    decreases |gs|
  {
    if gs != [] {
      EmployeeRowsTotal(users, projects, gs[1..]);
      assert EmployeeRows(users, projects, gs)[1..] == EmployeeRows(users, projects, gs[1..]);
    }
  }

  /** The rows of the employee report add up to all approved hours in scope. */
  lemma EmployeeReportAddsUp(db: Db, f: ReportFilter)
    ensures EmployeeTotal(EmployeeHoursReport(db, f)) == HoursSum(EmployeeScope(db, f))
  {
    var rows := EmployeeScope(db, f);
    EmployeeRowsTotal(db.users, db.projects, GroupBy(rows, UserField));
    GroupByPreservesTotal(rows, UserField);
  }

  // ---------------------------------------------------------------------
  // ProjectHoursReport

  datatype ProjectHoursSummary = ProjectHoursSummary(
    projectId: int, projectCode: string, projectName: string, clientName: string, isBillable: bool, totalHours: Hours)

  function ProjectSummary(projects: seq<Project>, g: Group): ProjectHoursSummary {
    match FindProject(projects, g.key)
    case Some(p) => ProjectHoursSummary(g.key, p.projectCode, p.projectName, p.clientName, p.isBillable, HoursSum(g.members))
    case None => ProjectHoursSummary(g.key, "", "", "", false, HoursSum(g.members))
  }

  /** One summary per group: the key, the group's hours, and the code, name,
      client and billable flag of the project with that key. */
  function ProjectRows(projects: seq<Project>, gs: seq<Group>): (r: seq<ProjectHoursSummary>)
    ensures |r| == |gs|
    ensures forall i :: 0 <= i < |gs| ==> r[i].projectId == gs[i].key && r[i].totalHours == HoursSum(gs[i].members)
    ensures forall i :: 0 <= i < |gs| && FindProject(projects, gs[i].key).Some? ==>
      var p := FindProject(projects, gs[i].key).value;
      && r[i].projectCode == p.projectCode
      && r[i].projectName == p.projectName
      && r[i].clientName == p.clientName
      && r[i].isBillable == p.isBillable
    decreases |gs|
  {
    if gs == [] then [] else [ProjectSummary(projects, gs[0])] + ProjectRows(projects, gs[1..])
  }

  /** `ProjectHoursReport.GenerateAsync`: one row per project with approved
      hours in scope, holding that project's total. */
  function ProjectHoursReport(db: Db, f: ReportFilter): (r: seq<ProjectHoursSummary>)
    ensures |r| == |GroupBy(ProjectScope(db, f), ProjectField)|
  {
    ProjectRows(db.projects, GroupBy(ProjectScope(db, f), ProjectField))
  }

  /** No project appears twice in the project report. */
  lemma ProjectReportDistinct(db: Db, f: ReportFilter)
    ensures var r := ProjectHoursReport(db, f);
      forall i, j :: 0 <= i < j < |r| ==> r[i].projectId != r[j].projectId
  {
    GroupKeysDistinct(ProjectScope(db, f), ProjectField);
  }

  /** Every project with an approved row in scope has a row in the report. */
  lemma ProjectReportCovers(db: Db, f: ReportFilter, t: Timesheet)
    requires t in ProjectScope(db, f)
    ensures exists i :: 0 <= i < |ProjectHoursReport(db, f)| && ProjectHoursReport(db, f)[i].projectId == t.projectId
  {
    var rows := ProjectScope(db, f);
    GroupKeysCoverRows(rows, ProjectField);
    var gs := GroupBy(rows, ProjectField);
    assert HasGroup(gs, FieldOf(t, ProjectField));
    var i :| 0 <= i < |gs| && gs[i].key == FieldOf(t, ProjectField);
    assert ProjectHoursReport(db, f)[i].projectId == t.projectId;
  }

  /** Each row's total is the sum of that project's approved hours in scope,
      and only the filter's project appears when the filter names one. */
  lemma ProjectReportRow(db: Db, f: ReportFilter, i: int)
    requires 0 <= i < |ProjectHoursReport(db, f)|
    ensures var row := ProjectHoursReport(db, f)[i];
      && row.totalHours == HoursSum(Seqs.Filter(ProjectScope(db, f), HasKey(ProjectField, row.projectId)))
      && (f.projectId.Some? ==> row.projectId == f.projectId.value)
  {
    var rows := ProjectScope(db, f);
    GroupByMembers(rows, ProjectField);
    GroupKeysComeFromRows(rows, ProjectField);
    assert KeyOfSomeRow(rows, ProjectField, GroupBy(rows, ProjectField)[i].key);
  }

  function ProjectTotal(r: seq<ProjectHoursSummary>): Hours
    decreases |r|
  {
    if r == [] then 0 else r[0].totalHours + ProjectTotal(r[1..])
  }

  lemma {:induction false} ProjectRowsTotal(projects: seq<Project>, gs: seq<Group>)
    ensures ProjectTotal(ProjectRows(projects, gs)) == GroupsTotal(gs)
    decreases |gs|
  {
    if gs != [] {
      ProjectRowsTotal(projects, gs[1..]);
      assert ProjectRows(projects, gs)[1..] == ProjectRows(projects, gs[1..]);
    }
  }

  /** The rows of the project report add up to all approved hours in scope. */
  lemma ProjectReportAddsUp(db: Db, f: ReportFilter)
    ensures ProjectTotal(ProjectHoursReport(db, f)) == HoursSum(ProjectScope(db, f))
  {
    var rows := ProjectScope(db, f);
    ProjectRowsTotal(db.projects, GroupBy(rows, ProjectField));
    GroupByPreservesTotal(rows, ProjectField);
  }

  // ---------------------------------------------------------------------
  // BillableHoursReport

  datatype BillableSummary = BillableSummary(
    totalBillableHours: Hours, totalNonBillableHours: Hours, totalHours: Hours, billablePercentage: real)

  /** `totalHours > 0 ? (totalBillable / totalHours) * 100 : 0`. */
  function Percentage(part: Hours, whole: Hours): (r: real)
    ensures whole > 0 ==> r * (whole as real) == (part as real) * 100.0
    ensures whole <= 0 ==> r == 0.0
    ensures 0 <= part <= whole ==> 0.0 <= r <= 100.0
  {
    if whole > 0 then
      var q := part as real / whole as real;
      assert q * (whole as real) == part as real;
      assert 0 <= part <= whole ==> 0.0 <= q <= 1.0;
      q * 100.0
    else 0.0
  }

  /** `BillableHoursReport.GenerateAsync`: the total is billable plus
      non-billable, and the percentage is 0 when there are no hours. */
  function BillableHoursReport(db: Db, f: ReportFilter): (r: BillableSummary)
    ensures r.totalBillableHours == BillableSum(db.projects, BillableScope(db, f))
    ensures r.totalNonBillableHours == NonBillableSum(db.projects, BillableScope(db, f))
    ensures r.totalHours == r.totalBillableHours + r.totalNonBillableHours
    ensures r.totalHours == HoursSum(BillableScope(db, f))
    ensures r.billablePercentage == Percentage(r.totalBillableHours, r.totalHours)
  {
    var rows := BillableScope(db, f);
    var b := BillableSum(db.projects, rows);
    var nb := NonBillableSum(db.projects, rows);
    BillableSplit(db.projects, rows);
    var total := b + nb;
    BillableSummary(b, nb, total, Percentage(b, total))
  }

  lemma {:induction false} HoursSumNonNegative(rs: seq<Timesheet>)
    requires forall i :: 0 <= i < |rs| ==> rs[i].hoursWorked >= 0
    ensures HoursSum(rs) >= 0
    decreases |rs|
  {
    if rs != [] {
      HoursSumNonNegative(rs[1..]);
    }
  }

  /** With no negative hours stored, the billable percentage lies between 0 and 100. */
  lemma BillablePercentageBounded(db: Db, f: ReportFilter)
    requires forall i :: 0 <= i < |db.timesheets| ==> db.timesheets[i].hoursWorked >= 0
    ensures 0.0 <= BillableHoursReport(db, f).billablePercentage <= 100.0
  {
    var rows := BillableScope(db, f);
    var bs := Seqs.Filter(rows, BillableRow(db.projects));
    var ns := Seqs.Filter(rows, NonBillableRow(db.projects));
    forall i | 0 <= i < |bs| ensures bs[i].hoursWorked >= 0 {
      assert bs[i] in db.timesheets;
    }
    forall i | 0 <= i < |ns| ensures ns[i].hoursWorked >= 0 {
      assert ns[i] in db.timesheets;
    }
    HoursSumNonNegative(bs);
    HoursSumNonNegative(ns);
  }

  lemma {:induction false} HoursSumAppend(rs: seq<Timesheet>, t: Timesheet)
    ensures HoursSum(rs + [t]) == HoursSum(rs) + t.hoursWorked
    decreases |rs|
  {
    if rs != [] {
      assert (rs + [t])[1..] == rs[1..] + [t];
      HoursSumAppend(rs[1..], t);
    }
  }

  /** A new approved row in the date range, of a known user and project,
      joins the rows of the billable report at the end. */
  lemma ApprovedRowJoinsBillableScope(db: Db, t: Timesheet, f: ReportFilter)
    requires t.status == Status.Approved && InRange(t, f.startDate, f.endDate) && Joined(db.users, db.projects, t)
    ensures BillableScope(db.(timesheets := db.timesheets + [t]), f) == BillableScope(db, f) + [t]
  {
    var inRange := (x: Timesheet) => InRange(x, f.startDate, f.endDate) && Joined(db.users, db.projects, x);
    Seqs.FilterAppend(db.timesheets, t, inRange);
    Seqs.FilterAppend(TimesheetsByDateRange(db, f.startDate, f.endDate), t, (x: Timesheet) => x.status == Status.Approved);
  }

  /** One more approved row in the range moves its hours into the billable
      total when its project is billable and into the non-billable total
      otherwise, and leaves the other total unchanged. */
  lemma ApprovedRowCountsOnItsSide(db: Db, t: Timesheet, f: ReportFilter)
    requires t.status == Status.Approved && InRange(t, f.startDate, f.endDate) && Joined(db.users, db.projects, t)
    ensures var before := BillableHoursReport(db, f);
      var after := BillableHoursReport(db.(timesheets := db.timesheets + [t]), f);
      && (Billable(db.projects, t) ==>
            after.totalBillableHours == before.totalBillableHours + t.hoursWorked
            && after.totalNonBillableHours == before.totalNonBillableHours)
      && (!Billable(db.projects, t) ==>
            after.totalNonBillableHours == before.totalNonBillableHours + t.hoursWorked
            && after.totalBillableHours == before.totalBillableHours)
  {
    ApprovedRowJoinsBillableScope(db, t, f);
    SplitSumsAppend(db.projects, BillableScope(db, f), t);
  }

  /** An appended row adds its hours to exactly one of the two sums. */
  lemma SplitSumsAppend(projects: seq<Project>, rows: seq<Timesheet>, t: Timesheet)
    ensures BillableSum(projects, rows + [t]) == BillableSum(projects, rows) + (if Billable(projects, t) then t.hoursWorked else 0)
    ensures NonBillableSum(projects, rows + [t]) == NonBillableSum(projects, rows) + (if Billable(projects, t) then 0 else t.hoursWorked)
  {
    var isB, notB := BillableRow(projects), NonBillableRow(projects);
    var bs, ns := Seqs.Filter(rows, isB), Seqs.Filter(rows, notB);
    assert isB(t) == Billable(projects, t) && notB(t) == !Billable(projects, t);
    Seqs.FilterAppend(rows, t, isB);
    Seqs.FilterAppend(rows, t, notB);
    if Billable(projects, t) {
      assert Seqs.Filter(rows + [t], isB) == bs + [t];
      assert Seqs.Filter(rows + [t], notB) == ns;
      HoursSumAppend(bs, t);
    } else {
      assert Seqs.Filter(rows + [t], isB) == bs;
      assert Seqs.Filter(rows + [t], notB) == ns + [t];
      HoursSumAppend(ns, t);
    }
  }

  // ---------------------------------------------------------------------
  // Unapproved rows do not count

  /** Appending a row to the table adds at most that row to the date-range query. */
  lemma RangeAfterAppend(db: Db, t: Timesheet, f: ReportFilter)
    ensures var range' := TimesheetsByDateRange(db.(timesheets := db.timesheets + [t]), f.startDate, f.endDate);
      range' == TimesheetsByDateRange(db, f.startDate, f.endDate)
      || range' == TimesheetsByDateRange(db, f.startDate, f.endDate) + [t]
  {
    var inRange := (x: Timesheet) => InRange(x, f.startDate, f.endDate) && Joined(db.users, db.projects, x);
    Seqs.FilterAppend(db.timesheets, t, inRange);
  }

  /** A row that is not Approved leaves the rows of all three reports unchanged. */
  lemma UnapprovedRowKeepsScopes(db: Db, t: Timesheet, f: ReportFilter)
    requires t.status != Status.Approved
    ensures var db' := db.(timesheets := db.timesheets + [t]);
      && EmployeeScope(db', f) == EmployeeScope(db, f)
      && ProjectScope(db', f) == ProjectScope(db, f)
      && BillableScope(db', f) == BillableScope(db, f)
  {
    var db' := db.(timesheets := db.timesheets + [t]);
    RangeAfterAppend(db, t, f);
    var range := TimesheetsByDateRange(db, f.startDate, f.endDate);
    var range' := TimesheetsByDateRange(db', f.startDate, f.endDate);
    ApprovedIgnores(range, range', t, f.userId, UserField);
    ApprovedIgnores(range, range', t, f.projectId, ProjectField);
    ApprovedIgnores(range, range', t, None, UserField);
  }

  /** A timesheet that is not Approved changes none of the three reports. */
  lemma UnapprovedRowIsIgnored(db: Db, t: Timesheet, f: ReportFilter)
    requires t.status != Status.Approved
    ensures var db' := db.(timesheets := db.timesheets + [t]);
      && EmployeeHoursReport(db', f) == EmployeeHoursReport(db, f)
      && ProjectHoursReport(db', f) == ProjectHoursReport(db, f)
      && BillableHoursReport(db', f) == BillableHoursReport(db, f)
  {
    UnapprovedRowKeepsScopes(db, t, f);
  }

  lemma ApprovedIgnores(range: seq<Timesheet>, range': seq<Timesheet>, t: Timesheet, id: Option<int>, field: Field)
    requires t.status != Status.Approved
    requires range' == range || range' == range + [t]
    ensures Approved(Narrow(range', id, field)) == Approved(Narrow(range, id, field))
  {
    if range' == range + [t] {
      if id.Some? {
        Seqs.FilterAppend(range, t, HasKey(field, id.value));
      }
      var n := Narrow(range, id, field);
      assert Narrow(range', id, field) == n || Narrow(range', id, field) == n + [t];
      Seqs.FilterAppend(n, t, (x: Timesheet) => x.status == Status.Approved);
    }
  }

  // ---------------------------------------------------------------------
  // ReportFactory

  datatype ReportKind = EmployeeHours | ProjectHours | BillableHours

  /** `GetReportName`. */
  function ReportName(k: ReportKind): string {
    match k
    case EmployeeHours => "EmployeeHours"
    case ProjectHours => "ProjectHours"
    case BillableHours => "BillableHours"
  }

  /** The lower-cased names `CreateReport` compares against. */
  function LowerName(k: ReportKind): string {
    match k
    case EmployeeHours => "employeehours"
    case ProjectHours => "projecthours"
    case BillableHours => "billablehours"
  }

  lemma LowerReportName(k: ReportKind)
    ensures Lower(ReportName(k)) == LowerName(k)
  {
    match k
    case EmployeeHours => LowerLiteral("EmployeeHours", "employeehours");
    case ProjectHours => LowerLiteral("ProjectHours", "projecthours");
    case BillableHours => LowerLiteral("BillableHours", "billablehours");
  }

  lemma LowerLiteral(s: string, t: string)
    requires |s| == |t|
    requires forall i :: 0 <= i < |s| ==> LowerChar(s[i]) == t[i]
    ensures Lower(s) == t
  {
  }

  /** `ReportFactory.CreateReport`: the type name is matched case-insensitively. */
  function CreateReport(reportType: string): (r: Result<ReportKind, Error>)
    ensures r.Success? <==> Lower(reportType) in ["employeehours", "projecthours", "billablehours"]
    ensures r.Failure? ==> r.error == Argument("Unknown report type: " + reportType)
    ensures r.Success? ==> Lower(ReportName(r.value)) == Lower(reportType)
  {
    var name := Lower(reportType);
    if name == "employeehours" then LowerReportName(EmployeeHours); Success(EmployeeHours)
    else if name == "projecthours" then LowerReportName(ProjectHours); Success(ProjectHours)
    else if name == "billablehours" then LowerReportName(BillableHours); Success(BillableHours)
    else Failure(Argument("Unknown report type: " + reportType))
  }

  /** A report's own name selects it again. */
  lemma CreateReportRoundTrip(k: ReportKind)
    ensures CreateReport(ReportName(k)) == Success(k)
  {
    LowerReportName(k);
  }

  /** The factory does not care about case. */
  lemma CreateReportIgnoresCase(reportType: string)
    ensures CreateReport(Lower(reportType)).Success? == CreateReport(reportType).Success?
    ensures CreateReport(reportType).Success? ==> CreateReport(Lower(reportType)) == CreateReport(reportType)
  {
    LowerIdempotent(reportType);
  }

  /** The result of `GenerateAsync` for each kind of report. */
  datatype ReportResult =
    | EmployeeReport(employees: seq<EmployeeHoursSummary>)
    | ProjectReport(projects: seq<ProjectHoursSummary>)
    | BillableReport(summary: BillableSummary)

  function Generate(k: ReportKind, db: Db, f: ReportFilter): ReportResult {
    match k
    case EmployeeHours => EmployeeReport(EmployeeHoursReport(db, f))
    case ProjectHours => ProjectReport(ProjectHoursReport(db, f))
    case BillableHours => BillableReport(BillableHoursReport(db, f))
  }
}
