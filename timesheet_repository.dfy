/** The queries of `TimesheetRepository`: LINQ `Where`/`OrderBy`/`Sum`/`Any`
    over the Timesheets table, as functions of a snapshot. */
module TimesheetRepository {
  import opened Wrappers
  import opened Models
  import Seqs

  // ---------------------------------------------------------------------
  // Duplicate test (IsDuplicateTimesheetAsync)

  /** Same user, same project, same calendar day (`t.Date.Date == date.Date`). */
  predicate SameEntry(t: Timesheet, userId: int, projectId: int, date: Instant) {
    t.userId == userId && t.projectId == projectId && DayOf(t.date) == DayOf(date)
  }

  /** The optional `excludeTimesheetId` does not name `t`. */
  predicate NotExcluded(t: Timesheet, exclude: Option<int>) {
    exclude.None? || t.id != exclude.value
  }

  /** `IsDuplicateTimesheetAsync(userId, projectId, date, excludeTimesheetId)`. */
  function IsDuplicateTimesheet(ts: seq<Timesheet>, userId: int, projectId: int, date: Instant, exclude: Option<int>): (r: bool)
    ensures r <==> exists i :: 0 <= i < |ts| && SameEntry(ts[i], userId, projectId, date) && NotExcluded(ts[i], exclude)
    decreases |ts|
  {
    if ts == [] then false
    else
      || (SameEntry(ts[0], userId, projectId, date) && NotExcluded(ts[0], exclude))
      || IsDuplicateTimesheet(ts[1..], userId, projectId, date, exclude)
  }

  /** At most one timesheet per (user, project, calendar day): the unique index
      on (UserId, ProjectId, Date), read at the granularity the duplicate check
      uses. */
  ghost predicate UniqueEntries(ts: seq<Timesheet>) {
    forall i, j :: 0 <= i < j < |ts| ==> !SameEntry(ts[j], ts[i].userId, ts[i].projectId, ts[i].date)
  }

  /** In a table with unique keys and ids, a timesheet re-saved with its own
      user, project and day is not a duplicate of anything once its own id is
      excluded. */
  lemma NoSelfCollision(ts: seq<Timesheet>, i: nat)
    requires i < |ts|
    requires UniqueEntries(ts) && UniqueTimesheetIds(ts)
    ensures !IsDuplicateTimesheet(ts, ts[i].userId, ts[i].projectId, ts[i].date, Some(ts[i].id))
  {
  }

  // ---------------------------------------------------------------------
  // Hours on one day (GetTotalHoursByUserAndDateAsync)

  /** What one row adds to the user's total for `day`. */
  function DayHours(t: Timesheet, userId: int, day: nat): Hours {
    if t.userId == userId && DayOf(t.date) == day then t.hoursWorked else 0
  }

  /** Sum of `HoursWorked` over the user's timesheets on calendar day `day`,
      whatever their status. */
  function DayTotal(ts: seq<Timesheet>, userId: int, day: nat): (r: Hours)
    ensures (forall i :: 0 <= i < |ts| ==> !(ts[i].userId == userId && DayOf(ts[i].date) == day)) ==> r == 0
    ensures (forall i :: 0 <= i < |ts| ==> ts[i].hoursWorked >= 0) ==> r >= 0
    decreases |ts|
  {
    if ts == [] then 0 else DayHours(ts[0], userId, day) + DayTotal(ts[1..], userId, day)
  }

  /** `GetTotalHoursByUserAndDateAsync(userId, date)`. */
  function TotalHoursByUserAndDate(ts: seq<Timesheet>, userId: int, date: Instant): Hours {
    DayTotal(ts, userId, DayOf(date))
  }

  lemma {:induction false} DayTotalConcat(a: seq<Timesheet>, b: seq<Timesheet>, userId: int, day: nat)
    ensures DayTotal(a + b, userId, day) == DayTotal(a, userId, day) + DayTotal(b, userId, day)
    decreases |a|
  {
    if a == [] {
      assert a + b == b;
    } else {
      assert (a + b)[1..] == a[1..] + b;
      DayTotalConcat(a[1..], b, userId, day);
    }
  }

  /** Adding a row adds its hours to its owner's total for its day, and nothing elsewhere. */
  lemma DayTotalAppend(ts: seq<Timesheet>, t: Timesheet, userId: int, day: nat)
    ensures DayTotal(ts + [t], userId, day) == DayTotal(ts, userId, day) + DayHours(t, userId, day)
  {
    DayTotalConcat(ts, [t], userId, day);
  }

  /** Replacing one row changes each total by the difference of the two rows' contributions. */
  lemma DayTotalReplace(ts: seq<Timesheet>, i: nat, t: Timesheet, userId: int, day: nat)
    requires i < |ts|
    ensures DayTotal(ts[i := t], userId, day)
         == DayTotal(ts, userId, day) - DayHours(ts[i], userId, day) + DayHours(t, userId, day)
  {
    assert ts == ts[..i] + [ts[i]] + ts[i + 1..];
    assert ts[i := t] == ts[..i] + [t] + ts[i + 1..];
    DayTotalConcat(ts[..i] + [ts[i]], ts[i + 1..], userId, day);
    DayTotalConcat(ts[..i], [ts[i]], userId, day);
    DayTotalConcat(ts[..i] + [t], ts[i + 1..], userId, day);
    DayTotalConcat(ts[..i], [t], userId, day);
  }

  /** Deleting one row subtracts its contribution. */
  lemma DayTotalRemove(ts: seq<Timesheet>, i: nat, userId: int, day: nat)
    requires i < |ts|
    ensures DayTotal(Seqs.RemoveAt(ts, i), userId, day) == DayTotal(ts, userId, day) - DayHours(ts[i], userId, day)
  {
    assert ts == ts[..i] + [ts[i]] + ts[i + 1..];
    DayTotalConcat(ts[..i] + [ts[i]], ts[i + 1..], userId, day);
    DayTotalConcat(ts[..i], [ts[i]], userId, day);
    DayTotalConcat(ts[..i], ts[i + 1..], userId, day);
  }

  /** Two tables whose rows agree on owner, date and hours have the same daily
      totals: status and every other field play no part in the sum. */
  lemma {:induction false} DayTotalIgnoresStatus(ts: seq<Timesheet>, us: seq<Timesheet>, userId: int, day: nat)
    requires |ts| == |us|
    requires forall i :: 0 <= i < |ts| ==>
      ts[i].userId == us[i].userId && ts[i].date == us[i].date && ts[i].hoursWorked == us[i].hoursWorked
    ensures DayTotal(ts, userId, day) == DayTotal(us, userId, day)
    decreases |ts|
  {
    if ts != [] {
      DayTotalIgnoresStatus(ts[1..], us[1..], userId, day);
    }
  }

  // ---------------------------------------------------------------------
  // Ordering (OrderBy / OrderByDescending)

  /** The column a query orders by. */
  datatype SortKey = ByDate | BySubmittedAt

  /** The ordering value of a row; a NULL `SubmittedAt` sorts lowest, as in SQL Server. */
  function SortValue(t: Timesheet, k: SortKey): int {
    match k
    case ByDate => t.date
    case BySubmittedAt => if t.submittedAt.None? then -1 else t.submittedAt.value
  }

  predicate InOrder(a: Timesheet, b: Timesheet, k: SortKey, descending: bool) {
    if descending then SortValue(a, k) >= SortValue(b, k) else SortValue(a, k) <= SortValue(b, k)
  }

  ghost predicate SortedBy(s: seq<Timesheet>, k: SortKey, descending: bool) {
    forall i, j :: 0 <= i < j < |s| ==> InOrder(s[i], s[j], k, descending)
  }

  /** Insert `x` before the first row it may precede. */
  function Insert(x: Timesheet, s: seq<Timesheet>, k: SortKey, descending: bool): (r: seq<Timesheet>)
    ensures multiset(r) == multiset(s) + multiset{x}
    ensures |r| == |s| + 1
    decreases |s|
  {
    if s == [] || InOrder(x, s[0], k, descending) then [x] + s
    else
      assert s == [s[0]] + s[1..];
      [s[0]] + Insert(x, s[1..], k, descending)
  }

  /** Inserting into a sorted sequence keeps it sorted. */
  lemma {:induction false} InsertSorted(x: Timesheet, s: seq<Timesheet>, k: SortKey, descending: bool)
    requires SortedBy(s, k, descending)
    ensures SortedBy(Insert(x, s, k, descending), k, descending)
    decreases |s|
  {
    if !(s == [] || InOrder(x, s[0], k, descending)) {
      var rest := Insert(x, s[1..], k, descending);
      InsertSorted(x, s[1..], k, descending);
      forall j | 0 <= j < |rest| ensures InOrder(s[0], rest[j], k, descending) {
        assert rest[j] in multiset(rest);
        if rest[j] != x {
          assert rest[j] in multiset(s[1..]);
          var m :| 0 <= m < |s[1..]| && s[1..][m] == rest[j];
          assert s[m + 1] == rest[j];
        }
      }
      var r := [s[0]] + rest;
      forall a, b | 0 <= a < b < |r| ensures InOrder(r[a], r[b], k, descending) {
        assert r[b] == rest[b - 1];
        if a > 0 {
          assert r[a] == rest[a - 1];
        }
      }
    }
  }

  /** A sort by `k`: the same rows, in order. Nothing is promised about the
      relative order of rows with equal keys, as `ORDER BY` promises nothing. */
  function Sort(s: seq<Timesheet>, k: SortKey, descending: bool): (r: seq<Timesheet>)
    ensures SortedBy(r, k, descending)
    ensures multiset(r) == multiset(s)
    ensures |r| == |s|
    decreases |s|
  {
    if s == [] then []
    else
      assert s == [s[0]] + s[1..];
      var rest := Sort(s[1..], k, descending);
      InsertSorted(s[0], rest, k, descending);
      Insert(s[0], rest, k, descending)
  }

  // ---------------------------------------------------------------------
  // List queries (all of them `Include` the user and the project)

  /** `GetTimesheetsByUserIdAsync`: the user's timesheets, latest date first. */
  function TimesheetsByUser(db: Db, userId: int): (r: seq<Timesheet>)
    ensures SortedBy(r, ByDate, true)
    ensures multiset(r) == multiset(Seqs.Filter(db.timesheets, (t: Timesheet) => t.userId == userId && Joined(db.users, db.projects, t)))
    ensures forall t :: t in r <==> t in db.timesheets && t.userId == userId && Joined(db.users, db.projects, t)
  {
    var rows := Seqs.Filter(db.timesheets, (t: Timesheet) => t.userId == userId && Joined(db.users, db.projects, t));
    var r := Sort(rows, ByDate, true);
    assert forall t :: t in r <==> t in multiset(rows);
    r
  }

  /** `GetTimesheetsByStatusAsync`: the timesheets with that status, latest submission first. */
  function TimesheetsByStatus(db: Db, status: Status): (r: seq<Timesheet>)
    ensures SortedBy(r, BySubmittedAt, true)
    ensures multiset(r) == multiset(Seqs.Filter(db.timesheets, (t: Timesheet) => t.status == status && Joined(db.users, db.projects, t)))
    ensures forall t :: t in r <==> t in db.timesheets && t.status == status && Joined(db.users, db.projects, t)
  {
    var rows := Seqs.Filter(db.timesheets, (t: Timesheet) => t.status == status && Joined(db.users, db.projects, t));
    var r := Sort(rows, BySubmittedAt, true);
    assert forall t :: t in r <==> t in multiset(rows);
    r
  }

  /** `GetPendingTimesheetsAsync`: the Submitted timesheets, oldest submission first. */
  function PendingTimesheets(db: Db): (r: seq<Timesheet>)
    ensures SortedBy(r, BySubmittedAt, false)
    ensures multiset(r) == multiset(Seqs.Filter(db.timesheets, (t: Timesheet) => t.status == Submitted && Joined(db.users, db.projects, t)))
    ensures forall t :: t in r <==> t in db.timesheets && t.status == Submitted && Joined(db.users, db.projects, t)
  {
    var rows := Seqs.Filter(db.timesheets, (t: Timesheet) => t.status == Submitted && Joined(db.users, db.projects, t));
    var r := Sort(rows, BySubmittedAt, false);
    assert forall t :: t in r <==> t in multiset(rows);
    r
  }

  /** Both bounds included, full `DateTime` values compared. */
  predicate InRange(t: Timesheet, startDate: Instant, endDate: Instant) {
    startDate <= t.date <= endDate
  }

  /** `GetTimesheetsByDateRangeAsync`. The query has no `ORDER BY`; storage
      order is the model's choice among the orders the database may return. */
  function TimesheetsByDateRange(db: Db, startDate: Instant, endDate: Instant): (r: seq<Timesheet>)
    ensures Seqs.IsSubsequence(r, db.timesheets)
    ensures forall t :: t in r <==> t in db.timesheets && InRange(t, startDate, endDate) && Joined(db.users, db.projects, t)
  {
    var keep := (t: Timesheet) => InRange(t, startDate, endDate) && Joined(db.users, db.projects, t);
    Seqs.FilterMembers(db.timesheets, keep);
    Seqs.FilterIsSubsequence(db.timesheets, keep);
    Seqs.Filter(db.timesheets, keep)
  }

  /** `GetTimesheetsByUserAndDateRangeAsync`; storage order, as above. */
  function TimesheetsByUserAndDateRange(db: Db, userId: int, startDate: Instant, endDate: Instant): (r: seq<Timesheet>)
    ensures Seqs.IsSubsequence(r, db.timesheets)
    ensures forall t :: t in r <==> t in db.timesheets && t.userId == userId && InRange(t, startDate, endDate) && Joined(db.users, db.projects, t)
  {
    var keep := (t: Timesheet) => t.userId == userId && InRange(t, startDate, endDate) && Joined(db.users, db.projects, t);
    Seqs.FilterMembers(db.timesheets, keep);
    Seqs.FilterIsSubsequence(db.timesheets, keep);
    Seqs.Filter(db.timesheets, keep)
  }

  /** The per-user range query is the range query narrowed to that user, order included. */
  lemma UserRangeIsRangeOfUser(db: Db, userId: int, startDate: Instant, endDate: Instant)
    ensures TimesheetsByUserAndDateRange(db, userId, startDate, endDate)
         == Seqs.Filter(TimesheetsByDateRange(db, startDate, endDate), (t: Timesheet) => t.userId == userId)
  {
    Seqs.FilterFilter(db.timesheets,
      (t: Timesheet) => InRange(t, startDate, endDate) && Joined(db.users, db.projects, t),
      (t: Timesheet) => t.userId == userId,
      (t: Timesheet) => InRange(t, startDate, endDate) && Joined(db.users, db.projects, t) && t.userId == userId);
    Seqs.FilterExtensional(db.timesheets,
      (t: Timesheet) => InRange(t, startDate, endDate) && Joined(db.users, db.projects, t) && t.userId == userId,
      (t: Timesheet) => t.userId == userId && InRange(t, startDate, endDate) && Joined(db.users, db.projects, t));
  }
}
