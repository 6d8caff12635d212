/** The queries of `ProjectAssignmentRepository`: which assignments are active,
    and whether an assignment lets a user log time on a project at a date. */
module AssignmentRepository {
  import opened Wrappers
  import opened Models
  import Seqs

  /** `pa.Project.IsActive`, through the `Include`d project (a missing project
      drops the row, as an inner join does). */
  predicate ProjectIsActive(projects: seq<Project>, projectId: int) {
    var p := FindProject(projects, projectId);
    p.Some? && p.value.isActive
  }

  /** The assignment window: both bounds inclusive, no end date means open-ended. */
  predicate Covers(a: ProjectAssignment, date: Instant) {
    a.startDate <= date && (a.endDate.None? || a.endDate.value >= date)
  }

  /** `a` lets `userId` log time on `projectId` at `date`. */
  predicate Grants(projects: seq<Project>, a: ProjectAssignment, userId: int, projectId: int, date: Instant) {
    && a.userId == userId
    && a.projectId == projectId
    && a.isActive
    && ProjectIsActive(projects, a.projectId)
    && Covers(a, date)
  }

  function AnyGrants(pas: seq<ProjectAssignment>, projects: seq<Project>, userId: int, projectId: int, date: Instant): (r: bool)
    ensures r <==> exists i :: 0 <= i < |pas| && Grants(projects, pas[i], userId, projectId, date)
    decreases |pas|
  {
    if pas == [] then false
    else Grants(projects, pas[0], userId, projectId, date) || AnyGrants(pas[1..], projects, userId, projectId, date)
  }

  /** `IsUserAssignedToProjectAsync(userId, projectId, date)`. */
  function IsUserAssignedToProject(db: Db, userId: int, projectId: int, date: Instant): (r: bool)
    ensures r <==> exists a :: a in db.assignments && Grants(db.projects, a, userId, projectId, date)
  {
    AnyGrants(db.assignments, db.projects, userId, projectId, date)
  }

  /** An inactive assignment, or one on an inactive project, never grants anything. */
  lemma InactiveNeverGrants(db: Db, userId: int, projectId: int, date: Instant)
    requires forall a :: a in db.assignments && a.userId == userId && a.projectId == projectId ==>
      !a.isActive || !ProjectIsActive(db.projects, projectId)
    ensures !IsUserAssignedToProject(db, userId, projectId, date)
  {
  }

  /** An assignment that grants on two dates grants on every date between them. */
  lemma WindowIsInterval(projects: seq<Project>, a: ProjectAssignment, userId: int, projectId: int, d1: Instant, d2: Instant, d: Instant)
    requires Grants(projects, a, userId, projectId, d1) && Grants(projects, a, userId, projectId, d2)
    requires d1 <= d <= d2
    ensures Grants(projects, a, userId, projectId, d)
  {
  }

  /** The filter of both `GetActiveAssignmentsByUserIdAsync` overloads, without
      the user test: active, on an active project, not ended before `now`; the
      start date is not tested. Both users and projects are `Include`d. */
  predicate ActiveAt(db: Db, a: ProjectAssignment, now: Instant) {
    && a.isActive
    && ProjectIsActive(db.projects, a.projectId)
    && (a.endDate.None? || a.endDate.value >= now)
    && FindUser(db.users, a.userId).Some?
  }

  /** `GetActiveAssignmentsByUserIdAsync()`, the parameterless overload. */
  function ActiveAssignments(db: Db, now: Instant): (r: seq<ProjectAssignment>)
    ensures Seqs.IsSubsequence(r, db.assignments)
    ensures forall a :: a in r <==> a in db.assignments && ActiveAt(db, a, now)
  {
    var keep := (a: ProjectAssignment) => ActiveAt(db, a, now);
    Seqs.FilterMembers(db.assignments, keep);
    Seqs.FilterIsSubsequence(db.assignments, keep);
    Seqs.Filter(db.assignments, keep)
  }

  /** `GetActiveAssignmentsByUserIdAsync(userId)`. */
  function ActiveAssignmentsOfUser(db: Db, userId: int, now: Instant): (r: seq<ProjectAssignment>)
    ensures Seqs.IsSubsequence(r, db.assignments)
    ensures forall a :: a in r <==> a in db.assignments && a.userId == userId && ActiveAt(db, a, now)
  {
    var keep := (a: ProjectAssignment) => a.userId == userId && ActiveAt(db, a, now);
    Seqs.FilterMembers(db.assignments, keep);
    Seqs.FilterIsSubsequence(db.assignments, keep);
    Seqs.Filter(db.assignments, keep)
  }

  /** For the same `now`, the per-user list is the global list narrowed to the
      user, so it is a subsequence of it. */
  lemma UserListNarrowsGlobalList(db: Db, userId: int, now: Instant)
    ensures ActiveAssignmentsOfUser(db, userId, now)
         == Seqs.Filter(ActiveAssignments(db, now), (a: ProjectAssignment) => a.userId == userId)
    ensures Seqs.IsSubsequence(ActiveAssignmentsOfUser(db, userId, now), ActiveAssignments(db, now))
  {
    Seqs.FilterFilter(db.assignments,
      (a: ProjectAssignment) => ActiveAt(db, a, now),
      (a: ProjectAssignment) => a.userId == userId,
      (a: ProjectAssignment) => ActiveAt(db, a, now) && a.userId == userId);
    Seqs.FilterExtensional(db.assignments,
      (a: ProjectAssignment) => ActiveAt(db, a, now) && a.userId == userId,
      (a: ProjectAssignment) => a.userId == userId && ActiveAt(db, a, now));
    Seqs.FilterIsSubsequence(ActiveAssignments(db, now), (a: ProjectAssignment) => a.userId == userId);
  }
}
