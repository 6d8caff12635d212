/** `ProjectAssignmentService`: assigning users to projects over a date window. */
module AssignmentService {
  import opened Wrappers
  import opened Text
  import opened Models
  import Seqs
  import opened AssignmentRepository

  const UserNotFoundMessage := "User not found."
  const ProjectNotFoundMessage := "Project not found."
  const EndBeforeStartMessage := "End date cannot be before start date."
  const AssignmentNotFoundMessage := "Assignment not found."

  function BatchUserNotFoundMessage(userId: int): string {
    "User not found for UserId " + IntToString(userId) + "."
  }

  function BatchProjectNotFoundMessage(projectId: int): string {
    "Project not found for ProjectId " + IntToString(projectId) + "."
  }

  datatype AssignmentInput = AssignmentInput(userId: int, projectId: int, startDate: Instant, endDate: Option<Instant>)

  datatype AssignmentChanges = AssignmentChanges(startDate: Instant, endDate: Option<Instant>, isActive: bool)

  /** The end date, when there is one, is not before the start date. */
  predicate WindowOk(startDate: Instant, endDate: Option<Instant>) {
    endDate.None? || endDate.value >= startDate
  }

  predicate UserExists(users: seq<User>, id: int) {
    exists i :: 0 <= i < |users| && users[i].id == id
  }

  predicate ProjectExists(projects: seq<Project>, id: int) {
    exists i :: 0 <= i < |projects| && projects[i].id == id
  }

  /** The user and the project exist and the window is well-formed. */
  predicate Acceptable(users: seq<User>, projects: seq<Project>, dto: AssignmentInput) {
    UserExists(users, dto.userId) && ProjectExists(projects, dto.projectId) && WindowOk(dto.startDate, dto.endDate)
  }

  /** The checks of `CreateAssignmentAsync`, in order. */
  function CreateCheck(users: seq<User>, projects: seq<Project>, dto: AssignmentInput): (r: Option<Error>)
    ensures r.None? <==> Acceptable(users, projects, dto)
    ensures FindUser(users, dto.userId).None? ==> r == Some(InvalidOperation(UserNotFoundMessage))
    ensures FindUser(users, dto.userId).Some? && FindProject(projects, dto.projectId).None? ==>
      r == Some(InvalidOperation(ProjectNotFoundMessage))
    ensures FindUser(users, dto.userId).Some? && FindProject(projects, dto.projectId).Some? && !WindowOk(dto.startDate, dto.endDate) ==>
      r == Some(InvalidOperation(EndBeforeStartMessage))
  {
    if FindUser(users, dto.userId).None? then Some(InvalidOperation(UserNotFoundMessage))
    else if FindProject(projects, dto.projectId).None? then Some(InvalidOperation(ProjectNotFoundMessage))
    else if !WindowOk(dto.startDate, dto.endDate) then Some(InvalidOperation(EndBeforeStartMessage))
    else None
  }

  /** The checks of one item of `CreateAssignmentsAsync`: the same tests in the
      same order as a single create, with the ids in the messages. */
  function BatchCheck(users: seq<User>, projects: seq<Project>, dto: AssignmentInput): (r: Option<Error>)
    ensures r.None? <==> Acceptable(users, projects, dto)
    ensures FindUser(users, dto.userId).None? ==> r == Some(InvalidOperation(BatchUserNotFoundMessage(dto.userId)))
    ensures FindUser(users, dto.userId).Some? && FindProject(projects, dto.projectId).None? ==>
      r == Some(InvalidOperation(BatchProjectNotFoundMessage(dto.projectId)))
    ensures FindUser(users, dto.userId).Some? && FindProject(projects, dto.projectId).Some? && !WindowOk(dto.startDate, dto.endDate) ==>
      r == Some(InvalidOperation(EndBeforeStartMessage))
  {
    if FindUser(users, dto.userId).None? then Some(InvalidOperation(BatchUserNotFoundMessage(dto.userId)))
    else if FindProject(projects, dto.projectId).None? then Some(InvalidOperation(BatchProjectNotFoundMessage(dto.projectId)))
    else if !WindowOk(dto.startDate, dto.endDate) then Some(InvalidOperation(EndBeforeStartMessage))
    else None
  }

  /** The row a create adds: active, created at `now`. */
  function NewAssignment(id: int, dto: AssignmentInput, now: Instant): ProjectAssignment {
    ProjectAssignment(id, dto.userId, dto.projectId, dto.startDate, dto.endDate, true, now)
  }

  /** The position of the first item of a batch that fails its checks, or the
      batch's length when none does. */
  function FirstRejected(users: seq<User>, projects: seq<Project>, dtos: seq<AssignmentInput>): (k: nat)
    ensures k <= |dtos|
    ensures forall j :: 0 <= j < k ==> Acceptable(users, projects, dtos[j])
    ensures k < |dtos| ==> !Acceptable(users, projects, dtos[k])
    decreases |dtos|
  {
    if dtos == [] then 0
    else if !Acceptable(users, projects, dtos[0]) then 0
    else 1 + FirstRejected(users, projects, dtos[1..])
  }

  /** `FirstRejected` is the one position before which every item passes and
      at which the batch ends or an item fails. */
  lemma {:induction false} FirstRejectedIs(users: seq<User>, projects: seq<Project>, dtos: seq<AssignmentInput>, k: nat)
    requires k <= |dtos|
    requires forall j :: 0 <= j < k ==> Acceptable(users, projects, dtos[j])
    requires k < |dtos| ==> !Acceptable(users, projects, dtos[k])
    ensures FirstRejected(users, projects, dtos) == k
    decreases k
  {
    if k > 0 {
      assert Acceptable(users, projects, dtos[0]);
      forall j | 0 <= j < k - 1 ensures Acceptable(users, projects, dtos[1..][j]) {
        assert dtos[1..][j] == dtos[j + 1];
      }
      if k - 1 < |dtos[1..]| {
        assert dtos[1..][k - 1] == dtos[k];
      }
      FirstRejectedIs(users, projects, dtos[1..], k - 1);
    }
  }

  /** The rows the first `k` items of a batch add, numbered from `firstId`. */
  function CreatedRows(dtos: seq<AssignmentInput>, k: nat, firstId: int, now: Instant): (r: seq<ProjectAssignment>)
    requires k <= |dtos|
    ensures |r| == k
  {
    if k == 0 then []
    else CreatedRows(dtos, k - 1, firstId, now) + [NewAssignment(firstId + k - 1, dtos[k - 1], now)]
  }

  lemma CreatedRowsStep(dtos: seq<AssignmentInput>, k: nat, firstId: int, now: Instant)
    requires k < |dtos|
    ensures CreatedRows(dtos, k + 1, firstId, now) == CreatedRows(dtos, k, firstId, now) + [NewAssignment(firstId + k, dtos[k], now)]
  {
  }

  /** The rows of a batch are the items' rows, in the items' order, with
      consecutive ids from `firstId`, all active and created at `now`. */
  lemma {:induction false} CreatedRowsAt(dtos: seq<AssignmentInput>, k: nat, firstId: int, now: Instant)
    requires k <= |dtos|
    ensures forall j :: 0 <= j < k ==> CreatedRows(dtos, k, firstId, now)[j] == NewAssignment(firstId + j, dtos[j], now)
  {
    if k > 0 {
      CreatedRowsAt(dtos, k - 1, firstId, now);
    }
  }

  /** Every row has a unique id below the next one, an existing user and
      project, and a well-formed window. */
  ghost predicate TableInvariant(users: seq<User>, projects: seq<Project>, pas: seq<ProjectAssignment>, nextId: int) {
    && (forall i, j :: 0 <= i < j < |pas| ==> pas[i].id != pas[j].id)
    && (forall i :: 0 <= i < |pas| ==> pas[i].id < nextId)
    && (forall i :: 0 <= i < |pas| ==> RowOk(users, projects, pas[i]))
  }

  ghost predicate RowOk(users: seq<User>, projects: seq<Project>, a: ProjectAssignment) {
    UserExists(users, a.userId) && ProjectExists(projects, a.projectId) && WindowOk(a.startDate, a.endDate)
  }

  /** Adding the rows of accepted items, with fresh consecutive ids, keeps the invariant. */
  lemma AppendKeepsInvariant(users: seq<User>, projects: seq<Project>, pas: seq<ProjectAssignment>, nextId: int,
                             dto: AssignmentInput, now: Instant)
    requires TableInvariant(users, projects, pas, nextId)
    requires Acceptable(users, projects, dto)
    ensures TableInvariant(users, projects, pas + [NewAssignment(nextId, dto, now)], nextId + 1)
  {
  }

  /** Replacing a row by one with the same id that is itself consistent keeps the invariant. */
  lemma ReplaceKeepsInvariant(users: seq<User>, projects: seq<Project>, pas: seq<ProjectAssignment>, nextId: int,
                              i: nat, a: ProjectAssignment)
    requires TableInvariant(users, projects, pas, nextId)
    requires i < |pas| && a.id == pas[i].id && RowOk(users, projects, a)
    ensures TableInvariant(users, projects, pas[i := a], nextId)
  {
  }

  /** Removing a row keeps the invariant. */
  lemma RemoveKeepsInvariant(users: seq<User>, projects: seq<Project>, pas: seq<ProjectAssignment>, nextId: int, i: nat)
    requires TableInvariant(users, projects, pas, nextId)
    requires i < |pas|
    ensures TableInvariant(users, projects, Seqs.RemoveAt(pas, i), nextId)
  {
    var us := Seqs.RemoveAt(pas, i);
    forall a, b | 0 <= a < b < |us| ensures us[a].id != us[b].id {
      var a', b' := if a < i then a else a + 1, if b < i then b else b + 1;
      assert us[a] == pas[a'] && us[b] == pas[b'];
    }
  }

  class AssignmentService {
    var assignments: seq<ProjectAssignment>
    var nextId: int
    const users: seq<User>
    const projects: seq<Project>

    ghost predicate Valid()
      reads this
    {
      TableInvariant(users, projects, assignments, nextId)
    }

    constructor (users: seq<User>, projects: seq<Project>, assignments: seq<ProjectAssignment>, nextId: int)
      requires TableInvariant(users, projects, assignments, nextId)
      ensures Valid()
      ensures this.users == users && this.projects == projects
      ensures this.assignments == assignments && this.nextId == nextId
    {
      this.users := users;
      this.projects := projects;
      this.assignments := assignments;
      this.nextId := nextId;
    }

    /** `GetActiveUserAssignmentsAsync()`. */
    method GetActiveAssignments(now: Instant) returns (r: seq<ProjectAssignment>)
      ensures forall a :: a in r <==> a in assignments && ActiveAt(Db(users, projects, assignments, []), a, now)
      ensures Seqs.IsSubsequence(r, assignments)
    {
      r := ActiveAssignments(Db(users, projects, assignments, []), now);
    }

    /** `GetActiveUserAssignmentsAsync(userId)`. */
    method GetActiveAssignmentsOfUser(userId: int, now: Instant) returns (r: seq<ProjectAssignment>)
      ensures forall a :: a in r <==> a in assignments && a.userId == userId
                                      && ActiveAt(Db(users, projects, assignments, []), a, now)
      ensures Seqs.IsSubsequence(r, assignments)
    {
      r := ActiveAssignmentsOfUser(Db(users, projects, assignments, []), userId, now);
    }

    /** `CreateAssignmentAsync`. */
    method CreateAssignment(dto: AssignmentInput, now: Instant) returns (r: Result<ProjectAssignment, Error>)
      requires Valid()
      modifies this
      ensures Valid()
      ensures var e := CreateCheck(users, projects, dto);
        if e.Some? then r == Failure(e.value) && assignments == old(assignments) && nextId == old(nextId)
        else
          && r == Success(NewAssignment(old(nextId), dto, now))
          && assignments == old(assignments) + [r.value]
          && nextId == old(nextId) + 1
    {
      var e := CreateCheck(users, projects, dto);
      if e.Some? {
        r := Failure(e.value);
        return;
      }
      var a := Add(dto, now);
      r := Success(a);
    }

    /** `AddAsync` and `SaveChangesAsync` of an assignment that passed its checks. */
    method Add(dto: AssignmentInput, now: Instant) returns (a: ProjectAssignment)
      requires Valid() && Acceptable(users, projects, dto)
      modifies this`assignments, this`nextId
      ensures Valid()
      ensures a == NewAssignment(old(nextId), dto, now)
      ensures assignments == old(assignments) + [a] && nextId == old(nextId) + 1
    {
      a := NewAssignment(nextId, dto, now);
      AppendKeepsInvariant(users, projects, assignments, nextId, dto, now);
      assignments := assignments + [a];
      nextId := nextId + 1;
    }

    /** `CreateAssignmentsAsync`: each item is saved as soon as it passes, so
        when an item fails the ones before it stay in the table. */
    method CreateAssignments(dtos: seq<AssignmentInput>, now: Instant) returns (r: Result<seq<ProjectAssignment>, Error>)
      requires Valid()
      modifies this`assignments, this`nextId
      ensures Valid()
      ensures var k := FirstRejected(users, projects, dtos);
        assignments == old(assignments) + CreatedRows(dtos, k, old(nextId), now) && nextId == old(nextId) + k
      ensures var k := FirstRejected(users, projects, dtos);
        k < |dtos| ==> r == Failure(BatchCheck(users, projects, dtos[k]).value)
      ensures FirstRejected(users, projects, dtos) == |dtos| ==> r == Success(CreatedRows(dtos, |dtos|, old(nextId), now))
    {
      var k := 0;
      var created: seq<ProjectAssignment> := [];
      ghost var firstId := nextId;
      ghost var n := FirstRejected(users, projects, dtos);
      while k < |dtos|
        invariant 0 <= k <= n
        invariant created == CreatedRows(dtos, k, firstId, now)
        invariant assignments == old(assignments) + created
        invariant nextId == firstId + k
        invariant Valid()
      {
        var e := BatchCheck(users, projects, dtos[k]);
        if e.Some? {
          assert k == n;
          r := Failure(e.value);
          return;
        }
        assert Acceptable(users, projects, dtos[k]) && k < n;
        CreatedRowsStep(dtos, k, firstId, now);
        var a := Add(dtos[k], now);
        assert assignments == old(assignments) + (created + [a]);
        created := created + [a];
        k := k + 1;
      }
      r := Success(created);
    }

    /** `UpdateAssignmentAsync`: replaces the window and the active flag. */
    method UpdateAssignment(id: int, dto: AssignmentChanges) returns (r: Result<ProjectAssignment, Error>)
      requires Valid()
      modifies this
      ensures Valid() && nextId == old(nextId)
      ensures var i := AssignmentIndex(old(assignments), id);
        if i.None? then r == Failure(InvalidOperation(AssignmentNotFoundMessage)) && assignments == old(assignments)
        else if !WindowOk(dto.startDate, dto.endDate) then
          r == Failure(InvalidOperation(EndBeforeStartMessage)) && assignments == old(assignments)
        else
          && r == Success(old(assignments)[i.value].(startDate := dto.startDate, endDate := dto.endDate, isActive := dto.isActive))
          && assignments == old(assignments)[i.value := r.value]
    {
      var i := AssignmentIndex(assignments, id);
      if i.None? {
        r := Failure(InvalidOperation(AssignmentNotFoundMessage));
        return;
      }
      if !WindowOk(dto.startDate, dto.endDate) {
        r := Failure(InvalidOperation(EndBeforeStartMessage));
        return;
      }
      var a := assignments[i.value].(startDate := dto.startDate, endDate := dto.endDate, isActive := dto.isActive);
      assert RowOk(users, projects, assignments[i.value]);
      ReplaceKeepsInvariant(users, projects, assignments, nextId, i.value, a);
      assignments := assignments[i.value := a];
      r := Success(a);
    }

    /** `DeleteAssignmentAsync`. */
    method DeleteAssignment(id: int) returns (r: Result<(), Error>)
      requires Valid()
      modifies this
      ensures Valid() && nextId == old(nextId)
      ensures var i := AssignmentIndex(old(assignments), id);
        if i.None? then r == Failure(InvalidOperation(AssignmentNotFoundMessage)) && assignments == old(assignments)
        else r == Success(()) && assignments == Seqs.RemoveAt(old(assignments), i.value)
    {
      var i := AssignmentIndex(assignments, id);
      if i.None? {
        r := Failure(InvalidOperation(AssignmentNotFoundMessage));
        return;
      }
      RemoveKeepsInvariant(users, projects, assignments, nextId, i.value);
      assignments := Seqs.RemoveAt(assignments, i.value);
      r := Success(());
    }
  }
}
