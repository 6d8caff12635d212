/** `ProjectService`: the project catalogue, whose codes are unique. */
module ProjectService {
  import opened Wrappers
  import opened Models
  import Seqs

  const ProjectNotFoundMessage := "Project not found."

  function DuplicateCodeMessage(code: string): string {
    "Project code '" + code + "' already exists."
  }

  datatype ProjectInput = ProjectInput(projectCode: string, projectName: string, clientName: string, isBillable: bool)

  datatype ProjectChanges = ProjectChanges(projectName: string, clientName: string, isBillable: bool, isActive: bool)

  /** `Projects.AnyAsync(p => p.ProjectCode == code)`. */
  function CodeTaken(projects: seq<Project>, code: string): (r: bool)
    ensures r <==> exists i :: 0 <= i < |projects| && projects[i].projectCode == code
  {
    Seqs.FirstIndex(projects, (p: Project) => p.projectCode == code).Some?
  }

  /** `GetActiveProjectsAsync`: the active projects, in table order. */
  function ActiveProjects(projects: seq<Project>): (r: seq<Project>)
    ensures Seqs.IsSubsequence(r, projects)
    ensures forall p :: p in r <==> p in projects && p.isActive
  {
    var keep := (p: Project) => p.isActive;
    Seqs.FilterMembers(projects, keep);
    Seqs.FilterIsSubsequence(projects, keep);
    Seqs.Filter(projects, keep)
  }

  /** Ids and codes are unique, and every id is below the next one handed out. */
  ghost predicate CatalogueInvariant(projects: seq<Project>, nextId: int) {
    && (forall i, j :: 0 <= i < j < |projects| ==> projects[i].id != projects[j].id)
    && (forall i, j :: 0 <= i < j < |projects| ==> projects[i].projectCode != projects[j].projectCode)
    && (forall i :: 0 <= i < |projects| ==> projects[i].id < nextId)
  }

  function WithActive(p: Project, active: bool, now: Instant): Project {
    p.(isActive := active, updatedAt := Some(now))
  }

  /** After its flag is set, the project at `i` is in the active list exactly
      when the flag is true. */
  lemma SetActiveDecidesMembership(projects: seq<Project>, nextId: int, i: nat, active: bool, now: Instant)
    requires CatalogueInvariant(projects, nextId)
    requires i < |projects|
    ensures var ps := projects[i := WithActive(projects[i], active, now)];
      active <==> exists p :: p in ActiveProjects(ps) && p.id == projects[i].id
  {
    var ps := projects[i := WithActive(projects[i], active, now)];
    if active {
      assert ps[i] in ps;
      assert ps[i] in ActiveProjects(ps);
    } else {
      forall p | p in ActiveProjects(ps) ensures p.id != projects[i].id {
        assert p in ps && p.isActive;
        var j :| 0 <= j < |ps| && ps[j] == p;
        assert j != i;
      }
    }
  }

  /** Setting the flag of the project at `i` leaves every other project's
      membership of the active list as it was. */
  lemma SetActiveLeavesOthers(projects: seq<Project>, nextId: int, i: nat, active: bool, now: Instant, p: Project)
    requires CatalogueInvariant(projects, nextId)
    requires i < |projects|
    requires p.id != projects[i].id
    ensures p in ActiveProjects(projects[i := WithActive(projects[i], active, now)]) <==> p in ActiveProjects(projects)
  {
    var ps := projects[i := WithActive(projects[i], active, now)];
    if p in projects {
      var j :| 0 <= j < |projects| && projects[j] == p;
      assert ps[j] == p;
    }
    if p in ps {
      var j :| 0 <= j < |ps| && ps[j] == p;
      assert projects[j] == p;
    }
  }

  class ProjectService {
    var projects: seq<Project>
    var nextId: int

    ghost predicate Valid()
      reads this
    {
      CatalogueInvariant(projects, nextId)
    }

    constructor (projects: seq<Project>, nextId: int)
      requires CatalogueInvariant(projects, nextId)
      ensures Valid() && this.projects == projects && this.nextId == nextId
    {
      this.projects := projects;
      this.nextId := nextId;
    }

    /** `GetAllProjectsAsync`: every project, in table order. */
    method GetAllProjects() returns (r: seq<Project>)
      ensures r == projects
    {
      r := projects;
    }

    /** `GetActiveProjectsAsync`. */
    method GetActiveProjects() returns (r: seq<Project>)
      ensures forall p :: p in r <==> p in projects && p.isActive
      ensures Seqs.IsSubsequence(r, projects)
    {
      r := ActiveProjects(projects);
    }

    /** `GetProjectByIdAsync`. */
    method GetProjectById(id: int) returns (r: Option<Project>)
      ensures r.Some? ==> r.value in projects && r.value.id == id
      ensures r.None? <==> forall i :: 0 <= i < |projects| ==> projects[i].id != id
    {
      r := FindProject(projects, id);
    }

    /** `CreateProjectAsync`: refuses a code already in the table; otherwise adds
        an active project with no update time. */
    method CreateProject(dto: ProjectInput, now: Instant) returns (r: Result<Project, Error>)
      requires Valid()
      modifies this
      ensures Valid()
      ensures if CodeTaken(old(projects), dto.projectCode) then
          r == Failure(InvalidOperation(DuplicateCodeMessage(dto.projectCode)))
          && projects == old(projects) && nextId == old(nextId)
        else
          && r == Success(Project(old(nextId), dto.projectCode, dto.projectName, dto.clientName, dto.isBillable, true, now, None))
          && projects == old(projects) + [r.value]
          && nextId == old(nextId) + 1
    {
      if CodeTaken(projects, dto.projectCode) {
        r := Failure(InvalidOperation(DuplicateCodeMessage(dto.projectCode)));
        return;
      }
      var p := Project(nextId, dto.projectCode, dto.projectName, dto.clientName, dto.isBillable, true, now, None);
      projects := projects + [p];
      nextId := nextId + 1;
      r := Success(p);
    }

    /** `UpdateProjectAsync`: the code and creation time are kept; name, client,
        billable and active flags are replaced and the update time set. */
    method UpdateProject(id: int, dto: ProjectChanges, now: Instant) returns (r: Result<Project, Error>)
      requires Valid()
      modifies this
      ensures Valid() && nextId == old(nextId)
      ensures var i := ProjectIndex(old(projects), id);
        if i.None? then r == Failure(InvalidOperation(ProjectNotFoundMessage)) && projects == old(projects)
        else
          var p := old(projects)[i.value];
          && r == Success(p.(projectName := dto.projectName, clientName := dto.clientName, isBillable := dto.isBillable,
                             isActive := dto.isActive, updatedAt := Some(now)))
          && projects == old(projects)[i.value := r.value]
    {
      var i := ProjectIndex(projects, id);
      if i.None? {
        r := Failure(InvalidOperation(ProjectNotFoundMessage));
        return;
      }
      var p := projects[i.value].(projectName := dto.projectName, clientName := dto.clientName,
                                  isBillable := dto.isBillable, isActive := dto.isActive, updatedAt := Some(now));
      projects := projects[i.value := p];
      r := Success(p);
    }

    /** `DeactivateProjectAsync`: afterwards no project with that id is listed as active. */
    method DeactivateProject(id: int, now: Instant) returns (r: Result<(), Error>)
      requires Valid()
      modifies this
      ensures Valid() && nextId == old(nextId)
      ensures var i := ProjectIndex(old(projects), id);
        if i.None? then r == Failure(InvalidOperation(ProjectNotFoundMessage)) && projects == old(projects)
        else r == Success(()) && projects == old(projects)[i.value := WithActive(old(projects)[i.value], false, now)]
      ensures r.Success? ==> forall p :: p in ActiveProjects(projects) ==> p.id != id
    {
      var i := ProjectIndex(projects, id);
      if i.None? {
        r := Failure(InvalidOperation(ProjectNotFoundMessage));
        return;
      }
      SetActiveDecidesMembership(projects, nextId, i.value, false, now);
      projects := projects[i.value := WithActive(projects[i.value], false, now)];
      r := Success(());
    }

    /** `ActivateProjectAsync`: afterwards the project is listed as active. */
    method ActivateProject(id: int, now: Instant) returns (r: Result<(), Error>)
      requires Valid()
      modifies this
      ensures Valid() && nextId == old(nextId)
      ensures var i := ProjectIndex(old(projects), id);
        if i.None? then r == Failure(InvalidOperation(ProjectNotFoundMessage)) && projects == old(projects)
        else r == Success(()) && projects == old(projects)[i.value := WithActive(old(projects)[i.value], true, now)]
      ensures r.Success? ==> exists p :: p in ActiveProjects(projects) && p.id == id
    {
      var i := ProjectIndex(projects, id);
      if i.None? {
        r := Failure(InvalidOperation(ProjectNotFoundMessage));
        return;
      }
      SetActiveDecidesMembership(projects, nextId, i.value, true, now);
      projects := projects[i.value := WithActive(projects[i.value], true, now)];
      r := Success(());
    }
  }
}
