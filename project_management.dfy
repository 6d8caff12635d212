/** The manager's project list page (`ProjectManagementComponent`): the loaded
    projects, the view filtered by a search term and an "active only" switch,
    and the in-list updates after the server answers a create, update or
    toggle. A server answer is a parameter: `Some(project)` for success,
    `None` for a failed request. */
module ProjectManagement {
  import opened Wrappers
  import Text
  import Seqs

  /** The page's `Project` interface; `createdAt` is not modelled. */
  datatype ClientProject = ClientProject(
    id: Option<int>, projectCode: string, projectName: string, clientName: string,
    isBillable: bool, isActive: bool)

  /** The search term, lower-cased, occurs in the lower-cased code or name. */
  predicate MatchesSearch(p: ClientProject, term: string) {
    || Text.Contains(Text.Lower(p.projectCode), Text.Lower(term))
    || Text.Contains(Text.Lower(p.projectName), Text.Lower(term))
  }

  /** `!filterActive || project.isActive`. */
  predicate MatchesActiveFilter(p: ClientProject, filterActive: bool) {
    !filterActive || p.isActive
  }

  function Shown(term: string, filterActive: bool): ClientProject -> bool {
    (p: ClientProject) => MatchesSearch(p, term) && MatchesActiveFilter(p, filterActive)
  }

  /** What `applyFilters` shows: the projects matching both the search and the active switch. */
  function FilteredView(projects: seq<ClientProject>, term: string, filterActive: bool): (r: seq<ClientProject>)
    ensures forall p :: p in r <==> p in projects && MatchesSearch(p, term) && MatchesActiveFilter(p, filterActive)
    ensures filterActive ==> forall i :: 0 <= i < |r| ==> r[i].isActive
  {
    Seqs.FilterMembers(projects, Shown(term, filterActive));
    Seqs.Filter(projects, Shown(term, filterActive))
  }

  /** The filtered view keeps the order of the list. */
  lemma FilteredViewIsSubsequence(projects: seq<ClientProject>, term: string, filterActive: bool)
    ensures Seqs.IsSubsequence(FilteredView(projects, term, filterActive), projects)
  {
    Seqs.FilterIsSubsequence(projects, Shown(term, filterActive));
  }

  /** With an empty search and the switch off, the view is the whole list. */
  lemma EmptySearchShowsAll(projects: seq<ClientProject>)
    ensures FilteredView(projects, "", false) == projects
  {
    forall i | 0 <= i < |projects| ensures Shown("", false)(projects[i]) {
      Text.ContainsEmpty(Text.Lower(projects[i].projectCode));
    }
    Seqs.FilterKeepsAll(projects, Shown("", false));
  }

  /** `findIndex(p => p.id === id)`; two missing ids compare equal, as
      `undefined === undefined` does. */
  function HasId(id: Option<int>): ClientProject -> bool {
    (p: ClientProject) => p.id == id
  }

  /** The list after `projects[index] = x` for the first project with that
      id, or unchanged when there is none. */
  function ReplaceFirst(projects: seq<ClientProject>, id: Option<int>, x: ClientProject): (r: seq<ClientProject>)
    ensures |r| == |projects|
    ensures (forall i :: 0 <= i < |projects| ==> projects[i].id != id) ==> r == projects
    ensures forall i :: 0 <= i < |projects| ==>
      r[i] == (if projects[i].id == id && forall j :: 0 <= j < i ==> projects[j].id != id then x else projects[i])
  {
    match Seqs.FirstIndex(projects, HasId(id))
    case None => projects
    case Some(i) => projects[i := x]
  }

  /** Replacing by id never changes a project with another id, and the
      replacement ends up in the list when the id was there. */
  lemma ReplaceFirstTouchesOnlyThatId(projects: seq<ClientProject>, id: Option<int>, x: ClientProject)
    ensures forall q :: q in projects && q.id != id ==> q in ReplaceFirst(projects, id, x)
    ensures (exists i :: 0 <= i < |projects| && projects[i].id == id) ==> x in ReplaceFirst(projects, id, x)
  {
    var r := ReplaceFirst(projects, id, x);
    forall q | q in projects && q.id != id ensures q in r {
      var i :| 0 <= i < |projects| && projects[i] == q;
      assert r[i] == q;
    }
    match Seqs.FirstIndex(projects, HasId(id))
    case None =>
    case Some(i) => assert r[i] == x;
  }

  /** What `toggleProjectStatus` sends: a copy with `isActive` negated. */
  function ToggledCopy(p: ClientProject): (r: ClientProject)
    ensures r.isActive == !p.isActive
    ensures r.(isActive := p.isActive) == p
  {
    p.(isActive := !p.isActive)
  }

  /** `project.id || 0`: the id the toggle request is sent to. */
  function RequestId(id: Option<int>): int {
    if id.Some? then id.value else 0
  }

  /** The message of a failed load: the error's text if non-empty, else its
      HTTP status if non-zero, else "Unknown error". */
  function LoadFailedMessage(message: Option<string>, status: Option<int>): (r: string)
    ensures message.Some? && message.value != "" ==> r == "Failed to load projects: " + message.value
    ensures (message.None? || message.value == "") && status.Some? && status.value != 0 ==>
      r == "Failed to load projects: " + Text.IntToString(status.value)
    ensures (message.None? || message.value == "") && (status.None? || status.value == 0) ==>
      r == "Failed to load projects: Unknown error"
  {
    "Failed to load projects: "
      + if message.Some? && message.value != "" then message.value
        else if status.Some? && status.value != 0 then Text.IntToString(status.value)
        else "Unknown error"
  }

  const CreateFailedMessage := "Failed to create project. Please try again."
  const UpdateFailedMessage := "Failed to update project. Please try again."
  const ToggleFailedMessage := "Failed to toggle project status. Please try again."

  /** A server request the page sends: the target id and the body. */
  datatype Request = Request(id: int, body: ClientProject)

  class ProjectList {
    var projects: seq<ClientProject>
    var filteredProjects: seq<ClientProject>
    var searchTerm: string
    var filterActive: bool
    var editingProjectId: Option<int>
    var isEditMode: bool
    var error: Option<string>

    /** Every handler ends with `applyFilters`, so the view is the filtered list. */
    ghost predicate Valid()
      reads this
    {
      filteredProjects == FilteredView(projects, searchTerm, filterActive)
    }

    constructor()
      ensures Valid()
      ensures projects == [] && searchTerm == "" && filterActive && editingProjectId.None? && !isEditMode && error.None?
    {
      projects := [];
      filteredProjects := [];
      searchTerm := "";
      filterActive := true;
      editingProjectId := None;
      isEditMode := false;
      error := None;
    }

    /** `applyFilters`. */
    method ApplyFilters()
      modifies this
      ensures Valid()
      ensures projects == old(projects) && searchTerm == old(searchTerm) && filterActive == old(filterActive)
      ensures editingProjectId == old(editingProjectId) && isEditMode == old(isEditMode) && error == old(error)
    {
      filteredProjects := FilteredView(projects, searchTerm, filterActive);
    }

    /** `loadProjects`, success branch: the list is replaced. */
    method ProjectsLoaded(data: seq<ClientProject>)
      modifies this
      ensures Valid() && projects == data && error.None?
      ensures searchTerm == old(searchTerm) && filterActive == old(filterActive)
    {
      error := None;
      projects := data;
      ApplyFilters();
    }

    /** `loadProjects`, error branch: the list is kept and the error names
        `err.message || err.status || 'Unknown error'`. */
    method ProjectsLoadFailed(message: Option<string>, status: Option<int>)
      modifies this
      ensures error == Some(LoadFailedMessage(message, status))
      ensures projects == old(projects) && filteredProjects == old(filteredProjects)
      ensures searchTerm == old(searchTerm) && filterActive == old(filterActive)
    {
      error := Some(LoadFailedMessage(message, status));
    }

    /** `onSearch`. */
    method OnSearch(term: string)
      modifies this
      ensures Valid() && searchTerm == term
      ensures projects == old(projects) && filterActive == old(filterActive)
    {
      searchTerm := term;
      ApplyFilters();
    }

    /** `onFilterChange`. */
    method OnFilterChange(value: bool)
      modifies this
      ensures Valid() && filterActive == value
      ensures projects == old(projects) && searchTerm == old(searchTerm)
    {
      filterActive := value;
      ApplyFilters();
    }

    /** `openCreateForm`: leaves edit mode. */
    method OpenCreateForm()
      modifies this
      ensures !isEditMode && editingProjectId.None?
      ensures projects == old(projects) && filteredProjects == old(filteredProjects)
      ensures searchTerm == old(searchTerm) && filterActive == old(filterActive) && error == old(error)
    {
      isEditMode := false;
      editingProjectId := None;
    }

    /** `editProject`: remembers `project.id || null`. */
    method EditProject(project: ClientProject)
      modifies this
      ensures isEditMode
      ensures editingProjectId == (if project.id.Some? && project.id.value != 0 then project.id else None)
      ensures projects == old(projects) && filteredProjects == old(filteredProjects)
      ensures searchTerm == old(searchTerm) && filterActive == old(filterActive) && error == old(error)
    {
      isEditMode := true;
      editingProjectId := if project.id.Some? && project.id.value != 0 then project.id else None;
    }

    /** `createProject`: the created project is appended at the end. */
    method CreateProject(response: Option<ClientProject>)
      requires Valid()
      modifies this
      ensures Valid()
      ensures response.Some? ==> projects == old(projects) + [response.value] && error == old(error)
      ensures response.None? ==> projects == old(projects) && error == Some(CreateFailedMessage)
      ensures searchTerm == old(searchTerm) && filterActive == old(filterActive)
    {
      match response
      case Some(created) =>
        projects := projects + [created];
        ApplyFilters();
      case None =>
        error := Some(CreateFailedMessage);
    }

    /** `updateProject`: nothing is sent without an edited id; on success the
        first project with that id is replaced by the server's answer. */
    method UpdateProject(response: Option<ClientProject>) returns (sent: bool)
      requires Valid()
      modifies this
      ensures Valid()
      ensures sent <==> editingProjectId.Some? && editingProjectId.value != 0
      ensures sent && response.Some? ==>
        projects == ReplaceFirst(old(projects), editingProjectId, response.value) && error == old(error)
      ensures sent && response.None? ==> projects == old(projects) && error == Some(UpdateFailedMessage)
      ensures !sent ==> projects == old(projects) && error == old(error)
      ensures editingProjectId == old(editingProjectId)
      ensures searchTerm == old(searchTerm) && filterActive == old(filterActive)
    {
      if editingProjectId.None? || editingProjectId.value == 0 {
        return false;
      }
      sent := true;
      match response
      case Some(updated) =>
        ghost var expected := ReplaceFirst(projects, editingProjectId, updated);
        var index := Seqs.FirstIndex(projects, HasId(editingProjectId));
        if index.Some? {
          projects := projects[index.value := updated];
        }
        assert projects == expected;
        ApplyFilters();
      case None =>
        error := Some(UpdateFailedMessage);
    }

    /** `toggleProjectStatus`: sends the project with `isActive` negated; on
        success the first project with the same id is replaced by the answer. */
    method ToggleProjectStatus(project: ClientProject, response: Option<ClientProject>) returns (request: Request)
      requires Valid()
      modifies this
      ensures Valid()
      ensures request == Request(RequestId(project.id), ToggledCopy(project))
      ensures response.Some? ==> projects == ReplaceFirst(old(projects), project.id, response.value) && error == old(error)
      ensures response.None? ==> projects == old(projects) && error == Some(ToggleFailedMessage)
      ensures searchTerm == old(searchTerm) && filterActive == old(filterActive)
    {
      var updatedProject := project.(isActive := !project.isActive);
      request := Request(if project.id.Some? then project.id.value else 0, updatedProject);
      match response
      case Some(result) =>
        ghost var expected := ReplaceFirst(projects, project.id, result);
        var index := Seqs.FirstIndex(projects, HasId(project.id));
        if index.Some? {
          projects := projects[index.value := result];
        }
        assert projects == expected;
        ApplyFilters();
      case None =>
        error := Some(ToggleFailedMessage);
    }
  }
}
