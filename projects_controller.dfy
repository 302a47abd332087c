/**
 * The project endpoints: creating a project for an administrator, the
 * project list with an optional start-date filter, project details, and
 * the two in-place updates (end date, team attachment).
 */
module ProjectsController {
  import opened Domain
  import opened Storage
  import ProjectManage
  import ViewProjects
  import TeamRepository

  /** The creation request of this controller: every field is required. */
  datatype ProjectCreateDto = ProjectCreateDto(name: string, description: string, startDate: Date, endDate: Date)

  /** The status update: only the end date. */
  datatype ProjectStatusUpdateDto = ProjectStatusUpdateDto(endDate: Option<Date>)

  /** One row of the project list; a project without a name is listed with an empty one. */
  datatype ProjectListItemDto = ProjectListItemDto(projectId: int, name: string, startDate: Date, endDate: Option<Date>)

  /**
   * `CreateProject`: 400 with nothing stored when there is no administrator
   * record under `administratorId`; otherwise the project built from the
   * request, owned by that administrator, is stored under a fresh key and
   * answered 201 with that key.
   */
  method CreateProject(s: Store, administratorId: int, dto: ProjectCreateDto) returns (r: Response<int>)
    modifies s`projects
    ensures r == BadRequest <==> administratorId !in s.admins
    ensures r == BadRequest ==> s.projects == old(s.projects)
    ensures r != BadRequest ==>
      r.Created? && r.body !in old(s.projects) &&
      s.projects == old(s.projects)[r.body :=
        Project(Some(dto.name), Some(dto.description), dto.startDate, Some(dto.endDate), administratorId)]
    ensures r.Created? ==> s.projects[r.body].administratorId == administratorId
  {
    if administratorId !in s.admins {
      return BadRequest;
    }
    var project := Project(Some(dto.name), Some(dto.description), dto.startDate, Some(dto.endDate), administratorId);
    var id := ProjectManage.CreateProject(s, project);
    r := Created(id);
  }

  /** `r` is `ids` with some entries dropped and the rest kept in their order. */
  ghost predicate IsSubsequence(r: seq<int>, ids: seq<int>)
    decreases |ids|
  {
    r == [] ||
    (ids != [] && ((r[0] == ids[0] && IsSubsequence(r[1..], ids[1..])) || IsSubsequence(r, ids[1..])))
  }

  /** The `Where` of `GetAllProjects`: the listed projects starting on or after `from`, in list order. */
  function StartingFrom(projects: map<int, Project>, ids: seq<int>, from: Date): (r: seq<int>)
    requires forall i :: 0 <= i < |ids| ==> ids[i] in projects
    ensures forall i :: 0 <= i < |r| ==> r[i] in projects
    ensures forall id :: id in r <==> id in ids && id in projects && projects[id].startDate >= from
    ensures |r| <= |ids|
    ensures IsSubsequence(r, ids)
    decreases |ids|
  {
    if ids == [] then []
    else
      var rest := StartingFrom(projects, ids[1..], from);
      assert forall id :: id in ids <==> id == ids[0] || id in ids[1..] by {
        assert ids == [ids[0]] + ids[1..];
      }
      if projects[ids[0]].startDate >= from then
        assert ([ids[0]] + rest)[1..] == rest;
        [ids[0]] + rest
      else rest
  }

  /** When start dates never increase along the list, the filter keeps a prefix of it. */
  lemma {:induction false} DescendingKeepsPrefix(projects: map<int, Project>, ids: seq<int>, from: Date)
    requires forall i :: 0 <= i < |ids| ==> ids[i] in projects
    requires forall i, j :: 0 <= i < j < |ids| ==> projects[ids[i]].startDate >= projects[ids[j]].startDate
    ensures StartingFrom(projects, ids, from) == ids[..|StartingFrom(projects, ids, from)|]
    decreases |ids|
  {
    if ids != [] {
      var tail := ids[1..];
      var rest := StartingFrom(projects, tail, from);
      if projects[ids[0]].startDate >= from {
        DescendingKeepsPrefix(projects, tail, from);
        assert StartingFrom(projects, ids, from) == [ids[0]] + rest;
        assert ids[..1 + |rest|] == [ids[0]] + tail[..|rest|];
      }
    }
  }

  /** `new ProjectListItemDto(project)`: the key, the name or an empty one, and the two dates. */
  function ListItem(id: int, p: Project): (item: ProjectListItemDto)
    ensures item.projectId == id && item.startDate == p.startDate && item.endDate == p.endDate
    ensures item.name == (if p.name.Some? then p.name.value else "")
  {
    ProjectListItemDto(id, if p.name.Some? then p.name.value else "", p.startDate, p.endDate)
  }

  /** The date filter applied, or not, to a list whose start dates never increase. */
  function Filtered(projects: map<int, Project>, all: seq<int>, startDateFrom: Option<Date>): (ids: seq<int>)
    requires forall i :: 0 <= i < |all| ==> all[i] in projects
    requires forall i, j :: 0 <= i < j < |all| ==> projects[all[i]].startDate >= projects[all[j]].startDate
    ensures startDateFrom.None? ==> ids == all
    ensures forall i :: 0 <= i < |ids| ==> ids[i] in projects
    ensures forall id :: id in ids <==>
      (id in all && id in projects && (startDateFrom.Some? ==> projects[id].startDate >= startDateFrom.value))
    ensures |ids| <= |all| && ids == all[..|ids|]
  {
    match startDateFrom
    case None => all
    case Some(from) =>
      DescendingKeepsPrefix(projects, all, from);
      StartingFrom(projects, all, from)
  }

  /**
   * The projects `GetAllProjects` lists, in order: all of them newest first
   * without a filter; with `startDateFrom`, exactly those starting on or
   * after it, which form a prefix of the unfiltered list.
   */
  function ListedProjects(s: Store, startDateFrom: Option<Date>): (ids: seq<int>)
    reads s
    ensures startDateFrom.None? ==> ids == ViewProjects.GetAllProjects(s)
    ensures forall i :: 0 <= i < |ids| ==> ids[i] in s.projects
    ensures forall id :: id in ids <==>
      (id in s.projects && (startDateFrom.Some? ==> s.projects[id].startDate >= startDateFrom.value))
    ensures |ids| <= |ViewProjects.GetAllProjects(s)| && ids == ViewProjects.GetAllProjects(s)[..|ids|]
  {
    var all := ViewProjects.GetAllProjects(s);
    Filtered(s.projects, all, startDateFrom)
  }

  /** The list rows of `ids`, in order. */
  function Items(projects: map<int, Project>, ids: seq<int>): (r: seq<ProjectListItemDto>)
    requires forall i :: 0 <= i < |ids| ==> ids[i] in projects
    ensures |r| == |ids|
    ensures forall i :: 0 <= i < |r| ==> r[i] == ListItem(ids[i], projects[ids[i]])
    decreases |ids|
  {
    if ids == [] then [] else [ListItem(ids[0], projects[ids[0]])] + Items(projects, ids[1..])
  }

  /** `GetAllProjects`: always 200, one list row per listed project, in the same order. */
  function GetAllProjects(s: Store, startDateFrom: Option<Date>): (r: seq<ProjectListItemDto>)
    reads s
    ensures |r| == |ListedProjects(s, startDateFrom)|
    ensures forall i :: 0 <= i < |r| ==>
      r[i] == ListItem(ListedProjects(s, startDateFrom)[i], s.projects[ListedProjects(s, startDateFrom)[i]])
  {
    Items(s.projects, ListedProjects(s, startDateFrom))
  }

  /** `GetProjectDetails`: 404 exactly when the project is unknown; otherwise the service's details. */
  function GetProjectDetails(s: Store, projectId: int): (r: Response<ViewProjects.ProjectDetailsDto>)
    reads s
    ensures r == NotFound <==> projectId !in s.projects
    ensures r.Success? <==> projectId in s.projects
    ensures r.Success? ==> Some(r.body) == ViewProjects.GetProjectDetails(s, projectId)
  {
    match ViewProjects.GetProjectDetails(s, projectId)
    case None => NotFound
    case Some(details) => Success(details)
  }

  /**
   * `UpdateProjectStatus`: 404 for an unknown project; otherwise only its
   * end date changes, and the answer is 204.
   */
  method UpdateProjectStatus(s: Store, projectId: int, dto: ProjectStatusUpdateDto) returns (r: Response<()>)
    modifies s`projects
    ensures r == NotFound <==> projectId !in old(s.projects)
    ensures r == NotFound ==> s.projects == old(s.projects)
    ensures r != NotFound ==>
      r == NoContent &&
      s.projects == old(s.projects)[projectId := old(s.projects[projectId]).(endDate := dto.endDate)]
  {
    if projectId !in s.projects {
      return NotFound;
    }
    s.projects := s.projects[projectId := s.projects[projectId].(endDate := dto.endDate)];
    r := NoContent;
  }

  /**
   * `AssignTeamToProject`: 404 for an unknown team; otherwise the team is
   * attached to `projectId`, which is not checked to exist, and the team is
   * then among that project's teams.
   */
  method AssignTeamToProject(s: Store, projectId: int, teamId: int) returns (r: Response<()>)
    modifies s`teams
    ensures r == NotFound <==> teamId !in old(s.teams)
    ensures r == NotFound ==> s.teams == old(s.teams)
    ensures r != NotFound ==>
      r == NoContent &&
      s.teams == old(s.teams)[teamId := old(s.teams[teamId]).(projectId := Some(projectId))]
    ensures r == NoContent ==> teamId in TeamRepository.GetTeamsByProject(s, projectId)
  {
    if teamId !in s.teams {
      return NotFound;
    }
    s.teams := s.teams[teamId := s.teams[teamId].(projectId := Some(projectId))];
    r := NoContent;
  }
}
