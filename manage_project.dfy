/**
 * Project management over the older repository: creating a project for a
 * team, attaching a team to a project, and editing a project.
 */
module ManageProject {
  import opened Domain
  import opened Storage
  import TeamRepository

  datatype ProjectCreateDto = ProjectCreateDto(name: string, description: string, teamId: int)

  /**
   * `CreateProjectAsync`, with the current date passed in: an unknown team
   * is an Argument error and nothing is stored; otherwise a project starting
   * today, with no end date, administered by the team's manager, is added
   * under a fresh key, and the team is attached to it.
   */
  method CreateProject(s: Store, dto: ProjectCreateDto, today: Date) returns (r: Result<int>)
    modifies s`projects, s`teams
    ensures r.Err? <==> dto.teamId !in old(s.teams)
    ensures r.Err? ==> r.error == Argument && s.projects == old(s.projects) && s.teams == old(s.teams)
    ensures r.Ok? ==> r.value !in old(s.projects) && s.projects == old(s.projects)[r.value :=
      Project(Some(dto.name), Some(dto.description), today, None, old(s.teams[dto.teamId]).managerId)]
    ensures r.Ok? ==> s.teams == old(s.teams)[dto.teamId := old(s.teams[dto.teamId]).(projectId := Some(r.value))]
    ensures r.Ok? ==> dto.teamId in TeamRepository.GetTeamsByProject(s, r.value)
  {
    if dto.teamId !in s.teams {
      return Err(Argument);
    }
    var team := s.teams[dto.teamId];
    var project := Project(Some(dto.name), Some(dto.description), today, None, team.managerId);
    var id := NextId(s.projects);
    s.projects := s.projects[id := project];
    s.teams := s.teams[dto.teamId := team.(projectId := Some(id))];
    r := Ok(id);
  }

  /**
   * `AssignTeamToProjectAsync`: an unknown project, then an unknown team,
   * is an Argument error; otherwise the team is attached to the project.
   */
  method AssignTeamToProject(s: Store, projectId: int, teamId: int) returns (r: Result<()>)
    modifies s`teams
    ensures r.Ok? <==> projectId in s.projects && teamId in old(s.teams)
    ensures r.Err? ==> r.error == Argument && s.teams == old(s.teams)
    ensures r.Ok? ==> s.teams == old(s.teams)[teamId := old(s.teams[teamId]).(projectId := Some(projectId))]
  {
    if projectId !in s.projects {
      return Err(Argument);
    }
    if teamId !in s.teams {
      return Err(Argument);
    }
    s.teams := s.teams[teamId := s.teams[teamId].(projectId := Some(projectId))];
    r := Ok(());
  }

  /**
   * `UpdateProjectStatusAsync`: an unknown project is an Argument error;
   * otherwise name, description and end date are taken from `status`, and
   * the start date and administrator stay.
   */
  method UpdateProjectStatus(s: Store, projectId: int, status: Project) returns (r: Result<()>)
    modifies s`projects
    ensures r.Ok? <==> projectId in old(s.projects)
    ensures r.Err? ==> r.error == Argument && s.projects == old(s.projects)
    ensures r.Ok? ==> s.projects == old(s.projects)[projectId :=
      old(s.projects[projectId]).(name := status.name, description := status.description, endDate := status.endDate)]
  {
    if projectId !in s.projects {
      return Err(Argument);
    }
    var project := s.projects[projectId];
    s.projects := s.projects[projectId := project.(name := status.name, description := status.description, endDate := status.endDate)];
    r := Ok(());
  }
}
