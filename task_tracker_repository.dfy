/**
 * The older repository class over the context: lookups by field, per-owner
 * filters and deletions by key.
 */
module TaskTrackerRepository {
  import opened Domain
  import opened Storage
  import UserRepository
  import ProjectRepository

  /** `GetUserByFullNameAsync`: the same lookup as the newer repository's `GetByFullNameAsync`. */
  function GetUserByFullName(s: Store, fullName: string): (r: Option<int>)
    reads s
    ensures r.Some? ==> r.value in s.users && s.users[r.value].fullName == fullName
    ensures r.None? <==> forall id :: id in s.users ==> s.users[id].fullName != fullName
  {
    UserRepository.GetByFullName(s, fullName)
  }

  /** `GetUserByEmailAsync`: the same lookup as the newer repository's `GetByEmailAsync`. */
  function GetUserByEmail(s: Store, email: string): (r: Option<int>)
    reads s
    ensures r.Some? ==> r.value in s.users && s.users[r.value].email == email
    ensures r.None? <==> forall id :: id in s.users ==> s.users[id].email != email
  {
    UserRepository.GetByEmail(s, email)
  }

  /** `GetAdminProjectsAsync`: the same filter as the newer repository's `GetProjectsByAdminAsync`. */
  function GetAdminProjects(s: Store, adminUserId: int): (r: map<int, Project>)
    reads s
    ensures forall id :: id in r <==> id in s.projects && s.projects[id].administratorId == adminUserId
    ensures forall id :: id in r ==> r[id] == s.projects[id]
  {
    ProjectRepository.GetProjectsByAdmin(s, adminUserId)
  }

  /** `GetProjectByNameAsync`: a project with that name, or none. */
  function GetProjectByName(s: Store, name: string): (r: Option<int>)
    reads s
    ensures r.Some? ==> r.value in s.projects && s.projects[r.value].name == Some(name)
    ensures r.None? <==> forall id :: id in s.projects ==> s.projects[id].name != Some(name)
  {
    FirstWhere(s.projects, (p: Project) => p.name == Some(name))
  }

  /** `GetProjectTeamsAsync`: the teams attached to that project. */
  function GetProjectTeams(s: Store, projectId: int): (r: map<int, Team>)
    reads s
    ensures forall id :: id in r <==> id in s.teams && s.teams[id].projectId == Some(projectId)
    ensures forall id :: id in r ==> r[id] == s.teams[id]
  {
    Where(s.teams, (t: Team) => t.projectId == Some(projectId))
  }

  /** `GetAdminTasksAsync`: the tasks that user created. */
  function GetAdminTasks(s: Store, adminUserId: int): (r: map<int, Task>)
    reads s
    ensures forall id :: id in r <==> id in s.tasks && s.tasks[id].creatorId == adminUserId
    ensures forall id :: id in r ==> r[id] == s.tasks[id]
  {
    Where(s.tasks, (t: Task) => t.creatorId == adminUserId)
  }

  /** `GetTeamMemberTasksAsync`: the tasks assigned to that user; unassigned tasks never match. */
  function GetTeamMemberTasks(s: Store, memberUserId: int): (r: map<int, Task>)
    reads s
    ensures forall id :: id in r <==> id in s.tasks && s.tasks[id].assigneeId == Some(memberUserId)
    ensures forall id :: id in r ==> r[id] == s.tasks[id]
  {
    Where(s.tasks, (t: Task) => t.assigneeId == Some(memberUserId))
  }

  /** `GetManagerTeamsAsync`: the teams that user manages. */
  function GetManagerTeams(s: Store, managerUserId: int): (r: map<int, Team>)
    reads s
    ensures forall id :: id in r <==> id in s.teams && s.teams[id].managerId == managerUserId
    ensures forall id :: id in r ==> r[id] == s.teams[id]
  {
    Where(s.teams, (t: Team) => t.managerId == managerUserId)
  }

  /** `GetTeamMembersAsync`: the member rows of that team. */
  function GetTeamMembers(s: Store, teamId: int): (r: set<MemberKey>)
    reads s
    ensures forall m :: m in r <==> m in s.members && m.teamId == teamId
  {
    set m | m in s.members && m.teamId == teamId
  }

  /** `RemoveUserAsync`: 0 and no change for an unknown id, otherwise exactly that user is deleted. */
  method RemoveUser(s: Store, userId: int) returns (n: int)
    modifies s`users
    ensures userId !in old(s.users) ==> n == 0 && s.users == old(s.users)
    ensures userId in old(s.users) ==> n == 1 && s.users == old(s.users) - {userId}
  {
    if userId !in s.users {
      return 0;
    }
    s.users := s.users - {userId};
    n := 1;
  }

  /** `RemoveProjectAsync`: 0 and no change for an unknown id, otherwise exactly that project is deleted. */
  method RemoveProject(s: Store, projectId: int) returns (n: int)
    modifies s`projects
    ensures projectId !in old(s.projects) ==> n == 0 && s.projects == old(s.projects)
    ensures projectId in old(s.projects) ==> n == 1 && s.projects == old(s.projects) - {projectId}
  {
    if projectId !in s.projects {
      return 0;
    }
    s.projects := s.projects - {projectId};
    n := 1;
  }

  /** `RemoveTasksAsync`: 0 and no change for an unknown id, otherwise exactly that task is deleted. */
  method RemoveTasks(s: Store, taskId: int) returns (n: int)
    modifies s`tasks
    ensures taskId !in old(s.tasks) ==> n == 0 && s.tasks == old(s.tasks)
    ensures taskId in old(s.tasks) ==> n == 1 && s.tasks == old(s.tasks) - {taskId}
  {
    if taskId !in s.tasks {
      return 0;
    }
    s.tasks := s.tasks - {taskId};
    n := 1;
  }

  /** `RemoveTeamAsync`: 0 and no change for an unknown id, otherwise exactly that team is deleted. */
  method RemoveTeam(s: Store, teamId: int) returns (n: int)
    modifies s`teams
    ensures teamId !in old(s.teams) ==> n == 0 && s.teams == old(s.teams)
    ensures teamId in old(s.teams) ==> n == 1 && s.teams == old(s.teams) - {teamId}
  {
    if teamId !in s.teams {
      return 0;
    }
    s.teams := s.teams - {teamId};
    n := 1;
  }
}
