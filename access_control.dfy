/**
 * The three read-only access decisions every mutating path consults. They
 * go through the older repository's lookups and filters.
 */
module AccessControl {
  import opened Domain
  import opened Storage
  import TaskTrackerRepository

  /** Some team attached to `projectId` is managed by `userId`. */
  ghost predicate ManagesTeamOn(s: Store, userId: int, projectId: int)
    reads s
  {
    exists tid :: tid in s.teams && s.teams[tid].projectId == Some(projectId) && s.teams[tid].managerId == userId
  }

  /**
   * `ValidateProjectAccessAsync`: false for an unknown project; true for the
   * project's administrator; otherwise true exactly when the user manages a
   * team on the project. Membership of a team grants nothing.
   */
  function ValidateProjectAccess(s: Store, userId: int, projectId: int): (r: bool)
    reads s
    ensures projectId !in s.projects ==> !r
    ensures projectId in s.projects && s.projects[projectId].administratorId == userId ==> r
    ensures r <==> (projectId in s.projects &&
      (s.projects[projectId].administratorId == userId || ManagesTeamOn(s, userId, projectId)))
  {
    if projectId !in s.projects then false
    else if s.projects[projectId].administratorId == userId then true
    else
      var projectTeams := TaskTrackerRepository.GetProjectTeams(s, projectId);
      exists tid :: tid in projectTeams && projectTeams[tid].managerId == userId
  }

  /**
   * `ValidateTaskOwnershipAsync`: true exactly when the task exists and the
   * user created it or is its assignee.
   */
  function ValidateTaskOwnership(s: Store, userId: int, taskId: int): (r: bool)
    reads s
    ensures taskId !in s.tasks ==> !r
    ensures r <==> (taskId in s.tasks &&
      (s.tasks[taskId].creatorId == userId || s.tasks[taskId].assigneeId == Some(userId)))
  {
    if taskId !in s.tasks then false
    else
      var task := s.tasks[taskId];
      task.creatorId == userId || (task.assigneeId.Some? && task.assigneeId.value == userId)
  }

  /**
   * `IsTeamManagerAsync`: true exactly when the team exists and its manager
   * is `userId`; false for an unknown team.
   */
  function IsTeamManager(s: Store, userId: int, teamId: int): (r: bool)
    reads s
    ensures teamId !in s.teams ==> !r
    ensures r <==> teamId in s.teams && s.teams[teamId].managerId == userId
  {
    var managedTeams := TaskTrackerRepository.GetManagerTeams(s, userId);
    teamId in managedTeams
  }

  /** The manager of a team attached to an existing project has access to that project. */
  lemma TeamManagerHasProjectAccess(s: Store, userId: int, teamId: int, projectId: int)
    requires IsTeamManager(s, userId, teamId)
    requires s.teams[teamId].projectId == Some(projectId) && projectId in s.projects
    ensures ValidateProjectAccess(s, userId, projectId)
  {
    assert ManagesTeamOn(s, userId, projectId) by {
      assert teamId in s.teams && s.teams[teamId].projectId == Some(projectId) && s.teams[teamId].managerId == userId;
    }
  }

  /**
   * Belonging to a team on the project (as an employee or as a listed member)
   * grants no access: a user who neither administers the project nor manages
   * any of its teams is refused, whatever the employee and member tables hold.
   */
  lemma MembershipGrantsNoAccess(s: Store, userId: int, projectId: int)
    requires projectId in s.projects && s.projects[projectId].administratorId != userId
    requires forall tid :: tid in s.teams && s.teams[tid].projectId == Some(projectId) ==> s.teams[tid].managerId != userId
    ensures !ValidateProjectAccess(s, userId, projectId)
  {
  }
}
