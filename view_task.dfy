/** Reading a task's project details, and the tasks assigned to a team member. */
module ViewTask {
  import opened Domain
  import opened Storage
  import TasksRepository
  import ViewProjects

  /**
   * `GetTaskDetailsAsync`: none for an unknown task; otherwise the details
   * of the task's project, which are none when that project is unknown.
   */
  function GetTaskDetails(s: Store, taskId: int): (r: Option<ViewProjects.ProjectDetailsDto>)
    reads s
    ensures taskId !in s.tasks ==> r.None?
    ensures taskId in s.tasks ==> (r.None? <==> s.tasks[taskId].projectId !in s.projects)
    ensures taskId in s.tasks && r.Some? ==> taskId in r.value.tasks && r.value.tasks[taskId] == s.tasks[taskId]
    ensures r.Some? ==> r == ViewProjects.GetProjectDetails(s, s.tasks[taskId].projectId)
  {
    if taskId !in s.tasks then None
    else ViewProjects.GetProjectDetails(s, s.tasks[taskId].projectId)
  }

  /** `GetTeamMemberTasksAsync`: exactly the tasks assigned to that user. */
  function GetTeamMemberTasks(s: Store, userId: int): (r: map<int, Task>)
    reads s
    ensures forall id :: id in r <==> id in s.tasks && s.tasks[id].assigneeId == Some(userId)
    ensures forall id :: id in r ==> r[id] == s.tasks[id]
  {
    TasksRepository.GetTasksByAssignee(s, userId)
  }
}
