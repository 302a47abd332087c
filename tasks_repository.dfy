/** The task queries of the unit-of-work repositories. */
module TasksRepository {
  import opened Domain
  import opened Storage

  /** `GetTasksByAssigneeAsync`: exactly the tasks assigned to that user; unassigned tasks never match. */
  function GetTasksByAssignee(s: Store, assigneeId: int): (r: map<int, Task>)
    reads s
    ensures forall id :: id in r <==> id in s.tasks && s.tasks[id].assigneeId == Some(assigneeId)
    ensures forall id :: id in r ==> r[id] == s.tasks[id]
  {
    Where(s.tasks, (t: Task) => t.assigneeId == Some(assigneeId))
  }

  /** `GetHighPriorityTasksAsync`: exactly the tasks of priority `High`. */
  function GetHighPriorityTasks(s: Store): (r: map<int, Task>)
    reads s
    ensures forall id :: id in r <==> id in s.tasks && s.tasks[id].priority == High
    ensures forall id :: id in r ==> r[id] == s.tasks[id]
  {
    Where(s.tasks, (t: Task) => t.priority == High)
  }

  /** `GetTasksByProjectAsync`: exactly the tasks of that project. */
  function GetTasksByProject(s: Store, projectId: int): (r: map<int, Task>)
    reads s
    ensures forall id :: id in r <==> id in s.tasks && s.tasks[id].projectId == projectId
    ensures forall id :: id in r ==> r[id] == s.tasks[id]
  {
    Where(s.tasks, (t: Task) => t.projectId == projectId)
  }
}
