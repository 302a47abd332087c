/** Creating a task for an existing assignee and project, and reassigning a task. */
module CreateTask {
  import opened Domain
  import opened Storage

  /** The request for a new task. */
  datatype TaskCreateDto = TaskCreateDto(
    title: string,
    description: string,
    assigneeId: int,
    projectId: int,
    deadline: Option<DateTime>,
    priority: Priority)

  /**
   * `CreateTaskAsync`: a missing deadline, an unknown assignee and an unknown
   * project are Argument errors, checked in that order; otherwise exactly one
   * task is added under a fresh key, with status ToDo, the initiator as
   * creator, the requested assignee, project, priority and text, and the
   * deadline's day.
   */
  method CreateTask(s: Store, dto: TaskCreateDto, initiatorUserId: int) returns (r: Result<int>)
    modifies s`tasks
    ensures r.Err? <==> (dto.deadline.None? || dto.assigneeId !in old(s.users) || dto.projectId !in old(s.projects))
    ensures r.Err? ==> r.error == Argument && s.tasks == old(s.tasks)
    ensures r.Ok? ==> r.value !in old(s.tasks) && s.tasks.Keys == old(s.tasks.Keys) + {r.value}
    ensures r.Ok? ==> forall id :: id in old(s.tasks) ==> s.tasks[id] == old(s.tasks[id])
    ensures r.Ok? ==> s.tasks[r.value] == Task(dto.title, Some(dto.description), ToDo, dto.priority,
      FromDateTime(dto.deadline.value), initiatorUserId, Some(dto.assigneeId), dto.projectId)
  {
    if dto.deadline.None? {
      return Err(Argument);
    }
    if dto.assigneeId !in s.users {
      return Err(Argument);
    }
    if dto.projectId !in s.projects {
      return Err(Argument);
    }
    var task := Task(dto.title, Some(dto.description), ToDo, dto.priority,
      FromDateTime(dto.deadline.value), initiatorUserId, Some(dto.assigneeId), dto.projectId);
    var id := NextId(s.tasks);
    s.tasks := s.tasks[id := task];
    r := Ok(id);
  }

  /**
   * `AssignResponsibleAsync`: an unknown task is an Argument error; otherwise
   * the manager becomes the task's assignee and nothing else changes.
   */
  method AssignResponsible(s: Store, taskId: int, managerUserId: int) returns (r: Result<()>)
    modifies s`tasks
    ensures r.Ok? <==> taskId in old(s.tasks)
    ensures r.Err? ==> r.error == Argument && s.tasks == old(s.tasks)
    ensures r.Ok? ==> s.tasks == old(s.tasks)[taskId := old(s.tasks[taskId]).(assigneeId := Some(managerUserId))]
  {
    if taskId !in s.tasks {
      return Err(Argument);
    }
    s.tasks := s.tasks[taskId := s.tasks[taskId].(assigneeId := Some(managerUserId))];
    r := Ok(());
  }
}
