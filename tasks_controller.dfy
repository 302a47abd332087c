/**
 * The task endpoints: the order in which each action answers 404 or 403
 * before it calls a service, how a service's exception becomes an answer,
 * and the task as read back after a change.
 */
module TasksController {
  import opened Domain
  import opened Storage
  import AccessControl
  import TaskCreation = CreateTask
  import TaskCompletion
  import ViewTask

  /** The task as an action answers it. */
  datatype TaskResponseDto = TaskResponseDto(
    taskId: int,
    status: TaskStatus,
    title: string,
    description: Option<string>,
    deadline: Date)

  /** The body of a task-creation request. */
  datatype CreateTaskRequest = CreateTaskRequest(
    title: string,
    description: Option<string>,
    priority: Priority,
    deadline: Date,
    projectId: int)

  /** Where a guard ladder ends: go on to the service, answer 404, or answer 403. */
  datatype Gate = Pass | Missing | Refused

  /** `ValidateRole`: the user exists and has that role; a missing user is refused. */
  function ValidateRole(s: Store, userId: int, role: Role): (ok: bool)
    reads s
    ensures userId !in s.users ==> !ok
    ensures ok <==> userId in s.users && s.users[userId].role == role
  {
    match if userId in s.users then Some(s.users[userId]) else None
    case None => false
    case Some(user) => user.role == role
  }

  /** A user passes the role check for one role at most. */
  lemma ValidateRoleSingleRole(s: Store, userId: int, a: Role, b: Role)
    requires ValidateRole(s, userId, a) && ValidateRole(s, userId, b)
    ensures a == b
  {
  }

  /** `MapToDto`: the key and the status, title, description and deadline, copied unchanged. */
  function MapToDto(taskId: int, task: Task): (dto: TaskResponseDto)
    ensures dto.taskId == taskId && dto.status == task.status && dto.title == task.title
    ensures dto.description == task.description && dto.deadline == task.deadline
  {
    TaskResponseDto(taskId, task.status, task.title, task.description, task.deadline)
  }

  /** `GetUpdatedTaskResult`: the task as stored now, or 404 when it is gone. */
  function Reread(s: Store, taskId: int): (r: Response<TaskResponseDto>)
    reads s
    ensures r == NotFound <==> taskId !in s.tasks
    ensures r.Success? <==> taskId in s.tasks
    ensures r.Success? ==> r.body == MapToDto(taskId, s.tasks[taskId])
  {
    if taskId !in s.tasks then NotFound else Success(MapToDto(taskId, s.tasks[taskId]))
  }

  /**
   * How an action that caught only KeyNotFound answers a service call: that
   * exception is 404, any other escapes, and success answers the re-read task.
   */
  function Answer(s: Store, taskId: int, outcome: Result<()>): (r: Response<TaskResponseDto>)
    reads s
    ensures outcome == Err(KeyNotFound) ==> r == NotFound
    ensures outcome.Err? && outcome.error != KeyNotFound ==> r == Unhandled(outcome.error)
    ensures outcome.Ok? ==> r == Reread(s, taskId)
  {
    match outcome
    case Err(KeyNotFound) => NotFound
    case Err(e) => Unhandled(e)
    case Ok(_) => Reread(s, taskId)
  }

  /**
   * The ladder of `CreateTask`: an unknown administrator is 404, then a user
   * who is not an administrator or has no access to the project is 403.
   */
  function CreateTaskGate(s: Store, adminId: int, projectId: int): (g: Gate)
    reads s
    ensures g == Missing <==> adminId !in s.users
    ensures g == Refused <==> (adminId in s.users &&
      (s.users[adminId].role != Administrator || !AccessControl.ValidateProjectAccess(s, adminId, projectId)))
    ensures g == Pass ==> ValidateRole(s, adminId, Administrator) && projectId in s.projects
  {
    if adminId !in s.users then Missing
    else if s.users[adminId].role != Administrator then Refused
    else if !AccessControl.ValidateProjectAccess(s, adminId, projectId) then Refused
    else Pass
  }

  /** The task `CreateTask` builds: status New, created by the administrator, assigned to nobody. */
  function NewTask(adminId: int, request: CreateTaskRequest): (t: Task)
    ensures t.status == New && t.creatorId == adminId && t.assigneeId.None? && t.projectId == request.projectId
    ensures t.title == request.title && t.priority == request.priority && t.deadline == request.deadline
    ensures t.description == request.description
  {
    Task(request.title, request.description, New, request.priority, request.deadline, adminId, None, request.projectId)
  }

  /**
   * `CreateTask`: the ladder's 404 and 403 leave the tasks as they were;
   * past it the built task is stored under a fresh key and answered 201.
   */
  method CreateTask(s: Store, adminId: int, request: CreateTaskRequest) returns (r: Response<TaskResponseDto>)
    modifies s`tasks
    ensures old(CreateTaskGate(s, adminId, request.projectId)) == Missing ==> r == NotFound
    ensures old(CreateTaskGate(s, adminId, request.projectId)) == Refused ==> r == Forbidden
    ensures old(CreateTaskGate(s, adminId, request.projectId)) != Pass ==> s.tasks == old(s.tasks)
    ensures old(CreateTaskGate(s, adminId, request.projectId)) == Pass ==>
      r.Created? && r.body.taskId !in old(s.tasks) &&
      s.tasks == old(s.tasks)[r.body.taskId := NewTask(adminId, request)] &&
      r.body == MapToDto(r.body.taskId, NewTask(adminId, request))
    ensures r.Created? ==> request.projectId in s.projects
  {
    var gate := CreateTaskGate(s, adminId, request.projectId);
    if gate == Missing {
      return NotFound;
    }
    if gate == Refused {
      return Forbidden;
    }
    var task := NewTask(adminId, request);
    var id := NextId(s.tasks);
    s.tasks := s.tasks[id := task];
    r := Created(MapToDto(id, task));
  }

  /**
   * `AssignResponsible`: a caller who is not an administrator is 403;
   * otherwise the task is reassigned to `employeeId`, and an unknown task
   * raises an Argument exception that the action does not catch.
   */
  method AssignResponsible(s: Store, adminId: int, taskId: int, employeeId: int) returns (r: Response<TaskResponseDto>)
    modifies s`tasks
    ensures !old(ValidateRole(s, adminId, Administrator)) ==> r == Forbidden && s.tasks == old(s.tasks)
    ensures old(ValidateRole(s, adminId, Administrator)) && taskId !in old(s.tasks) ==>
      r == Unhandled(Argument) && s.tasks == old(s.tasks)
    ensures old(ValidateRole(s, adminId, Administrator)) && taskId in old(s.tasks) ==>
      s.tasks == old(s.tasks)[taskId := old(s.tasks[taskId]).(assigneeId := Some(employeeId))] &&
      r == Success(MapToDto(taskId, s.tasks[taskId]))
  {
    if !ValidateRole(s, adminId, Administrator) {
      return Forbidden;
    }
    var outcome := TaskCreation.AssignResponsible(s, taskId, employeeId);
    r := Answer(s, taskId, outcome);
  }

  /** The ladder of `RequestConfirmation`: 403 unless the caller is an employee who owns the task. */
  function RequestConfirmationGate(s: Store, employeeId: int, taskId: int): (g: Gate)
    reads s
    ensures g != Missing
    ensures g == Pass <==> (ValidateRole(s, employeeId, Employee) &&
      AccessControl.ValidateTaskOwnership(s, employeeId, taskId))
  {
    if !ValidateRole(s, employeeId, Employee) then Refused
    else if !AccessControl.ValidateTaskOwnership(s, employeeId, taskId) then Refused
    else Pass
  }

  /** Past the ladder of `RequestConfirmation` the task exists and is the caller's own or assigned to them. */
  lemma RequestConfirmationGateFindsTask(s: Store, employeeId: int, taskId: int)
    requires RequestConfirmationGate(s, employeeId, taskId) == Pass
    ensures taskId in s.tasks
    ensures s.tasks[taskId].creatorId == employeeId || s.tasks[taskId].assigneeId == Some(employeeId)
  {
  }

  /**
   * `RequestConfirmation`: 403 with nothing changed when the ladder refuses;
   * otherwise the task is now PendingConfirmation and is answered as stored.
   */
  method RequestConfirmation(s: Store, employeeId: int, taskId: int) returns (r: Response<TaskResponseDto>)
    modifies s`tasks
    ensures old(RequestConfirmationGate(s, employeeId, taskId)) == Refused ==> r == Forbidden && s.tasks == old(s.tasks)
    ensures old(RequestConfirmationGate(s, employeeId, taskId)) == Pass ==>
      taskId in old(s.tasks) && s.tasks == WithStatus(old(s.tasks), taskId, PendingConfirmation) &&
      r == Success(MapToDto(taskId, s.tasks[taskId])) && r.body.status == PendingConfirmation
  {
    if RequestConfirmationGate(s, employeeId, taskId) != Pass {
      return Forbidden;
    }
    var outcome := TaskCompletion.RequestConfirmation(s, taskId, employeeId);
    r := Answer(s, taskId, outcome);
  }

  /**
   * `ConfirmCompletion`: 403 for a caller who is not a manager, before any
   * lookup; then the review gate's KeyNotFound is 404, its Unauthorized
   * escapes, and on success the task is Completed and answered as stored.
   */
  method ConfirmCompletion(s: Store, managerId: int, taskId: int, comment: Option<string>)
    returns (r: Response<TaskResponseDto>)
    modifies s`tasks
    ensures !old(ValidateRole(s, managerId, Manager)) ==> r == Forbidden && s.tasks == old(s.tasks)
    ensures old(ValidateRole(s, managerId, Manager)) ==>
      (r == NotFound <==> old(TaskCompletion.ReviewGate(s, taskId, managerId)) == Err(KeyNotFound))
    ensures old(ValidateRole(s, managerId, Manager)) ==>
      (r == Unhandled(Unauthorized) <==> old(TaskCompletion.ReviewGate(s, taskId, managerId)) == Err(Unauthorized))
    ensures r.Success? <==> old(ValidateRole(s, managerId, Manager) && TaskCompletion.ReviewGate(s, taskId, managerId).Ok?)
    ensures r.Success? ==>
      s.tasks == WithStatus(old(s.tasks), taskId, Completed) &&
      r.body == MapToDto(taskId, s.tasks[taskId]) && r.body.status == Completed
    ensures !r.Success? ==> s.tasks == old(s.tasks)
  {
    if !ValidateRole(s, managerId, Manager) {
      return Forbidden;
    }
    var outcome := TaskCompletion.ConfirmTaskCompletion(s, taskId, managerId, comment);
    r := Answer(s, taskId, outcome);
  }

  /**
   * `RejectCompletion`: the same ladder as `ConfirmCompletion`; on success
   * the task is NeedsRevision and is answered as stored.
   */
  method RejectCompletion(s: Store, managerId: int, taskId: int, reason: string)
    returns (r: Response<TaskResponseDto>)
    modifies s`tasks
    ensures !old(ValidateRole(s, managerId, Manager)) ==> r == Forbidden && s.tasks == old(s.tasks)
    ensures old(ValidateRole(s, managerId, Manager)) ==>
      (r == NotFound <==> old(TaskCompletion.ReviewGate(s, taskId, managerId)) == Err(KeyNotFound))
    ensures old(ValidateRole(s, managerId, Manager)) ==>
      (r == Unhandled(Unauthorized) <==> old(TaskCompletion.ReviewGate(s, taskId, managerId)) == Err(Unauthorized))
    ensures r.Success? <==> old(ValidateRole(s, managerId, Manager) && TaskCompletion.ReviewGate(s, taskId, managerId).Ok?)
    ensures r.Success? ==>
      s.tasks == WithStatus(old(s.tasks), taskId, NeedsRevision) &&
      r.body == MapToDto(taskId, s.tasks[taskId]) && r.body.status == NeedsRevision
    ensures !r.Success? ==> s.tasks == old(s.tasks)
  {
    if !ValidateRole(s, managerId, Manager) {
      return Forbidden;
    }
    var outcome := TaskCompletion.RejectTaskCompletion(s, taskId, managerId, reason);
    r := Answer(s, taskId, outcome);
  }

  /**
   * `GetEmployeeTasks`: 403 for a caller who is not an employee; 404 exactly
   * when no task is assigned to them; otherwise every such task, mapped.
   */
  function GetEmployeeTasks(s: Store, employeeId: int): (r: Response<map<int, TaskResponseDto>>)
    reads s
    ensures !ValidateRole(s, employeeId, Employee) ==> r == Forbidden
    ensures ValidateRole(s, employeeId, Employee) ==>
      (r == NotFound <==> forall id :: id in s.tasks ==> s.tasks[id].assigneeId != Some(employeeId))
    ensures r.Success? ==> forall id :: id in r.body <==> id in s.tasks && s.tasks[id].assigneeId == Some(employeeId)
    ensures r.Success? ==> forall id :: id in r.body ==> r.body[id] == MapToDto(id, s.tasks[id])
    ensures r == Forbidden || r == NotFound || r.Success?
  {
    if !ValidateRole(s, employeeId, Employee) then Forbidden
    else
      var tasks := ViewTask.GetTeamMemberTasks(s, employeeId);
      if |tasks| == 0 then NotFound
      else
        assert tasks.Keys != {};
        Success(map id | id in tasks :: MapToDto(id, tasks[id]))
  }

  /**
   * `GetPendingConfirmations`: 403 for a caller who is not a manager; 404
   * exactly when no task awaits their review; otherwise the service's list:
   * one row per such task, each exactly once. `taskIds` names the task
   * behind each row.
   */
  method GetPendingConfirmations(s: Store, managerId: int, now: DateTime)
    returns (r: Response<seq<TaskCompletion.ConfirmationDto>>, ghost taskIds: seq<int>)
    ensures !ValidateRole(s, managerId, Manager) ==> r == Forbidden
    ensures ValidateRole(s, managerId, Manager) ==>
      (r == NotFound <==> forall id :: !TaskCompletion.AwaitsReviewBy(s, managerId, id))
    ensures r == Forbidden || r == NotFound || r.Success?
    ensures r.Success? ==> |r.body| == |taskIds| > 0
    ensures r.Success? ==> forall i :: 0 <= i < |taskIds| ==>
      taskIds[i] in s.tasks && r.body[i] == TaskCompletion.Entry(s.tasks[taskIds[i]], s.users, managerId, now)
    ensures r.Success? ==> forall id :: id in taskIds <==> TaskCompletion.AwaitsReviewBy(s, managerId, id)
    ensures r.Success? ==> forall i, j :: 0 <= i < j < |taskIds| ==> taskIds[i] != taskIds[j]
    ensures r.Success? ==>
      forall i :: 0 <= i < |r.body| ==> r.body[i].status == StatusName(PendingConfirmation)
  {
    taskIds := [];
    if !ValidateRole(s, managerId, Manager) {
      return Forbidden, taskIds;
    }
    var rows;
    rows, taskIds := TaskCompletion.GetPendingConfirmations(s, managerId, now);
    if |rows| == 0 {
      r := NotFound;
    } else {
      assert TaskCompletion.AwaitsReviewBy(s, managerId, taskIds[0]) by {
        assert taskIds[0] in taskIds;
      }
      r := Success(rows);
    }
  }
}
