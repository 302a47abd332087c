/** Completing a task by an administrator, and writing a task's status directly. */
module CompletingTask {
  import opened Domain
  import opened Storage
  import AccessControl

  /**
   * `ConfirmTaskCompletionAsync`: an unknown task is an Argument error; an
   * administrator without access to the task's project is Unauthorized;
   * otherwise the task becomes Completed, whatever its status was.
   */
  method ConfirmTaskCompletion(s: Store, taskId: int, confirmatorAdminId: int) returns (r: Result<()>)
    modifies s`tasks
    ensures taskId !in old(s.tasks) ==> r == Err(Argument)
    ensures taskId in old(s.tasks) ==>
      (r.Ok? <==> old(AccessControl.ValidateProjectAccess(s, confirmatorAdminId, s.tasks[taskId].projectId)))
    ensures r.Ok? || r == Err(Argument) || r == Err(Unauthorized)
    ensures taskId in old(s.tasks) && r.Err? ==> r == Err(Unauthorized)
    ensures r.Ok? ==> s.tasks == WithStatus(old(s.tasks), taskId, Completed)
    ensures r.Err? ==> s.tasks == old(s.tasks)
  {
    if taskId in s.tasks {
      if !AccessControl.ValidateProjectAccess(s, confirmatorAdminId, s.tasks[taskId].projectId) {
        r := Err(Unauthorized);
      } else {
        s.tasks := WithStatus(s.tasks, taskId, Completed);
        r := Ok(());
      }
    } else {
      r := Err(Argument);
    }
  }

  /**
   * `UpdateTaskStatusAsync`: an unknown task is an Argument error; otherwise
   * the requested status is written unconditionally.
   */
  method UpdateTaskStatus(s: Store, taskId: int, status: TaskStatus) returns (r: Result<()>)
    modifies s`tasks
    ensures r.Ok? <==> taskId in old(s.tasks)
    ensures r.Err? ==> r.error == Argument && s.tasks == old(s.tasks)
    ensures r.Ok? ==> s.tasks == WithStatus(old(s.tasks), taskId, status)
  {
    if taskId in s.tasks {
      s.tasks := WithStatus(s.tasks, taskId, status);
      r := Ok(());
    } else {
      r := Err(Argument);
    }
  }
}
