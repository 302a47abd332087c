/**
 * Project management over the unit of work: storing a project, attaching a
 * team, closing a project and moving tasks into a project.
 */
module ProjectManage {
  import opened Domain
  import opened Storage

  /** `CreateProjectAsync`: the project is stored unchanged under a fresh key. */
  method CreateProject(s: Store, project: Project) returns (id: int)
    modifies s`projects
    ensures id !in old(s.projects)
    ensures s.projects == old(s.projects)[id := project]
  {
    id := NextId(s.projects);
    s.projects := s.projects[id := project];
  }

  /**
   * `AssignTeamAsync`: an unknown team is an Argument error; otherwise the
   * team is attached to `projectId`, which is not checked to exist.
   */
  method AssignTeam(s: Store, teamId: int, projectId: int) returns (r: Result<()>)
    modifies s`teams
    ensures r.Ok? <==> teamId in old(s.teams)
    ensures r.Err? ==> r.error == Argument && s.teams == old(s.teams)
    ensures r.Ok? ==> s.teams == old(s.teams)[teamId := old(s.teams[teamId]).(projectId := Some(projectId))]
  {
    if teamId in s.teams {
      s.teams := s.teams[teamId := s.teams[teamId].(projectId := Some(projectId))];
      r := Ok(());
    } else {
      r := Err(Argument);
    }
  }

  /**
   * `UpdateProjectStatusAsync`: an unknown project is an Argument error;
   * otherwise only the end date is taken from `status`.
   */
  method UpdateProjectStatus(s: Store, projectId: int, status: Project) returns (r: Result<()>)
    modifies s`projects
    ensures r.Ok? <==> projectId in old(s.projects)
    ensures r.Err? ==> r.error == Argument && s.projects == old(s.projects)
    ensures r.Ok? ==> s.projects == old(s.projects)[projectId := old(s.projects[projectId]).(endDate := status.endDate)]
  {
    if projectId in s.projects {
      s.projects := s.projects[projectId := s.projects[projectId].(endDate := status.endDate)];
      r := Ok(());
    } else {
      r := Err(Argument);
    }
  }

  /** The task table with every listed, existing task moved to `projectId`. */
  function WithProject(tasks: map<int, Task>, ids: seq<int>, projectId: int): (r: map<int, Task>)
    ensures r.Keys == tasks.Keys
    ensures forall k :: k in tasks && k in ids ==> r[k] == tasks[k].(projectId := projectId)
    ensures forall k :: k in tasks && k !in ids ==> r[k] == tasks[k]
  {
    map k | k in tasks :: if k in ids then tasks[k].(projectId := projectId) else tasks[k]
  }

  /** One pass of the loop: an existing task is moved, an unknown id is skipped. */
  function MoveOne(tasks: map<int, Task>, id: int, projectId: int): map<int, Task>
  {
    if id in tasks then tasks[id := tasks[id].(projectId := projectId)] else tasks
  }

  /** The loop's effect, one listed id after another. */
  function MoveEach(tasks: map<int, Task>, ids: seq<int>, projectId: int): map<int, Task>
    decreases |ids|
  {
    if ids == [] then tasks else MoveEach(MoveOne(tasks, ids[0], projectId), ids[1..], projectId)
  }

  /**
   * Moving the listed tasks one at a time is the same as moving the set of
   * them at once: order and repetitions in the list make no difference.
   */
  lemma {:induction false} MoveEachIsWithProject(tasks: map<int, Task>, ids: seq<int>, projectId: int)
    ensures MoveEach(tasks, ids, projectId) == WithProject(tasks, ids, projectId)
    decreases |ids|
  {
    if ids != [] {
      var first := MoveOne(tasks, ids[0], projectId);
      MoveEachIsWithProject(first, ids[1..], projectId);
      var lhs := WithProject(first, ids[1..], projectId);
      var rhs := WithProject(tasks, ids, projectId);
      assert forall k :: k in ids <==> k == ids[0] || k in ids[1..] by {
        assert ids == [ids[0]] + ids[1..];
      }
      forall k | k in tasks ensures lhs[k] == rhs[k] {
      }
      assert lhs == rhs;
    }
  }

  /** Adding the same list of tasks twice has the effect of adding it once. */
  lemma AddTasksIdempotent(tasks: map<int, Task>, ids: seq<int>, projectId: int)
    ensures WithProject(WithProject(tasks, ids, projectId), ids, projectId) == WithProject(tasks, ids, projectId)
  {
    var once := WithProject(tasks, ids, projectId);
    assert WithProject(once, ids, projectId) == once;
  }

  /**
   * `AddTasksAsync`: every listed task that exists is moved to `projectId`;
   * unknown ids are skipped, and unlisted tasks and all other fields stay.
   */
  method AddTasks(s: Store, taskIds: seq<int>, projectId: int)
    modifies s`tasks
    ensures s.tasks == WithProject(old(s.tasks), taskIds, projectId)
  {
    var i := 0;
    while i < |taskIds|
      invariant 0 <= i <= |taskIds|
      invariant s.tasks == WithProject(old(s.tasks), taskIds[..i], projectId)
    {
      var taskId := taskIds[i];
      if taskId in s.tasks {
        s.tasks := s.tasks[taskId := s.tasks[taskId].(projectId := projectId)];
      }
      assert taskIds[..i + 1] == taskIds[..i] + [taskId];
      i := i + 1;
    }
    assert taskIds[..i] == taskIds;
  }
}
