/**
 * Requesting, confirming and rejecting the completion of a task, and the
 * list of requests waiting for one manager. No status is checked before it
 * is overwritten, and neither the comment nor the reason is kept.
 */
module TaskCompletion {
  import opened Domain
  import opened Storage
  import AccessControl
  import TeamRepository

  /** One row of the pending-confirmation list. */
  datatype ConfirmationDto = ConfirmationDto(
    status: string,
    requesterName: string,
    confirmerName: string,
    requestDate: DateTime,
    comment: Option<string>,
    reason: Option<string>)

  const UnknownRequester: string := "Неизвестный"
  const TeamManagerTitle: string := "Менеджер команды"

  /**
   * The gate shared by confirmation and rejection: the task and its project
   * must exist, and some team on that project must be managed by the reviewer.
   */
  function ReviewGate(s: Store, taskId: int, managerId: int): (r: Result<()>)
    reads s
    ensures r == Err(KeyNotFound) <==> (taskId !in s.tasks || s.tasks[taskId].projectId !in s.projects)
    ensures r == Err(Unauthorized) <==> (taskId in s.tasks && s.tasks[taskId].projectId in s.projects &&
      !AccessControl.ManagesTeamOn(s, managerId, s.tasks[taskId].projectId))
    ensures r.Ok? || r == Err(KeyNotFound) || r == Err(Unauthorized)
  {
    if taskId !in s.tasks then Err(KeyNotFound)
    else
      var projectId := s.tasks[taskId].projectId;
      if projectId !in s.projects then Err(KeyNotFound)
      else
        var teams := TeamRepository.GetTeamsByProject(s, projectId);
        if exists tid :: tid in teams && teams[tid].managerId == managerId then Ok(())
        else Err(Unauthorized)
  }

  /** A reviewer who passes the gate has project access under the same id. */
  lemma ReviewerHasProjectAccess(s: Store, taskId: int, managerId: int)
    requires ReviewGate(s, taskId, managerId).Ok?
    ensures AccessControl.ValidateProjectAccess(s, managerId, s.tasks[taskId].projectId)
  {
  }

  /**
   * `RequestConfirmationAsync`: an unknown task is KeyNotFound, a requester
   * who does not own it is Unauthorized; otherwise the task becomes
   * PendingConfirmation whatever its status was.
   */
  method RequestConfirmation(s: Store, taskId: int, requesterUserId: int) returns (r: Result<()>)
    modifies s`tasks
    ensures taskId !in old(s.tasks) ==> r == Err(KeyNotFound)
    ensures taskId in old(s.tasks) && !old(AccessControl.ValidateTaskOwnership(s, requesterUserId, taskId)) ==>
      r == Err(Unauthorized)
    ensures r.Ok? <==> old(AccessControl.ValidateTaskOwnership(s, requesterUserId, taskId))
    ensures r.Ok? ==> s.tasks == WithStatus(old(s.tasks), taskId, PendingConfirmation)
    ensures r.Err? ==> s.tasks == old(s.tasks)
  {
    if taskId !in s.tasks {
      return Err(KeyNotFound);
    }
    if !AccessControl.ValidateTaskOwnership(s, requesterUserId, taskId) {
      return Err(Unauthorized);
    }
    s.tasks := WithStatus(s.tasks, taskId, PendingConfirmation);
    r := Ok(());
  }

  /**
   * `ConfirmTaskCompletionAsync`: the review gate decides; on success the
   * task becomes Completed. The comment is accepted and dropped.
   */
  method ConfirmTaskCompletion(s: Store, taskId: int, confirmerManagerId: int, comment: Option<string>)
    returns (r: Result<()>)
    modifies s`tasks
    ensures r == old(ReviewGate(s, taskId, confirmerManagerId))
    ensures r.Ok? ==> s.tasks == WithStatus(old(s.tasks), taskId, Completed)
    ensures r.Err? ==> s.tasks == old(s.tasks)
  {
    r := ReviewGate(s, taskId, confirmerManagerId);
    if r.Ok? {
      s.tasks := WithStatus(s.tasks, taskId, Completed);
    }
  }

  /**
   * `RejectTaskCompletionAsync`: the same gate; on success the task becomes
   * NeedsRevision. The reason is accepted and dropped.
   */
  method RejectTaskCompletion(s: Store, taskId: int, reviewerManagerId: int, reason: string)
    returns (r: Result<()>)
    modifies s`tasks
    ensures r == old(ReviewGate(s, taskId, reviewerManagerId))
    ensures r.Ok? ==> s.tasks == WithStatus(old(s.tasks), taskId, NeedsRevision)
    ensures r.Err? ==> s.tasks == old(s.tasks)
  {
    r := ReviewGate(s, taskId, reviewerManagerId);
    if r.Ok? {
      s.tasks := WithStatus(s.tasks, taskId, NeedsRevision);
    }
  }

  /**
   * A task is listed for `managerId` when it waits for confirmation, its
   * project exists, and one of that project's teams is among the manager's.
   */
  ghost predicate AwaitsReviewBy(s: Store, managerId: int, taskId: int)
    reads s
  {
    taskId in s.tasks && s.tasks[taskId].status == PendingConfirmation &&
    s.tasks[taskId].projectId in s.projects &&
    AccessControl.ManagesTeamOn(s, managerId, s.tasks[taskId].projectId)
  }

  /** The loop's test (a team of the project is among the manager's teams) is the manager gate. */
  lemma SharedTeamIsManagedTeam(s: Store, managerId: int, projectId: int)
    ensures (exists tid :: tid in TeamRepository.GetTeamsByProject(s, projectId) &&
               tid in TeamRepository.GetTeamsByManager(s, managerId))
      <==> AccessControl.ManagesTeamOn(s, managerId, projectId)
  {
    var projectTeams := TeamRepository.GetTeamsByProject(s, projectId);
    var managed := TeamRepository.GetTeamsByManager(s, managerId);
    if AccessControl.ManagesTeamOn(s, managerId, projectId) {
      var tid :| tid in s.teams && s.teams[tid].projectId == Some(projectId) && s.teams[tid].managerId == managerId;
      assert tid in projectTeams && tid in managed;
    }
  }

  /**
   * The list row for a pending task: its status by name, the creator's and
   * the confirmer's full names with their fallbacks, stamped `now`, and no
   * comment or reason.
   */
  function Entry(task: Task, users: map<int, User>, managerId: int, now: DateTime): ConfirmationDto
  {
    ConfirmationDto(
      StatusName(task.status),
      if task.creatorId in users then users[task.creatorId].fullName else UnknownRequester,
      if managerId in users then users[managerId].fullName else TeamManagerTitle,
      now, None, None)
  }

  /**
   * `GetPendingConfirmationsAsync`, with the clock passed in: one row per
   * task awaiting review by `managerId`, each such task exactly once;
   * `taskIds` names the task behind each row.
   */
  method GetPendingConfirmations(s: Store, managerId: int, now: DateTime)
    returns (result: seq<ConfirmationDto>, ghost taskIds: seq<int>)
    ensures |result| == |taskIds|
    ensures forall i :: 0 <= i < |taskIds| ==>
      taskIds[i] in s.tasks && result[i] == Entry(s.tasks[taskIds[i]], s.users, managerId, now)
    ensures forall id :: id in taskIds <==> AwaitsReviewBy(s, managerId, id)
    ensures forall i, j :: 0 <= i < j < |taskIds| ==> taskIds[i] != taskIds[j]
    ensures forall i :: 0 <= i < |result| ==> result[i].status == StatusName(PendingConfirmation)
  {
    var managed := TeamRepository.GetTeamsByManager(s, managerId);
    var pending := Where(s.tasks, (t: Task) => t.status == PendingConfirmation);
    var rest := pending.Keys;
    result, taskIds := [], [];
    while rest != {}
      invariant rest <= pending.Keys
      invariant |result| == |taskIds|
      invariant forall k :: 0 <= k < |taskIds| ==>
        taskIds[k] in s.tasks && result[k] == Entry(s.tasks[taskIds[k]], s.users, managerId, now)
      invariant forall id :: id in taskIds <==> id !in rest && AwaitsReviewBy(s, managerId, id)
      invariant forall a, b :: 0 <= a < b < |taskIds| ==> taskIds[a] != taskIds[b]
      decreases rest
    {
      // `Pick` hands the solver an element of `rest`, so the `:|` below is known to succeed.
      ghost var element := Pick(rest);
      var taskId :| taskId in rest;
      var task := s.tasks[taskId];
      if task.projectId in s.projects {
        var projectTeams := TeamRepository.GetTeamsByProject(s, task.projectId);
        SharedTeamIsManagedTeam(s, managerId, task.projectId);
        if exists tid :: tid in projectTeams && tid in managed {
          result := result + [Entry(task, s.users, managerId, now)];
          taskIds := taskIds + [taskId];
        }
      }
      rest := rest - {taskId};
    }
    forall k | 0 <= k < |result| ensures result[k].status == StatusName(PendingConfirmation) {
      assert taskIds[k] in taskIds;
    }
  }
}
