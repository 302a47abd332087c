# TaskTracker — a Dafny model of its workflow and access rules

TaskTracker is an ASP.NET task tracker. Administrators own projects and
create tasks. Managers run teams that are attached to projects. Employees
carry out tasks and ask for them to be confirmed. This project models the
core decisions of that system over one in-memory store:

- the three access checks (project access, task ownership, team management);
- the services that create tasks and overwrite their status after a gate;
- the services that create teams and projects, move members between teams,
  attach teams to projects and move tasks into a project;
- the read-side queries of both repository variants, and the project list
  sorted newest first;
- registration and login, with the password hash as a parameter;
- the guard ladders of the task, team and project controllers, which answer
  404, 403 or 400 before any service is called;
- the unit of work's transaction handle.

The store (`Storage.Store`) is a class whose fields are maps from a key to
a record: users, administrator, manager and employee records, projects,
teams, tasks, and the older `(TeamId, UserId)` team-member relation. A
record does not carry its own key; the map key is the entity's id. Services
are methods that name the fields they change in `modifies`, so "nothing
else changes" comes from the frame. Read-only decisions are functions.

Each exception kind a service throws is an `Error` value (KeyNotFound,
Argument, InvalidOperation or Unauthorized) inside a `Result`. Where the
code throws, the store is left as it was, except in `Auth.Register` (see
"## Findings"). A controller answers a
`Response`. An exception that the controller does not catch is
`Unhandled(kind)`, left to the HTTP pipeline.

The clock and the password hash are parameters (`now`, `today`, `stamp`,
`hash`). A hash of `None` stands for the missing salt, which makes hashing
throw InvalidOperation.

Where the code and its stated design disagree, the model follows the code:

- No status change checks the current status. Confirming, rejecting,
  requesting confirmation and the direct status update all overwrite it.
- `TeamManageService.DeleteTeamAsync` removes only the team. Employees keep
  their `TeamId`.
- Employees get no project access. Only the project's administrator and the
  managers of teams on the project pass `ValidateProjectAccessAsync`.
- The confirm comment and the reject reason are accepted and dropped.

## Model

| member | source | states |
|---|---|---|
| AccessControl.ValidateProjectAccess | Domain/Services/UseCases/AccessControlService.cs:19-29 | false for an unknown project; true for its administrator; otherwise true exactly when the user manages a team attached to the project |
| AccessControl.ValidateTaskOwnership | Domain/Services/UseCases/AccessControlService.cs:31-38 | true exactly when the task exists and the user created it or is its assignee; an unassigned task matches only its creator |
| AccessControl.IsTeamManager | Domain/Services/UseCases/AccessControlService.cs:40-46 | true exactly when the team exists and its manager is the user |
| AccessControl.TeamManagerHasProjectAccess | Domain/Services/UseCases/AccessControlService.cs:19-46 | the manager of a team attached to an existing project passes the project-access check for it |
| AccessControl.MembershipGrantsNoAccess | Domain/Services/UseCases/AccessControlService.cs:19-29 | a user who neither administers the project nor manages one of its teams is refused, whatever the employee and member tables hold |
| TaskCompletion.ReviewGate | Domain/Services/UseCases/TaskCompletionConfirmationService.cs:34-44 | KeyNotFound exactly when the task or its project is unknown; Unauthorized exactly when both exist and no team on the project is managed by the reviewer; otherwise passes |
| TaskCompletion.ReviewerHasProjectAccess | Domain/Services/UseCases/TaskCompletionConfirmationService.cs:34-44 | a reviewer who passes the confirm/reject gate also passes the project-access check for the task's project |
| TaskCompletion.RequestConfirmation | Domain/Services/UseCases/TaskCompletionConfirmationService.cs:18-29 | unknown task is KeyNotFound, a non-owner is Unauthorized, and the task is unchanged; otherwise the task becomes PendingConfirmation from any status, with its other fields and all other tasks unchanged |
| TaskCompletion.ConfirmTaskCompletion | Domain/Services/UseCases/TaskCompletionConfirmationService.cs:32-49 | the result is the review gate's; on success the task becomes Completed from any status; on error nothing changes |
| TaskCompletion.RejectTaskCompletion | Domain/Services/UseCases/TaskCompletionConfirmationService.cs:52-69 | the result is the review gate's; on success the task becomes NeedsRevision from any status; on error nothing changes |
| TaskCompletion.SharedTeamIsManagedTeam | Domain/Services/UseCases/TaskCompletionConfirmationService.cs:74-91 | the loop's test (some team of the project is among the manager's teams) holds exactly when the manager manages a team on that project |
| TaskCompletion.GetPendingConfirmations | Domain/Services/UseCases/TaskCompletionConfirmationService.cs:72-108 | one row per task that is PendingConfirmation, has an existing project and a team on it managed by the manager; each such task exactly once; each row carries the status name, the creator's and confirmer's names with their fallbacks, the given time and no comment or reason |
| CompletingTask.ConfirmTaskCompletion | Domain/Services/UseCases/CompletingTaskService.cs:16-30 | unknown task is Argument; without project access it is Unauthorized; otherwise the task becomes Completed from any status; on error nothing changes |
| CompletingTask.UpdateTaskStatus | Domain/Services/UseCases/CompletingTaskService.cs:33-44 | unknown task is Argument and nothing changes; otherwise the given status is written unconditionally and nothing else changes |
| Storage.WithStatusLastWriteWins | Domain/Services/UseCases/CompletingTaskService.cs:33-44 | with no transition guard, of two status writes to one task the later one decides the outcome |
| CreateTask.CreateTask | Domain/Services/UseCases/CreateTaskService.cs:25-52 | a missing deadline, an unknown assignee or an unknown project is Argument and nothing is added; otherwise exactly one task is added under a fresh key, with status ToDo, the initiator as creator, the deadline's day and the request's other fields |
| CreateTask.AssignResponsible | Domain/Services/UseCases/CreateTaskService.cs:54-63 | unknown task is Argument and nothing changes; otherwise only that task's assignee changes, to the given user |
| TeamManage.CreateTeam | Domain/Services/UseCases/TeamManageService.cs:16-31 | a non-manager is InvalidOperation and nothing is added; otherwise one team is added under a fresh key, managed by the caller, attached to no project, and the caller then passes the team-manager check |
| TeamManage.AddMemberGateAlwaysPasses | Domain/Services/UseCases/TeamManageService.cs:40-42 | the service's manager check compares the team's manager with itself, so it never refuses |
| TeamManage.AddMember | Domain/Services/UseCases/TeamManageService.cs:34-48 | unknown team or employee is KeyNotFound and nothing changes; otherwise only that employee's team becomes this team, and the employee is then among the team's employees |
| TeamManage.RemoveMemberFromTeam | Domain/Services/UseCases/TeamManageService.cs:51-60 | an employee in this team leaves it; anyone else, known or not, is untouched; afterwards the employee is not in the team |
| TeamManage.DeleteTeam | Domain/Services/UseCases/TeamManageService.cs:63-71 | exactly that team is deleted, silently when unknown; employees keep their team reference |
| TeamManage.ReassignManager | Domain/Services/UseCases/TeamManageService.cs:74-91 | unknown team is KeyNotFound, an id without a manager record is InvalidOperation, and nothing changes; otherwise only the team's manager changes and the new manager passes the team-manager check |
| ManageTeam.CreateTeam | Domain/Services/UseCases/ManageTeamService.cs:25-37 | one team is added under a fresh key with the requested name and description, the placeholder manager and no project |
| ManageTeam.AddMemberToTeam | Domain/Services/UseCases/ManageTeamService.cs:39-60 | unknown team or user is Argument; an existing membership is InvalidOperation; otherwise exactly one membership is added, with position Programmer; on error nothing changes |
| ManageTeam.RemoveMemberFromTeam | Domain/Services/UseCases/ManageTeamService.cs:62-69 | a missing membership is Argument and nothing changes; otherwise exactly that membership is removed |
| ManageTeam.WithoutTeam | Domain/Services/UseCases/ManageTeamService.cs:76-81 | the member relation keeps exactly the rows of other teams, unchanged |
| ManageTeam.DeleteTeam | Domain/Services/UseCases/ManageTeamService.cs:71-84 | unknown team is Argument and nothing changes; otherwise every membership of the team is removed, then the team; other teams and memberships stay, and the team then has no members |
| ProjectManage.CreateProject | Domain/Services/UseCases/ProjectManageService.cs:15-20 | the given project is stored unchanged under a fresh key |
| ProjectManage.AssignTeam | Domain/Services/UseCases/ProjectManageService.cs:25-36 | unknown team is Argument and nothing changes; otherwise only that team's project changes, to a project that is not checked to exist |
| ProjectManage.UpdateProjectStatus | Domain/Services/UseCases/ProjectManageService.cs:41-52 | unknown project is Argument and nothing changes; otherwise only the end date is taken from the update |
| ProjectManage.WithProject | Domain/Services/UseCases/ProjectManageService.cs:57-65 | every listed existing task is moved to the project with its other fields kept; unlisted tasks are unchanged; no task is added or removed |
| ProjectManage.MoveEachIsWithProject | Domain/Services/UseCases/ProjectManageService.cs:59-64 | moving the listed tasks one at a time equals moving the set of them at once, so order and repeats in the list make no difference |
| ProjectManage.AddTasksIdempotent | Domain/Services/UseCases/ProjectManageService.cs:57-65 | adding the same list of tasks twice has the effect of adding it once |
| ProjectManage.AddTasks | Domain/Services/UseCases/ProjectManageService.cs:57-65 | the loop leaves the tasks as `WithProject` of the old tasks: unknown ids are skipped |
| ManageProject.CreateProject | Domain/Services/UseCases/ManageProjectService.cs:19-40 | unknown team is Argument and nothing is stored; otherwise a project starting today, with no end date and administered by the team's manager, is added under a fresh key, and the team is then among that project's teams |
| ManageProject.AssignTeamToProject | Domain/Services/UseCases/ManageProjectService.cs:42-53 | unknown project or team is Argument and nothing changes; otherwise only the team's project changes |
| ManageProject.UpdateProjectStatus | Domain/Services/UseCases/ManageProjectService.cs:55-66 | unknown project is Argument and nothing changes; otherwise name, description and end date come from the update, and start date and administrator stay |
| ViewProjects.GetProjectDetails | Domain/Services/UseCases/ViewProjectsService.cs:14-31 | none exactly for an unknown project; otherwise its name, its description or an empty one, its dates at midnight, and exactly the teams and tasks of that project |
| ViewProjects.Insert | Domain/Services/UseCases/ViewProjectsService.cs:34-37 | one insertion step keeps every element and adds the new one |
| ViewProjects.SortByStartDescending | Domain/Services/UseCases/ViewProjectsService.cs:34-37 | the sort returns a permutation of its input |
| ViewProjects.InsertOrdered | Domain/Services/UseCases/ViewProjectsService.cs:34-37 | inserting a key smaller than every key of an ordered list keeps it ordered: later start first, ties in scan order |
| ViewProjects.SortOrdered | Domain/Services/UseCases/ViewProjectsService.cs:34-37 | the sorted list is ordered: later start first, ties in scan order |
| ViewProjects.GetAllProjects | Domain/Services/UseCases/ViewProjectsService.cs:34-37 | every project exactly once, latest start date first, and projects starting the same day in ascending key order |
| ViewTask.GetTaskDetails | Domain/Services/UseCases/ViewTaskService.cs:14-21 | none for an unknown task or an unknown project; otherwise the details of the task's project, which include the task itself |
| ViewTask.GetTeamMemberTasks | Domain/Services/UseCases/ViewTaskService.cs:24-27 | exactly the tasks assigned to the user, unchanged |
| Auth.VerifyPassword | Domain/Services/UseCases/AuthService.cs:123-133 | true exactly when the entered password hashes to the stored hash; a hashing failure counts as a mismatch |
| Auth.Register | Domain/Services/UseCases/AuthService.cs:16-88 | blank email is Argument; a taken email or a hashing failure is InvalidOperation and stores nothing; success exactly for an administrator, a manager, or an employee with a position, storing the user and its role record under one fresh key; a failing role step is InvalidOperation but the user stays stored; emails stay unique |
| Auth.RegisterAtomic | Domain/Services/UseCases/AuthService.cs:16-88 | the same outcomes as `Register`, but a failed registration stores nothing and leaves the email free; emails stay unique |
| Auth.Login | Domain/Services/UseCases/AuthService.cs:90-104 | blank email or password is Argument; an unknown email or a password that does not verify is Unauthorized; success returns a user with that email whose stored hash matches |
| Auth.LoginFindsTheUser | Domain/Services/UseCases/AuthService.cs:90-104 | with unique emails, a user logs in as exactly themselves with a matching password and is refused with any other |
| TaskTrackerRepository.GetUserByFullName | Storage/Repository.cs:17-21 | the key of some user with that full name, or none exactly when no user has it |
| TaskTrackerRepository.GetUserByEmail | Storage/Repository.cs:23-27 | the key of some user with that email, or none exactly when no user has it |
| TaskTrackerRepository.GetAdminProjects | Storage/Repository.cs:52-57 | the newer repository's administrator filter: exactly the projects whose administrator is the user, unchanged |
| TaskTrackerRepository.GetProjectByName | Storage/Repository.cs:59-63 | a project with that name, or none exactly when no project has it |
| TaskTrackerRepository.GetProjectTeams | Storage/Repository.cs:65-70 | exactly the teams attached to the project, unchanged |
| TaskTrackerRepository.GetAdminTasks | Storage/Repository.cs:101-106 | exactly the tasks the user created |
| TaskTrackerRepository.GetTeamMemberTasks | Storage/Repository.cs:108-113 | exactly the tasks assigned to the user; unassigned tasks never match |
| TaskTrackerRepository.GetManagerTeams | Storage/Repository.cs:139-144 | exactly the teams the user manages |
| TaskTrackerRepository.GetTeamMembers | Storage/Repository.cs:146-151 | exactly the member rows of the team |
| TaskTrackerRepository.RemoveUser | Storage/Repository.cs:43-50 | 0 and no change for an unknown id; otherwise 1 and exactly that user is deleted |
| TaskTrackerRepository.RemoveProject | Storage/Repository.cs:91-98 | 0 and no change for an unknown id; otherwise 1 and exactly that project is deleted |
| TaskTrackerRepository.RemoveTasks | Storage/Repository.cs:129-136 | 0 and no change for an unknown id; otherwise 1 and exactly that task is deleted |
| TaskTrackerRepository.RemoveTeam | Storage/Repository.cs:167-174 | 0 and no change for an unknown id; otherwise 1 and exactly that team is deleted |
| TeamRepository.GetTeamsByProject | Storage/Repository/TeamRepository.cs:14-17 | exactly the teams attached to the project; a team with no project never appears |
| TeamRepository.GetTeamsByManager | Storage/Repository/TeamRepository.cs:20-23 | exactly the teams with that manager |
| TasksRepository.GetTasksByAssignee | Storage/Repository/TasksRepository.cs:15-18 | exactly the tasks assigned to that user; unassigned tasks never appear |
| TasksRepository.GetHighPriorityTasks | Storage/Repository/TasksRepository.cs:21-24 | exactly the tasks with priority High |
| TasksRepository.GetTasksByProject | Storage/Repository/TasksRepository.cs:27-30 | exactly the tasks of that project |
| ProjectRepository.GetProjectsByAdmin | Storage/Repository/ProjectRepository.cs:16-19 | exactly the projects of that administrator |
| ProjectRepository.GetActiveProjects | Storage/Repository/ProjectRepository.cs:24-27 | every project without an end date, and one with an end date exactly when that date is after today, so a project ending today is excluded |
| UserRepository.GetByEmail | Storage/Repository/UserRepository.cs:14-15 | the key of some user with that email, or none exactly when no user has it |
| UserRepository.GetByFullName | Storage/Repository/UserRepository.cs:18-19 | the key of some user with that full name, or none exactly when no user has it |
| UserRepository.GetAdministrators | Storage/Repository/UserRepository.cs:22-26 | every administrator record exactly once |
| UserRepository.GetManagers | Storage/Repository/UserRepository.cs:28-31 | every manager record exactly once |
| UserRepository.GetTeamMembersByTeam | Storage/Repository/UserRepository.cs:34-38 | exactly the employees whose team is that team |
| EmployeeRepository.GetByTeamId | Storage/Repository/EmployeeRepository.cs:16-19 | exactly the employees whose team is that team; employees with no team never appear |
| AdministratorRepository.GetByUserId | Storage/Repository/AdministratorRepository.cs:18-23 | the key of some administrator record pointing at that user, or none exactly when no record does |
| ManagerRepository.GetByUserId | Storage/Repository/ManagerRepository.cs:18-23 | the key of some manager record pointing at that user, or none exactly when no record does |
| UnitOfWork.UnitOfWork.constructor | Storage/Repository/UnitOfWork.cs:7-24 | the unit of work holds the given store for good and starts with no open transaction |
| UnitOfWork.UnitOfWork.BeginTransaction | Storage/Repository/UnitOfWork.cs:30-31 | the new handle becomes the open transaction, replacing any earlier one |
| UnitOfWork.UnitOfWork.Commit | Storage/Repository/UnitOfWork.cs:32-39 | with no open transaction nothing happens; otherwise it is committed once and forgotten |
| UnitOfWork.UnitOfWork.Rollback | Storage/Repository/UnitOfWork.cs:40-47 | with no open transaction nothing happens; otherwise it is rolled back once and forgotten |
| TasksController.ValidateRole | Controllers/TasksController.cs:23-24 | the user exists and has the role; a missing user fails every role check |
| TasksController.ValidateRoleSingleRole | Controllers/TasksController.cs:23-24 | a user passes the role check for one role at most |
| TasksController.MapToDto | Controllers/TasksController.cs:257-272 | the key, status, title, description and deadline are copied unchanged |
| TasksController.Reread | Controllers/TasksController.cs:274-280 | 404 exactly when the task is gone; otherwise the stored task, mapped |
| TasksController.Answer | Controllers/TasksController.cs:92-98 | a service's KeyNotFound is 404, other exceptions escape, success answers the re-read task |
| TasksController.CreateTaskGate | Controllers/TasksController.cs:40-45 | unknown administrator is 404; then a non-administrator or a user without project access is 403; passing implies the project exists |
| TasksController.NewTask | Controllers/TasksController.cs:49-58 | the built task has status New, the administrator as creator, no assignee and the request's project, title, description, priority and deadline |
| TasksController.CreateTask | Controllers/TasksController.cs:36-68 | 404 and 403 from the ladder leave the tasks unchanged; otherwise the built task is stored under a fresh key and answered 201, and its project exists |
| TasksController.AssignResponsible | Controllers/TasksController.cs:77-99 | a non-administrator is 403; an unknown task raises an uncaught Argument; otherwise only the task's assignee changes and the task is answered as stored |
| TasksController.RequestConfirmationGate | Controllers/TasksController.cs:112-115 | 403 unless the caller is an employee who owns the task |
| TasksController.RequestConfirmationGateFindsTask | Controllers/TasksController.cs:112-115 | past the ladder the task exists and the caller created it or is its assignee |
| TasksController.RequestConfirmation | Controllers/TasksController.cs:108-131 | a refused caller is 403 and nothing changes; otherwise the task becomes PendingConfirmation and is answered as stored |
| TasksController.ConfirmCompletion | Controllers/TasksController.cs:140-162 | a non-manager is 403 before any lookup; then the review gate's KeyNotFound is 404 and its Unauthorized escapes; success exactly when both pass, with the task Completed and answered as stored |
| TasksController.RejectCompletion | Controllers/TasksController.cs:171-193 | the same ladder as confirmation; on success the task is NeedsRevision and answered as stored |
| TasksController.GetEmployeeTasks | Controllers/TasksController.cs:202-211 | a non-employee is 403; 404 exactly when no task is assigned to the caller; otherwise exactly those tasks, mapped |
| TasksController.GetPendingConfirmations | Controllers/TasksController.cs:220-229 | a non-manager is 403; 404 exactly when no task awaits the caller's review; otherwise the service's rows: one row per task awaiting the caller's review, each such task exactly once, each row built from its task as the service builds it |
| TeamsController.ValidateManager | Controllers/TeamsController.cs:184-191 | passes exactly when the caller has a manager record |
| TeamsController.TeamGate | Controllers/TeamsController.cs:106-110 | no manager record is 404; then a caller who does not manage the team is 403; an unknown team is 403, not 404 |
| TeamsController.TeamGatePassMeansOwnTeam | Controllers/TeamsController.cs:106-110 | past the ladder the team exists and the caller is its manager |
| TeamsController.CreateTeam | Controllers/TeamsController.cs:21-50 | no manager record is 404 and nothing is added; otherwise a team managed by the caller with the requested name and project is added under a fresh key and answered 201 |
| TeamsController.GetTeamDetails | Controllers/TeamsController.cs:56-62 | 404 exactly when the team is unknown; otherwise its key, name and project |
| TeamsController.UpdateTeamGate | Controllers/TeamsController.cs:73-81 | no manager record or an unknown team is 404; then a caller who does not manage the team is 403 |
| TeamsController.GatesAgreeOnKnownTeams | Controllers/TeamsController.cs:73-81 | for a known team the update ladder and the member/delete ladder decide alike |
| TeamsController.UpdateTeam | Controllers/TeamsController.cs:68-95 | past the ladder only the team's name and project are replaced and the manager stays; refusals change nothing |
| TeamsController.AddMember | Controllers/TeamsController.cs:101-125 | refusals change nothing; past the ladder an unknown employee is 404, otherwise the employee joins the team and the answer is 204 |
| TeamsController.RemoveMember | Controllers/TeamsController.cs:131-155 | refusals change nothing; past the ladder an employee in the team leaves it, anyone else is untouched, and the answer is 204 |
| TeamsController.DeleteTeam | Controllers/TeamsController.cs:161-182 | refusals change nothing; past the ladder exactly that team is deleted and the answer is 204 |
| ProjectsController.CreateProject | Controllers/ProjectsController.cs:31-61 | no administrator record is 400 and nothing is stored; otherwise the project built from the request, owned by that administrator, is stored under a fresh key and answered 201 |
| ProjectsController.StartingFrom | Controllers/ProjectsController.cs:73-74 | exactly the listed projects starting on or after the date, a subsequence of the list, so in list order |
| ProjectsController.DescendingKeepsPrefix | Controllers/ProjectsController.cs:71-74 | on a list whose start dates never increase, the date filter keeps a prefix of the list |
| ProjectsController.ListedProjects | Controllers/ProjectsController.cs:69-76 | without a date, every project in the service's order; with one, exactly the projects starting on or after it, as a prefix of that order |
| ProjectsController.ListItem | Domain/ValueObject/ProjectListItem.cs:11-17 | the key and dates are copied and a missing name becomes empty |
| ProjectsController.GetAllProjects | Controllers/ProjectsController.cs:69-77 | one list row per listed project, in the same order |
| ProjectsController.GetProjectDetails | Controllers/ProjectsController.cs:86-92 | 404 exactly when the service finds no project; otherwise its details |
| ProjectsController.UpdateProjectStatus | Controllers/ProjectsController.cs:101-114 | unknown project is 404 and nothing changes; otherwise only the end date changes and the answer is 204 |
| ProjectsController.AssignTeamToProject | Controllers/ProjectsController.cs:123-136 | unknown team is 404 and nothing changes; otherwise the team is attached to the project, which is not checked to exist, and is then among its teams |

## Left out

- Program.cs: service registration, CORS, JWT, Swagger, migrations and the HTTP middleware, including the pipeline's mapping of escaped exceptions to status codes.
- Controllers/AuthController.cs and Controllers/ApiController.cs: role parsing with the library's `Enum.TryParse`, DTO validation attributes and a hello-world endpoint.
- NotificationService: it sends email over SMTP.
- Password hashing: PBKDF2 with the configured salt is a foreign library call. `hash` is an uninterpreted function, and `None` stands for the missing salt. A salt that is not valid Base64 makes `Convert.FromBase64String` throw a `FormatException` (Domain/Services/UseCases/AuthService.cs:113). That case is not modelled.
- Entity Framework: cascades, SetNull deletes, unique indexes, foreign keys, identity columns and changes staged until `SaveChangesAsync` are enforced by the library. Adds, updates and deletes are direct map updates. A new key is any unused positive integer, and a database error (`DbUpdateException`) never happens.
- TaskTrackerRepository.RemoveUser, RemoveProject, RemoveTasks and RemoveTeam: a deletion returns 1. The source returns the number of rows `SaveChangesAsync` reports, which cascades can make larger.
- The generic `Repository<T>`, and the add/update/get-by-id passthroughs of `TaskTrackerRepository`: they are single map operations that the services perform inline.
- `GetProjectTasks` and `GetProjectTeams` in the projects controller: each passes a repository query through unchanged, and both queries are modelled (`TasksRepository.GetTasksByProject`, `TeamRepository.GetTeamsByProject`).
- Asynchrony, concurrency and isolation: every call is a sequential step.
- Clock formatting: `stamp` stands for `DateTime.Now` formatted as `yyyyMMddHHmm`.
- TaskCompletion.GetPendingConfirmations: every row carries the same `now`. The source reads `DateTime.UtcNow` once per row (Domain/Services/UseCases/TaskCompletionConfirmationService.cs:100), so its rows can differ in time.
- Null strings: strings are never null, so `IsNullOrWhiteSpace` is `IsBlank`.
- `TaskCompletion.GetPendingConfirmations`: the order of the rows is not stated. It follows the table order of `GetAllAsync`, which the database decides. The model scans the pending tasks as a set.
- TaskTrackerRepository.GetUserByFullName: when several users match, the contract promises only that the key returned is one of them. The body picks the least, while `FirstOrDefaultAsync` returns whichever row the database yields first.
- TaskTrackerRepository.GetUserByEmail: when several users match, the contract promises only that the key returned is one of them. The body picks the least, while `FirstOrDefaultAsync` returns whichever row the database yields first.
- UserRepository.GetByEmail: when several users match, the contract promises only that the key returned is one of them. The body picks the least, while `FirstOrDefaultAsync` returns whichever row the database yields first.
- UserRepository.GetByFullName: when several users match, the contract promises only that the key returned is one of them. The body picks the least, while `FirstOrDefaultAsync` returns whichever row the database yields first.
- AdministratorRepository.GetByUserId: when several records match, the contract promises only that the key returned is one of them. The body picks the least, while `FirstOrDefaultAsync` returns whichever row the database yields first.
- ManagerRepository.GetByUserId: when several records match, the contract promises only that the key returned is one of them. The body picks the least, while `FirstOrDefaultAsync` returns whichever row the database yields first.
- ViewProjects.GetAllProjects: projects that start on the same day are listed with the smaller key first. `OrderByDescending` keeps such ties in the order `GetAllAsync` returns them, which the database decides.
- UnitOfWork.UnitOfWork.Rollback: the handle and the event log are modelled, but not undoing the data changes made inside the transaction.
- Auth.Register: role records are written straight into the maps under the user's key. Identity-column behaviour on `AdminId`, `ManagerId` and `EmployeeId` is left to the database.
- TasksController.CreateTask: the controller passes a `Tasks` entity to `CreateTaskAsync`, and only the interface (Domain/Services/Contracts/ICreateTaskService.cs:16) declares that overload; the implementation takes a `TaskCreateDto`. The model stores the task the controller built, so the service's Argument checks do not apply, and the 404 catch for KeyNotFound cannot fire.
- TasksController.AssignResponsible: the controller calls a three-argument `AssignResponsibleAsync` that no type declares. The model uses the two-argument service with the employee as the new assignee.
- ProjectsController.UpdateProjectStatus: `ProjectStatusUpdateDto` is not part of this model's sources. Its end date is taken as an optional day.

Further discrepancies in the source, recorded as found:

- Task status has two identical enumerations, `TaskStatus` and `TasksStatus` (Domain/Entities/Tasks.cs:24, Controllers/TasksController.cs:53). The model uses one status type, plus `ToDo`, which CreateTaskService.cs:40 assigns although neither enumeration declares it.
- The repository has two unreconciled variants: the unit-of-work repositories, and `TaskTrackerRepository` with its `User`, `Team`, `TeamMember` and `Project` types. Both work on the one store here.
- `ManageTeamService` calls `GetTeamMemberAsync`, `AddTeamMemberAsync` and `RemoveTeamMemberAsync`, which `TaskTrackerRepository` does not define. Their effect on the member relation is modelled inline in `ManageTeam`.
- The manager check in `TeamManageService.AddMemberAsync` compares the team's manager with itself and never refuses (`TeamManage.AddMemberGateAlwaysPasses`). The controller's own check is the effective one.
- The controllers use one route id both as a user id (`ValidateRole` looks it up among users) and as a manager id (compared with `Team.ManagerId`). The two agree only when the manager record's key equals the user's key, which is how `RegisterAsync` creates them.

## Findings

| source | as written | input that shows it | evidently intended | confidence | as-written member | corrected member |
|---|---|---|---|---|---|---|
| Domain/Services/UseCases/AuthService.cs:38-84 | The user is saved before the role step. The catch block's rollback finds no open transaction, so a registration that fails there still leaves the user stored. | An employee registering without a position: the answer is InvalidOperation, the user stays, and the same email is then refused as already taken. | A failed registration stores nothing and leaves the email free. | medium, not executed | Auth.Register | Auth.RegisterAtomic |
