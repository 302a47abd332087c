/**
 * Entities, enumerations and outcome types of the task tracker.
 *
 * A record does not carry its own key: every table of the store is a map
 * from the key to the record, so `TaskId`, `TeamId`, `ProjectId`, `UserId`,
 * `AdminId`, `ManagerId` and `EmployeeId` are the map keys.
 */
module Domain {

  datatype Option<T> = None | Some(value: T)

  /** The exception kinds the services throw. */
  datatype Error = KeyNotFound | Argument | InvalidOperation | Unauthorized

  /** A service call either returns a value or throws one exception kind. */
  datatype Result<T> = Ok(value: T) | Err(error: Error)

  /**
   * What a controller action answers: a body with 200 or 201, 204, 404, 403,
   * 400, or an exception it does not catch (left to the HTTP pipeline).
   */
  datatype Response<T> =
    | Success(body: T)
    | Created(body: T)
    | NoContent
    | NotFound
    | Forbidden
    | BadRequest
    | Unhandled(error: Error)

  /**
   * Task status. The six states of both status enumerations, plus `ToDo`,
   * which the task-creation service assigns although no enumeration declares it.
   */
  datatype TaskStatus = New | InProgress | PendingConfirmation | Completed | NeedsRevision | Cancelled | ToDo

  /** Task priority; only `Medium` (a default) and `High` (a query) are referred to. */
  datatype Priority = Low | Medium | High

  /**
   * User role. `TeamMember` is the value the older `TeamMember` entity
   * assigns (Domain/Entities/TeamMember.cs:10); the enumeration itself is
   * not part of this model. Registration handles only the first three, so
   * `TeamMember` stands for every role that reaches the `default:` branch.
   */
  datatype Role = Administrator | Manager | Employee | TeamMember

  /** A calendar day (`DateOnly`), counted in days. */
  type Date = int

  /** A point in time (`DateTime`): a day and a time of day. */
  datatype DateTime = DateTime(date: Date, timeOfDay: nat)

  /** `DateOnly.FromDateTime`: drops the time of day. */
  function FromDateTime(t: DateTime): Date
  {
    t.date
  }

  /** `DateOnly.ToDateTime(TimeOnly.MinValue)`: midnight of that day. */
  function AtMidnight(d: Date): (t: DateTime)
    ensures FromDateTime(t) == d && t.timeOfDay == 0
  {
    DateTime(d, 0)
  }

  datatype User = User(email: string, passwordHash: string, fullName: string, role: Role)

  /** Role records point at their user through the `User` navigation's key. */
  datatype AdminRecord = AdminRecord(userId: int)
  datatype ManagerRecord = ManagerRecord(userId: int)
  datatype EmployeeRecord = EmployeeRecord(teamId: Option<int>, userId: int, position: Option<string>)

  datatype Project = Project(
    name: Option<string>,
    description: Option<string>,
    startDate: Date,
    endDate: Option<Date>,
    administratorId: int)

  datatype Team = Team(name: string, description: Option<string>, projectId: Option<int>, managerId: int)

  datatype Task = Task(
    title: string,
    description: Option<string>,
    status: TaskStatus,
    priority: Priority,
    deadline: Date,
    creatorId: int,
    assigneeId: Option<int>,
    projectId: int)

  /** Key of the older team-member relation: one row per (team, user) pair. */
  datatype MemberKey = MemberKey(teamId: int, userId: int)

  /** The position a newly added team member receives. */
  const Programmer: string := "Programmer"

  /** The name `ToString` gives each status. */
  function StatusName(st: TaskStatus): (name: string)
    ensures |name| > 0
  {
    match st
    case New => "New"
    case InProgress => "InProgress"
    case PendingConfirmation => "PendingConfirmation"
    case Completed => "Completed"
    case NeedsRevision => "NeedsRevision"
    case Cancelled => "Cancelled"
    case ToDo => "ToDo"
  }

  /** `char.IsWhiteSpace`: the Unicode space separators and the control whitespace. */
  predicate IsWhiteSpace(c: char)
  {
    c == ' ' || ('\t' <= c <= '\r') || c == '\U{85}' || c == '\U{A0}' || c == '\U{1680}'
    || ('\U{2000}' <= c <= '\U{200A}') || c == '\U{2028}' || c == '\U{2029}'
    || c == '\U{202F}' || c == '\U{205F}' || c == '\U{3000}'
  }

  /** `string.IsNullOrWhiteSpace` on a non-null string: empty or whitespace only. */
  predicate IsBlank(s: string)
  {
    forall i :: 0 <= i < |s| ==> IsWhiteSpace(s[i])
  }
}
