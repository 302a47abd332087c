/** The user and role-record queries of the unit-of-work repositories. */
module UserRepository {
  import opened Domain
  import opened Storage

  /** `GetByEmailAsync`: a user with that email, or none exactly when no user has it. */
  function GetByEmail(s: Store, email: string): (r: Option<int>)
    reads s
    ensures r.Some? ==> r.value in s.users && s.users[r.value].email == email
    ensures r.None? <==> forall id :: id in s.users ==> s.users[id].email != email
  {
    FirstWhere(s.users, (u: User) => u.email == email)
  }

  /** `GetByFullNameAsync`: a user with that full name, or none exactly when no user has it. */
  function GetByFullName(s: Store, fullName: string): (r: Option<int>)
    reads s
    ensures r.Some? ==> r.value in s.users && s.users[r.value].fullName == fullName
    ensures r.None? <==> forall id :: id in s.users ==> s.users[id].fullName != fullName
  {
    FirstWhere(s.users, (u: User) => u.fullName == fullName)
  }

  /** `GetAdministratorsAsync`: every administrator record, each once. */
  function GetAdministrators(s: Store): (r: seq<int>)
    reads s
    ensures |r| == |s.admins|
    ensures forall id :: id in r <==> id in s.admins
  {
    Rows(s.admins.Keys)
  }

  /** `GetManagersAsync`: every manager record, each once. */
  function GetManagers(s: Store): (r: seq<int>)
    reads s
    ensures |r| == |s.managers|
    ensures forall id :: id in r <==> id in s.managers
  {
    Rows(s.managers.Keys)
  }

  /** `GetTeamMembersByTeamAsync`: exactly the employees whose team is `teamId`. */
  function GetTeamMembersByTeam(s: Store, teamId: int): (r: map<int, EmployeeRecord>)
    reads s
    ensures forall id :: id in r <==> id in s.employees && s.employees[id].teamId == Some(teamId)
    ensures forall id :: id in r ==> r[id] == s.employees[id]
  {
    Where(s.employees, (e: EmployeeRecord) => e.teamId == Some(teamId))
  }
}
