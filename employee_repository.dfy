/** The employee query of the unit-of-work repositories. */
module EmployeeRepository {
  import opened Domain
  import opened Storage

  /**
   * `GetByTeamIdAsync`: every employee of that team and no other; an
   * employee without a team is never returned.
   */
  function GetByTeamId(s: Store, teamId: int): (r: map<int, EmployeeRecord>)
    reads s
    ensures forall id :: id in r <==> id in s.employees && s.employees[id].teamId == Some(teamId)
    ensures forall id :: id in r ==> r[id] == s.employees[id] && r[id].teamId.Some?
  {
    Where(s.employees, (e: EmployeeRecord) => e.teamId == Some(teamId))
  }
}
