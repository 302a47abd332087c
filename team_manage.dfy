/**
 * Team management over the unit of work: creating a team for a manager,
 * moving employees in and out of teams, deleting a team and handing it to
 * another manager.
 */
module TeamManage {
  import opened Domain
  import opened Storage
  import AccessControl
  import EmployeeRepository

  /** The name a new team receives: a fixed prefix and the creation time as `yyyyMMddHHmm`. */
  function TeamName(stamp: string): string
  {
    "Команда " + stamp
  }

  /**
   * `CreateTeamAsync`, with the formatted clock passed in: a user who is not
   * a manager is refused with InvalidOperation and nothing is added;
   * otherwise one team is added under a fresh key, managed by the employee
   * record's key, named after the time and attached to no project.
   */
  method CreateTeam(s: Store, employeeId: int, employeeRole: Role, stamp: string) returns (r: Result<int>)
    modifies s`teams
    ensures r.Err? <==> employeeRole != Manager
    ensures r.Err? ==> r.error == InvalidOperation && s.teams == old(s.teams)
    ensures r.Ok? ==> r.value !in old(s.teams) && s.teams == old(s.teams)[r.value := Team(TeamName(stamp), None, None, employeeId)]
    ensures r.Ok? ==> AccessControl.IsTeamManager(s, employeeId, r.value)
  {
    if employeeRole != Manager {
      return Err(InvalidOperation);
    }
    var team := Team(TeamName(stamp), None, None, employeeId);
    var id := NextId(s.teams);
    s.teams := s.teams[id := team];
    r := Ok(id);
  }

  /** The gate in `AddMemberAsync` asks whether the team's own manager manages it, which always holds. */
  lemma AddMemberGateAlwaysPasses(s: Store, teamId: int)
    requires teamId in s.teams
    ensures AccessControl.IsTeamManager(s, s.teams[teamId].managerId, teamId)
  {
  }

  /**
   * `AddMemberAsync`: an unknown team or employee is KeyNotFound; otherwise
   * the employee moves to this team (out of any previous one) and no other
   * employee changes. The manager gate cannot refuse (see
   * `AddMemberGateAlwaysPasses`), so Unauthorized is never returned.
   */
  method AddMember(s: Store, teamId: int, employeeId: int) returns (r: Result<()>)
    modifies s`employees
    ensures r.Ok? <==> teamId in s.teams && employeeId in old(s.employees)
    ensures r.Err? ==> r.error == KeyNotFound && s.employees == old(s.employees)
    ensures r.Ok? ==> s.employees == old(s.employees)[employeeId := old(s.employees[employeeId]).(teamId := Some(teamId))]
    ensures r.Ok? ==> employeeId in EmployeeRepository.GetByTeamId(s, teamId)
  {
    if teamId !in s.teams {
      return Err(KeyNotFound);
    }
    if employeeId !in s.employees {
      return Err(KeyNotFound);
    }
    AddMemberGateAlwaysPasses(s, teamId);
    var isManager := AccessControl.IsTeamManager(s, s.teams[teamId].managerId, teamId);
    if isManager {
      s.employees := s.employees[employeeId := s.employees[employeeId].(teamId := Some(teamId))];
      r := Ok(());
    } else {
      r := Err(Unauthorized);
    }
  }

  /**
   * `RemoveMemberFromTeamAsync`: an employee currently in this team leaves
   * it; for any other employee, or an unknown one, nothing happens.
   */
  method RemoveMemberFromTeam(s: Store, teamId: int, employeeId: int)
    modifies s`employees
    ensures employeeId in old(s.employees) && old(s.employees[employeeId]).teamId == Some(teamId) ==>
      s.employees == old(s.employees)[employeeId := old(s.employees[employeeId]).(teamId := None)]
    ensures !(employeeId in old(s.employees) && old(s.employees[employeeId]).teamId == Some(teamId)) ==>
      s.employees == old(s.employees)
    ensures employeeId !in EmployeeRepository.GetByTeamId(s, teamId)
  {
    if employeeId in s.employees && s.employees[employeeId].teamId == Some(teamId) {
      s.employees := s.employees[employeeId := s.employees[employeeId].(teamId := None)];
    }
  }

  /**
   * `DeleteTeamAsync`: an unknown team is a silent no-op; otherwise exactly
   * that team is deleted. Employees keep their team reference.
   */
  method DeleteTeam(s: Store, teamId: int)
    modifies s`teams
    ensures s.teams == old(s.teams) - {teamId}
    ensures s.employees == old(s.employees)
  {
    if teamId in s.teams {
      s.teams := s.teams - {teamId};
    }
  }

  /**
   * `ReassignManagerAsync`: an unknown team is KeyNotFound, an id with no
   * manager record is InvalidOperation; otherwise only the team's manager
   * changes.
   */
  method ReassignManager(s: Store, teamId: int, managerId: int) returns (r: Result<()>)
    modifies s`teams
    ensures teamId !in old(s.teams) ==> r == Err(KeyNotFound)
    ensures teamId in old(s.teams) && managerId !in s.managers ==> r == Err(InvalidOperation)
    ensures r.Ok? <==> teamId in old(s.teams) && managerId in s.managers
    ensures r.Err? ==> s.teams == old(s.teams)
    ensures r.Ok? ==> s.teams == old(s.teams)[teamId := old(s.teams[teamId]).(managerId := managerId)]
    ensures r.Ok? ==> AccessControl.IsTeamManager(s, managerId, teamId)
  {
    if teamId in s.teams {
      if managerId in s.managers {
        s.teams := s.teams[teamId := s.teams[teamId].(managerId := managerId)];
        r := Ok(());
      } else {
        r := Err(InvalidOperation);
      }
    } else {
      r := Err(KeyNotFound);
    }
  }
}
