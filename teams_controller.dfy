/**
 * The team endpoints: every action first needs a manager record for the
 * caller (404 otherwise); the actions on an existing team then need the
 * caller to manage it (403 otherwise).
 */
module TeamsController {
  import opened Domain
  import opened Storage
  import AccessControl
  import TeamManage

  datatype TeamCreateDto = TeamCreateDto(name: string, projectId: Option<int>)
  datatype TeamUpdateDto = TeamUpdateDto(name: string, projectId: Option<int>)
  datatype TeamResponseDto = TeamResponseDto(teamId: int, name: string, projectId: Option<int>)

  /** Where a guard ladder ends: go on, answer 404, or answer 403. */
  datatype Gate = Pass | Missing | Refused

  /** `ValidateManager`: the caller has a manager record. */
  function ValidateManager(s: Store, managerId: int): (found: bool)
    reads s
    ensures found <==> managerId in s.managers
  {
    match if managerId in s.managers then Some(s.managers[managerId]) else None
    case None => false
    case Some(_) => true
  }

  /**
   * The ladder of `AddMember`, `RemoveMember` and `DeleteTeam`: no manager
   * record is 404, then a caller who does not manage the team is 403. An
   * unknown team is refused with 403, not 404.
   */
  function TeamGate(s: Store, managerId: int, teamId: int): (g: Gate)
    reads s
    ensures g == Missing <==> managerId !in s.managers
    ensures g == Refused <==> managerId in s.managers && !AccessControl.IsTeamManager(s, managerId, teamId)
    ensures managerId in s.managers && teamId !in s.teams ==> g == Refused
  {
    if !ValidateManager(s, managerId) then Missing
    else if !AccessControl.IsTeamManager(s, managerId, teamId) then Refused
    else Pass
  }

  /** Past the ladder the team exists, the caller has a manager record, and the team is theirs. */
  lemma TeamGatePassMeansOwnTeam(s: Store, managerId: int, teamId: int)
    requires TeamGate(s, managerId, teamId) == Pass
    ensures managerId in s.managers && teamId in s.teams && s.teams[teamId].managerId == managerId
  {
  }

  /**
   * `CreateTeam`: 404 with nothing added when the caller has no manager
   * record; otherwise a team with the caller as manager and the requested
   * name and project is added under a fresh key and answered 201. No
   * team-manager check is made.
   */
  method CreateTeam(s: Store, managerId: int, dto: TeamCreateDto) returns (r: Response<TeamResponseDto>)
    modifies s`teams
    ensures r == NotFound <==> managerId !in s.managers
    ensures r == NotFound ==> s.teams == old(s.teams)
    ensures r != NotFound ==>
      r.Created? && r.body.teamId !in old(s.teams) &&
      s.teams == old(s.teams)[r.body.teamId := Team(dto.name, None, dto.projectId, managerId)] &&
      r.body == TeamResponseDto(r.body.teamId, dto.name, dto.projectId)
    ensures r.Created? ==> AccessControl.IsTeamManager(s, managerId, r.body.teamId)
  {
    if !ValidateManager(s, managerId) {
      return NotFound;
    }
    var team := Team(dto.name, None, dto.projectId, managerId);
    var id := NextId(s.teams);
    s.teams := s.teams[id := team];
    r := Created(TeamResponseDto(id, team.name, team.projectId));
  }

  /** `GetTeamDetails`: 404 exactly when the team is unknown; otherwise its key, name and project. */
  function GetTeamDetails(s: Store, teamId: int): (r: Response<TeamResponseDto>)
    reads s
    ensures r == NotFound <==> teamId !in s.teams
    ensures r.Success? <==> teamId in s.teams
    ensures r.Success? ==> (r.body.teamId == teamId && r.body.name == s.teams[teamId].name &&
                           r.body.projectId == s.teams[teamId].projectId)
  {
    if teamId !in s.teams then NotFound
    else Success(TeamResponseDto(teamId, s.teams[teamId].name, s.teams[teamId].projectId))
  }

  /**
   * The ladder of `UpdateTeam`: no manager record is 404, an unknown team is
   * 404 before any permission check, then a caller who does not manage the
   * team is 403.
   */
  function UpdateTeamGate(s: Store, managerId: int, teamId: int): (g: Gate)
    reads s
    ensures g == Missing <==> managerId !in s.managers || teamId !in s.teams
    ensures g == Refused <==> (managerId in s.managers && teamId in s.teams && s.teams[teamId].managerId != managerId)
  {
    if !ValidateManager(s, managerId) then Missing
    else if teamId !in s.teams then Missing
    else if !AccessControl.IsTeamManager(s, managerId, teamId) then Refused
    else Pass
  }

  /** The two ladders agree except on an unknown team, which `UpdateTeam` answers 404 and the others 403. */
  lemma GatesAgreeOnKnownTeams(s: Store, managerId: int, teamId: int)
    requires teamId in s.teams
    ensures UpdateTeamGate(s, managerId, teamId) == TeamGate(s, managerId, teamId)
  {
  }

  /**
   * `UpdateTeam`: past the ladder the team's name and project are replaced,
   * its manager and description are kept, and the answer is 204.
   */
  method UpdateTeam(s: Store, teamId: int, managerId: int, dto: TeamUpdateDto) returns (r: Response<()>)
    modifies s`teams
    ensures old(UpdateTeamGate(s, managerId, teamId)) == Missing ==> r == NotFound && s.teams == old(s.teams)
    ensures old(UpdateTeamGate(s, managerId, teamId)) == Refused ==> r == Forbidden && s.teams == old(s.teams)
    ensures old(UpdateTeamGate(s, managerId, teamId)) == Pass ==>
      r == NoContent &&
      s.teams == old(s.teams)[teamId := old(s.teams[teamId]).(name := dto.name, projectId := dto.projectId)]
    ensures r == NoContent ==> s.teams[teamId].managerId == old(s.teams[teamId].managerId) == managerId
  {
    var gate := UpdateTeamGate(s, managerId, teamId);
    if gate == Missing {
      return NotFound;
    }
    if gate == Refused {
      return Forbidden;
    }
    s.teams := s.teams[teamId := s.teams[teamId].(name := dto.name, projectId := dto.projectId)];
    r := NoContent;
  }

  /**
   * `AddMember`: past the ladder the employee joins the team (204), or the
   * service's KeyNotFound for an unknown employee is 404. The ladder runs
   * before the service, so a refused caller changes nothing.
   */
  method AddMember(s: Store, teamId: int, memberId: int, managerId: int) returns (r: Response<()>)
    modifies s`employees
    ensures old(TeamGate(s, managerId, teamId)) == Missing ==> r == NotFound && s.employees == old(s.employees)
    ensures old(TeamGate(s, managerId, teamId)) == Refused ==> r == Forbidden && s.employees == old(s.employees)
    ensures old(TeamGate(s, managerId, teamId)) == Pass && memberId !in old(s.employees) ==>
      r == NotFound && s.employees == old(s.employees)
    ensures old(TeamGate(s, managerId, teamId)) == Pass && memberId in old(s.employees) ==>
      r == NoContent &&
      s.employees == old(s.employees)[memberId := old(s.employees[memberId]).(teamId := Some(teamId))]
  {
    var gate := TeamGate(s, managerId, teamId);
    if gate == Missing {
      return NotFound;
    }
    if gate == Refused {
      return Forbidden;
    }
    var outcome := TeamManage.AddMember(s, teamId, memberId);
    match outcome {
      case Err(KeyNotFound) => r := NotFound;
      case Err(e) => r := Unhandled(e);
      case Ok(_) => r := NoContent;
    }
  }

  /** `RemoveMember`: past the ladder the employee leaves the team if they were in it, and the answer is 204. */
  method RemoveMember(s: Store, teamId: int, memberId: int, managerId: int) returns (r: Response<()>)
    modifies s`employees
    ensures old(TeamGate(s, managerId, teamId)) == Missing ==> r == NotFound && s.employees == old(s.employees)
    ensures old(TeamGate(s, managerId, teamId)) == Refused ==> r == Forbidden && s.employees == old(s.employees)
    ensures old(TeamGate(s, managerId, teamId)) == Pass ==>
      r == NoContent &&
      (memberId in old(s.employees) && old(s.employees[memberId]).teamId == Some(teamId) ==>
        s.employees == old(s.employees)[memberId := old(s.employees[memberId]).(teamId := None)]) &&
      (!(memberId in old(s.employees) && old(s.employees[memberId]).teamId == Some(teamId)) ==>
        s.employees == old(s.employees))
  {
    var gate := TeamGate(s, managerId, teamId);
    if gate == Missing {
      return NotFound;
    }
    if gate == Refused {
      return Forbidden;
    }
    TeamManage.RemoveMemberFromTeam(s, teamId, memberId);
    r := NoContent;
  }

  /** `DeleteTeam`: past the ladder exactly that team is deleted and the answer is 204. */
  method DeleteTeam(s: Store, teamId: int, managerId: int) returns (r: Response<()>)
    modifies s`teams
    ensures old(TeamGate(s, managerId, teamId)) == Missing ==> r == NotFound && s.teams == old(s.teams)
    ensures old(TeamGate(s, managerId, teamId)) == Refused ==> r == Forbidden && s.teams == old(s.teams)
    ensures old(TeamGate(s, managerId, teamId)) == Pass ==>
      r == NoContent && teamId in old(s.teams) && s.teams == old(s.teams) - {teamId}
  {
    var gate := TeamGate(s, managerId, teamId);
    if gate == Missing {
      return NotFound;
    }
    if gate == Refused {
      return Forbidden;
    }
    TeamManage.DeleteTeam(s, teamId);
    r := NoContent;
  }
}
