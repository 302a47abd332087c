/**
 * Team management over the older repository and its team-member relation.
 * The relation's lookup, insertion and deletion are called on that
 * repository but not declared by it; here they act on the relation directly.
 */
module ManageTeam {
  import opened Domain
  import opened Storage
  import TaskTrackerRepository

  datatype TeamCreateDto = TeamCreateDto(name: string, description: Option<string>)

  /** The manager key a new team receives until one is assigned. */
  const PlaceholderManager: int := 0

  /**
   * `CreateTeamAsync`: one team is added under a fresh key with the
   * requested name and description, the placeholder manager and no project.
   */
  method CreateTeam(s: Store, dto: TeamCreateDto) returns (id: int)
    modifies s`teams
    ensures id !in old(s.teams)
    ensures s.teams == old(s.teams)[id := Team(dto.name, dto.description, None, PlaceholderManager)]
  {
    id := NextId(s.teams);
    s.teams := s.teams[id := Team(dto.name, dto.description, None, PlaceholderManager)];
  }

  /**
   * `AddMemberToTeamAsync`: an unknown team or user is an Argument error, an
   * existing membership is InvalidOperation; otherwise exactly one membership
   * is added, with position Programmer. Memberships are never duplicated.
   */
  method AddMemberToTeam(s: Store, teamId: int, userId: int) returns (r: Result<()>)
    modifies s`members
    ensures teamId !in s.teams || userId !in s.users ==> r == Err(Argument)
    ensures teamId in s.teams && userId in s.users && MemberKey(teamId, userId) in old(s.members) ==>
      r == Err(InvalidOperation)
    ensures r.Ok? <==> teamId in s.teams && userId in s.users && MemberKey(teamId, userId) !in old(s.members)
    ensures r.Err? ==> s.members == old(s.members)
    ensures r.Ok? ==> s.members == old(s.members)[MemberKey(teamId, userId) := Programmer]
  {
    if teamId !in s.teams {
      return Err(Argument);
    }
    if userId !in s.users {
      return Err(Argument);
    }
    var key := MemberKey(teamId, userId);
    if key in s.members {
      return Err(InvalidOperation);
    }
    s.members := s.members[key := Programmer];
    r := Ok(());
  }

  /**
   * `RemoveMemberFromTeamAsync`: a missing membership is an Argument error;
   * otherwise exactly that membership is removed.
   */
  method RemoveMemberFromTeam(s: Store, teamId: int, userId: int) returns (r: Result<()>)
    modifies s`members
    ensures r.Ok? <==> MemberKey(teamId, userId) in old(s.members)
    ensures r.Err? ==> r.error == Argument && s.members == old(s.members)
    ensures r.Ok? ==> s.members == old(s.members) - {MemberKey(teamId, userId)}
  {
    var key := MemberKey(teamId, userId);
    if key !in s.members {
      return Err(Argument);
    }
    s.members := s.members - {key};
    r := Ok(());
  }

  /** The member relation without the rows of team `teamId`. */
  function WithoutTeam(members: map<MemberKey, string>, teamId: int): (r: map<MemberKey, string>)
    ensures forall m :: m in r <==> m in members && m.teamId != teamId
    ensures forall m :: m in r ==> r[m] == members[m]
  {
    map m | m in members && m.teamId != teamId :: members[m]
  }

  /**
   * `DeleteTeamAsync`: an unknown team is an Argument error; otherwise each
   * of the team's memberships is removed, then the team itself. Other
   * teams and their memberships are untouched.
   */
  method DeleteTeam(s: Store, teamId: int) returns (r: Result<()>)
    modifies s`members, s`teams
    ensures r.Ok? <==> teamId in old(s.teams)
    ensures r.Err? ==> r.error == Argument && s.members == old(s.members) && s.teams == old(s.teams)
    ensures r.Ok? ==> s.teams == old(s.teams) - {teamId}
    ensures r.Ok? ==> s.members == WithoutTeam(old(s.members), teamId)
    ensures r.Ok? ==> TaskTrackerRepository.GetTeamMembers(s, teamId) == {}
  {
    if teamId !in s.teams {
      return Err(Argument);
    }
    var members := TaskTrackerRepository.GetTeamMembers(s, teamId);
    var rest := members;
    while rest != {}
      invariant rest <= members
      invariant forall m :: m in s.members <==> m in old(s.members) && (m.teamId != teamId || m in rest)
      invariant forall m :: m in s.members ==> s.members[m] == old(s.members[m])
      invariant s.teams == old(s.teams)
      decreases rest
    {
      // `Pick` hands the solver an element of `rest`, so the `:|` below is known to succeed.
      ghost var element := Pick(rest);
      var member :| member in rest;
      s.members := s.members - {member};
      rest := rest - {member};
    }
    var removed := TaskTrackerRepository.RemoveTeam(s, teamId);
    r := Ok(());
  }
}
