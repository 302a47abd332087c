/** The team queries of the unit-of-work repositories. */
module TeamRepository {
  import opened Domain
  import opened Storage

  /** `GetTeamsByProjectAsync`: every team attached to that project and no other; a team with no project never matches. */
  function GetTeamsByProject(s: Store, projectId: int): (r: map<int, Team>)
    reads s
    ensures forall id :: id in r <==> id in s.teams && s.teams[id].projectId == Some(projectId)
    ensures forall id :: id in r ==> r[id] == s.teams[id] && r[id].projectId.Some?
  {
    Where(s.teams, (t: Team) => t.projectId == Some(projectId))
  }

  /** `GetTeamsByManagerAsync`: exactly the teams whose manager is `managerId`. */
  function GetTeamsByManager(s: Store, managerId: int): (r: map<int, Team>)
    reads s
    ensures forall id :: id in r <==> id in s.teams && s.teams[id].managerId == managerId
    ensures forall id :: id in r ==> r[id] == s.teams[id]
  {
    Where(s.teams, (t: Team) => t.managerId == managerId)
  }
}
