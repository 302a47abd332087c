/** The project queries of the unit-of-work repositories. */
module ProjectRepository {
  import opened Domain
  import opened Storage

  /** `GetProjectsByAdminAsync`: exactly the projects of that administrator. */
  function GetProjectsByAdmin(s: Store, adminId: int): (r: map<int, Project>)
    reads s
    ensures forall id :: id in r <==> id in s.projects && s.projects[id].administratorId == adminId
    ensures forall id :: id in r ==> r[id] == s.projects[id]
  {
    Where(s.projects, (p: Project) => p.administratorId == adminId)
  }

  /** A project is active on `today` when it has no end date or ends strictly later. */
  predicate IsActive(p: Project, today: Date)
  {
    p.endDate.None? || p.endDate.value > today
  }

  /**
   * `GetActiveProjectsAsync`, with the current date passed in: every project
   * without an end date, and those with one exactly when it lies after `today`.
   */
  function GetActiveProjects(s: Store, today: Date): (r: map<int, Project>)
    reads s
    ensures forall id :: id in s.projects && s.projects[id].endDate.None? ==> id in r
    ensures forall id :: id in s.projects && s.projects[id].endDate.Some? ==>
      (id in r <==> s.projects[id].endDate.value > today)
    ensures r.Keys <= s.projects.Keys
    ensures forall id :: id in r ==> r[id] == s.projects[id]
  {
    Where(s.projects, (p: Project) => IsActive(p, today))
  }
}
