/** The administrator query of the unit-of-work repositories. */
module AdministratorRepository {
  import opened Domain
  import opened Storage

  /**
   * `GetByUserIdAsync`: the key of a stored administrator record whose user
   * is `userId`, or none exactly when there is no such record.
   */
  function GetByUserId(s: Store, userId: int): (r: Option<int>)
    reads s
    ensures r.Some? ==> r.value in s.admins && s.admins[r.value].userId == userId
    ensures r.None? <==> forall id :: id in s.admins ==> s.admins[id].userId != userId
  {
    FirstWhere(s.admins, (a: AdminRecord) => a.userId == userId)
  }
}
