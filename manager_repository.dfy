/** The manager query of the unit-of-work repositories. */
module ManagerRepository {
  import opened Domain
  import opened Storage

  /**
   * `GetByUserIdAsync`: the key of a stored manager record whose user is
   * `userId`, or none exactly when there is no such record.
   */
  function GetByUserId(s: Store, userId: int): (r: Option<int>)
    reads s
    ensures r.Some? ==> r.value in s.managers && s.managers[r.value].userId == userId
    ensures r.None? <==> forall id :: id in s.managers ==> s.managers[id].userId != userId
  {
    FirstWhere(s.managers, (m: ManagerRecord) => m.userId == userId)
  }
}
