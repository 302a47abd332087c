/**
 * Registration and login. The password hash is a parameter: `hash(p)` is
 * the stored form of password `p`, or none when no salt is configured (the
 * hashing step then throws InvalidOperation).
 */
module Auth {
  import opened Domain
  import opened Storage
  import UserRepository
  import opened UnitOfWork

  /** No two users share an email. */
  ghost predicate EmailsUnique(s: Store)
    reads s
  {
    forall a, b :: a in s.users && b in s.users && s.users[a].email == s.users[b].email ==> a == b
  }

  /** Some user already has this email. */
  ghost predicate EmailTaken(s: Store, email: string)
    reads s
  {
    exists id :: id in s.users && s.users[id].email == email
  }

  /** A role record can be made for the role: administrators and managers always, employees only with a position. */
  predicate RoleRecordPossible(role: Role, position: Option<string>)
  {
    role == Administrator || role == Manager || (role == Employee && position.Some?)
  }

  /**
   * `VerifyPassword`: the entered password hashes to the stored hash; a
   * failure to hash counts as a mismatch.
   */
  function VerifyPassword(hash: string -> Option<string>, entered: string, storedHash: string): (ok: bool)
    ensures ok <==> hash(entered) == Some(storedHash)
  {
    match hash(entered)
    case None => false
    case Some(h) => h == storedHash
  }

  /**
   * `RegisterAsync`. A blank email is an Argument error and a taken email
   * an InvalidOperation, both before anything is stored; a hashing failure
   * is InvalidOperation, also before the user is stored. Otherwise the user
   * is stored under a fresh key. Then the role record is added under the
   * user's key: an administrator or manager record, or an employee record
   * with the given position and no team. An employee without a position, or
   * a role outside those three, fails; that failure is reported as
   * InvalidOperation after a rollback that finds no open transaction, so
   * the stored user remains. Emails stay unique.
   */
  method Register(uow: UnitOfWork, email: string, password: string, fullName: string, role: Role,
                  position: Option<string>, hash: string -> Option<string>) returns (r: Result<int>)
    modifies uow.store`users, uow.store`admins, uow.store`managers, uow.store`employees
    modifies uow`transaction, uow`events
    ensures IsBlank(email) ==> r == Err(Argument)
    ensures !IsBlank(email) && old(EmailTaken(uow.store, email)) ==> r == Err(InvalidOperation)
    ensures r.Ok? <==> (!IsBlank(email) && !old(EmailTaken(uow.store, email)) && hash(password).Some? &&
                        RoleRecordPossible(role, position))
    ensures r.Err? ==> r.error == Argument || r.error == InvalidOperation
    ensures !IsBlank(email) && r.Err? ==> r.error == InvalidOperation
    ensures r.Err? ==> (uow.store.admins == old(uow.store.admins) && uow.store.managers == old(uow.store.managers) &&
                        uow.store.employees == old(uow.store.employees))
    ensures (IsBlank(email) || old(EmailTaken(uow.store, email)) || hash(password).None?) ==>
      uow.store.users == old(uow.store.users)
    ensures !IsBlank(email) && !old(EmailTaken(uow.store, email)) && hash(password).Some? ==>
      exists id :: id !in old(uow.store.users) &&
        uow.store.users == old(uow.store.users)[id := User(email, hash(password).value, fullName, role)] &&
        (r.Ok? ==> r.value == id)
    ensures r.Ok? && role == Administrator ==> uow.store.admins == old(uow.store.admins)[r.value := AdminRecord(r.value)]
    ensures r.Ok? && role == Manager ==> uow.store.managers == old(uow.store.managers)[r.value := ManagerRecord(r.value)]
    ensures r.Ok? && role == Employee ==>
      uow.store.employees == old(uow.store.employees)[r.value := EmployeeRecord(None, r.value, position)]
    ensures r.Ok? && role != Administrator ==> uow.store.admins == old(uow.store.admins)
    ensures r.Ok? && role != Manager ==> uow.store.managers == old(uow.store.managers)
    ensures r.Ok? && role != Employee ==> uow.store.employees == old(uow.store.employees)
    ensures old(uow.transaction).None? ==> uow.transaction.None? && uow.events == old(uow.events)
    ensures old(EmailsUnique(uow.store)) ==> EmailsUnique(uow.store)
    ensures (r == Err(InvalidOperation) && !IsBlank(email) && !old(EmailTaken(uow.store, email)) &&
             hash(password).Some?) ==> EmailTaken(uow.store, email)
  {
    var s := uow.store;
    if IsBlank(email) {
      return Err(Argument);
    }
    if UserRepository.GetByEmail(s, email).Some? {
      return Err(InvalidOperation);
    }
    var hashed := hash(password);
    if hashed.None? {
      return Err(InvalidOperation);
    }
    var userId := NextId(s.users);
    s.users := s.users[userId := User(email, hashed.value, fullName, role)];
    var failed := false;
    match role {
      case Administrator =>
        s.admins := s.admins[userId := AdminRecord(userId)];
      case Manager =>
        s.managers := s.managers[userId := ManagerRecord(userId)];
      case Employee =>
        if position.None? {
          failed := true;
        } else {
          s.employees := s.employees[userId := EmployeeRecord(None, userId, position)];
        }
      case TeamMember =>
        failed := true;
    }
    if failed {
      assert s.users[userId].email == email;
      uow.Rollback();
      return Err(InvalidOperation);
    }
    r := Ok(userId);
  }

  /**
   * Registration as its rollback evidently intends it: a registration that
   * fails stores nothing, so its email stays free. The role is checked
   * before the user is stored; everything else is as in `Register`.
   */
  method RegisterAtomic(s: Store, email: string, password: string, fullName: string, role: Role,
                        position: Option<string>, hash: string -> Option<string>) returns (r: Result<int>)
    modifies s`users, s`admins, s`managers, s`employees
    ensures IsBlank(email) ==> r == Err(Argument)
    ensures !IsBlank(email) && old(EmailTaken(s, email)) ==> r == Err(InvalidOperation)
    ensures r.Ok? <==> (!IsBlank(email) && !old(EmailTaken(s, email)) && hash(password).Some? &&
                        RoleRecordPossible(role, position))
    ensures r.Err? ==> r.error == Argument || r.error == InvalidOperation
    ensures !IsBlank(email) && r.Err? ==> r.error == InvalidOperation
    ensures r.Err? ==> (s.users == old(s.users) && s.admins == old(s.admins) && s.managers == old(s.managers) &&
                        s.employees == old(s.employees))
    ensures r.Err? ==> (EmailTaken(s, email) <==> old(EmailTaken(s, email)))
    ensures r.Ok? ==>
      r.value !in old(s.users) && s.users == old(s.users)[r.value := User(email, hash(password).value, fullName, role)]
    ensures r.Ok? && role == Administrator ==> s.admins == old(s.admins)[r.value := AdminRecord(r.value)]
    ensures r.Ok? && role == Manager ==> s.managers == old(s.managers)[r.value := ManagerRecord(r.value)]
    ensures r.Ok? && role == Employee ==> s.employees == old(s.employees)[r.value := EmployeeRecord(None, r.value, position)]
    ensures r.Ok? && role != Administrator ==> s.admins == old(s.admins)
    ensures r.Ok? && role != Manager ==> s.managers == old(s.managers)
    ensures r.Ok? && role != Employee ==> s.employees == old(s.employees)
    ensures old(EmailsUnique(s)) ==> EmailsUnique(s)
  {
    if IsBlank(email) {
      return Err(Argument);
    }
    if UserRepository.GetByEmail(s, email).Some? {
      return Err(InvalidOperation);
    }
    var hashed := hash(password);
    if hashed.None? || !RoleRecordPossible(role, position) {
      return Err(InvalidOperation);
    }
    var userId := NextId(s.users);
    s.users := s.users[userId := User(email, hashed.value, fullName, role)];
    if role == Administrator {
      s.admins := s.admins[userId := AdminRecord(userId)];
    } else if role == Manager {
      s.managers := s.managers[userId := ManagerRecord(userId)];
    } else {
      s.employees := s.employees[userId := EmployeeRecord(None, userId, position)];
    }
    r := Ok(userId);
  }

  /**
   * `LoginAsync`: a blank email or password is an Argument error; an
   * unknown email or a password that does not verify is Unauthorized;
   * otherwise the user found by the email.
   */
  function Login(s: Store, email: string, password: string, hash: string -> Option<string>): (r: Result<int>)
    reads s
    ensures r == Err(Argument) <==> IsBlank(email) || IsBlank(password)
    ensures r.Err? ==> r.error == Argument || r.error == Unauthorized
    ensures !IsBlank(email) && !IsBlank(password) && !EmailTaken(s, email) ==> r == Err(Unauthorized)
    ensures r.Ok? ==> (r.value in s.users && s.users[r.value].email == email &&
                       hash(password) == Some(s.users[r.value].passwordHash))
  {
    if IsBlank(email) || IsBlank(password) then Err(Argument)
    else
      match UserRepository.GetByEmail(s, email)
      case None => Err(Unauthorized)
      case Some(id) =>
        if VerifyPassword(hash, password, s.users[id].passwordHash) then Ok(id) else Err(Unauthorized)
  }

  /**
   * With unique emails, a user whose password hashes to the stored hash
   * logs in as exactly that user, and any other password is refused.
   */
  lemma LoginFindsTheUser(s: Store, id: int, password: string, hash: string -> Option<string>)
    requires EmailsUnique(s) && id in s.users
    requires !IsBlank(s.users[id].email) && !IsBlank(password)
    ensures hash(password) == Some(s.users[id].passwordHash) ==> Login(s, s.users[id].email, password, hash) == Ok(id)
    ensures hash(password) != Some(s.users[id].passwordHash) ==> Login(s, s.users[id].email, password, hash) == Err(Unauthorized)
  {
    var found := UserRepository.GetByEmail(s, s.users[id].email);
    assert found.Some? by {
      assert s.users[id].email == s.users[id].email;
    }
    assert found.value == id;
  }
}
