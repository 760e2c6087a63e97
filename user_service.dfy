/** The user-administration service (pkg/user/service.go): reading users by id and
    replacing a user's role. Both of its repositories are views of the one database,
    so the model gives it that database twice, either of which may be missing (nil). */
module Users {
  import opened Wrappers
  import opened Entities
  import opened UserTable
  import opened Store

  const NotInitialised: string := "userRepo atau authRepo belum diinisialisasi dengan benar"
  const UserNotFound: string := "user not found"
  const RoleNotFound: string := "role not found"
  const ClearFailedPrefix: string := "failed to clear old roles: "

  /** GetUserByID without its cache: the row with that id and its roles, or gorm's
      not-found error. */
  function GetUserById(users: seq<User>, id: string): (r: Result<User>)
    ensures r.Ok? <==> HasId(users, id)
    ensures r.Ok? ==> r.value in users && r.value.id == id
    ensures r.Err? ==> r.error == RecordNotFound
  {
    match FindById(users, id)
    case Some(u) => Ok(u)
    case None => Err(RecordNotFound)
  }

  class UserService {
    const userRepo: Database?
    const authRepo: Database?

    /** Both repositories, when present, sit over the same database. */
    ghost predicate Valid()
      reads this, userRepo
    {
      (userRepo != null && authRepo != null ==> userRepo == authRepo)
      && (userRepo != null ==> userRepo.Valid())
    }

    constructor (userRepo: Database?, authRepo: Database?)
      requires userRepo != null && authRepo != null ==> userRepo == authRepo
      requires userRepo != null ==> userRepo.Valid()
      ensures this.userRepo == userRepo && this.authRepo == authRepo && Valid()
    {
      this.userRepo := userRepo;
      this.authRepo := authRepo;
    }

    /** SetUserRole: after the dependency, user and role checks, remove every role of the
        user and then link the named one, so that on success it is the user's only role.
        Nothing is removed unless both the user and the role exist; a failed link leaves
        the user with no role at all. Other users are never touched. */
    method SetUserRole(userId: string, roleName: string, removeFault: Option<string>, assignFault: Option<string>)
      returns (r: Result<User>)
      requires Valid()
      modifies userRepo
      ensures Valid()
      ensures userRepo == null || authRepo == null ==> r == Err(NotInitialised)
      ensures (userRepo == null || authRepo == null) && userRepo != null ==> userRepo.users == old(userRepo.users)
      ensures userRepo != null ==> userRepo.roles == old(userRepo.roles)
      ensures userRepo != null && authRepo != null ==>
                var before := old(userRepo.users);
                var roles := userRepo.roles;
                (!HasId(before, userId) ==> r == Err(UserNotFound) && userRepo.users == before)
                && (HasId(before, userId) && FindRoleByName(roles, roleName).None? ==>
                      r == Err(RoleNotFound) && userRepo.users == before)
                && (HasId(before, userId) && FindRoleByName(roles, roleName).Some? ==>
                      var role := FindRoleByName(roles, roleName).value;
                      var cleared := UpdateWhere(before, userId, ClearRoles);
                      (removeFault.Some? ==> r == Err(ClearFailedPrefix + removeFault.value) && userRepo.users == before)
                      && (removeFault.None? && assignFault.Some? ==>
                            r == Err(assignFault.value) && userRepo.users == cleared)
                      && (removeFault.None? && assignFault.None? ==>
                            userRepo.users == UpdateWhere(cleared, userId, AddRole(role))
                            && r == Ok(FindById(before, userId).value.(roles := [role]))))
      ensures userRepo != null ==>
                |userRepo.users| == |old(userRepo.users)|
                && forall i :: 0 <= i < |userRepo.users| && old(userRepo.users)[i].id != userId ==>
                                 userRepo.users[i] == old(userRepo.users)[i]
    {
      if userRepo == null || authRepo == null {
        return Err(NotInitialised);
      }
      var db := userRepo;
      var found := FindById(db.users, userId);
      if found.None? {
        return Err(UserNotFound);
      }
      var user := found.value;
      var role := FindRoleByName(db.roles, roleName);
      if role.None? {
        return Err(RoleNotFound);
      }
      ghost var before := db.users;
      var e := db.RemoveAllRolesFromUser(user.id, removeFault);
      if e.Some? {
        return Err(ClearFailedPrefix + e.value);
      }
      e := db.AssignUserRole(user.id, role.value, assignFault);
      if e.Some? {
        return Err(e.value);
      }
      ReplaceRolesLeavesOne(before, userId, role.value);
      var updated := GetUserById(db.users, userId);
      assert updated.Ok?;
      r := Ok(updated.value);
    }
  }
}
