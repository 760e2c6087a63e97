/** The relational store behind both repositories (pkg/auth/repository.go,
    pkg/user/repository.go): the `users` table with each row's assigned roles, and
    the `roles` table. Every write may be refused by the database; `fault` is the
    error the database reports, if any, and a refused write changes nothing. */
module Store {
  import opened Wrappers
  import opened Entities
  import opened UserTable

  const DuplicateKey: string := "duplicate key value violates unique constraint"
  const ForeignKeyViolation: string := "violates foreign key constraint"

  class Database {
    var users: seq<User>
    var roles: seq<Role>

    /** The primary key and the unique index on email. */
    ghost predicate Valid()
      reads this
    {
      UniqueIds(users) && UniqueEmails(users)
    }

    constructor ()
      ensures Valid() && users == [] && roles == []
    {
      users, roles := [], [];
    }

    /** CreateUser: inserts the row, unless its id or email is already taken. */
    method CreateUser(u: User, fault: Option<string>) returns (err: Option<string>)
      requires Valid()
      modifies this
      ensures Valid() && roles == old(roles)
      ensures fault.Some? ==> err == fault
      ensures fault.None? ==>
                err == if HasId(old(users), u.id) || HasEmail(old(users), u.email) then Some(DuplicateKey) else None
      ensures users == if err.None? then old(users) + [u] else old(users)
    {
      if fault.Some? {
        return fault;
      }
      if HasId(users, u.id) || HasEmail(users, u.email) {
        return Some(DuplicateKey);
      }
      users := users + [u];
      err := None;
    }

    /** AssignUserRole: inserts a `user_roles` row; both ends must exist. */
    method AssignUserRole(userId: string, role: Role, fault: Option<string>) returns (err: Option<string>)
      requires Valid()
      modifies this
      ensures Valid() && roles == old(roles)
      ensures fault.Some? ==> err == fault
      ensures fault.None? ==>
                err == if HasId(old(users), userId) && role in old(roles) then None else Some(ForeignKeyViolation)
      ensures users == if err.None? then UpdateWhere(old(users), userId, AddRole(role)) else old(users)
    {
      if fault.Some? {
        return fault;
      }
      if !(HasId(users, userId) && role in roles) {
        return Some(ForeignKeyViolation);
      }
      UpdateKeepsIds(users, userId, AddRole(role));
      UpdateKeepsEmails(users, userId, AddRole(role));
      users := UpdateWhere(users, userId, AddRole(role));
      err := None;
    }

    /** Runs a single-column update `WHERE id = ?`; no matching row is not an error. */
    method Update(id: string, p: Patch, fault: Option<string>) returns (err: Option<string>)
      requires Valid() && !p.SetProfile?
      modifies this
      ensures Valid() && roles == old(roles)
      ensures err == fault
      ensures users == if fault.None? then UpdateWhere(old(users), id, p) else old(users)
    {
      if fault.Some? {
        return fault;
      }
      UpdateKeepsIds(users, id, p);
      UpdateKeepsEmails(users, id, p);
      users := UpdateWhere(users, id, p);
      err := None;
    }

    /** RemoveAllRolesFromUser: deletes every `user_roles` row of that user. */
    method RemoveAllRolesFromUser(userId: string, fault: Option<string>) returns (err: Option<string>)
      requires Valid()
      modifies this
      ensures Valid() && roles == old(roles)
      ensures err == fault
      ensures users == if fault.None? then UpdateWhere(old(users), userId, ClearRoles) else old(users)
    {
      err := Update(userId, ClearRoles, fault);
    }

    /** SaveResetToken: sets token and expiry together, overwriting earlier ones. */
    method SaveResetToken(userId: string, token: string, expires: int, fault: Option<string>)
      returns (err: Option<string>)
      requires Valid()
      modifies this
      ensures Valid() && roles == old(roles)
      ensures err == fault
      ensures users == if fault.None? then UpdateWhere(old(users), userId, SetResetToken(token, expires)) else old(users)
    {
      err := Update(userId, SetResetToken(token, expires), fault);
    }

    /** UpdatePassword: sets `password_hash` only. */
    method UpdatePassword(userId: string, hash: string, fault: Option<string>) returns (err: Option<string>)
      requires Valid()
      modifies this
      ensures Valid() && roles == old(roles)
      ensures err == fault
      ensures users == if fault.None? then UpdateWhere(old(users), userId, SetPasswordHash(hash)) else old(users)
    {
      err := Update(userId, SetPasswordHash(hash), fault);
    }

    /** ClearResetToken: sets token and expiry to NULL. */
    method ClearResetToken(userId: string, fault: Option<string>) returns (err: Option<string>)
      requires Valid()
      modifies this
      ensures Valid() && roles == old(roles)
      ensures err == fault
      ensures users == if fault.None? then UpdateWhere(old(users), userId, Patch.ClearResetToken) else old(users)
    {
      err := Update(userId, Patch.ClearResetToken, fault);
    }

    /** DeactivateUser: `is_active = false`. */
    method DeactivateUser(userId: string, fault: Option<string>) returns (err: Option<string>)
      requires Valid()
      modifies this
      ensures Valid() && roles == old(roles)
      ensures err == fault
      ensures users == if fault.None? then UpdateWhere(old(users), userId, SetActive(false)) else old(users)
    {
      err := Update(userId, SetActive(false), fault);
    }

    /** ActivateUser: `is_active = true`. */
    method ActivateUser(userId: string, fault: Option<string>) returns (err: Option<string>)
      requires Valid()
      modifies this
      ensures Valid() && roles == old(roles)
      ensures err == fault
      ensures users == if fault.None? then UpdateWhere(old(users), userId, SetActive(true)) else old(users)
    {
      err := Update(userId, SetActive(true), fault);
    }

    /** UpdateProfile: loads the row (without its roles), sets name and email and saves
        it; a missing row or an email taken by another row is an error. */
    method UpdateProfile(userId: string, name: string, email: string, fault: Option<string>)
      returns (r: Result<User>)
      requires Valid()
      modifies this
      ensures Valid() && roles == old(roles)
      ensures !HasId(old(users), userId) ==> r == Err(RecordNotFound)
      ensures HasId(old(users), userId) && fault.Some? ==> r == Err(fault.value)
      ensures HasId(old(users), userId) && fault.None? ==>
                var u := FindById(old(users), userId).value;
                if exists i :: 0 <= i < |old(users)| && old(users)[i].id != userId && old(users)[i].email == email
                then r == Err(DuplicateKey)
                else r == Ok(u.(name := name, email := email, roles := []))
      ensures users == if r.Ok? then UpdateWhere(old(users), userId, SetProfile(name, email)) else old(users)
    {
      var found := FindById(users, userId);
      if found.None? {
        return Err(RecordNotFound);
      }
      if fault.Some? {
        return Err(fault.value);
      }
      if exists i :: 0 <= i < |users| && users[i].id != userId && users[i].email == email {
        return Err(DuplicateKey);
      }
      UpdateKeepsIds(users, userId, SetProfile(name, email));
      UpdateKeepsEmails(users, userId, SetProfile(name, email));
      users := UpdateWhere(users, userId, SetProfile(name, email));
      r := Ok(found.value.(name := name, email := email, roles := []));
    }

    /** Inserts a row into `roles` (seeding). */
    method CreateRole(role: Role, fault: Option<string>) returns (err: Option<string>)
      requires Valid()
      modifies this
      ensures Valid() && users == old(users)
      ensures fault.Some? ==> err == fault
      ensures fault.None? ==>
                err == if HasRoleId(old(roles), role.id) then Some(DuplicateKey) else None
      ensures roles == if err.None? then old(roles) + [role] else old(roles)
    {
      if fault.Some? {
        return fault;
      }
      if HasRoleId(roles, role.id) {
        return Some(DuplicateKey);
      }
      roles := roles + [role];
      err := None;
    }
  }
}
